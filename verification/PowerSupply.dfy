/** The two supplies of the ADALM2000: a write to a supply is mirrored, converted, by the reading of
    the measuring device. */
module PowerSupply {
  import opened Basics
  import opened XmlStore

  // ---- the conversions ---------------------------------------------------------------------------

  /** The calibration of one supply. */
  datatype Calibration = Calibration(dacOffset: real, dacGain: real, adcOffset: real, adcGain: real)

  predicate Usable(c: Calibration) {
    c.dacGain != 0.0 && c.adcGain != 0.0
  }

  const WRITE_POS := 4095.0 / (5.02 * 1.2)
  const WRITE_NEG := 4095.0 / (-5.1 * 1.2)
  const READ_POS := 6.4 / 4095.0
  const READ_NEG := -6.4 / 4095.0

  function WriteCoefficient(channel: nat): (r: real)
    ensures if channel == 0 then r > 0.0 else r < 0.0
  {
    if channel == 0 then WRITE_POS else WRITE_NEG
  }

  function ReadCoefficient(channel: nat): (r: real)
    ensures if channel == 0 then r > 0.0 else r < 0.0
  {
    if channel == 0 then READ_POS else READ_NEG
  }

  /** A cast to int. */
  function Truncated(x: real): int {
    if x >= 0.0 then x.Floor else -(-x).Floor
  }

  function DacRawToVolts(c: Calibration, channel: nat, value: int): real
    requires Usable(c)
  {
    ((value as real / c.dacGain) - c.dacOffset) / WriteCoefficient(channel)
  }

  function AdcVoltsToRaw(c: Calibration, channel: nat, value: real): int
    requires Usable(c)
  {
    Truncated(((value / c.adcGain) - c.adcOffset) / ReadCoefficient(channel))
  }

  function RawToRaw(c: Calibration, channel: nat, value: int): int
    requires Usable(c)
  {
    AdcVoltsToRaw(c, channel, DacRawToVolts(c, channel, value))
  }

  lemma DivideKeepsOrder(x: real, y: real, g: real)
    requires x <= y && g > 0.0
    ensures x / g <= y / g
  {
    var d := (y - x) / g;
    assert d >= 0.0;
    assert y / g == x / g + d;
  }

  lemma DivideTurnsOrder(x: real, y: real, g: real)
    requires x <= y && g < 0.0
    ensures x / g >= y / g
  {
    var d := (y - x) / g;
    assert d <= 0.0;
    assert y / g == x / g + d;
  }

  lemma TruncateKeepsOrder(x: real, y: real)
    requires x <= y
    ensures Truncated(x) <= Truncated(y)
  {
  }

  /** Dividing by the gain and by the coefficient keeps the order when both have one sign, and turns
      it otherwise. */
  lemma AffineOrder(x: real, y: real, g: real, offset: real, k: real)
    requires x <= y && g != 0.0 && k != 0.0
    ensures (g > 0.0 <==> k > 0.0) ==> (x / g - offset) / k <= (y / g - offset) / k
    ensures (g > 0.0 <==> k < 0.0) ==> (x / g - offset) / k >= (y / g - offset) / k
  {
    if g > 0.0 {
      DivideKeepsOrder(x, y, g);
      if k > 0.0 {
        DivideKeepsOrder(x / g - offset, y / g - offset, k);
      } else {
        DivideTurnsOrder(x / g - offset, y / g - offset, k);
      }
    } else {
      DivideTurnsOrder(x, y, g);
      if k > 0.0 {
        DivideKeepsOrder(y / g - offset, x / g - offset, k);
      } else {
        DivideTurnsOrder(y / g - offset, x / g - offset, k);
      }
    }
  }

  /** On both supplies a higher setting gives a reading that is not lower when the gains have one
      sign (the two negative coefficients of the negative supply cancel), and not higher otherwise. */
  lemma RawToRawIsMonotone(c: Calibration, channel: nat, v: int, w: int)
    requires Usable(c) && v <= w
    ensures (c.dacGain > 0.0 <==> c.adcGain > 0.0) ==> RawToRaw(c, channel, v) <= RawToRaw(c, channel, w)
    ensures (c.dacGain > 0.0 <==> c.adcGain < 0.0) ==> RawToRaw(c, channel, v) >= RawToRaw(c, channel, w)
  {
    var a, b := DacRawToVolts(c, channel, v), DacRawToVolts(c, channel, w);
    AffineOrder(v as real, w as real, c.dacGain, c.dacOffset, WriteCoefficient(channel));
    hide Truncated, WriteCoefficient, ReadCoefficient, DacRawToVolts;
    if a <= b {
      VoltsOrder(c, channel, a, b);
    } else {
      VoltsOrder(c, channel, b, a);
    }
  }

  lemma VoltsOrder(c: Calibration, channel: nat, a: real, b: real)
    requires Usable(c) && a <= b
    ensures (c.adcGain > 0.0 <==> channel == 0) ==> AdcVoltsToRaw(c, channel, a) <= AdcVoltsToRaw(c, channel, b)
    ensures (c.adcGain > 0.0 <==> channel != 0) ==> AdcVoltsToRaw(c, channel, a) >= AdcVoltsToRaw(c, channel, b)
  {
    var k := ReadCoefficient(channel);
    AffineOrder(a, b, c.adcGain, c.adcOffset, k);
    hide ReadCoefficient;
    var x, y := (a / c.adcGain - c.adcOffset) / k, (b / c.adcGain - c.adcOffset) / k;
    if x <= y {
      TruncateKeepsOrder(x, y);
    }
    if y <= x {
      TruncateKeepsOrder(y, x);
    }
  }

  // ---- a write of a client -------------------------------------------------------------------------

  /** What a context is built with: the calibrations, `std::stoi` and `std::to_string`, and the size of
      the buffer that the power-down attribute is read into. */
  datatype Board = Board(pos: Calibration, neg: Calibration, parse: string -> int, format: int -> string,
                         bufferSize: nat)
  {
    predicate Valid() {
      Usable(pos) && Usable(neg) && bufferSize > 0
    }

    function Converted(channel: nat, text: string): string
      requires Valid()
    {
      format(RawToRaw(if channel == 0 then pos else neg, channel, parse(text)))
    }
  }

  /** The document, and the last converted value of each supply; not alive when a null pointer was
      followed or a buffer overrun, after which nothing more happens. */
  datatype Supplies = Supplies(root: Node, values: seq<string>, alive: bool)

  /** stale is what the stack buffer holds before it is read into. */
  datatype ClientWrite = ClientWrite(key: Key, text: string, stale: char)

  predicate HasPrefix(s: string, p: string) {
    |p| <= |s| && s[..|p|] == p
  }

  /** The writes that `chWriteAttr` takes for settings of a supply, and the supply it takes them for. */
  predicate IsSetting(key: Key) {
    key.OfChannel? && HasPrefix(key.dev, "iio:device3")
  }

  function SupplyOf(key: Key): (c: nat)
    requires key.OfChannel?
    ensures c < 2
  {
    if HasPrefix(key.chn, "voltage0") then 0 else 1
  }

  function MirrorKey(c: nat): Key {
    OfChannel("iio:device13", if c == 0 then "voltage2" else "voltage1", false, "raw")
  }

  function PowerdownBeside(key: Key): Key
    requires key.OfChannel?
  {
    OfChannel(key.dev, key.chn, key.output, "powerdown")
  }

  /** Reading this into a buffer of that size follows a null pointer or overruns the buffer. */
  predicate Fatal(reading: Reading, size: nat) {
    reading.Crash? || (reading.Value? && |reading.text| >= size)
  }

  /** Whether the text in the buffer starts with 1; a failed read leaves the buffer as it was. */
  predicate IsDown(reading: Reading, stale: char) {
    match reading
    case Value(text) => text != "" && text[0] == '1'
    case _ => stale == '1'
  }

  function Settled(b: Board, values: seq<string>, w: ClientWrite): (r: seq<string>)
    requires b.Valid() && |values| == 2 && w.key.OfChannel?
    ensures |r| == 2
  {
    if HasPrefix(w.key.attr, "raw") then values[SupplyOf(w.key) := b.Converted(SupplyOf(w.key), w.text)] else values
  }

  function MirrorText(root: Node, values: seq<string>, w: ClientWrite): string
    requires |values| == 2 && w.key.OfChannel?
  {
    if IsDown(ReadAt(root, PowerdownBeside(w.key)), w.stale) then "0" else values[SupplyOf(w.key)]
  }

  /** The second half of `chWriteAttr`, after the attribute was written and the value converted. */
  function Mirrored(b: Board, root: Node, values: seq<string>, w: ClientWrite): Supplies
    requires |values| == 2 && w.key.OfChannel?
  {
    var m := MirrorKey(SupplyOf(w.key));
    if Fatal(ReadAt(root, PowerdownBeside(w.key)), b.bufferSize) then Supplies(root, values, false)
    else Supplies(WriteAt(root, m, MirrorText(root, values, w)), values, !Locate(root, m).NullDereference?)
  }

  /** The state after a write. */
  function Step(b: Board, s: Supplies, w: ClientWrite): (r: Supplies)
    requires b.Valid() && |s.values| == 2
    ensures |r.values| == 2
  {
    if !s.alive then s
    else if Locate(s.root, w.key).NullDereference? then s.(alive := false)
    else if !IsSetting(w.key) then s.(root := WriteAt(s.root, w.key, w.text))
    else Mirrored(b, WriteAt(s.root, w.key, w.text), Settled(b, s.values, w), w)
  }

  lemma NothingWritten(root: Node, key: Key, text: string)
    requires !Locate(root, key).Found?
    ensures WriteAt(root, key, text) == root
  {
  }

  class Adalm2000Context {
    const board: Board
    const doc: Document
    const currentValues: array<string>

    ghost predicate Valid()
      reads this
    {
      board.Valid() && currentValues.Length == 2
    }

    ghost function State(alive: bool): Supplies
      reads this, doc, currentValues
    {
      Supplies(doc.root, currentValues[..], alive)
    }

    constructor (b: Board, root: Node)
      requires b.Valid()
      ensures Valid() && board == b && State(true) == Supplies(root, ["", ""], true)
      ensures fresh(doc) && fresh(currentValues)
    {
      board := b;
      doc := new Document(root);
      currentValues := new string[2] ["", ""];
    }

    /** `chWriteAttr`: what it returns is what the write of the attribute itself returned. */
    method ChWriteAttr(w: ClientWrite, len: nat) returns (r: Outcome)
      requires Valid() && w.key.OfChannel?
      modifies doc, currentValues
      ensures Valid() && State(!r.Died? && !r.Overran?) == Step(board, old(State(true)), w)
      ensures match Locate(old(doc.root), w.key) {
                case NullDereference => r == Died
                case NotFound => r.Died? || r.Overran? || r == NoSuchEntry
                case Found(_) => r.Died? || r.Overran? || r == Outcome.Count(Min(|w.text|, len) + 1)
              }
    {
      hide ReadAt, WriteAt, Locate, HasPrefix;
      r := doc.WriteAttr(w.key, w.text, len);
      if r.Died? {
        NothingWritten(old(doc.root), w.key, w.text);
        return;
      }
      if HasPrefix(w.key.dev, "iio:device3") {
        var idx := if HasPrefix(w.key.chn, "voltage0") then 0 else 1;
        if HasPrefix(w.key.attr, "raw") {
          currentValues[idx] := board.Converted(idx, w.text);
        }
        assert currentValues[..] == Settled(board, old(currentValues[..]), w);
        hide Settled, Mirrored;
        var mirrored := Mirror(w, idx);
        if mirrored.Died? || mirrored.Overran? {
          r := mirrored;
        }
      }
    }

    /** The second half of `chWriteAttr`: the power-down attribute is read, the mirror written. */
    method Mirror(w: ClientWrite, idx: nat) returns (r: Outcome)
      requires Valid() && w.key.OfChannel? && idx == SupplyOf(w.key)
      modifies doc
      ensures State(!r.Died? && !r.Overran?) == Mirrored(board, old(doc.root), currentValues[..], w)
    {
      hide ReadAt, WriteAt, Locate, HasPrefix;
      var buffer := new char[board.bufferSize](_ => w.stale);
      r := doc.ReadAttr(PowerdownBeside(w.key), buffer, board.bufferSize);
      if r.Died? || r.Overran? {
        return;
      }
      if buffer[0] == '1' {
        r := doc.WriteAttr(MirrorKey(idx), "0", 1);
      } else {
        r := doc.WriteAttr(MirrorKey(idx), currentValues[idx], |currentValues[idx]|);
      }
    }
  }

  // ---- the mirror ------------------------------------------------------------------------------------

  function SupplyName(c: nat): string {
    if c == 0 then "voltage0" else "voltage1"
  }

  function PowerdownKey(c: nat): Key {
    OfChannel("iio:device3", SupplyName(c), true, "powerdown")
  }

  /** The document has the mirror and the power-down attribute of supply c, and no key aliases. */
  ghost predicate Equipped(root: Node, c: nat) {
    && NeverAlias(root)
    && Locate(root, MirrorKey(c)).Found? && Locate(root, PowerdownKey(c)).Found?
    && ReadAt(root, PowerdownKey(c)).Value?
  }

  predicate SetsSupply(w: ClientWrite, c: nat) {
    IsSetting(w.key) && SupplyOf(w.key) == c
  }

  /** What the mirror of supply c is to read: "0" when the supply is powered down, and the last
      converted value otherwise. */
  function Due(s: Supplies, c: nat): string
    requires |s.values| == 2 && c < 2
  {
    if IsDown(ReadAt(s.root, PowerdownKey(c)), ' ') then "0" else s.values[c]
  }

  ghost predicate Mirrors(s: Supplies, c: nat)
    requires |s.values| == 2 && c < 2
  {
    ReadAt(s.root, MirrorKey(c)) == Value(Due(s, c))
  }

  lemma MirrorsApart()
    ensures MirrorKey(0) != MirrorKey(1)
    ensures forall c, d :: MirrorKey(c) != PowerdownKey(d)
    ensures forall c :: !IsSetting(MirrorKey(c))
  {
    assert "voltage2"[7] != "voltage1"[7];
    assert "iio:device13"[..11][10] != "iio:device3"[10];
  }

  /** What a key reads when the write has set its attribute. */
  function Becomes(root: Node, w: ClientWrite, key: Key): Reading {
    if key == w.key && Locate(root, key).Found? then Value(w.text) else ReadAt(root, key)
  }

  lemma BecomesRead(root: Node, w: ClientWrite, key: Key)
    requires NeverAlias(root)
    ensures ReadAt(WriteAt(root, w.key, w.text), key) == Becomes(root, w, key)
  {
    hide ReadAt, WriteAt, Locate, NeverAlias;
    ReadAfterWrite(root, w.key, w.text, key);
  }

  lemma WriteNeverAliases(root: Node, key: Key, v: string)
    requires NeverAlias(root)
    ensures NeverAlias(WriteAt(root, key, v))
  {
    var ws := [Write(key, v)];
    assert ws[..0] == [];
    WritesNeverAlias(root, ws);
  }

  lemma SameChannel(root: Node, a: Key, b: Key)
    requires a.OfChannel? && b.OfChannel? && a.dev == b.dev && a.chn == b.chn && a.output == b.output
    ensures Locate(root, a).NullDereference? <==> Locate(root, b).NullDereference?
  {
  }

  /** A client write changes the reading of its own key and of the mirror of the supply it sets, and
      of no other key; and it changes no search. */
  lemma StepTouchesTwo(b: Board, s: Supplies, w: ClientWrite, key: Key)
    requires b.Valid() && |s.values| == 2 && NeverAlias(s.root)
    ensures key != w.key && !(IsSetting(w.key) && key == MirrorKey(SupplyOf(w.key))) ==>
              ReadAt(Step(b, s, w).root, key) == ReadAt(s.root, key)
    ensures Locate(Step(b, s, w).root, key) == Locate(s.root, key)
  {
    hide ReadAt, Locate, WriteAt, NeverAlias, HasPrefix, IsDown, MirrorText, Settled;
    ReadAfterWrite(s.root, w.key, w.text, key);
    WriteKeepsSearches(s.root, w.key, w.text, key);
    if IsSetting(w.key) {
      WriteNeverAliases(s.root, w.key, w.text);
      var root, m := WriteAt(s.root, w.key, w.text), MirrorKey(SupplyOf(w.key));
      var text := MirrorText(root, Settled(b, s.values, w), w);
      ReadAfterWrite(root, m, text, key);
      WriteKeepsSearches(root, m, text, key);
    }
  }

  lemma StepNeverAliases(b: Board, s: Supplies, w: ClientWrite)
    requires b.Valid() && |s.values| == 2 && NeverAlias(s.root)
    ensures NeverAlias(Step(b, s, w).root)
  {
    hide ReadAt, Locate, WriteAt, HasPrefix, IsDown, NeverAlias, MirrorText, Settled;
    WriteNeverAliases(s.root, w.key, w.text);
    if IsSetting(w.key) {
      var root := WriteAt(s.root, w.key, w.text);
      WriteNeverAliases(root, MirrorKey(SupplyOf(w.key)), MirrorText(root, Settled(b, s.values, w), w));
    }
  }

  lemma StepReadsPowerdown(b: Board, s: Supplies, w: ClientWrite, c: nat)
    requires b.Valid() && |s.values| == 2 && Equipped(s.root, c) && Step(b, s, w).alive
    ensures ReadAt(Step(b, s, w).root, PowerdownKey(c)) == Becomes(s.root, w, PowerdownKey(c))
  {
    MirrorsApart();
    hide ReadAt, Locate, WriteAt, HasPrefix, IsDown, NeverAlias, MirrorKey, PowerdownKey, Becomes, MirrorText, Settled;
    BecomesRead(s.root, w, PowerdownKey(c));
    if IsSetting(w.key) {
      WriteNeverAliases(s.root, w.key, w.text);
      var root := WriteAt(s.root, w.key, w.text);
      var text := MirrorText(root, Settled(b, s.values, w), w);
      ReadAfterWrite(root, MirrorKey(SupplyOf(w.key)), text, PowerdownKey(c));
    }
  }

  lemma StepKeepsEquipment(b: Board, s: Supplies, w: ClientWrite, c: nat)
    requires b.Valid() && |s.values| == 2 && Equipped(s.root, c) && Step(b, s, w).alive
    ensures Equipped(Step(b, s, w).root, c)
  {
    hide Step, NeverAlias, Locate, ReadAt;
    StepNeverAliases(b, s, w);
    StepTouchesTwo(b, s, w, MirrorKey(c));
    StepTouchesTwo(b, s, w, PowerdownKey(c));
    StepReadsPowerdown(b, s, w, c);
  }

  lemma StepSettles(b: Board, s: Supplies, w: ClientWrite)
    requires b.Valid() && |s.values| == 2 && Step(b, s, w).alive
    ensures s.alive && !Locate(s.root, w.key).NullDereference?
    ensures Step(b, s, w).values == if IsSetting(w.key) then Settled(b, s.values, w) else s.values
  {
    hide ReadAt, Locate, WriteAt, HasPrefix, IsDown, MirrorText, Settled;
  }

  // ---- when the mirror is right ---------------------------------------------------------------------------

  /** A write that sets supply c, or goes to its mirror directly. */
  predicate Concerns(w: ClientWrite, c: nat) {
    w.key == MirrorKey(c) || SetsSupply(w, c)
  }

  /** What such a write has to fulfil: a direct write brings the text that is due; a setting finds,
      beside its own attribute, what the supply's power-down attribute says, or has nothing but "0"
      to bring. */
  predicate IsRight(b: Board, s: Supplies, w: ClientWrite, c: nat)
    requires b.Valid() && |s.values| == 2 && c < 2 && Concerns(w, c)
  {
    if w.key == MirrorKey(c) then w.text == Due(s, c)
    else
      || IsDown(Becomes(s.root, w, PowerdownBeside(w.key)), w.stale) == IsDown(Becomes(s.root, w, PowerdownKey(c)), ' ')
      || Settled(b, s.values, w)[c] == "0"
  }

  /** A setting makes its mirror right exactly then. */
  lemma SettingMirrors(b: Board, s: Supplies, w: ClientWrite, c: nat)
    requires b.Valid() && |s.values| == 2 && c < 2 && Equipped(s.root, c) && Step(b, s, w).alive
    requires SetsSupply(w, c)
    ensures Mirrors(Step(b, s, w), c) <==> IsRight(b, s, w, c)
  {
    MirrorsApart();
    StepReadsPowerdown(b, s, w, c);
    StepSettles(b, s, w);
    var root := WriteAt(s.root, w.key, w.text);
    hide ReadAt, Locate, WriteAt, HasPrefix, IsDown, NeverAlias, MirrorKey, PowerdownKey, SupplyOf, Settled, Becomes;
    BecomesRead(s.root, w, PowerdownBeside(w.key));
    WriteNeverAliases(s.root, w.key, w.text);
    WriteKeepsSearches(s.root, w.key, w.text, MirrorKey(c));
    ReadAfterWrite(root, MirrorKey(c), MirrorText(root, Settled(b, s.values, w), w), MirrorKey(c));
  }

  /** A direct write of the mirror makes it right exactly when it brings the text that is due. */
  lemma DirectWriteMirrors(b: Board, s: Supplies, w: ClientWrite, c: nat)
    requires b.Valid() && |s.values| == 2 && c < 2 && Equipped(s.root, c) && Step(b, s, w).alive
    requires w.key == MirrorKey(c)
    ensures Mirrors(Step(b, s, w), c) <==> IsRight(b, s, w, c)
  {
    MirrorsApart();
    hide ReadAt, Locate, WriteAt, HasPrefix, IsDown, NeverAlias, MirrorKey, PowerdownKey;
    ReadAfterWrite(s.root, w.key, w.text, MirrorKey(c));
    ReadAfterWrite(s.root, w.key, w.text, PowerdownKey(c));
  }

  lemma PowerdownSets(c: nat)
    requires c < 2
    ensures IsSetting(PowerdownKey(c)) && SupplyOf(PowerdownKey(c)) == c
  {
    assert "voltage1"[..8][7] != "voltage0"[7];
  }

  /** Any other write leaves the mirror, and what is due, as they were. */
  lemma OtherWritesKeepMirror(b: Board, s: Supplies, w: ClientWrite, c: nat)
    requires b.Valid() && |s.values| == 2 && c < 2 && Equipped(s.root, c) && Step(b, s, w).alive && !Concerns(w, c)
    ensures ReadAt(Step(b, s, w).root, MirrorKey(c)) == ReadAt(s.root, MirrorKey(c))
    ensures Due(Step(b, s, w), c) == Due(s, c)
    ensures Mirrors(Step(b, s, w), c) <==> Mirrors(s, c)
  {
    hide HasPrefix, ReadAt, Locate, NeverAlias, Step, MirrorKey, PowerdownKey, Becomes, IsDown, Settled, IsSetting,
        SupplyOf;
    StepSettles(b, s, w);
    PowerdownSets(c);
    StepTouchesTwo(b, s, w, MirrorKey(c));
    OtherReads(b, s, w, c);
  }

  lemma OtherReads(b: Board, s: Supplies, w: ClientWrite, c: nat)
    requires b.Valid() && |s.values| == 2 && c < 2 && Equipped(s.root, c) && Step(b, s, w).alive && !Concerns(w, c)
    ensures ReadAt(Step(b, s, w).root, PowerdownKey(c)) == ReadAt(s.root, PowerdownKey(c))
    ensures !(IsSetting(w.key) && MirrorKey(c) == MirrorKey(SupplyOf(w.key)))
    ensures IsSetting(w.key) ==> Settled(b, s.values, w)[c] == s.values[c]
  {
    hide HasPrefix, ReadAt, Locate, NeverAlias, Step, PowerdownKey, IsDown, MirrorKey, IsSetting, SupplyOf, Equipped;
    PowerdownSets(c);
    MirrorsApart();
    StepReadsPowerdown(b, s, w, c);
  }

  // ---- runs of client writes -----------------------------------------------------------------------------

  function Run(b: Board, s: Supplies, ws: seq<ClientWrite>): (r: Supplies)
    requires b.Valid() && |s.values| == 2
    ensures |r.values| == 2
  {
    if ws == [] then s else Step(b, Run(b, s, ws[..|ws| - 1]), ws[|ws| - 1])
  }

  /** The conversion of the last raw setting of supply c, and first when there was none. */
  function LastConverted(b: Board, ws: seq<ClientWrite>, c: nat, first: string): string
    requires b.Valid()
  {
    if ws == [] then first
    else
      var w := ws[|ws| - 1];
      if SetsSupply(w, c) && HasPrefix(w.key.attr, "raw") then b.Converted(c, w.text)
      else LastConverted(b, ws[..|ws| - 1], c, first)
  }

  /** The last write that concerns the mirror of supply c was right, or there was none and the mirror
      was right before. */
  ghost predicate LastIsRight(b: Board, s: Supplies, ws: seq<ClientWrite>, c: nat)
    requires b.Valid() && |s.values| == 2 && c < 2
  {
    if ws == [] then Mirrors(s, c)
    else
      var before, w := ws[..|ws| - 1], ws[|ws| - 1];
      if Concerns(w, c) then IsRight(b, Run(b, s, before), w, c) else LastIsRight(b, s, before, c)
  }

  lemma MirrorStep(b: Board, s: Supplies, w: ClientWrite, c: nat)
    requires b.Valid() && |s.values| == 2 && c < 2 && Equipped(s.root, c) && Step(b, s, w).alive
    ensures s.alive && Equipped(Step(b, s, w).root, c)
    ensures Mirrors(Step(b, s, w), c) <==> if Concerns(w, c) then IsRight(b, s, w, c) else Mirrors(s, c)
    ensures Step(b, s, w).values[c]
         == if SetsSupply(w, c) && HasPrefix(w.key.attr, "raw") then b.Converted(c, w.text) else s.values[c]
  {
    StepKeepsEquipment(b, s, w, c);
    StepSettles(b, s, w);
    hide Equipped, Mirrors, HasPrefix, Step, IsRight, MirrorKey;
    if SetsSupply(w, c) {
      SettingMirrors(b, s, w, c);
    } else if Concerns(w, c) {
      DirectWriteMirrors(b, s, w, c);
    } else {
      OtherWritesKeepMirror(b, s, w, c);
    }
  }

  /** Over any run of client writes that the program survives, the mirror of supply c is right if and
      only if the last write that concerns it was right; and the stored value is the last converted
      setting. */
  lemma {:induction false} MirrorFollows(b: Board, s: Supplies, ws: seq<ClientWrite>, c: nat)
    requires b.Valid() && |s.values| == 2 && c < 2 && Equipped(s.root, c) && Run(b, s, ws).alive
    ensures Equipped(Run(b, s, ws).root, c)
    ensures Run(b, s, ws).values[c] == LastConverted(b, ws, c, s.values[c])
    ensures Mirrors(Run(b, s, ws), c) <==> LastIsRight(b, s, ws, c)
  {
    hide Equipped, Mirrors, SetsSupply, HasPrefix, Concerns, IsRight;
    if ws != [] {
      var n := |ws| - 1;
      var before, w := Run(b, s, ws[..n]), ws[n];
      StepAlive(b, before, w);
      hide Step;
      MirrorFollows(b, s, ws[..n], c);
      MirrorStep(b, before, w, c);
    }
  }

  lemma StepAlive(b: Board, s: Supplies, w: ClientWrite)
    requires b.Valid() && |s.values| == 2 && Step(b, s, w).alive
    ensures s.alive
  {
  }

  // ---- well-addressed writes are right ----------------------------------------------------------------------

  /** A write that is taken for a setting of supply c goes to the supply's own channel, and none goes to
      its mirror. */
  predicate WellAddressed(w: ClientWrite, c: nat) {
    w.key != MirrorKey(c) && (SetsSupply(w, c) ==> PowerdownBeside(w.key) == PowerdownKey(c))
  }

  predicate EverSets(ws: seq<ClientWrite>, c: nat) {
    ws != [] && (SetsSupply(ws[|ws| - 1], c) || EverSets(ws[..|ws| - 1], c))
  }

  lemma IsDownOfValue(reading: Reading, x: char, y: char)
    requires reading.Value?
    ensures IsDown(reading, x) == IsDown(reading, y)
  {
  }

  /** From the first such setting on, the mirror reads "0" when the supply is powered down and the last
      converted setting otherwise, whatever else is written anywhere else. */
  lemma {:induction false} WellAddressedFollows(b: Board, s: Supplies, ws: seq<ClientWrite>, c: nat)
    requires b.Valid() && |s.values| == 2 && c < 2 && Equipped(s.root, c) && Run(b, s, ws).alive
    requires forall i :: 0 <= i < |ws| ==> WellAddressed(ws[i], c)
    ensures EverSets(ws, c) || Mirrors(s, c) ==> Mirrors(Run(b, s, ws), c)
  {
    hide Equipped, Mirrors, SetsSupply, HasPrefix, WellAddressed, Concerns, IsRight;
    if ws != [] {
      var n := |ws| - 1;
      var before, w := Run(b, s, ws[..n]), ws[n];
      StepAlive(b, before, w);
      hide Step;
      WellAddressedFollows(b, s, ws[..n], c);
      MirrorFollows(b, s, ws[..n], c);
      MirrorStep(b, before, w, c);
      WellAddressedIsRight(b, before, w, c);
    }
  }

  lemma WellAddressedIsRight(b: Board, s: Supplies, w: ClientWrite, c: nat)
    requires b.Valid() && |s.values| == 2 && c < 2 && Equipped(s.root, c) && WellAddressed(w, c)
    ensures Concerns(w, c) <==> SetsSupply(w, c)
    ensures SetsSupply(w, c) ==> IsRight(b, s, w, c)
  {
    hide ReadAt, Locate, HasPrefix, IsDown, NeverAlias, MirrorKey, PowerdownKey, SupplyOf, Settled;
    IsDownOfValue(Becomes(s.root, w, PowerdownKey(c)), w.stale, ' ');
  }

  // ---- when the buffer decides --------------------------------------------------------------------------------

  /** What happens to be in the buffer matters if and only if the write is taken for a setting, there
      is no power-down attribute beside it, the mirror is there, and its text would not be "0" anyway. */
  lemma BufferDecides(b: Board, s: Supplies, w: ClientWrite)
    requires b.Valid() && |s.values| == 2 && s.alive && NeverAlias(s.root)
    ensures (exists x :: Step(b, s, ClientWrite(w.key, w.text, x)) != Step(b, s, w)) <==>
              && IsSetting(w.key) && Locate(s.root, PowerdownBeside(w.key)).NotFound?
              && Locate(s.root, MirrorKey(SupplyOf(w.key))).Found?
              && Settled(b, s.values, w)[SupplyOf(w.key)] != "0"
  {
    if IsSetting(w.key) {
      var root := WriteAt(s.root, w.key, w.text);
      SameChannel(s.root, w.key, PowerdownBeside(w.key));
      WriteKeepsSearches(s.root, w.key, w.text, PowerdownBeside(w.key));
      WriteKeepsSearches(s.root, w.key, w.text, MirrorKey(SupplyOf(w.key)));
      WriteNeverAliases(s.root, w.key, w.text);
      NoEntryExactly(root, PowerdownBeside(w.key));
      hide ReadAt, Locate, WriteAt, HasPrefix, NeverAlias, MirrorKey, SupplyOf, Settled;
      MirroredByBuffer(b, root, Settled(b, s.values, w), w);
      if exists x :: Step(b, s, ClientWrite(w.key, w.text, x)) != Step(b, s, w) {
        var x :| Step(b, s, ClientWrite(w.key, w.text, x)) != Step(b, s, w);
        assert Mirrored(b, root, Settled(b, s.values, w), ClientWrite(w.key, w.text, x))
            != Mirrored(b, root, Settled(b, s.values, w), w);
      }
    }
  }

  lemma NoEntryExactly(root: Node, key: Key)
    ensures ReadAt(root, key).NoEntry? <==> Locate(root, key).NotFound?
  {
  }

  lemma MirroredByBuffer(b: Board, root: Node, values: seq<string>, w: ClientWrite)
    requires |values| == 2 && w.key.OfChannel? && NeverAlias(root)
    ensures (exists x :: Mirrored(b, root, values, ClientWrite(w.key, w.text, x)) != Mirrored(b, root, values, w)) <==>
              && ReadAt(root, PowerdownBeside(w.key)).NoEntry? && Locate(root, MirrorKey(SupplyOf(w.key))).Found?
              && values[SupplyOf(w.key)] != "0"
  {
    var c, m := SupplyOf(w.key), MirrorKey(SupplyOf(w.key));
    var p := ReadAt(root, PowerdownBeside(w.key));
    var other := ClientWrite(w.key, w.text, if w.stale == '1' then '0' else '1');
    hide ReadAt, Locate, WriteAt, HasPrefix, NeverAlias, MirrorKey, SupplyOf;
    if p.NoEntry? && Locate(root, m).Found? && values[c] != "0" {
      ReadAfterWrite(root, m, MirrorText(root, values, w), m);
      ReadAfterWrite(root, m, MirrorText(root, values, other), m);
      assert Mirrored(b, root, values, ClientWrite(w.key, w.text, other.stale)) != Mirrored(b, root, values, w);
    } else {
      forall x
        ensures Mirrored(b, root, values, ClientWrite(w.key, w.text, x)) == Mirrored(b, root, values, w)
      {
        if !Locate(root, m).Found? {
          NothingWritten(root, m, MirrorText(root, values, w));
          NothingWritten(root, m, MirrorText(root, values, ClientWrite(w.key, w.text, x)));
        }
      }
    }
  }

  /** The program survives a write exactly when no search runs past its end and the power-down text
      beside a setting has a value that fits the buffer. */
  lemma SurvivesExactly(b: Board, s: Supplies, w: ClientWrite)
    requires b.Valid() && |s.values| == 2 && NeverAlias(s.root)
    ensures Step(b, s, w).alive <==>
              && s.alive && !Locate(s.root, w.key).NullDereference?
              && (IsSetting(w.key) ==>
                    && !Fatal(Becomes(s.root, w, PowerdownBeside(w.key)), b.bufferSize)
                    && !Locate(s.root, MirrorKey(SupplyOf(w.key))).NullDereference?)
  {
    hide ReadAt, WriteAt, Locate, NeverAlias, HasPrefix, Fatal, MirrorKey, Settled, Becomes;
    if IsSetting(w.key) {
      BecomesRead(s.root, w, PowerdownBeside(w.key));
      WriteKeepsSearches(s.root, w.key, w.text, MirrorKey(SupplyOf(w.key)));
    }
  }

  // ---- a write that is answered with -ENOENT and disturbs a supply --------------------------------------------

  function OneChannel(dev: string, chn: string, output: bool, attr: string, value: string): Node {
    Node("device", [Prop("id", dev)],
         [Node("channel", [Prop("id", chn), Prop("type", TypeOf(output))],
               [Node("attribute", [Prop("name", attr), Prop("value", value)], [])]),
          Node("text", [], [])])
  }

  /** Supply 1 with its power-down attribute, and its mirror. */
  function SmallRoot(): Node {
    Node("context", [], [OneChannel("iio:device3", "voltage1", true, "powerdown", "0"),
                         OneChannel("iio:device13", "voltage1", false, "raw", "7")])
  }

  lemma OneChannelPasses(d: Node, dev: string, chn: string, output: bool, attr: string, value: string)
    requires d == OneChannel(dev, chn, output, attr, value)
    ensures DeviceWellFormed(d)
    ensures forall other: string :: Passes(d, DeviceTest(other)) <==> other == dev
    ensures forall other: string :: Passes(d.children[0], ChannelTest(other, output)) <==> other == chn
    ensures Passes(d.children[0].children[0], AttrTest("attribute", attr))
  {
    var c := d.children[0];
    assert Prop("id", dev) in d.props && c.props[0] == Prop("id", chn) && c.props[1] == Prop("type", TypeOf(output));
    assert c.children[0].props[0] == Prop("name", attr);
    forall other: string | other != chn
      ensures !Passes(c, ChannelTest(other, output))
    {
      assert !Agrees(c.props, ChannelTest(other, output).names[0], ChannelTest(other, output).values[0]);
    }
  }

  lemma OneChannelHas(d: Node, i: nat, dev: string, chn: string, output: bool, attr: string, value: string)
    requires d == OneChannel(dev, chn, output, attr, value)
    ensures LocateInChannel(d, i, chn, output, attr) == Found(InChannel(i, 0, 0))
    ensures forall other: string, a: string :: other != chn ==> LocateInChannel(d, i, other, output, a) == NotFound
  {
    OneChannelPasses(d, dev, chn, output, attr, value);
    forall other: string
      ensures !Passes(d.children[1], ChannelTest(other, output))
    {
    }
    hide Passes;
  }

  lemma FirstOfTwo(x: Node, y: Node, t: Test)
    ensures First([x, y], t) == if Passes(x, t) then Some(0) else if Passes(y, t) then Some(1) else None
  {
    hide Passes;
  }

  lemma SmallRootSearches(root: Node, x: Node, y: Node)
    requires root == Node("context", [], [x, y])
    requires x == OneChannel("iio:device3", "voltage1", true, "powerdown", "0")
    requires y == OneChannel("iio:device13", "voltage1", false, "raw", "7")
    ensures NeverAlias(root)
    ensures Locate(root, PowerdownKey(1)) == Found(InChannel(0, 0, 0))
    ensures Locate(root, MirrorKey(1)) == Found(InChannel(1, 0, 0))
    ensures forall a: string :: Locate(root, OfChannel("iio:device3", "voltage5", true, a)) == NotFound
  {
    hide First, Passes, LocateInChannel, NeverAlias, DeviceWellFormed, OneChannel;
    assert "iio:device13"[10] != "iio:device3"[10] && "voltage5"[7] != "voltage1"[7];
    OneChannelPasses(x, "iio:device3", "voltage1", true, "powerdown", "0");
    OneChannelPasses(y, "iio:device13", "voltage1", false, "raw", "7");
    OneChannelHas(x, 0, "iio:device3", "voltage1", true, "powerdown", "0");
    OneChannelHas(y, 1, "iio:device13", "voltage1", false, "raw", "7");
    FirstOfTwo(x, y, DeviceTest("iio:device3"));
    FirstOfTwo(x, y, DeviceTest("iio:device13"));
    WellFormedNeverAlias(root);
  }

  lemma TwoProps(name: string, value: string)
    ensures Get([Prop("name", name), Prop("value", value)], "value") == Some(value)
  {
    assert "name"[0] != "value"[0];
    assert [Prop("name", name), Prop("value", value)][1..] == [Prop("value", value)];
  }

  lemma SmallRootReads(root: Node)
    requires root == SmallRoot()
    ensures InTree(root, InChannel(0, 0, 0)) && Get(NodeAt(root, InChannel(0, 0, 0)).props, "value") == Some("0")
    ensures InTree(root, InChannel(1, 0, 0)) && Get(NodeAt(root, InChannel(1, 0, 0)).props, "value") == Some("7")
  {
    TwoProps("powerdown", "0");
    TwoProps("raw", "7");
    hide Get;
  }

  lemma SmallRootHas(root: Node)
    requires root == SmallRoot()
    ensures NeverAlias(root)
    ensures Locate(root, PowerdownKey(1)).Found? && ReadAt(root, PowerdownKey(1)) == Value("0")
    ensures Locate(root, MirrorKey(1)).Found? && ReadAt(root, MirrorKey(1)) == Value("7")
    ensures forall a: string :: Locate(root, OfChannel("iio:device3", "voltage5", true, a)) == NotFound
  {
    SmallRootSearches(root, root.children[0], root.children[1]);
    SmallRootReads(root);
    hide SmallRoot, Locate, NeverAlias, Get, NodeAt, InTree;
  }

  /** A raw value is written to channel voltage5 of the supplies. There is no such channel, and the
      write is answered so; yet the stored value of supply 1 is replaced, and its mirror, which was
      right, is rewritten from a buffer that nothing was read into, and wrong. */
  lemma AbsentChannelDisturbsSupply(b: Board, text: string)
    requires b.Valid() && b.bufferSize > 1 && b.Converted(1, text) != "0"
    ensures var s := Supplies(SmallRoot(), ["", "7"], true);
            var w := ClientWrite(OfChannel("iio:device3", "voltage5", true, "raw"), text, '1');
            && Locate(s.root, w.key) == NotFound && Step(b, s, w).alive
            && Step(b, s, w).values[1] == b.Converted(1, text)
            && Mirrors(s, 1) && !Mirrors(Step(b, s, w), 1)
  {
    var s := Supplies(SmallRoot(), ["", "7"], true);
    var w := ClientWrite(OfChannel("iio:device3", "voltage5", true, "raw"), text, '1');
    hide SmallRoot, Locate, ReadAt, NeverAlias, RawToRaw, MirrorKey, PowerdownKey, Step;
    SmallRootHas(s.root);
    VoltageFiveSets(w);
    hide HasPrefix, IsSetting, SupplyOf;
    NoEntryExactly(s.root, PowerdownBeside(w.key));
    assert Becomes(s.root, w, PowerdownBeside(w.key)) == NoEntry;
    SurvivesExactly(b, s, w);
    MirrorStep(b, s, w, 1);
  }

  lemma VoltageFiveSets(w: ClientWrite)
    requires w.key == OfChannel("iio:device3", "voltage5", true, "raw")
    ensures SetsSupply(w, 1) && HasPrefix(w.key.attr, "raw") && w.key != MirrorKey(1) && w.key != PowerdownKey(1)
  {
    assert "voltage5"[..8][7] != "voltage0"[7];
    assert "voltage5"[7] != "voltage1"[7];
  }
}
