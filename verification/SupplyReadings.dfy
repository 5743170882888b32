/** What a client that sets a supply reads back: the addresses and the arithmetic, spelled out. */
module SupplyReadings {
  import opened Basics
  import opened XmlStore
  import opened PowerSupply

  lemma DivisionUndone(x: real, g: real, offset: real)
    requires g != 0.0
    ensures (x / g - offset + offset) * g == x
  {
  }

  lemma ScaleUndone(u: real, p: real, q: real)
    requires p != 0.0 && q != 0.0
    ensures u / (p / q) * p == u * q
  {
    var k := p / q;
    assert k * q == p;
    assert k != 0.0;
    var v := u / k;
    assert v * k == u;
    assert v * p == v * (k * q) == (v * k) * q;
  }

  /** n is the reading of the setting `value`: the value in steps of the converter that sets (u), in volts, and in
      steps of the converter that measures (x and t), with gains multiplied and offsets added where the
      program divides and subtracts; n is t without its fraction. */
  predicate IsReading(c: Calibration, channel: nat, value: int, u: real, volts: real, x: real, t: real, n: int) {
    && (u + c.dacOffset) * c.dacGain == value as real
    && volts * 4095.0 == u * (if channel == 0 then 5.02 * 1.2 else -5.1 * 1.2)
    && (x + c.adcOffset) * c.adcGain == volts
    && t * (if channel == 0 then 6.4 else -6.4) == x * 4095.0
    && if t >= 0.0 then n as real <= t < n as real + 1.0 else n as real - 1.0 < t <= n as real
  }

  lemma ReadingOfRaw(c: Calibration, channel: nat, value: int)
    returns (u: real, volts: real, x: real, t: real, n: int)
    requires Usable(c)
    ensures IsReading(c, channel, value, u, volts, x, t, n) && n == RawToRaw(c, channel, value)
  {
    u := value as real / c.dacGain - c.dacOffset;
    volts := DacRawToVolts(c, channel, value);
    x := volts / c.adcGain - c.adcOffset;
    t := x / ReadCoefficient(channel);
    n := Truncated(t);
    DivisionUndone(value as real, c.dacGain, c.dacOffset);
    DivisionUndone(volts, c.adcGain, c.adcOffset);
    if channel == 0 {
      ScaleUndone(u, 4095.0, 5.02 * 1.2);
      ScaleUndone(x, 6.4, 4095.0);
    } else {
      ScaleUndone(u, 4095.0, -5.1 * 1.2);
      ScaleUndone(x, -6.4, 4095.0);
    }
  }

  predicate Starts(s: string, beginning: string) {
    |beginning| <= |s| && s[..|beginning|] == beginning
  }

  /** A key of a device whose id starts like that of the supplies' device. */
  predicate OfSupply(key: Key, c: nat) {
    && key.OfChannel? && Starts(key.dev, "iio:device3")
    && (c == 0 <==> Starts(key.chn, "voltage0")) && c < 2
  }

  function Measured(c: nat): Key {
    if c == 0 then OfChannel("iio:device13", "voltage2", false, "raw")
    else OfChannel("iio:device13", "voltage1", false, "raw")
  }

  lemma MeansTheSame(key: Key, c: nat)
    requires OfSupply(key, c)
    ensures IsSetting(key) && SupplyOf(key) == c && MirrorKey(c) == Measured(c) && key != Measured(c)
    ensures PowerdownBeside(key) == OfChannel(key.dev, key.chn, key.output, "powerdown") != Measured(c)
  {
    assert "iio:device13"[..11][10] != "iio:device3"[10];
  }

  lemma TextBeside(root: Node, values: seq<string>, w: ClientWrite, down: string)
    requires |values| == 2 && w.key.OfChannel? && ReadAt(root, PowerdownBeside(w.key)) == Value(down)
    ensures MirrorText(root, values, w) == if Starts(down, "1") then "0" else values[SupplyOf(w.key)]
  {
    assert Starts(down, "1") <==> down != "" && down[0] == '1';
    hide ReadAt, SupplyOf, Starts;
  }

  /** The step for such a write, when the text beside it can be read. */
  lemma SupplyStep(b: Board, s: Supplies, w: ClientWrite, c: nat, down: string)
    requires b.Valid() && |s.values| == 2 && s.alive && OfSupply(w.key, c)
    requires Locate(s.root, w.key).Found? && Locate(s.root, Measured(c)).Found? && |down| < b.bufferSize
    requires ReadAt(WriteAt(s.root, w.key, w.text), OfChannel(w.key.dev, w.key.chn, w.key.output, "powerdown"))
          == Value(down)
    ensures var values := Settled(b, s.values, w);
            var text := if Starts(down, "1") then "0" else values[c];
            Step(b, s, w) == Supplies(WriteAt(WriteAt(s.root, w.key, w.text), Measured(c), text), values, true)
  {
    MeansTheSame(w.key, c);
    hide ReadAt, WriteAt, Locate, HasPrefix, OfSupply, Measured, Settled, Starts, IsSetting, SupplyOf, MirrorKey,
        PowerdownBeside, MirrorText, IsDown;
    TextBeside(WriteAt(s.root, w.key, w.text), Settled(b, s.values, w), w, down);
    WriteKeepsSearches(s.root, w.key, w.text, Measured(c));
  }

  /** What is read after it. */
  lemma SupplyReads(b: Board, s: Supplies, w: ClientWrite, c: nat, down: string)
    requires b.Valid() && |s.values| == 2 && s.alive && NeverAlias(s.root) && OfSupply(w.key, c)
    requires Locate(s.root, w.key).Found? && Locate(s.root, Measured(c)).Found? && |down| < b.bufferSize
    requires ReadAt(WriteAt(s.root, w.key, w.text), OfChannel(w.key.dev, w.key.chn, w.key.output, "powerdown"))
          == Value(down)
    ensures var r, values := Step(b, s, w), Settled(b, s.values, w);
            && r.alive && r.values == values
            && ReadAt(r.root, Measured(c)) == Value(if Starts(down, "1") then "0" else values[c])
            && ReadAt(r.root, w.key) == Value(w.text)
  {
    MeansTheSame(w.key, c);
    hide *;
    SupplyStep(b, s, w, c, down);
    var root, values := WriteAt(s.root, w.key, w.text), Settled(b, s.values, w);
    var text := if Starts(down, "1") then "0" else values[c];
    ReadAfterWrite(s.root, w.key, w.text, w.key);
    WriteKeepsSearches(s.root, w.key, w.text, Measured(c));
    WriteNeverAliases(s.root, w.key, w.text);
    ReadAfterWrite(root, Measured(c), text, Measured(c));
    ReadAfterWrite(root, Measured(c), text, w.key);
  }

  /** A raw value for a supply is read back as it is, and the measuring device shows the reading that belongs to
      it; "0" while the supply is powered down. */
  lemma SettingIsMeasured(b: Board, s: Supplies, w: ClientWrite, c: nat, down: string)
    returns (u: real, volts: real, x: real, t: real, n: int)
    requires b.Valid() && |s.values| == 2 && s.alive && NeverAlias(s.root) && OfSupply(w.key, c)
    requires Starts(w.key.attr, "raw") && Locate(s.root, w.key).Found? && Locate(s.root, Measured(c)).Found?
    requires ReadAt(s.root, OfChannel(w.key.dev, w.key.chn, w.key.output, "powerdown")) == Value(down)
    requires |down| < b.bufferSize
    ensures var r := Step(b, s, w);
            && r.alive && ReadAt(r.root, w.key) == Value(w.text)
            && ReadAt(r.root, Measured(c)) == Value(if Starts(down, "1") then "0" else b.format(n))
    ensures IsReading(if c == 0 then b.pos else b.neg, c, b.parse(w.text), u, volts, x, t, n)
  {
    u, volts, x, t, n := ReadingOfRaw(if c == 0 then b.pos else b.neg, c, b.parse(w.text));
    hide IsReading, RawToRaw;
    MeansTheSame(w.key, c);
    RawSettles(b, s, w, c);
    hide ReadAt, WriteAt, Locate, NeverAlias, HasPrefix, OfSupply, Measured, Settled, Starts, Step;
    ReadAfterWrite(s.root, w.key, w.text, PowerdownBeside(w.key));
    SupplyReads(b, s, w, c, down);
  }

  lemma RawSettles(b: Board, s: Supplies, w: ClientWrite, c: nat)
    requires b.Valid() && |s.values| == 2 && OfSupply(w.key, c) && Starts(w.key.attr, "raw")
    ensures Settled(b, s.values, w)[c] == b.format(RawToRaw(if c == 0 then b.pos else b.neg, c, b.parse(w.text)))
    ensures w.key != PowerdownBeside(w.key)
  {
    hide RawToRaw;
    assert "powerdown"[..3][0] != "raw"[0];
  }

  /** A text for the power-down attribute of a supply that starts with 1 makes the measuring device show "0", and
      any other one makes it show the last reading again. */
  lemma PowerdownIsMeasured(b: Board, s: Supplies, w: ClientWrite, c: nat)
    requires b.Valid() && |s.values| == 2 && s.alive && NeverAlias(s.root) && OfSupply(w.key, c)
    requires w.key.attr == "powerdown" && Locate(s.root, w.key).Found? && Locate(s.root, Measured(c)).Found?
    requires |w.text| < b.bufferSize
    ensures var r := Step(b, s, w);
            && r.alive && ReadAt(r.root, w.key) == Value(w.text)
            && ReadAt(r.root, Measured(c)) == Value(if Starts(w.text, "1") then "0" else s.values[c])
  {
    MeansTheSame(w.key, c);
    assert "powerdown"[..3][0] != "raw"[0];
    assert Settled(b, s.values, w) == s.values;
    hide ReadAt, WriteAt, Locate, NeverAlias, HasPrefix, OfSupply, Measured, Settled, Starts, Step;
    ReadAfterWrite(s.root, w.key, w.text, w.key);
    SupplyReads(b, s, w, c, w.text);
  }

  /** A write to any other device does nothing but set its attribute. */
  lemma OtherDevicesAreWritten(b: Board, s: Supplies, w: ClientWrite)
    requires b.Valid() && |s.values| == 2 && s.alive && w.key.OfChannel? && !Starts(w.key.dev, "iio:device3")
    ensures Step(b, s, w) == if Locate(s.root, w.key).NullDereference? then s.(alive := false)
                             else s.(root := WriteAt(s.root, w.key, w.text))
  {
    hide ReadAt, WriteAt, Locate;
  }
}
