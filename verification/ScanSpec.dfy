/** What one call of `getopt_internal` reports, read off the argument vector as the caller
    passed it: no element is ever moved here. */
module ScanSpec {
  import opened Basics
  import opened LongOptions

  /** The parameters of a call; `posixlyCorrect` stands for the environment variable. */
  datatype Config = Config(options: string, table: Option<seq<LongOption>>,
                           permute: bool, longOnly: bool, posixlyCorrect: bool)
  {
    /** A leading '-' asks for non-options to be reported in place. */
    predicate AllArgs() {
      options != "" && options[0] == '-'
    }

    predicate Permuting() {
      permute && (AllArgs() || !(posixlyCorrect || (options != "" && options[0] == '+')))
    }

    /** The option letters, without the leading flag character. */
    function Letters(): string {
      if options != "" && (options[0] == '+' || options[0] == '-') then options[1..] else options
    }

    function BadArg(): int {
      if Letters() != "" && Letters()[0] == ':' then ':' as int else BAD_CHAR
    }

    /** -1 as a long option's value would read as the end of the options. */
    predicate Valid() {
      table.Some? ==> forall o :: o in table.value ==> o.val != -1
    }
  }

  const BAD_CHAR := '?' as int
  const IN_ORDER := 1
  const NO_MORE := -1

  /** What a call leaves behind for its caller; optopt, idx and the flag only when written. */
  datatype Report = Report(ret: int, optarg: Option<string>, optopt: Option<int>,
                           idx: Option<nat>, flag: Option<(nat, int)>)

  function Plainly(ret: int, optarg: Option<string>): Report {
    Report(ret, optarg, None, None, None)
  }

  function Complaint(ret: int, optopt: int): Report {
    Report(ret, None, Some(optopt), None, None)
  }

  /** The first occurrence of c, as strchr finds it. */
  function StrChr(s: string, c: char): (r: Option<nat>)
    ensures r.Some? ==> r.value < |s| && s[r.value] == c
    ensures r.None? ==> c !in s
  {
    if s == "" then None
    else if s[0] == c then Some(0)
    else match StrChr(s[1..], c)
      case None => None
      case Some(k) => Some(k + 1)
  }

  /** A report with the element index and the offset in it where scanning goes on; offset 0
      stands for the start of an element. */
  datatype Step = Step(report: Report, i: nat, pos: nat)

  // ---- long options ----------------------------------------------------------------------

  function KeyOf(text: string): string {
    match StrChr(text, '=') case None => text case Some(k) => text[..k]
  }

  function ArgumentIn(text: string): Option<string> {
    match StrChr(text, '=') case None => None case Some(k) => Some(text[k + 1..])
  }

  function OptOptOf(o: LongOption): int {
    if o.flag.None? then o.val else 0
  }

  /** Row k of the table, o, was named in element i with the argument given after '=', if any. */
  function RowStep(cfg: Config, i: nat, k: nat, o: LongOption, given: Option<string>, following: seq<string>): (s: Step)
    ensures s.pos == 0 && i < s.i <= i + 1 + |following|
    ensures o.val != NO_MORE ==> s.report.ret != NO_MORE
  {
    var separate := o.hasArg == REQUIRED_ARGUMENT && given.None?;
    if (o.hasArg == NO_ARGUMENT && given.Some?) || (separate && following == []) then
      Step(Complaint(cfg.BadArg(), OptOptOf(o)), i + 1, 0)
    else
      var optarg :=
        if separate then Some(following[0])
        else if o.hasArg == REQUIRED_ARGUMENT || o.hasArg == OPTIONAL_ARGUMENT then given
        else None;
      Step(Report(if o.flag.Some? then 0 else o.val, optarg, None, Some(k),
                  if o.flag.Some? then Some((o.flag.value, o.val)) else None),
           if separate then i + 2 else i + 1, 0)
  }

  /** The long option `text` standing in element i, with the elements that follow it. */
  function LongStep(cfg: Config, i: nat, text: string, following: seq<string>, shortToo: bool): (s: Step)
    requires cfg.table.Some?
    ensures s.pos == 0 && i <= s.i <= i + 1 + |following|
    ensures s.report.ret == NO_MORE && cfg.Valid() ==> shortToo && s.i == i
    ensures !shortToo || s.report.ret != NO_MORE ==> i < s.i
  {
    match Select(cfg.table.value, KeyOf(text), shortToo)
    case Ambiguous => Step(Complaint(BAD_CHAR, 0), i + 1, 0)
    case NoMatch =>
      if shortToo then Step(Plainly(NO_MORE, None), i, 0) else Step(Complaint(BAD_CHAR, 0), i + 1, 0)
    case Match(k) =>
      assert cfg.table.value[k] in cfg.table.value;
      RowStep(cfg, i, k, cfg.table.value[k], ArgumentIn(text), following)
  }

  // ---- option letters --------------------------------------------------------------------

  /** The letters that follow the first occurrence of c. */
  function After(letters: string, c: char): string
    requires c in letters
  {
    letters[StrChr(letters, c).value + 1..]
  }

  /** The option letter at offset pos of element i, whose text is a. */
  function ShortStep(cfg: Config, i: nat, a: string, pos: nat, following: seq<string>): (s: Step)
    requires pos < |a|
    ensures s.i <= i + 1 + |following|
    ensures s.report.ret == NO_MORE && cfg.Valid() ==>
              a[pos] == '-' && pos + 1 == |a| && '-' !in cfg.Letters() && s == Step(Plainly(NO_MORE, None), i, 0)
    ensures s.report.ret != NO_MORE ==> (s.pos == 0 && i < s.i) || (s.i == i && s.pos == pos + 1 < |a|)
  {
    var c, rest, letters := a[pos], a[pos + 1..], cfg.Letters();
    var nextI, nextPos := if rest == "" then i + 1 else i, if rest == "" then 0 else pos + 1;
    if c == ':' || (c == '-' && rest != "") || c !in letters then
      if c == '-' && rest == "" then
        Step(Plainly(NO_MORE, None), i, 0)
      else
        Step(Complaint(BAD_CHAR, c as int), nextI, nextPos)
    else if cfg.table.Some? && c == 'W' && [';'] <= After(letters, c) then
      AfterW(cfg, i, rest, following)
    else if [':'] <= After(letters, c) then
      Argument(cfg, i, c, "::" <= After(letters, c), rest, following)
    else
      Step(Plainly(c as int, None), nextI, nextPos)
  }

  /** "-W name" or "-Wname", when the letters contain "W;". */
  function AfterW(cfg: Config, i: nat, rest: string, following: seq<string>): (s: Step)
    requires cfg.table.Some?
    ensures s.pos == 0 && i < s.i <= i + 1 + |following|
    ensures cfg.Valid() ==> s.report.ret != NO_MORE
  {
    if rest != "" then
      LongStep(cfg, i, rest, following, false)
    else if following == [] then
      Step(Complaint(cfg.BadArg(), 'W' as int), i + 1, 0)
    else
      LongStep(cfg, i + 1, following[0], following[1..], false)
  }

  /** The argument of letter c: the rest of the element, or the next one unless it is optional. */
  function Argument(cfg: Config, i: nat, c: char, isOptional: bool, rest: string, following: seq<string>): (s: Step)
    ensures s.pos == 0 && i < s.i <= i + 1 + |following| && s.report.ret != NO_MORE
  {
    if rest != "" then
      Step(Plainly(c as int, Some(rest)), i + 1, 0)
    else if isOptional then
      Step(Plainly(c as int, None), i + 1, 0)
    else if following == [] then
      Step(Complaint(cfg.BadArg(), c as int), i + 1, 0)
    else
      Step(Plainly(c as int, Some(following[0])), i + 2, 0)
  }

  // ---- elements --------------------------------------------------------------------------

  datatype Kind = NonOption | Terminator | OptionElement

  function KindOf(cfg: Config, a: string): Kind {
    if a == "" || a[0] != '-' || (a == "-" && '-' !in cfg.Letters()) then NonOption
    else if a == "--" then Terminator
    else OptionElement
  }

  /** Where the first option of an option element stands: a lone "-" is its own letter. */
  function FirstOffset(a: string): nat {
    if a == "-" then 0 else 1
  }

  /** Whether the text at offset pos of an element is looked up among the long options. */
  predicate TriesLong(cfg: Config, a: string, pos: nat)
    requires pos < |a|
  {
    cfg.table.Some? && pos != 0 && (a[pos] == '-' || cfg.longOnly)
  }

  /** A text without '-' in front of it may also be a cluster of option letters. */
  predicate ShortToo(cfg: Config, a: string, pos: nat)
    requires pos < |a|
  {
    a[pos] != '-' && a[pos] != ':' && a[pos] in cfg.Letters()
  }

  /** The option at offset pos of element i, whose text is a. */
  function OptionStep(cfg: Config, i: nat, a: string, pos: nat, following: seq<string>): (s: Step)
    requires pos < |a|
    ensures s.i <= i + 1 + |following|
    ensures s.report.ret != NO_MORE && cfg.Valid() ==> (s.pos == 0 && i < s.i) || (s.i == i && s.pos == pos + 1 < |a|)
    ensures s.report.ret == NO_MORE && cfg.Valid() ==>
              s == Step(Plainly(NO_MORE, None), i, 0) && a[pos] == '-' && pos + 1 == |a| && '-' !in cfg.Letters()
              && !TriesLong(cfg, a, pos)
  {
    if TriesLong(cfg, a, pos) then
      var s := LongStep(cfg, i, if a[pos] == '-' then a[pos + 1..] else a[pos..], following, ShortToo(cfg, a, pos));
      if s.report.ret != NO_MORE then s else ShortStep(cfg, i, a, pos, following)
    else
      ShortStep(cfg, i, a, pos, following)
  }

  // ---- one call and a whole run ------------------------------------------------------------

  /** How far scanning has come. taken says of each element of args[1..i] whether it was an
      option, an option's argument or "--" (true), or a skipped non-option (false). */
  datatype Cursor = Cursor(i: nat, pos: nat, taken: seq<bool>)
  {
    predicate In(args: seq<string>) {
      && 1 <= i <= |args| && |taken| == i - 1
      && (pos != 0 ==> i < |args| && pos < |args[i]|)
    }
  }

  const START := Cursor(1, 0, [])

  function Taking(taken: seq<bool>, n: nat): seq<bool> {
    taken + seq(n, _ => true)
  }

  /** The end of a call: something to report; or -1, because the vector or the options ended,
      because of a non-option that may not be skipped, or at a letter that is not consumed. */
  datatype Outcome = Yield(report: Report, cur: Cursor)
                   | Finished(cur: Cursor) | Stopped(cur: Cursor) | Stuck(cur: Cursor)

  function AtOption(cfg: Config, args: seq<string>, cur: Cursor, pos: nat): (o: Outcome)
    requires cfg.Valid() && cur.In(args) && cur.i < |args| && pos < |args[cur.i]|
    ensures o.cur.In(args) && (o.Yield? || o.Stuck?)
  {
    var s := OptionStep(cfg, cur.i, args[cur.i], pos, args[cur.i + 1..]);
    if s.report.ret == NO_MORE then
      Stuck(cur.(pos := 0))
    else
      Yield(s.report, Cursor(s.i, s.pos, Taking(cur.taken, s.i - cur.i)))
  }

  function Next(cfg: Config, args: seq<string>, cur: Cursor): (o: Outcome)
    requires cfg.Valid() && cur.In(args)
    ensures o.cur.In(args)
    decreases |args| - cur.i
  {
    if cur.pos != 0 then
      AtOption(cfg, args, cur, cur.pos)
    else if cur.i == |args| then
      Finished(cur)
    else
      match KindOf(cfg, args[cur.i])
      case NonOption =>
        if cfg.AllArgs() then
          Yield(Plainly(IN_ORDER, Some(args[cur.i])), Cursor(cur.i + 1, 0, cur.taken + [true]))
        else if !cfg.Permuting() then
          Stopped(cur)
        else
          Next(cfg, args, Cursor(cur.i + 1, 0, cur.taken + [false]))
      case Terminator => Finished(Cursor(cur.i + 1, 0, cur.taken + [true]))
      case OptionElement => AtOption(cfg, args, cur, FirstOffset(args[cur.i]))
  }

  /** What is left to scan: elements, then characters of the current one. */
  function ElementsLeft(args: seq<string>, cur: Cursor): nat
    requires cur.In(args)
  {
    |args| - cur.i
  }

  function CharactersLeft(args: seq<string>, cur: Cursor): nat
    requires cur.In(args)
  {
    if cur.i < |args| then |args[cur.i]| - cur.pos else 0
  }

  /** Every report uses up elements or characters of the current element. */
  lemma {:induction false} ReportsConsume(cfg: Config, args: seq<string>, cur: Cursor)
    requires cfg.Valid() && cur.In(args)
    ensures var o := Next(cfg, args, cur);
            o.Yield? ==>
              || ElementsLeft(args, o.cur) < ElementsLeft(args, cur)
              || (ElementsLeft(args, o.cur) == ElementsLeft(args, cur)
                  && CharactersLeft(args, o.cur) < CharactersLeft(args, cur))
    decreases |args| - cur.i
  {
    if cur.pos == 0 && cur.i < |args| && KindOf(cfg, args[cur.i]).NonOption? && cfg.Permuting() && !cfg.AllArgs() {
      ReportsConsume(cfg, args, Cursor(cur.i + 1, 0, cur.taken + [false]));
    }
  }

  /** The reports of a whole run of calls, and how it ends. */
  datatype History = History(reports: seq<Report>, end: Outcome)

  function Run(cfg: Config, args: seq<string>, cur: Cursor): (h: History)
    requires cfg.Valid() && cur.In(args)
    ensures !h.end.Yield? && h.end.cur.In(args)
    decreases ElementsLeft(args, cur), CharactersLeft(args, cur)
  {
    ReportsConsume(cfg, args, cur);
    var o := Next(cfg, args, cur);
    if o.Yield? then
      var h := Run(cfg, args, o.cur);
      History([o.report] + h.reports, h.end)
    else
      History([], o)
  }
}
