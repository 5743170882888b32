/** What a caller gets for each form in which an option can be written: the text of the elements, the rows
    of the table and the string of option letters on one side, the report on the other. */
module OptionForms {
  import opened Basics
  import opened LongOptions
  import opened ScanSpec

  /** The caller's options: `lead` says what becomes of non-options, `letters` are the option letters. */
  predicate Options(cfg: Config, lead: string, letters: string) {
    && cfg.options == lead + letters && (lead == "" || lead == "+" || lead == "-")
    && (lead == "" && letters != "" ==> letters[0] != '+' && letters[0] != '-')
  }

  /** What stands for a missing argument, and for one that is given to a long option without. */
  function BadArgument(letters: string): int {
    if letters != "" && letters[0] == ':' then ':' as int else '?' as int
  }

  lemma LettersOf(cfg: Config, lead: string, letters: string)
    requires Options(cfg, lead, letters)
    ensures cfg.Letters() == letters && cfg.BadArg() == BadArgument(letters) && (cfg.AllArgs() <==> lead == "-")
    ensures cfg.Permuting() <==> cfg.permute && (lead == "-" || (lead == "" && !cfg.posixlyCorrect))
  {
  }

  /** A call starts to scan this element. */
  predicate StartsAt(cfg: Config, args: seq<string>, cur: Cursor, a: string) {
    cfg.Valid() && cur.In(args) && cur.pos == 0 && cur.i < |args| && args[cur.i] == a
  }

  /** The cursor n elements further, all of them taken. */
  function Behind(cur: Cursor, n: nat): Cursor {
    Cursor(cur.i + n, 0, cur.taken + seq(n, _ => true))
  }

  // ---- long options ----------------------------------------------------------------------------

  lemma {:induction false} FirstEquals(name: string, value: string)
    requires '=' !in name
    ensures StrChr(name + "=" + value, '=') == Some(|name|)
  {
    var s := name + "=" + value;
    if name != "" {
      FirstEquals(name[1..], value);
      assert s[1..] == name[1..] + "=" + value;
    }
  }

  function Equals(given: Option<string>): string {
    match given case None => "" case Some(value) => "=" + value
  }

  lemma NameAndValue(name: string, given: Option<string>)
    requires '=' !in name
    ensures KeyOf(name + Equals(given)) == name && ArgumentIn(name + Equals(given)) == given
  {
    match given
    case None => assert name + "" == name;
    case Some(value) =>
      FirstEquals(name, value);
      var s := name + "=" + value;
      assert name + ("=" + value) == s && s[..|name|] == name && s[|name| + 1..] == value;
  }

  /** The dashes say that a long option follows: two of them, or one for getopt_long_only. */
  predicate Introduces(cfg: Config, dashes: string, text: string) {
    cfg.table.Some? && text != "" && (dashes == "--" || (dashes == "-" && cfg.longOnly && text[0] != '-'))
  }

  lemma LongText(cfg: Config, dashes: string, text: string, a: string)
    requires Introduces(cfg, dashes, text) && a == dashes + text
    ensures |a| > 1 && a[0] == '-' && a != "--" && a != "-"
    ensures text == if a[1] == '-' then a[2..] else a[1..]
    ensures if dashes == "--" then a[1] == '-' else dashes == "-" && a[1] == text[0] && cfg.longOnly
  {
    if dashes == "--" {
      assert |a| == 2 + |text| && a[0] == "--"[0] && a[1] == "--"[1];
    } else {
      assert |a| == 1 + |text| && a[0] == "-"[0] && a[1] == text[0];
      assert a != "--" by {
        assert "--"[1] == '-';
      }
    }
  }

  /** Behind one dash the text may also be a cluster of option letters. */
  predicate MayBeLetters(letters: string, dashes: string, text: string) {
    dashes == "-" && text != "" && text[0] != ':' && text[0] in letters
  }

  lemma TakenAsLong(cfg: Config, lead: string, letters: string, args: seq<string>, cur: Cursor, dashes: string,
                    text: string)
    requires Options(cfg, lead, letters) && StartsAt(cfg, args, cur, dashes + text) && Introduces(cfg, dashes, text)
    ensures cfg.Valid() && cur.In(args) && cur.i < |args| && cfg.table.Some?
    ensures var s := LongStep(cfg, cur.i, text, args[cur.i + 1..], MayBeLetters(letters, dashes, text));
            s.report.ret != NO_MORE ==> Next(cfg, args, cur) == Yield(s.report, Behind(cur, s.i - cur.i))
  {
    var a := dashes + text;
    hide LongStep, ShortStep;
    LettersOf(cfg, lead, letters);
    LongText(cfg, dashes, text, a);
    assert TriesLong(cfg, a, 1) && (ShortToo(cfg, a, 1) <==> MayBeLetters(letters, dashes, text));
  }

  /** What a row gives to the caller, with this argument. */
  function FromRow(o: LongOption, k: nat, optarg: Option<string>): Report {
    match o.flag
    case None => Report(o.val, optarg, None, Some(k), None)
    case Some(flag) => Report(0, optarg, None, Some(k), Some((flag, o.val)))
  }

  /** The complaint about the argument of a row. */
  function RowComplaint(o: LongOption, letters: string): Report {
    Report(BadArgument(letters), None, Some(if o.flag.None? then o.val else 0), None, None)
  }

  /** What row k, which holds o, gives when it was named in element i: the report, and how many elements
      it takes from there. */
  function RowResult(letters: string, args: seq<string>, i: nat, k: nat, o: LongOption, given: Option<string>):
    (Report, nat)
    requires i < |args|
  {
    if given.Some? then
      if o.hasArg == 0 then (RowComplaint(o, letters), 1)
      else if o.hasArg == 1 || o.hasArg == 2 then (FromRow(o, k, given), 1)
      else (FromRow(o, k, None), 1)
    else if o.hasArg == 1 then
      if i + 1 < |args| then (FromRow(o, k, Some(args[i + 1])), 2) else (RowComplaint(o, letters), 1)
    else (FromRow(o, k, None), 1)
  }

  lemma RowGives(cfg: Config, lead: string, letters: string, args: seq<string>, i: nat, k: nat, o: LongOption,
                 given: Option<string>)
    requires Options(cfg, lead, letters) && i < |args|
    ensures var (report, n) := RowResult(letters, args, i, k, o, given);
            && RowStep(cfg, i, k, o, given, args[i + 1..]) == Step(report, i + n, 0)
            && (o.val != NO_MORE ==> report.ret != NO_MORE)
  {
    LettersOf(cfg, lead, letters);
    hide BadArgument;
  }

  lemma StepOfRow(cfg: Config, i: nat, name: string, given: Option<string>, k: nat, shortToo: bool,
                  following: seq<string>)
    requires cfg.table.Some? && '=' !in name && ByName(cfg.table.value, name, shortToo, Match(k))
    ensures k < |cfg.table.value|
    ensures LongStep(cfg, i, name + Equals(given), following, shortToo)
         == RowStep(cfg, i, k, cfg.table.value[k], given, following)
  {
    NameAndValue(name, given);
    SelectionByName(cfg.table.value, name, shortToo, Match(k));
    hide ByName, Select, KeyOf, ArgumentIn, RowStep;
  }

  /** The step of a long option whose text stands in element i or begins there. */
  lemma NamedStep(cfg: Config, lead: string, letters: string, args: seq<string>, i: nat, name: string,
                  given: Option<string>, k: nat, shortToo: bool)
    requires cfg.Valid() && Options(cfg, lead, letters) && i < |args| && '=' !in name && cfg.table.Some?
    requires ByName(cfg.table.value, name, shortToo, Match(k))
    ensures k < |cfg.table.value|
    ensures var (report, n) := RowResult(letters, args, i, k, cfg.table.value[k], given);
            && report.ret != NO_MORE
            && LongStep(cfg, i, name + Equals(given), args[i + 1..], shortToo) == Step(report, i + n, 0)
  {
    StepOfRow(cfg, i, name, given, k, shortToo, args[i + 1..]);
    assert cfg.table.value[k] in cfg.table.value;
    hide *;
    RowGives(cfg, lead, letters, args, i, k, cfg.table.value[k], given);
  }

  /** `--name`, `--name=value`, and the same with one dash for getopt_long_only, where a single letter that is an
      option letter is no abbreviation. Row k is the one that is selected by name. */
  lemma LongOptionForms(cfg: Config, lead: string, letters: string, args: seq<string>, cur: Cursor,
                        dashes: string, name: string, given: Option<string>, k: nat)
    requires Options(cfg, lead, letters) && '=' !in name && Introduces(cfg, dashes, name + Equals(given))
    requires StartsAt(cfg, args, cur, dashes + (name + Equals(given)))
    requires ByName(cfg.table.value, name, MayBeLetters(letters, dashes, name + Equals(given)), Match(k))
    ensures k < |cfg.table.value|
    ensures var (report, n) := RowResult(letters, args, cur.i, k, cfg.table.value[k], given);
            Next(cfg, args, cur) == Yield(report, Behind(cur, n))
  {
    var text := name + Equals(given);
    hide *;
    TakenAsLong(cfg, lead, letters, args, cur, dashes, text);
    NamedStep(cfg, lead, letters, args, cur.i, name, given, k, MayBeLetters(letters, dashes, text));
  }

  /** A name that the table cannot decide is complained about, and so is one that it does not know, when the text
      cannot be a cluster of letters. */
  lemma UnknownLongOption(cfg: Config, lead: string, letters: string, args: seq<string>, cur: Cursor,
                          dashes: string, name: string, given: Option<string>)
    requires Options(cfg, lead, letters) && '=' !in name && Introduces(cfg, dashes, name + Equals(given))
    requires StartsAt(cfg, args, cur, dashes + (name + Equals(given)))
    requires var cluster := MayBeLetters(letters, dashes, name + Equals(given));
             || ByName(cfg.table.value, name, cluster, Ambiguous)
             || (!cluster && ByName(cfg.table.value, name, false, NoMatch))
    ensures Next(cfg, args, cur) == Yield(Report('?' as int, None, Some(0), None, None), Behind(cur, 1))
  {
    var t, cluster := cfg.table.value, MayBeLetters(letters, dashes, name + Equals(given));
    hide Next, ByName, Select, KeyOf, ArgumentIn, MayBeLetters, Introduces, Options, StartsAt, Equals;
    TakenAsLong(cfg, lead, letters, args, cur, dashes, name + Equals(given));
    NameAndValue(name, given);
    SelectionByName(t, name, cluster, NoMatch);
    SelectionByName(t, name, cluster, Ambiguous);
  }

  // ---- option letters ----------------------------------------------------------------------------

  /** No row can be meant by this text, which may also be a cluster of option letters. */
  ghost predicate NotLong(t: seq<LongOption>, text: string) {
    exists name, given :: '=' !in name && text == name + Equals(given) && ByName(t, name, true, NoMatch)
  }

  /** The scan stands at the option letter c, behind `front` in its element and followed by `rest`. A '-' is
      a letter at the end of an element only, and alone when there is a table. */
  ghost predicate AtLetter(cfg: Config, args: seq<string>, cur: Cursor, letters: string, front: string, c: char,
                           rest: string)
  {
    && cfg.Valid() && cur.In(args) && cur.i < |args| && args[cur.i] == front + [c] + rest
    && (c == '-' ==> rest == "")
    && if front == "" then c == '-' && c in letters && cur.pos == 0
       else
         && (cur.pos == |front| || (cur.pos == 0 && front == "-" && c != '-'))
         && (cfg.table.Some? ==> c != '-')
         && (cfg.table.Some? && cfg.longOnly ==> c in letters && c != ':' && NotLong(cfg.table.value, [c] + rest))
  }

  lemma NotLongFails(cfg: Config, i: nat, text: string, following: seq<string>)
    requires cfg.table.Some? && NotLong(cfg.table.value, text)
    ensures LongStep(cfg, i, text, following, true).report.ret == NO_MORE
  {
    var name, given :| '=' !in name && text == name + Equals(given) && ByName(cfg.table.value, name, true, NoMatch);
    NameAndValue(name, given);
    SelectionByName(cfg.table.value, name, true, NoMatch);
  }

  lemma NextIsOption(cfg: Config, args: seq<string>, cur: Cursor, lead: string, letters: string, front: string,
                     c: char, rest: string)
    requires Options(cfg, lead, letters) && AtLetter(cfg, args, cur, letters, front, c, rest)
    ensures |front| < |args[cur.i]| && args[cur.i][|front|] == c && args[cur.i][|front|..] == [c] + rest
    ensures Next(cfg, args, cur) == AtOption(cfg, args, cur, |front|)
  {
    LettersOf(cfg, lead, letters);
    var a := args[cur.i];
    assert a[|front|] == c;
    hide AtOption, NotLong;
    if cur.pos == 0 {
      assert KindOf(cfg, a) == OptionElement && FirstOffset(a) == |front|;
    }
  }

  lemma OptionIsLetter(cfg: Config, args: seq<string>, cur: Cursor, lead: string, letters: string, front: string,
                       c: char, rest: string)
    requires Options(cfg, lead, letters) && AtLetter(cfg, args, cur, letters, front, c, rest)
    requires |front| < |args[cur.i]| && args[cur.i][|front|] == c && args[cur.i][|front|..] == [c] + rest
    ensures OptionStep(cfg, cur.i, args[cur.i], |front|, args[cur.i + 1..])
         == ShortStep(cfg, cur.i, args[cur.i], |front|, args[cur.i + 1..])
  {
    LettersOf(cfg, lead, letters);
    hide ShortStep, LongStep;
    if front != "" && cfg.table.Some? && cfg.longOnly {
      NotLongFails(cfg, cur.i, [c] + rest, args[cur.i + 1..]);
    }
  }

  lemma TakenAsLetter(cfg: Config, args: seq<string>, cur: Cursor, lead: string, letters: string, front: string,
                      c: char, rest: string)
    requires Options(cfg, lead, letters) && AtLetter(cfg, args, cur, letters, front, c, rest)
    ensures var s := ShortStep(cfg, cur.i, args[cur.i], |front|, args[cur.i + 1..]);
            s.report.ret != NO_MORE ==>
              Next(cfg, args, cur) == Yield(s.report, Cursor(s.i, s.pos, Taking(cur.taken, s.i - cur.i)))
  {
    assert cfg.Valid() && cur.In(args) && cur.i < |args|;
    hide Next, OptionStep, ShortStep, Options, AtLetter, Config.Valid;
    NextIsOption(cfg, args, cur, lead, letters, front, c, rest);
    OptionIsLetter(cfg, args, cur, lead, letters, front, c, rest);
  }

  /** The cursor behind the letter at offset p of the current element. */
  function Onward(cur: Cursor, p: nat, rest: string): Cursor {
    if rest == "" then Behind(cur, 1) else Cursor(cur.i, p + 1, cur.taken)
  }

  function Letter(c: char, optarg: Option<string>): Report {
    Report(c as int, optarg, None, None, None)
  }

  lemma LetterAmong(before: string, c: char, after: string)
    requires c !in before
    ensures c in before + [c] + after && After(before + [c] + after, c) == after
  {
    LetterAt(before, c, after);
    assert (before + [c] + after)[|before| + 1..] == after;
  }

  lemma {:induction false} LetterAt(before: string, c: char, after: string)
    requires c !in before
    ensures StrChr(before + [c] + after, c) == Some(|before|)
  {
    if before != "" {
      LetterAt(before[1..], c, after);
      assert (before + [c] + after)[1..] == before[1..] + [c] + after;
    }
  }

  lemma ShortHere(cfg: Config, args: seq<string>, cur: Cursor, letters: string, front: string, c: char, rest: string)
    requires AtLetter(cfg, args, cur, letters, front, c, rest)
    ensures var a, p := args[cur.i], |front|; p < |a| && a[p] == c && a[p + 1..] == rest
  {
  }

  /** Letter c of the letters before + [c] + after: the step is that of the letter. */
  lemma AtKnownLetter(cfg: Config, lead: string, before: string, after: string, args: seq<string>, cur: Cursor,
                      front: string, c: char, rest: string)
    requires Options(cfg, lead, before + [c] + after) && c !in before
    requires AtLetter(cfg, args, cur, before + [c] + after, front, c, rest)
    ensures cfg.BadArg() == BadArgument(before + [c] + after)
    ensures c in cfg.Letters() && After(cfg.Letters(), c) == after && cfg.Valid() && cur.In(args) && cur.i < |args|
    ensures var a, p := args[cur.i], |front|;
            && p < |a| && a[p] == c && a[p + 1..] == rest && (c == '-' ==> rest == "")
            && var s := ShortStep(cfg, cur.i, a, p, args[cur.i + 1..]);
               s.report.ret != NO_MORE ==>
                 Next(cfg, args, cur) == Yield(s.report, Cursor(s.i, s.pos, Taking(cur.taken, s.i - cur.i)))
  {
    LetterAmong(before, c, after);
    LettersOf(cfg, lead, before + [c] + after);
    ShortHere(cfg, args, cur, before + [c] + after, front, c, rest);
    hide After, BadArgument, ShortStep, Next;
    TakenAsLetter(cfg, args, cur, lead, before + [c] + after, front, c, rest);
  }

  /** A letter that is no option is complained about. */
  lemma UnknownLetter(cfg: Config, lead: string, letters: string, args: seq<string>, cur: Cursor, front: string,
                      c: char, rest: string)
    requires Options(cfg, lead, letters) && AtLetter(cfg, args, cur, letters, front, c, rest)
    requires c != '-' && (c !in letters || c == ':')
    ensures Next(cfg, args, cur)
         == Yield(Report('?' as int, None, Some(c as int), None, None), Onward(cur, |front|, rest))
  {
    ShortHere(cfg, args, cur, letters, front, c, rest);
    TakenAsLetter(cfg, args, cur, lead, letters, front, c, rest);
    LettersOf(cfg, lead, letters);
    hide Next, Options, AtLetter;
    assert Taking(cur.taken, 0) == cur.taken;
  }

  lemma PlainShort(cfg: Config, i: nat, a: string, p: nat, following: seq<string>, after: string)
    requires p < |a| && a[p] in cfg.Letters() && After(cfg.Letters(), a[p]) == after && a[p] != ':'
    requires a[p] == '-' ==> a[p + 1..] == ""
    requires after == "" || (after[0] != ':' && !(after[0] == ';' && a[p] == 'W' && cfg.table.Some?))
    ensures ShortStep(cfg, i, a, p, following)
         == Step(Letter(a[p], None), if p + 1 == |a| then i + 1 else i, if p + 1 == |a| then 0 else p + 1)
  {
    hide After;
  }

  /** A letter that takes no argument. */
  lemma PlainLetter(cfg: Config, lead: string, before: string, after: string, args: seq<string>, cur: Cursor,
                    front: string, c: char, rest: string)
    requires Options(cfg, lead, before + [c] + after) && c !in before && c != ':'
    requires AtLetter(cfg, args, cur, before + [c] + after, front, c, rest)
    requires after == "" || (after[0] != ':' && !(after[0] == ';' && c == 'W' && cfg.table.Some?))
    ensures Next(cfg, args, cur) == Yield(Letter(c, None), Onward(cur, |front|, rest))
  {
    hide Next, Options, AtLetter, After, ShortStep;
    AtKnownLetter(cfg, lead, before, after, args, cur, front, c, rest);
    PlainShort(cfg, cur.i, args[cur.i], |front|, args[cur.i + 1..], after);
    assert Taking(cur.taken, 0) == cur.taken;
  }

  lemma OneIsPrefix(c: char, s: string)
    ensures [c] <= s <==> s != "" && s[0] == c
  {
    if s != "" && s[0] == c {
      assert s == [c] + s[1..];
    }
  }

  lemma TwoColons(s: string)
    ensures "::" <= ":" + s <==> s != "" && s[0] == ':'
  {
    var t := ":" + s;
    assert "::"[0] == ':' && "::"[1] == ':';
    if s != "" && s[0] == ':' {
      assert t == "::" + s[1..];
    } else if s != "" {
      assert t[1] != "::"[1];
    }
  }

  lemma ShortWithArgument(cfg: Config, i: nat, a: string, p: nat, following: seq<string>, after: string)
    requires p < |a| && a[p] in cfg.Letters() && After(cfg.Letters(), a[p]) == ":" + after && a[p] != ':'
    requires a[p] == '-' ==> a[p + 1..] == ""
    ensures ShortStep(cfg, i, a, p, following)
         == Argument(cfg, i, a[p], after != "" && after[0] == ':', a[p + 1..], following)
  {
    OneIsPrefix(':', ":" + after);
    OneIsPrefix(';', ":" + after);
    TwoColons(after);
    hide After, Argument;
  }

  /** `-p value`, `-pvalue`, and a letter with two colons, whose argument is in its own element or missing. */
  lemma LetterWithArgument(cfg: Config, lead: string, before: string, after: string, args: seq<string>, cur: Cursor,
                           front: string, c: char, rest: string)
    requires Options(cfg, lead, before + [c] + (":" + after)) && c !in before && c != ':'
    requires AtLetter(cfg, args, cur, before + [c] + (":" + after), front, c, rest)
    ensures var next := cur.i + 1;
            Next(cfg, args, cur) ==
            if rest != "" then Yield(Letter(c, Some(rest)), Behind(cur, 1))
            else if after != "" && after[0] == ':' then Yield(Letter(c, None), Behind(cur, 1))
            else if next < |args| then Yield(Letter(c, Some(args[next])), Behind(cur, 2))
            else Yield(Report(BadArgument(before + [c] + (":" + after)), None, Some(c as int), None, None),
                       Behind(cur, 1))
  {
    hide Next, Options, AtLetter, After, BadArgument, ShortStep;
    AtKnownLetter(cfg, lead, before, ":" + after, args, cur, front, c, rest);
    ShortWithArgument(cfg, cur.i, args[cur.i], |front|, args[cur.i + 1..], after);
  }

  lemma ShortW(cfg: Config, i: nat, a: string, p: nat, following: seq<string>, after: string)
    requires p < |a| && a[p] == 'W' && 'W' in cfg.Letters() && After(cfg.Letters(), 'W') == ";" + after
    requires cfg.table.Some?
    ensures ShortStep(cfg, i, a, p, following) == AfterW(cfg, i, a[p + 1..], following)
  {
    OneIsPrefix(';', ";" + after);
    hide After, AfterW;
  }

  /** Behind -W stands the text of a long option: in the same element or in the next one. */
  lemma TakenBehindW(cfg: Config, lead: string, before: string, after: string, args: seq<string>, cur: Cursor,
                     front: string, rest: string)
    requires Options(cfg, lead, before + ['W'] + (";" + after)) && 'W' !in before && cfg.table.Some?
    requires AtLetter(cfg, args, cur, before + ['W'] + (";" + after), front, 'W', rest)
    ensures cur.i < |args| && cfg.Valid()
    ensures var s := AfterW(cfg, cur.i, rest, args[cur.i + 1..]);
            s.report.ret != NO_MORE ==> Next(cfg, args, cur) == Yield(s.report, Behind(cur, s.i - cur.i))
  {
    hide Next, Options, AtLetter, After, AfterW, ShortStep, BadArgument;
    AtKnownLetter(cfg, lead, before, ";" + after, args, cur, front, 'W', rest);
    ShortW(cfg, cur.i, args[cur.i], |front|, args[cur.i + 1..], after);
  }

  lemma BehindW(cfg: Config, args: seq<string>, i: nat, rest: string, text: string)
    requires cfg.table.Some? && i < |args| && (rest == "" ==> i + 1 < |args|)
    requires text == if rest == "" then args[i + 1] else rest
    ensures var at := if rest == "" then i + 1 else i;
            AfterW(cfg, i, rest, args[i + 1..]) == LongStep(cfg, at, text, args[at + 1..], false)
  {
    hide LongStep;
    if rest == "" {
      var behind := args[i + 1..];
      assert behind[0] == args[i + 1] && behind[1..] == args[i + 2..];
    }
  }

  /** `-Wname`, `-Wname=value`, and the same in two elements, when the letters have "W;". */
  lemma LongOptionBehindW(cfg: Config, lead: string, before: string, after: string, args: seq<string>, cur: Cursor,
                          front: string, rest: string, name: string, given: Option<string>, k: nat)
    requires Options(cfg, lead, before + ['W'] + (";" + after)) && 'W' !in before && cfg.table.Some?
    requires AtLetter(cfg, args, cur, before + ['W'] + (";" + after), front, 'W', rest)
    requires '=' !in name && ByName(cfg.table.value, name, false, Match(k))
    requires rest == "" ==> cur.i + 1 < |args|
    requires name + Equals(given) == if rest == "" then args[cur.i + 1] else rest
    ensures k < |cfg.table.value|
    ensures var i := if rest == "" then cur.i + 1 else cur.i;
            var (report, n) := RowResult(before + ['W'] + (";" + after), args, i, k, cfg.table.value[k], given);
            Next(cfg, args, cur) == Yield(report, Behind(cur, n + (i - cur.i)))
  {
    hide *;
    TakenBehindW(cfg, lead, before, after, args, cur, front, rest);
    var i := if rest == "" then cur.i + 1 else cur.i;
    NamedStep(cfg, lead, before + ['W'] + (";" + after), args, i, name, given, k, false);
    BehindW(cfg, args, cur.i, rest, name + Equals(given));
  }

  /** -W as the last element lacks its argument. */
  lemma NothingBehindW(cfg: Config, lead: string, before: string, after: string, args: seq<string>, cur: Cursor,
                       front: string)
    requires Options(cfg, lead, before + ['W'] + (";" + after)) && 'W' !in before && cfg.table.Some?
    requires AtLetter(cfg, args, cur, before + ['W'] + (";" + after), front, 'W', "") && cur.i + 1 == |args|
    ensures Next(cfg, args, cur)
         == Yield(Report(BadArgument(before + ['W'] + (";" + after)), None, Some('W' as int), None, None),
                  Behind(cur, 1))
  {
    TakenBehindW(cfg, lead, before, after, args, cur, front, "");
    LettersOf(cfg, lead, before + ['W'] + (";" + after));
    hide Next, Options, AtLetter, BadArgument;
  }

  // ---- what is no option ---------------------------------------------------------------------------

  /** A non-option is reported in place after a leading '-', skipped when permuting, and ends the options
      otherwise. */
  lemma NonOptionForms(cfg: Config, lead: string, letters: string, args: seq<string>, cur: Cursor, a: string)
    requires Options(cfg, lead, letters) && StartsAt(cfg, args, cur, a)
    requires a == "" || a[0] != '-' || (a == "-" && '-' !in letters)
    ensures Next(cfg, args, cur) ==
            if lead == "-" then Yield(Report(1, Some(a), None, None, None), Behind(cur, 1))
            else if cfg.permute && lead == "" && !cfg.posixlyCorrect then
              Next(cfg, args, Cursor(cur.i + 1, 0, cur.taken + [false]))
            else Stopped(cur)
  {
    LettersOf(cfg, lead, letters);
    assert seq(1, _ => true) == [true];
  }

  /** "--" ends the options and is taken itself; at the end of the vector nothing is. */
  lemma EndForms(cfg: Config, args: seq<string>, cur: Cursor)
    requires cfg.Valid() && cur.In(args) && cur.pos == 0 && (cur.i < |args| ==> args[cur.i] == "--")
    ensures Next(cfg, args, cur) == Finished(if cur.i < |args| then Behind(cur, 1) else cur)
  {
    assert seq(1, _ => true) == [true];
  }

  // ---- the options of iio-emu -----------------------------------------------------------------------

  function EmuOptions(posixlyCorrect: bool): Config {
    Config("hlvp:", Some([LongOption("help", 0, None, 'h' as int), LongOption("list", 0, None, 'l' as int),
                          LongOption("verbose", 0, None, 'v' as int), LongOption("port", 1, None, 'p' as int)]),
           true, false, posixlyCorrect)
  }

  lemma PortIsFourth(posixlyCorrect: bool)
    ensures EmuOptions(posixlyCorrect).Valid()
    ensures ByName(EmuOptions(posixlyCorrect).table.value, "port", false, Match(3))
  {
    var t := EmuOptions(posixlyCorrect).table.value;
    assert t[3] in t && "help"[0] != 'p' && "list"[0] != 'p' && "verbose"[0] != 'p' && "port"[0] == 'p';
  }

  /** `iio-emu --port=30432` and `iio-emu -p30432` set the same port. */
  lemma PortOption(program: string, port: string, posixlyCorrect: bool)
    requires port != ""
    ensures var cfg := EmuOptions(posixlyCorrect);
            && cfg.Valid()
            && Next(cfg, [program, "--" + ("port" + ("=" + port))], START)
               == Yield(Report('p' as int, Some(port), None, Some(3), None), Behind(START, 1))
            && Next(cfg, [program, "-" + ['p'] + port], START) == Yield(Letter('p', Some(port)), Behind(START, 1))
  {
    var cfg := EmuOptions(posixlyCorrect);
    PortIsFourth(posixlyCorrect);
    assert "hlvp:" == "hlv" + ['p'] + (":" + "") && "" + "hlvp:" == "hlvp:" && '=' !in "port";
    hide Next, ByName;
    var long := [program, "--" + ("port" + Equals(Some(port)))];
    LongOptionForms(cfg, "", "hlvp:", long, START, "--", "port", Some(port), 3);
    LetterWithArgument(cfg, "", "hlv", "", [program, "-" + ['p'] + port], START, "-", 'p', port);
  }
}
