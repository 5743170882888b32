/** Scanning the permuted vector again: the same reports, and nothing left to move. */
module GetoptRescan {
  import opened Basics
  import opened LongOptions
  import opened ScanSpec
  import opened OptionSteps
  import opened Arrangement
  import opened GetoptRun

  // ---- a step depends on the elements it uses up ----------------------------------------------

  /** One step in two vectors. */
  predicate SameStep(s: Step, i: nat, s': Step, i': nat) {
    s.report == s'.report && s.pos == s'.pos && s.i - i == s'.i - i'
  }

  /** Both vectors begin with the n elements used up and have more, or they are one. */
  predicate AlikeAhead(f: seq<string>, g: seq<string>, n: nat) {
    f == g || (n < |f| && n < |g| && f[..n] == g[..n])
  }

  lemma RowDepends(cfg: Config, i: nat, i': nat, k: nat, o: LongOption, given: Option<string>, f: seq<string>,
                   g: seq<string>)
    requires AlikeAhead(f, g, Used(RowStep(cfg, i, k, o, given, f), i))
    ensures SameStep(RowStep(cfg, i, k, o, given, f), i, RowStep(cfg, i', k, o, given, g), i')
  {
    var n := Used(RowStep(cfg, i, k, o, given, f), i);
    assert n > 0 ==> f[..n][0] == g[..n][0];
  }

  lemma LongDepends(cfg: Config, i: nat, i': nat, text: string, f: seq<string>, g: seq<string>, shortToo: bool)
    requires cfg.table.Some? && AlikeAhead(f, g, Used(LongStep(cfg, i, text, f, shortToo), i))
    ensures SameStep(LongStep(cfg, i, text, f, shortToo), i, LongStep(cfg, i', text, g, shortToo), i')
  {
    hide Select, KeyOf, ArgumentIn, RowStep, OptOptOf;
    var selected := Select(cfg.table.value, KeyOf(text), shortToo);
    if selected.Match? {
      RowDepends(cfg, i, i', selected.index, cfg.table.value[selected.index], ArgumentIn(text), f, g);
    }
  }

  lemma AfterWDepends(cfg: Config, i: nat, i': nat, rest: string, f: seq<string>, g: seq<string>)
    requires cfg.table.Some? && AlikeAhead(f, g, Used(AfterW(cfg, i, rest, f), i))
    ensures SameStep(AfterW(cfg, i, rest, f), i, AfterW(cfg, i', rest, g), i')
  {
    hide LongStep;
    if rest != "" {
      LongDepends(cfg, i, i', rest, f, g, false);
    } else if f != [] {
      var n := Used(AfterW(cfg, i, rest, f), i);
      if f != g {
        assert f[..n][0] == g[..n][0];
        assert f[1..][..n - 1] == f[..n][1..] && g[1..][..n - 1] == g[..n][1..];
      }
      LongDepends(cfg, i + 1, i' + 1, f[0], f[1..], g[1..], false);
    }
  }

  lemma ArgumentDepends(cfg: Config, i: nat, i': nat, c: char, isOptional: bool, rest: string, f: seq<string>,
                        g: seq<string>)
    requires AlikeAhead(f, g, Used(Argument(cfg, i, c, isOptional, rest, f), i))
    ensures SameStep(Argument(cfg, i, c, isOptional, rest, f), i, Argument(cfg, i', c, isOptional, rest, g), i')
  {
    var n := Used(Argument(cfg, i, c, isOptional, rest, f), i);
    assert n > 0 ==> f[..n][0] == g[..n][0];
  }

  lemma ShortDepends(cfg: Config, i: nat, i': nat, a: string, pos: nat, f: seq<string>, g: seq<string>)
    requires pos < |a| && AlikeAhead(f, g, Used(ShortStep(cfg, i, a, pos, f), i))
    ensures SameStep(ShortStep(cfg, i, a, pos, f), i, ShortStep(cfg, i', a, pos, g), i')
  {
    hide AfterW, Argument, AlikeAhead;
    var c, rest, letters := a[pos], a[pos + 1..], cfg.Letters();
    if c in letters {
      if cfg.table.Some? && AlikeAhead(f, g, Used(AfterW(cfg, i, rest, f), i)) {
        AfterWDepends(cfg, i, i', rest, f, g);
      }
      if AlikeAhead(f, g, Used(Argument(cfg, i, c, "::" <= After(letters, c), rest, f), i)) {
        ArgumentDepends(cfg, i, i', c, "::" <= After(letters, c), rest, f, g);
      }
    }
  }

  lemma OptionDepends(cfg: Config, i: nat, i': nat, a: string, pos: nat, f: seq<string>, g: seq<string>)
    requires cfg.Valid() && pos < |a| && AlikeAhead(f, g, Used(OptionStep(cfg, i, a, pos, f), i))
    ensures SameStep(OptionStep(cfg, i, a, pos, f), i, OptionStep(cfg, i', a, pos, g), i')
  {
    hide LongStep, ShortStep;
    if TriesLong(cfg, a, pos) {
      var text, shortToo := if a[pos] == '-' then a[pos + 1..] else a[pos..], ShortToo(cfg, a, pos);
      var s := LongStep(cfg, i, text, f, shortToo);
      if s.report.ret != NO_MORE {
        LongDepends(cfg, i, i', text, f, g, shortToo);
      } else {
        assert Used(s, i) == 0 && f[..0] == g[..0];
        LongDepends(cfg, i, i', text, f, g, shortToo);
        ShortDepends(cfg, i, i', a, pos, f, g);
      }
    } else {
      ShortDepends(cfg, i, i', a, pos, f, g);
    }
  }

  // ---- options that lack their argument -----------------------------------------------------------

  /** One more element would be taken by the option at offset pos of a. */
  predicate Lacks(cfg: Config, a: string, pos: nat, f: seq<string>)
    requires pos < |a|
  {
    OptionStep(cfg, 0, a, pos, f + [""]) != OptionStep(cfg, 0, a, pos, f)
  }

  /** With one more element ahead the step is the same, or uses up more. */
  predicate SameOrMore(s: Step, more: Step) {
    more == s || more.i > s.i
  }

  lemma RowExtends(cfg: Config, i: nat, k: nat, o: LongOption, given: Option<string>, f: seq<string>, g: seq<string>)
    requires f < g
    ensures SameOrMore(RowStep(cfg, i, k, o, given, f), RowStep(cfg, i, k, o, given, g))
  {
  }

  lemma LongExtends(cfg: Config, i: nat, text: string, f: seq<string>, g: seq<string>, shortToo: bool)
    requires cfg.table.Some? && f < g
    ensures SameOrMore(LongStep(cfg, i, text, f, shortToo), LongStep(cfg, i, text, g, shortToo))
    ensures cfg.Valid() ==>
              var r, r' := LongStep(cfg, i, text, f, shortToo).report, LongStep(cfg, i, text, g, shortToo).report;
              r.ret == NO_MORE <==> r'.ret == NO_MORE
  {
    hide Select, KeyOf, ArgumentIn, RowStep, OptOptOf;
    var selected := Select(cfg.table.value, KeyOf(text), shortToo);
    if selected.Match? {
      var o := cfg.table.value[selected.index];
      assert o in cfg.table.value;
      RowExtends(cfg, i, selected.index, o, ArgumentIn(text), f, g);
    }
  }

  lemma AfterWExtends(cfg: Config, i: nat, rest: string, f: seq<string>, g: seq<string>)
    requires cfg.table.Some? && f < g
    ensures SameOrMore(AfterW(cfg, i, rest, f), AfterW(cfg, i, rest, g))
  {
    hide LongStep;
    if rest != "" {
      LongExtends(cfg, i, rest, f, g, false);
    } else if f != [] {
      assert f[0] == g[0] && f[1..] < g[1..];
      LongExtends(cfg, i + 1, f[0], f[1..], g[1..], false);
    }
  }

  lemma ShortExtends(cfg: Config, i: nat, a: string, pos: nat, f: seq<string>, g: seq<string>)
    requires pos < |a| && f < g
    ensures SameOrMore(ShortStep(cfg, i, a, pos, f), ShortStep(cfg, i, a, pos, g))
  {
    hide AfterW;
    if cfg.table.Some? {
      AfterWExtends(cfg, i, a[pos + 1..], f, g);
    }
  }

  lemma OptionExtends(cfg: Config, i: nat, a: string, pos: nat, f: seq<string>, g: seq<string>)
    requires cfg.Valid() && pos < |a| && f < g
    ensures SameOrMore(OptionStep(cfg, i, a, pos, f), OptionStep(cfg, i, a, pos, g))
  {
    hide LongStep, ShortStep;
    if TriesLong(cfg, a, pos) {
      LongExtends(cfg, i, if a[pos] == '-' then a[pos + 1..] else a[pos..], f, g, ShortToo(cfg, a, pos));
    }
    ShortExtends(cfg, i, a, pos, f, g);
  }

  /** An option that lacks its argument has used up all there is ... */
  lemma OnlyTheLastLacks(cfg: Config, i: nat, a: string, pos: nat, f: seq<string>)
    requires cfg.Valid() && pos < |a| && Used(OptionStep(cfg, i, a, pos, f), i) < |f|
    ensures !Lacks(cfg, a, pos, f)
  {
    hide OptionStep;
    var s := OptionStep(cfg, i, a, pos, f);
    var n := Used(s, i);
    assert (f + [""])[..n] == f[..n];
    OptionDepends(cfg, i, 0, a, pos, f, f);
    OptionDepends(cfg, i, 0, a, pos, f, f + [""]);
  }

  /** ... and uses up more when there is more. */
  lemma LackingUsesMore(cfg: Config, i: nat, i': nat, a: string, pos: nat, f: seq<string>, g: seq<string>)
    requires cfg.Valid() && pos < |a| && Lacks(cfg, a, pos, f) && f < g
    ensures OptionStep(cfg, i', a, pos, g).i - i' > OptionStep(cfg, i, a, pos, f).i - i
  {
    hide OptionStep;
    OptionDepends(cfg, 0, i', a, pos, g, g);
    OptionDepends(cfg, 0, i, a, pos, f, f);
    OptionExtends(cfg, 0, a, pos, f, g);
    if OptionStep(cfg, 0, a, pos, g) == OptionStep(cfg, 0, a, pos, f) {
      var n := Used(OptionStep(cfg, 0, a, pos, f), 0);
      if n < |f| {
        OnlyTheLastLacks(cfg, 0, a, pos, f);
      }
      assert g[..n] == (f + [""])[..n];
      OptionDepends(cfg, 0, 0, a, pos, g, f + [""]);
    }
  }

  /** An option that does not lack its argument leaves the same step whatever follows what it uses up. */
  lemma CompleteStep(cfg: Config, i: nat, i': nat, a: string, pos: nat, f: seq<string>, g: seq<string>)
    requires cfg.Valid() && pos < |a| && !Lacks(cfg, a, pos, f)
    requires Used(OptionStep(cfg, i, a, pos, f), i) < |g|
    requires g[..Used(OptionStep(cfg, i, a, pos, f), i)] == f[..Used(OptionStep(cfg, i, a, pos, f), i)]
    ensures SameStep(OptionStep(cfg, i, a, pos, f), i, OptionStep(cfg, i', a, pos, g), i')
  {
    hide OptionStep;
    OptionDepends(cfg, 0, i, a, pos, f, f);
    var n := Used(OptionStep(cfg, 0, a, pos, f), 0);
    assert (f + [""])[..n] == f[..n];
    OptionDepends(cfg, 0, i', a, pos, f + [""], g);
  }

  // ---- the same scan in the permuted vector --------------------------------------------------------------

  /** Where the scan of the permuted vector stands when that of the original stands at cur. */
  function Mapped(cur: Cursor): Cursor {
    Cursor(1 + Count(cur.taken, true), cur.pos, AllTaken(Count(cur.taken, true)))
  }

  lemma TakingIsAllTaken(taken: seq<bool>, n: nat)
    ensures Taking(taken, n) == taken + AllTaken(n)
  {
  }

  lemma AllTakenFrom(all: seq<bool>, i: nat, j: nat)
    requires i <= j <= |all| && forall k :: i <= k < j ==> all[k]
    ensures all[..j] == all[..i] + AllTaken(j - i)
  {
  }

  lemma StretchBegins(all: seq<bool>, taken: seq<bool>, n: nat)
    requires Leads(taken, all) && Stretch(all, |taken|, n + 1)
    ensures |taken| + n < |all| && all[|taken| + n] && all[..|taken| + n] == taken + AllTaken(n)
  {
    AllTakenFrom(all, |taken|, |taken| + n);
  }

  lemma PlaceOfTaken(all: seq<bool>, taken: seq<bool>, n: nat)
    requires Leads(taken, all) && Stretch(all, |taken|, n + 1)
    ensures |taken| + n < |all| && PlaceOf(all, |taken| + n) == 1 + Count(taken, true) + n
  {
    hide Count, AllTaken, Leads, Stretch;
    StretchBegins(all, taken, n);
    CountMore(taken, n);
  }

  /** Elements that are taken follow each other in the permuted vector. */
  lemma TakenInOrder(args: seq<string>, all: seq<bool>, taken: seq<bool>, n: nat)
    requires |all| < |args| && Leads(taken, all) && Stretch(all, |taken|, n + 1)
    ensures |taken| + n < |all| && 1 + Count(taken, true) + n < |args|
    ensures Partitioned(args, all)[1 + Count(taken, true) + n] == args[|taken| + 1 + n]
  {
    hide Count, Partitioned, PlaceOf, Leads, Stretch;
    PlaceOfTaken(all, taken, n);
    PartitionPlaces(args, all, |taken| + n);
  }

  lemma SliceMore(p: seq<string>, d: nat, args: seq<string>, i: nat, n: nat)
    requires d + n < |p| && i + n < |args| && p[d..d + n] == args[i..i + n] && p[d + n] == args[i + n]
    ensures p[d..d + n + 1] == args[i..i + n + 1]
  {
    assert p[d..d + n + 1] == p[d..d + n] + [p[d + n]];
  }

  /** So a stretch of them stands side by side there ... */
  lemma {:induction false} StretchThere(args: seq<string>, all: seq<bool>, taken: seq<bool>, n: nat, p: seq<string>,
                                        i: nat, d: nat)
    requires |all| < |args| && Leads(taken, all) && Stretch(all, |taken|, n)
    requires p == Partitioned(args, all) && i == |taken| + 1 && d == 1 + Count(taken, true)
    ensures |p| == |args| && i + n <= |args| && d + n <= |args| && p[d..d + n] == args[i..i + n]
    decreases n
  {
    CountsAddUp(taken);
    hide Partitioned, Count, Leads;
    if n > 0 {
      StretchThere(args, all, taken, n - 1, p, i, d);
      TakenInOrder(args, all, taken, n - 1);
      hide Stretch;
      SliceMore(p, d, args, i, n - 1);
    }
  }

  /** ... and something skipped is behind it. */
  lemma RoomBehind(args: seq<string>, all: seq<bool>, taken: seq<bool>, n: nat)
    requires |all| < |args| && Leads(taken, all) && Stretch(all, |taken|, n) && Count(all, false) > 0
    ensures 1 + Count(taken, true) + n < |args|
  {
    hide Count;
    CountsAddUp(taken);
    if |all| == |taken| + n {
      AllTakenFrom(all, |taken|, |all|);
      assert all[..|all|] == all;
      CountMore(taken, n);
    }
  }

  predicate LacksAt(cfg: Config, args: seq<string>, c: Cursor)
    requires AtAnOption(cfg, args, c)
  {
    Lacks(cfg, args[c.i], OffsetAt(args[c.i], c.pos), args[c.i + 1..])
  }

  /** all is what the whole scan takes, and it takes what the step at c consumes. */
  ghost predicate Takes(cfg: Config, args: seq<string>, all: seq<bool>, c: Cursor) {
    && AtAnOption(cfg, args, c) && StepAt(cfg, args, c).report.ret != NO_MORE && |all| < |args|
    && Leads(c.taken, all) && Stretch(all, |c.taken|, Consumed(cfg, args, c))
  }

  lemma SameAhead(cfg: Config, args: seq<string>, all: seq<bool>, c: Cursor, n: nat, p: seq<string>, d: nat)
    requires Takes(cfg, args, all, c) && Count(all, false) > 0 && n == Consumed(cfg, args, c)
    requires p == Partitioned(args, all) && d == 1 + Count(c.taken, true)
    ensures |p| == |args| && c.i + n <= |args| && d + n < |args| && p[d..d + n] == args[c.i..c.i + n]
  {
    TakenHere(cfg, args, all, c);
    hide Takes, Count, Partitioned, Consumed, Leads, Stretch;
    RoomBehind(args, all, c.taken, n);
    StretchThere(args, all, c.taken, n, p, c.i, d);
  }

  lemma TakenHere(cfg: Config, args: seq<string>, all: seq<bool>, c: Cursor)
    requires Takes(cfg, args, all, c)
    ensures AtAnOption(cfg, args, c) && |all| < |args| && |c.taken| + 1 == c.i && Leads(c.taken, all)
            && Stretch(all, |c.taken|, Consumed(cfg, args, c))
    ensures StepAt(cfg, args, c).report.ret != NO_MORE
  {
  }

  lemma TailOf(p: seq<string>, d: nat, args: seq<string>, i: nat, n: nat)
    requires 0 < n && d + n <= |p| && i + n <= |args| && p[d..d + n] == args[i..i + n]
    ensures p[d] == args[i] && p[d + 1..][..n - 1] == args[i + 1..][..n - 1]
  {
    assert p[d..d + n][0] == args[i..i + n][0];
    assert p[d + 1..][..n - 1] == p[d..d + n][1..];
    assert args[i + 1..][..n - 1] == args[i..i + n][1..];
  }

  /** The option at d is that at c, and so are the elements behind it that its step uses up. */
  ghost predicate SameOption(cfg: Config, args: seq<string>, c: Cursor, p: seq<string>, d: Cursor) {
    && AtAnOption(cfg, args, c) && d.i < |p| && |d.taken| == d.i - 1 && d.pos == c.pos && p[d.i] == args[c.i]
    && var n := Used(StepAt(cfg, args, c), c.i);
       n < |p[d.i + 1..]| && n <= |args[c.i + 1..]| && p[d.i + 1..][..n] == args[c.i + 1..][..n]
  }

  lemma SameOptionSameStep(cfg: Config, args: seq<string>, c: Cursor, p: seq<string>, d: Cursor)
    requires cfg.Valid() && SameOption(cfg, args, c, p, d) && !LacksAt(cfg, args, c)
    ensures AtAnOption(cfg, p, d) && SameStep(StepAt(cfg, args, c), c.i, StepAt(cfg, p, d), d.i)
  {
    hide OptionStep, Lacks, Used, KindOf;
    CompleteStep(cfg, c.i, d.i, args[c.i], OffsetAt(args[c.i], c.pos), args[c.i + 1..], p[d.i + 1..]);
  }

  lemma SameSliceSameOption(cfg: Config, args: seq<string>, c: Cursor, p: seq<string>, d: Cursor, n: nat)
    requires AtAnOption(cfg, args, c) && n == Consumed(cfg, args, c) && |d.taken| == d.i - 1 && d.pos == c.pos
    requires c.i + n <= |args| && d.i + n < |p| && p[d.i..d.i + n] == args[c.i..c.i + n]
    ensures SameOption(cfg, args, c, p, d)
  {
    hide StepAt, AtAnOption;
    TailOf(p, d.i, args, c.i, n);
  }

  lemma MappedTo(c: Cursor)
    ensures var d := Mapped(c);
            d.i == 1 + Count(c.taken, true) && |d.taken| == d.i - 1 == Count(d.taken, true) && d.pos == c.pos
  {
    CountAllTaken(Count(c.taken, true));
  }

  lemma CountAllTaken(n: nat)
    ensures Count(AllTaken(n), true) == n && Count(AllTaken(n), false) == 0
  {
    assert [] + AllTaken(n) == AllTaken(n);
    CountMore([], n);
  }

  /** The option at c is found in the permuted vector. */
  lemma SameOptionThere(cfg: Config, args: seq<string>, all: seq<bool>, c: Cursor, p: seq<string>, d: Cursor)
    requires Takes(cfg, args, all, c) && Count(all, false) > 0 && p == Partitioned(args, all) && d == Mapped(c)
    ensures SameOption(cfg, args, c, p, d)
  {
    hide Takes, AtAnOption, Partitioned, Count, Consumed, SameOption, Mapped, StepAt, Leads, Stretch;
    TakenHere(cfg, args, all, c);
    MappedTo(c);
    var n := Consumed(cfg, args, c);
    SameAhead(cfg, args, all, c, n, p, d.i);
    SameSliceSameOption(cfg, args, c, p, d, n);
  }

  // ---- what a run takes ------------------------------------------------------------------------------------

  /** When all goes on from the cursor after the step, all takes what the step consumes. */
  lemma SteppedTakes(cfg: Config, args: seq<string>, all: seq<bool>, c: Cursor)
    requires cfg.Valid() && AtAnOption(cfg, args, c) && StepAt(cfg, args, c).report.ret != NO_MORE && |all| < |args|
    requires StepAt(cfg, args, c).i >= c.i && Leads(Stepped(cfg, args, c).taken, all)
    requires Stepped(cfg, args, c).pos != 0 ==> Stretch(all, Stepped(cfg, args, c).i - 1, 1)
    ensures Takes(cfg, args, all, c)
  {
    SteppedOn(cfg, args, c);
    assert |c.taken| == c.i - 1;
    hide Leads, Stretch, StepAt, AtAnOption, Stepped, Consumed;
    var next := Stepped(cfg, args, c);
    if next.i != c.i {
      StretchOf(all, c.taken, Consumed(cfg, args, c));
    }
  }

  /** A call that reports something, in a run that takes all. */
  lemma YieldTakes(cfg: Config, args: seq<string>, cur: Cursor, all: seq<bool>)
    requires Permutes(cfg) && cur.In(args) && Next(cfg, args, cur).Yield?
    requires Run(cfg, args, cur).end.Finished? && all == Run(cfg, args, cur).end.cur.taken
    ensures var c := SkipTo(cfg, args, cur);
            && Takes(cfg, args, all, c) && StepAt(cfg, args, c).i >= c.i
            && Next(cfg, args, cur) == Yield(StepAt(cfg, args, c).report, Stepped(cfg, args, c))
            && Mapped(c) == Mapped(cur)
  {
    var o, c := Next(cfg, args, cur), SkipTo(cfg, args, cur);
    NextTakes(cfg, args, cur);
    SkipsFirst(cfg, args, cur);
    ReportsConsume(cfg, args, cur);
    RunLeads(cfg, args, o.cur);
    hide Next, OptionStep, Count;
    SteppedOn(cfg, args, c);
    SteppedTakes(cfg, args, all, c);
  }

  // ---- call by call ---------------------------------------------------------------------------------------------

  lemma MappedStep(cfg: Config, args: seq<string>, c: Cursor, p: seq<string>, d: Cursor)
    requires cfg.Valid() && AtAnOption(cfg, args, c) && StepAt(cfg, args, c).report.ret != NO_MORE && d == Mapped(c)
    requires AtAnOption(cfg, p, d) && SameStep(StepAt(cfg, args, c), c.i, StepAt(cfg, p, d), d.i)
    ensures StepAt(cfg, args, c).i >= c.i && StepAt(cfg, p, d).i >= d.i
    ensures Stepped(cfg, p, d) == Mapped(Stepped(cfg, args, c))
  {
    hide StepAt, AtAnOption;
    SteppedOn(cfg, args, c);
    var n := StepAt(cfg, args, c).i - c.i;
    TakingIsAllTaken(c.taken, n);
    TakingIsAllTaken(d.taken, n);
    CountMore(c.taken, n);
    assert AllTaken(Count(c.taken, true)) + AllTaken(n) == AllTaken(Count(c.taken, true) + n);
  }

  /** A call that takes an option with all it asks for reports the same in the permuted vector. */
  lemma YieldThere(cfg: Config, args: seq<string>, all: seq<bool>, c: Cursor, p: seq<string>, d: Cursor)
    requires Permutes(cfg) && Takes(cfg, args, all, c) && !LacksAt(cfg, args, c) && StepAt(cfg, args, c).i >= c.i
    requires Count(all, false) > 0 && p == Partitioned(args, all) && d == Mapped(c)
    ensures AtAnOption(cfg, p, d)
    ensures Next(cfg, p, d) == Yield(StepAt(cfg, args, c).report, Mapped(Stepped(cfg, args, c)))
  {
    SameOptionThere(cfg, args, all, c, p, d);
    SameOptionSameStep(cfg, args, c, p, d);
    hide Next, StepAt, AtAnOption, SameOption, LacksAt, Count, Partitioned, Stepped, Mapped;
    MappedStep(cfg, args, c, p, d);
    TakeAt(cfg, p, d);
  }

  /** An option that lacks its argument is the last thing taken ... */
  lemma LackingIsLast(cfg: Config, args: seq<string>, all: seq<bool>, c: Cursor)
    requires cfg.Valid() && Takes(cfg, args, all, c) && LacksAt(cfg, args, c)
    ensures Used(StepAt(cfg, args, c), c.i) == |args[c.i + 1..]|
    ensures Count(all, true) == Count(c.taken, true) + Consumed(cfg, args, c)
  {
    LackingUsesAll(cfg, args, c);
    OptionStepInside(cfg, args, c);
    var n := Consumed(cfg, args, c);
    TakenHere(cfg, args, all, c);
    hide StepAt, AtAnOption, LacksAt, Takes, Count, AllTaken;
    assert |all| == |c.taken| + n;
    AllTakenFrom(all, |c.taken|, |all|);
    assert all[..|all|] == all;
    CountMore(c.taken, n);
  }

  lemma LackingUsesAll(cfg: Config, args: seq<string>, c: Cursor)
    requires cfg.Valid() && AtAnOption(cfg, args, c) && LacksAt(cfg, args, c)
    ensures Used(StepAt(cfg, args, c), c.i) >= |args[c.i + 1..]|
  {
    hide OptionStep, Lacks, KindOf;
    if Used(StepAt(cfg, args, c), c.i) < |args[c.i + 1..]| {
      OnlyTheLastLacks(cfg, c.i, args[c.i], OffsetAt(args[c.i], c.pos), args[c.i + 1..]);
    }
  }

  lemma OptionStepInside(cfg: Config, args: seq<string>, c: Cursor)
    requires AtAnOption(cfg, args, c)
    ensures StepAt(cfg, args, c).i <= |args|
  {
  }

  /** ... and takes more in the permuted vector. */
  lemma LackingThere(cfg: Config, args: seq<string>, all: seq<bool>, c: Cursor, p: seq<string>, d: Cursor)
    requires Permutes(cfg) && Takes(cfg, args, all, c) && LacksAt(cfg, args, c)
    requires Count(all, false) > 0 && p == Partitioned(args, all) && d == Mapped(c)
    ensures d.In(p) && Next(cfg, p, d).Yield? && Count(Next(cfg, p, d).cur.taken, true) > Count(all, true)
  {
    hide Permutes, Partitioned, StepAt, AtAnOption, LacksAt, SameOption, Next, Takes, Count, Taking, AllTaken,
        Consumed, Mapped;
    PermutesValid(cfg);
    TakenHere(cfg, args, all, c);
    SameOptionThere(cfg, args, all, c, p, d);
    LackingIsLast(cfg, args, all, c);
    LackingTakesMore(cfg, args, c, p, d);
    MappedTo(c);
    TakeAt(cfg, p, d);
    SteppedOn(cfg, p, d);
    CountTaking(d.taken, StepAt(cfg, p, d).i - d.i);
  }

  lemma CountTaking(taken: seq<bool>, n: nat)
    ensures Count(Taking(taken, n), true) == Count(taken, true) + n
  {
    TakingIsAllTaken(taken, n);
    CountMore(taken, n);
  }

  lemma LackingTakesMore(cfg: Config, args: seq<string>, c: Cursor, p: seq<string>, d: Cursor)
    requires cfg.Valid() && SameOption(cfg, args, c, p, d) && LacksAt(cfg, args, c)
    requires Used(StepAt(cfg, args, c), c.i) == |args[c.i + 1..]| && StepAt(cfg, args, c).report.ret != NO_MORE
    ensures AtAnOption(cfg, p, d) && StepAt(cfg, p, d).report.ret != NO_MORE
    ensures StepAt(cfg, p, d).i - d.i > Consumed(cfg, args, c)
  {
    var f, g := args[c.i + 1..], p[d.i + 1..];
    assert f[..|f|] == f && f < g;
    var a, pos := args[c.i], OffsetAt(args[c.i], c.pos);
    hide OptionStep, Lacks, KindOf;
    LackingUsesMore(cfg, c.i, d.i, a, pos, f, g);
  }

  /** Only skipped elements are ahead: the call skips them and moves nothing. */
  lemma {:induction false} SkipsTheRest(cfg: Config, p: seq<string>, d: Cursor)
    requires Permutes(cfg) && d.In(p) && d.pos == 0 && forall k :: d.i <= k < |p| ==> KindOf(cfg, p[k]).NonOption?
    ensures var o := Next(cfg, p, d);
            o.Finished? && Count(o.cur.taken, true) == Count(d.taken, true)
            && Partitioned(p, o.cur.taken) == Partitioned(p, d.taken)
    decreases |p| - d.i
  {
    if d.i < |p| {
      var next := Cursor(d.i + 1, 0, d.taken + [false]);
      SkipsTheRest(cfg, p, next);
      SkipMovesNothing(p, d.taken, next.taken);
    }
  }

  lemma {:induction false} SkippedPicks(cfg: Config, args: seq<string>, taken: seq<bool>)
    requires |taken| < |args| && SkippedAreNonOptions(cfg, args, taken)
    ensures forall x :: x in Pick(args, taken, false) ==> KindOf(cfg, x).NonOption?
  {
    if taken != [] {
      SkippedPicks(cfg, args, taken[..|taken| - 1]);
    }
  }

  /** What is behind the taken elements when the whole vector was scanned. */
  lemma SkippedBehind(cfg: Config, args: seq<string>, all: seq<bool>, p: seq<string>, k: nat)
    requires |all| + 1 == |args| && SkippedAreNonOptions(cfg, args, all) && p == Partitioned(args, all)
    requires 1 + Count(all, true) <= k < |p|
    ensures KindOf(cfg, p[k]).NonOption?
  {
    SkippedPicks(cfg, args, all);
    CountsAddUp(all);
    var t, s := Pick(args, all, true), Pick(args, all, false);
    assert t[..|t|] == t && t[|t|..] == [];
    assert p[k] == s[k - 1 - |t|];
  }

  lemma AllTakenMovesNothing(p: seq<string>, n: nat)
    requires n < |p|
    ensures Partitioned(p, AllTaken(n)) == p
  {
    CountAllTaken(n);
    NothingSkipped(p, AllTaken(n));
  }

  /** The scan of the permuted vector stands at cursor d when the other one ends. */
  lemma EndThere(cfg: Config, args: seq<string>, cur: Cursor, all: seq<bool>, p: seq<string>, d: Cursor)
    requires Permutes(cfg) && cur.In(args) && Next(cfg, args, cur).Finished? && all == Next(cfg, args, cur).cur.taken
    requires SkippedAreNonOptions(cfg, args, all) && p == Partitioned(args, all) && d == Mapped(cur) && d.In(p)
    ensures var o := Next(cfg, p, d);
            o.Finished? && Count(o.cur.taken, true) == Count(all, true) && Partitioned(p, o.cur.taken) == p
  {
    var c := SkipTo(cfg, args, cur);
    NextEnds(cfg, args, cur);
    SkipsFirst(cfg, args, cur);
    CountAllTaken(Count(cur.taken, true));
    if c.i == |args| && all == c.taken {
      forall k | d.i <= k < |p|
        ensures KindOf(cfg, p[k]).NonOption?
      {
        SkippedBehind(cfg, args, all, p, k);
      }
      hide KindOf, Partitioned, Count, Next;
      AllTakenMovesNothing(p, d.i - 1);
      SkipsTheRest(cfg, p, d);
    } else {
      TerminatorThere(cfg, args, c, all, p, d);
    }
  }

  lemma AtTerminator(cfg: Config, p: seq<string>, d: Cursor)
    requires cfg.Valid() && d.In(p) && d.pos == 0 && d.i < |p| && p[d.i] == "--"
    ensures Next(cfg, p, d) == Finished(Cursor(d.i + 1, 0, d.taken + [true]))
  {
  }

  lemma TerminatorThere(cfg: Config, args: seq<string>, c: Cursor, all: seq<bool>, p: seq<string>, d: Cursor)
    requires Permutes(cfg) && c.In(args) && c.pos == 0 && c.i < |args| && args[c.i] == "--" && all == c.taken + [true]
    requires p == Partitioned(args, all) && d == Mapped(c) && |all| < |args|
    ensures d.In(p)
    ensures var o := Next(cfg, p, d);
            o.Finished? && Count(o.cur.taken, true) == Count(all, true) && Partitioned(p, o.cur.taken) == p
  {
    var n := Count(c.taken, true);
    hide Partitioned, Count, Next, KindOf;
    assert [true] == AllTaken(1);
    CountMore(c.taken, 1);
    CountsAddUp(c.taken);
    TakenInOrder(args, all, c.taken, 0);
    AtTerminator(cfg, p, d);
    assert AllTaken(n) + [true] == AllTaken(n + 1);
    hide AllTaken;
    AllTakenMovesNothing(p, n + 1);
    CountAllTaken(n + 1);
  }

  // ---- whole runs ---------------------------------------------------------------------------------------------------

  /** Some option of the run lacks its argument: with one more element ahead it would take it. */
  predicate RunLacks(cfg: Config, args: seq<string>, cur: Cursor)
    requires Permutes(cfg) && cur.In(args)
    decreases ElementsLeft(args, cur), CharactersLeft(args, cur)
  {
    ReportsConsume(cfg, args, cur);
    var o, c := Next(cfg, args, cur), SkipTo(cfg, args, cur);
    o.Yield? && ((AtAnOption(cfg, args, c) && LacksAt(cfg, args, c)) || RunLacks(cfg, args, o.cur))
  }

  /** How the run in the permuted vector compares with the one that permuted it. */
  ghost predicate Repeats(cfg: Config, h: History, all: seq<bool>, p: seq<string>, d: Cursor)
    requires Permutes(cfg) && d.In(p)
  {
    var h2 := Run(cfg, p, d);
    h2.reports == h.reports && h2.end.Finished? && Count(h2.end.cur.taken, true) == Count(all, true)
    && Partitioned(p, h2.end.cur.taken) == p
  }

  ghost predicate TakesMore(cfg: Config, all: seq<bool>, p: seq<string>, d: Cursor)
    requires Permutes(cfg) && d.In(p)
  {
    Count(Run(cfg, p, d).end.cur.taken, true) > Count(all, true)
  }

  lemma OneCall(cfg: Config, args: seq<string>, cur: Cursor)
    requires Permutes(cfg) && cur.In(args)
    ensures var o, h := Next(cfg, args, cur), Run(cfg, args, cur);
            if o.Yield? then
              && h == History([o.report] + Run(cfg, args, o.cur).reports, Run(cfg, args, o.cur).end)
              && (|| ElementsLeft(args, o.cur) < ElementsLeft(args, cur)
                  || (ElementsLeft(args, o.cur) == ElementsLeft(args, cur)
                      && CharactersLeft(args, o.cur) < CharactersLeft(args, cur)))
            else h == History([], o)
  {
    hide Next;
    ReportsConsume(cfg, args, cur);
  }

  lemma CountLeads(a: seq<bool>, b: seq<bool>)
    requires Leads(a, b)
    ensures Count(a, true) <= Count(b, true)
  {
    assert b[..|b|] == b;
    CountMonotone(b, |a|, |b|, true);
  }

  lemma {:induction false} RunThere(cfg: Config, args: seq<string>, cur: Cursor, all: seq<bool>, p: seq<string>,
                                    d: Cursor)
    requires Permutes(cfg) && cur.In(args)
    requires Run(cfg, args, cur).end.Finished? && all == Run(cfg, args, cur).end.cur.taken
    requires Count(all, false) > 0 && SkippedAreNonOptions(cfg, args, all)
    requires p == Partitioned(args, all) && d == Mapped(cur) && d.In(p)
    ensures !RunLacks(cfg, args, cur) ==> Repeats(cfg, Run(cfg, args, cur), all, p, d)
    ensures RunLacks(cfg, args, cur) ==> TakesMore(cfg, all, p, d)
    decreases ElementsLeft(args, cur), CharactersLeft(args, cur)
  {
    hide Next, StepAt, AtAnOption, Takes, LacksAt, Stepped, SkippedAreNonOptions, Partitioned, Count, Mapped, SkipTo,
        Run;
    OneCall(cfg, args, cur);
    OneCall(cfg, p, d);
    var o, c := Next(cfg, args, cur), SkipTo(cfg, args, cur);
    if !o.Yield? {
      EndThere(cfg, args, cur, all, p, d);
    } else {
      YieldTakes(cfg, args, cur, all);
      TakenHere(cfg, args, all, c);
      if LacksAt(cfg, args, c) {
        LackingThere(cfg, args, all, c, p, d);
        RunLeads(cfg, p, Next(cfg, p, d).cur);
        CountLeads(Next(cfg, p, d).cur.taken, Run(cfg, p, d).end.cur.taken);
      } else {
        YieldThere(cfg, args, all, c, p, d);
        RunThere(cfg, args, o.cur, all, p, Next(cfg, p, d).cur);
      }
    }
  }

  /** Permuting keeps the meaning of a vector, and is idempotent. Scanning the permuted vector again
      gives the same reports, takes as many elements and leaves the vector as it is: if and only if
      nothing was skipped or no option lacks its argument. (An option that does would take a skipped
      element for it, as that stands behind it now.) */
  lemma RescanRepeats(cfg: Config, args: seq<string>)
    requires Permutes(cfg) && args != [] && Run(cfg, args, START).end.Finished?
    ensures START.In(args)
    ensures var h := Run(cfg, args, START);
            var all := h.end.cur.taken;
            var p := Partitioned(args, all);
            && START.In(p)
            && (Repeats(cfg, h, all, p, START) <==> Count(all, false) == 0 || !RunLacks(cfg, args, START))
  {
    hide Run, Partitioned, Count, Mapped, RunLacks, Permutes, SkippedAreNonOptions;
    PermutesValid(cfg);
    StartMapped(cfg, args);
    var all := Run(cfg, args, START).end.cur.taken;
    RunSkipsNonOptions(cfg, args, START);
    if Count(all, false) == 0 {
      NothingSkipped(args, all);
    } else {
      RunThere(cfg, args, START, all, Partitioned(args, all), START);
    }
  }

  lemma StartMapped(cfg: Config, args: seq<string>)
    requires args != []
    ensures START.In(args) && Mapped(START) == START && SkippedAreNonOptions(cfg, args, START.taken)
  {
    hide SkippedAreNonOptions;
    assert AllTaken(0) == [];
    NothingTaken(cfg, args);
  }

  lemma NothingTaken(cfg: Config, args: seq<string>)
    requires args != []
    ensures SkippedAreNonOptions(cfg, args, [])
  {
  }

  // ---- a vector on which the second scan differs ---------------------------------------------------------------

  /** Option o takes an argument; there are no long options. */
  const TAKES_ARGUMENT := Config("o:", Some([]), true, false, false)

  lemma OptionO(i: nat, following: seq<string>)
    ensures OptionStep(TAKES_ARGUMENT, i, "-o", 1, following)
         == if following == [] then Step(Complaint(BAD_CHAR, 'o' as int), i + 1, 0)
            else Step(Plainly('o' as int, Some(following[0])), i + 2, 0)
  {
    var cfg := TAKES_ARGUMENT;
    assert "o:"[0] == 'o' && "-o"[1] == 'o' && "-o"[2..] == "" && cfg.Letters() == "o:";
    assert StrChr("o:", 'o') == Some(0);
    var letters := After("o:", 'o');
    assert letters == ":" && [':'] <= letters && !("::" <= letters);
  }

  lemma OptionOAt(args: seq<string>, cur: Cursor)
    requires cur.In(args) && cur.pos == 0 && cur.i < |args| && args[cur.i] == "-o"
    ensures TAKES_ARGUMENT.Valid()
    ensures Next(TAKES_ARGUMENT, args, cur)
         == if cur.i + 1 == |args| then
              Yield(Complaint(BAD_CHAR, 'o' as int), Cursor(cur.i + 1, 0, cur.taken + [true]))
            else
              Yield(Plainly('o' as int, Some(args[cur.i + 1])), Cursor(cur.i + 2, 0, cur.taken + [true, true]))
  {
    OptionO(cur.i, args[cur.i + 1..]);
    assert Taking(cur.taken, 1) == cur.taken + [true] && Taking(cur.taken, 2) == cur.taken + [true, true];
    hide OptionStep, Taking;
  }

  lemma RunOfOne(args: seq<string>, cur: Cursor)
    requires cur.In(args) && TAKES_ARGUMENT.Valid() && Next(TAKES_ARGUMENT, args, cur).Yield?
    requires var c := Next(TAKES_ARGUMENT, args, cur).cur; c.pos == 0 && c.i == |args|
    ensures var o := Next(TAKES_ARGUMENT, args, cur);
            Run(TAKES_ARGUMENT, args, cur) == History([o.report], Finished(o.cur))
  {
    var o := Next(TAKES_ARGUMENT, args, cur);
    assert Next(TAKES_ARGUMENT, args, o.cur) == Finished(o.cur);
    hide Next;
    assert Run(TAKES_ARGUMENT, args, o.cur) == History([], Finished(o.cur));
  }

  /** "x" is skipped and "-o" lacks its argument; in the permuted vector "-o" takes "x" for it. */
  lemma SkippedIsTakenForArgument()
    ensures Permutes(TAKES_ARGUMENT)
    ensures var args := ["prog", "x", "-o"];
            var p := ["prog", "-o", "x"];
            && START.In(args) && START.In(p)
            && Run(TAKES_ARGUMENT, args, START)
               == History([Complaint(BAD_CHAR, 'o' as int)], Finished(Cursor(3, 0, [false, true])))
            && Partitioned(args, [false, true]) == p
            && Run(TAKES_ARGUMENT, p, START).reports == [Plainly('o' as int, Some("x"))]
  {
    var args, p := ["prog", "x", "-o"], ["prog", "-o", "x"];
    var next := Cursor(2, 0, [false]);
    assert "x"[0] != '-' && [] + [false] == [false] && [] + [true, true] == [true, true];
    OptionOAt(args, next);
    assert Next(TAKES_ARGUMENT, args, START) == Next(TAKES_ARGUMENT, args, next) by {
      assert KindOf(TAKES_ARGUMENT, args[1]).NonOption?;
      hide KindOf, OptionStep;
    }
    OptionOAt(p, START);
    hide Next, KindOf, Run, Partitioned;
    assert [false] + [true] == [false, true];
    RunOfOne(args, START);
    RunOfOne(p, START);
    SmallPartition(args, p);
  }

  lemma SmallPartition(args: seq<string>, p: seq<string>)
    requires args == ["prog", "x", "-o"] && p == ["prog", "-o", "x"]
    ensures Partitioned(args, [false, true]) == p
  {
    assert [false, true][..1] == [false] && [false][..0] == [];
    assert Pick(args, [false], true) == [] && Pick(args, [false], false) == ["x"];
    assert Pick(args, [false, true], true) == ["-o"] && Pick(args, [false, true], false) == ["x"];
    assert Count([false], true) == 0;
    hide Pick;
  }
}
