/** Whole runs of the scanner: the caller's loop, and what it leaves in the vector. */
module GetoptRun {
  import opened Basics
  import opened ScanSpec
  import opened OptionSteps
  import opened Arrangement
  import opened Getopt

  // ---- the partition is stable -------------------------------------------------------------

  /** Where the k-th scanned element, args[k + 1], ends up. */
  function PlaceOf(taken: seq<bool>, k: nat): (p: nat)
    requires k < |taken|
  {
    if taken[k] then 1 + Count(taken[..k], true)
    else 1 + Count(taken, true) + Count(taken[..k], false)
  }

  lemma {:induction false} PickAt<T>(args: seq<T>, taken: seq<bool>, k: nat)
    requires |taken| < |args| && k < |taken|
    ensures var r := Pick(args, taken, taken[k]);
            Count(taken[..k], taken[k]) < |r| && r[Count(taken[..k], taken[k])] == args[k + 1]
  {
    var n := |taken| - 1;
    if k < n {
      PickAt(args, taken[..n], k);
      assert taken[..n][..k] == taken[..k];
    }
  }

  lemma {:induction false} CountMonotone(taken: seq<bool>, j: nat, k: nat, want: bool)
    requires j <= k <= |taken|
    ensures Count(taken[..j], want) <= Count(taken[..k], want)
    ensures j < k && taken[j] == want ==> Count(taken[..j], want) < Count(taken[..k], want)
    decreases k
  {
    if j < k {
      CountMonotone(taken, j, k - 1, want);
      assert taken[..k][..k - 1] == taken[..k - 1];
    }
  }

  /** Every scanned element is at its place in the partition. */
  lemma PartitionPlaces<T>(args: seq<T>, taken: seq<bool>, k: nat)
    requires |taken| < |args| && k < |taken|
    ensures 1 <= PlaceOf(taken, k) <= |taken|
    ensures Partitioned(args, taken)[PlaceOf(taken, k)] == args[k + 1]
  {
    hide Count;
    PickAt(args, taken, k);
    CountsAddUp(taken);
    var t, s := Pick(args, taken, true), Pick(args, taken, false);
    assert t[..|t|] == t && t[|t|..] == [];
  }

  /** Order is kept among taken and among skipped elements, and all taken come first. */
  lemma PartitionIsStable(taken: seq<bool>, j: nat, k: nat)
    requires j < k < |taken|
    ensures taken[j] == taken[k] ==> PlaceOf(taken, j) < PlaceOf(taken, k)
    ensures taken[j] && !taken[k] ==> PlaceOf(taken, j) < PlaceOf(taken, k)
    ensures !taken[j] && taken[k] ==> PlaceOf(taken, k) < PlaceOf(taken, j)
  {
    hide Count;
    assert taken[..|taken|] == taken;
    CountMonotone(taken, j, k, taken[j]);
    CountMonotone(taken, j, |taken|, taken[j]);
    CountMonotone(taken, k, |taken|, taken[k]);
  }

  // ---- which elements are skipped, and how a run ends -----------------------------------------

  /** What was skipped are non-options, and only a permuting scan skips. */
  ghost predicate SkippedAreNonOptions(cfg: Config, args: seq<string>, taken: seq<bool>)
    requires |taken| < |args|
  {
    forall k :: 0 <= k < |taken| && !taken[k] ==>
      KindOf(cfg, args[k + 1]).NonOption? && cfg.Permuting() && !cfg.AllArgs()
  }

  lemma {:induction false} NextSkipsNonOptions(cfg: Config, args: seq<string>, cur: Cursor)
    requires cfg.Valid() && cur.In(args) && SkippedAreNonOptions(cfg, args, cur.taken)
    ensures SkippedAreNonOptions(cfg, args, Next(cfg, args, cur).cur.taken)
    decreases |args| - cur.i
  {
    if cur.pos == 0 && cur.i < |args| && KindOf(cfg, args[cur.i]).NonOption? && cfg.Permuting() && !cfg.AllArgs() {
      NextSkipsNonOptions(cfg, args, Cursor(cur.i + 1, 0, cur.taken + [false]));
    }
  }

  lemma {:induction false} RunSkipsNonOptions(cfg: Config, args: seq<string>, cur: Cursor)
    requires cfg.Valid() && cur.In(args) && SkippedAreNonOptions(cfg, args, cur.taken)
    ensures SkippedAreNonOptions(cfg, args, Run(cfg, args, cur).end.cur.taken)
    decreases ElementsLeft(args, cur), CharactersLeft(args, cur)
  {
    NextSkipsNonOptions(cfg, args, cur);
    ReportsConsume(cfg, args, cur);
    var o := Next(cfg, args, cur);
    if o.Yield? {
      RunSkipsNonOptions(cfg, args, o.cur);
    }
  }

  /** A '-' at offset pos that ends element a and that nothing consumes: there is no table of long
      options, and it is not an option letter. */
  predicate IsLooseDash(cfg: Config, a: string, pos: nat) {
    pos + 1 == |a| && a[pos] == '-' && '-' !in cfg.Letters() && cfg.table.None?
  }

  /** How a call can return -1: at the end of the vector; behind "--"; at a non-option that may
      not be skipped; or at a loose dash. */
  lemma {:induction false} NoMoreMeans(cfg: Config, args: seq<string>, cur: Cursor)
    requires cfg.Valid() && cur.In(args)
    ensures match Next(cfg, args, cur)
            case Yield(report, c) => report.ret != NO_MORE
            case Finished(c) => c.pos == 0 && (c.i == |args| || (c.i > 1 && args[c.i - 1] == "--"))
            case Stopped(c) => c.pos == 0 && c.i < |args| && KindOf(cfg, args[c.i]).NonOption? && !cfg.Permuting()
            case Stuck(c) =>
              c.pos == 0 && c.i < |args| && |args[c.i]| >= 2 && IsLooseDash(cfg, args[c.i], |args[c.i]| - 1)
    decreases |args| - cur.i
  {
    if cur.pos == 0 && cur.i < |args| {
      if KindOf(cfg, args[cur.i]).NonOption? && cfg.Permuting() && !cfg.AllArgs() {
        NoMoreMeans(cfg, args, Cursor(cur.i + 1, 0, cur.taken + [false]));
      }
    }
  }

  /** A call that stands at a loose dash inside an element is stuck, and only such a call. */
  lemma {:induction false} StuckExactly(cfg: Config, args: seq<string>, cur: Cursor)
    requires cfg.Valid() && cur.In(args)
    ensures Next(cfg, args, cur).Stuck? <==> cur.pos != 0 && IsLooseDash(cfg, args[cur.i], cur.pos)
    decreases |args| - cur.i
  {
    if cur.pos == 0 && cur.i < |args| && KindOf(cfg, args[cur.i]).NonOption? && cfg.Permuting() && !cfg.AllArgs() {
      StuckExactly(cfg, args, Cursor(cur.i + 1, 0, cur.taken + [false]));
    }
  }

  /** getopt_long with a table: a run ends behind "--", at the end of the vector, or, when not
      permuting, at the first non-option. */
  lemma {:induction false} TableNeverStuck(cfg: Config, args: seq<string>, cur: Cursor)
    requires cfg.Valid() && cur.In(args) && cfg.table.Some?
    ensures !Run(cfg, args, cur).end.Stuck?
    decreases ElementsLeft(args, cur), CharactersLeft(args, cur)
  {
    NoMoreMeans(cfg, args, cur);
    ReportsConsume(cfg, args, cur);
    var o := Next(cfg, args, cur);
    if o.Yield? {
      TableNeverStuck(cfg, args, o.cur);
    }
  }

  // ---- which elements are taken -----------------------------------------------------------------

  /** The call that begins at cur takes an option and with it element k + 1, as its argument when
      `behind` is set, and as the option's own element otherwise. */
  predicate CallTakes(cfg: Config, args: seq<string>, cur: Cursor, k: nat, behind: bool)
    requires Permutes(cfg) && cur.In(args)
  {
    var c := SkipTo(cfg, args, cur);
    && Next(cfg, args, cur).Yield? && AtAnOption(cfg, args, c) && StepAt(cfg, args, c).i > c.i
    && if behind then c.i < k + 1 <= c.i + Used(StepAt(cfg, args, c), c.i) else k + 1 == c.i
  }

  /** The call that begins at cur finds "--" in element k + 1. */
  predicate CallTerminates(cfg: Config, args: seq<string>, cur: Cursor, k: nat)
    requires Permutes(cfg) && cur.In(args)
  {
    var c := SkipTo(cfg, args, cur);
    c.pos == 0 && k + 1 == c.i < |args| && args[c.i] == "--"
  }

  /** Some call of the run takes element k + 1 like this. */
  predicate RunTakes(cfg: Config, args: seq<string>, cur: Cursor, k: nat, behind: bool)
    requires Permutes(cfg) && cur.In(args)
    decreases ElementsLeft(args, cur), CharactersLeft(args, cur)
  {
    ReportsConsume(cfg, args, cur);
    var o := Next(cfg, args, cur);
    o.Yield? && (CallTakes(cfg, args, cur, k, behind) || RunTakes(cfg, args, o.cur, k, behind))
  }

  predicate RunTerminates(cfg: Config, args: seq<string>, cur: Cursor, k: nat)
    requires Permutes(cfg) && cur.In(args)
    decreases ElementsLeft(args, cur), CharactersLeft(args, cur)
  {
    ReportsConsume(cfg, args, cur);
    var o := Next(cfg, args, cur);
    if o.Yield? then RunTerminates(cfg, args, o.cur, k) else CallTerminates(cfg, args, cur, k)
  }

  /** What was taken when a run has ended, from the elements that were ahead of cur. */
  predicate NewlyTaken(cur: Cursor, all: seq<bool>, k: nat) {
    |cur.taken| <= k < |all| && all[k]
  }

  lemma CallTaken(cfg: Config, args: seq<string>, cur: Cursor, all: seq<bool>, k: nat)
    requires Permutes(cfg) && cur.In(args) && Next(cfg, args, cur).Yield? && Leads(Next(cfg, args, cur).cur.taken, all)
    ensures NewlyTaken(cur, all, k) <==>
              || CallTakes(cfg, args, cur, k, false) || CallTakes(cfg, args, cur, k, true)
              || NewlyTaken(Next(cfg, args, cur).cur, all, k)
  {
    NextTakes(cfg, args, cur);
    var c, o := SkipTo(cfg, args, cur), Next(cfg, args, cur);
    SteppedOn(cfg, args, c);
    SkippedNotTaken(cfg, args, cur);
    hide Next, StepAt, AtAnOption;
    assert |all| >= |o.cur.taken| && forall j :: 0 <= j < |o.cur.taken| ==> all[j] == o.cur.taken[j] by {
      assert forall j :: 0 <= j < |o.cur.taken| ==> all[..|o.cur.taken|][j] == o.cur.taken[j];
    }
  }

  lemma {:induction false} SkippedNotTaken(cfg: Config, args: seq<string>, cur: Cursor)
    requires cur.In(args)
    ensures var c := SkipTo(cfg, args, cur);
            |cur.taken| <= |c.taken| && forall k :: |cur.taken| <= k < |c.taken| ==> !c.taken[k]
    decreases |args| - cur.i
  {
    if cur.pos == 0 && cur.i < |args| && KindOf(cfg, args[cur.i]).NonOption? {
      SkippedNotTaken(cfg, args, Cursor(cur.i + 1, 0, cur.taken + [false]));
    }
  }

  lemma LastTaken(cfg: Config, args: seq<string>, cur: Cursor, k: nat)
    requires Permutes(cfg) && cur.In(args) && !Next(cfg, args, cur).Yield?
    ensures NewlyTaken(cur, Next(cfg, args, cur).cur.taken, k) <==> CallTerminates(cfg, args, cur, k)
  {
    NextEnds(cfg, args, cur);
    SkippedNotTaken(cfg, args, cur);
    if Next(cfg, args, cur).Stuck? {
      LooseDashIsNoTerminator(cfg, args, cur, k);
    }
    var c := SkipTo(cfg, args, cur);
    assert |c.taken| == c.i - 1;
    hide Next, SkipTo, KindOf, Permutes;
  }

  lemma LooseDashIsNoTerminator(cfg: Config, args: seq<string>, cur: Cursor, k: nat)
    requires Permutes(cfg) && cur.In(args) && Next(cfg, args, cur).Stuck?
    ensures !CallTerminates(cfg, args, cur, k)
  {
    SkipsFirst(cfg, args, cur);
  }

  /** Exactly these elements are taken: those of the options that the calls of the run take, those that
      their steps use up as arguments, and "--". */
  lemma {:induction false} TakenExactly(cfg: Config, args: seq<string>, cur: Cursor, k: nat)
    requires Permutes(cfg) && cur.In(args)
    ensures NewlyTaken(cur, Run(cfg, args, cur).end.cur.taken, k) <==>
              || RunTakes(cfg, args, cur, k, false) || RunTakes(cfg, args, cur, k, true)
              || RunTerminates(cfg, args, cur, k)
    decreases ElementsLeft(args, cur), CharactersLeft(args, cur)
  {
    hide Next, NewlyTaken, CallTakes, CallTerminates, Permutes, Leads;
    PermutesValid(cfg);
    ReportsConsume(cfg, args, cur);
    var o := Next(cfg, args, cur);
    if o.Yield? {
      RunLeads(cfg, args, o.cur);
      CallTaken(cfg, args, cur, Run(cfg, args, cur).end.cur.taken, k);
      TakenExactly(cfg, args, o.cur, k);
    } else {
      LastTaken(cfg, args, cur, k);
    }
  }

  /** The elements of the options themselves are options. */
  lemma {:induction false} OwnElementsAreOptions(cfg: Config, args: seq<string>, cur: Cursor, k: nat)
    requires Permutes(cfg) && cur.In(args) && RunTakes(cfg, args, cur, k, false)
    requires cur.pos != 0 ==> KindOf(cfg, args[cur.i]).OptionElement?
    ensures k + 1 < |args| && KindOf(cfg, args[k + 1]).OptionElement?
    decreases ElementsLeft(args, cur), CharactersLeft(args, cur)
  {
    ReportsConsume(cfg, args, cur);
    NextTakes(cfg, args, cur);
    var o, c := Next(cfg, args, cur), SkipTo(cfg, args, cur);
    SteppedOn(cfg, args, c);
    StandsInside(cfg, args, c);
    if !CallTakes(cfg, args, cur, k, false) {
      hide Next, StepAt, AtAnOption, KindOf, CallTakes;
      OwnElementsAreOptions(cfg, args, o.cur, k);
    }
  }

  lemma StandsInside(cfg: Config, args: seq<string>, c: Cursor)
    requires Permutes(cfg) && AtAnOption(cfg, args, c) && StepAt(cfg, args, c).report.ret != NO_MORE
    ensures Stepped(cfg, args, c).pos != 0 ==> Stepped(cfg, args, c).i == c.i
  {
    hide OptionStep;
  }

  /** getopt_long in permuting mode, until it returns -1: the run ends behind "--" or at the end of
      the vector; what it skipped are non-options; what it took are exactly the options, the elements
      that the option in front of them uses up, and "--"; and a non-option among these is used up. */
  lemma PermutingRunPartitions(cfg: Config, args: seq<string>, k: nat)
    requires Permutes(cfg) && cfg.table.Some? && args != []
    ensures START.In(args)
    ensures var h := Run(cfg, args, START);
            var c := h.end.cur;
            && h.end == Finished(c) && (c.i == |args| || args[c.i - 1] == "--")
            && SkippedAreNonOptions(cfg, args, c.taken)
            && (k < |c.taken| && c.taken[k] <==>
                  || RunTakes(cfg, args, START, k, false) || RunTakes(cfg, args, START, k, true)
                  || RunTerminates(cfg, args, START, k))
            && (k < |c.taken| && c.taken[k] && KindOf(cfg, args[k + 1]).NonOption? ==>
                  RunTakes(cfg, args, START, k, true))
  {
    TableNeverStuck(cfg, args, START);
    RunSkipsNonOptions(cfg, args, START);
    TakenExactly(cfg, args, START, k);
    RunFinishes(cfg, args, START);
    if RunTakes(cfg, args, START, k, false) {
      OwnElementsAreOptions(cfg, args, START, k);
    }
    if RunTerminates(cfg, args, START, k) {
      TerminatorIsNoNonOption(cfg, args, START, k);
    }
    hide SkippedAreNonOptions, Next, RunTakes, RunTerminates, KindOf;
  }

  lemma {:induction false} TerminatorIsNoNonOption(cfg: Config, args: seq<string>, cur: Cursor, k: nat)
    requires Permutes(cfg) && cur.In(args) && RunTerminates(cfg, args, cur, k)
    ensures k + 1 < |args| && KindOf(cfg, args[k + 1]).Terminator?
    decreases ElementsLeft(args, cur), CharactersLeft(args, cur)
  {
    ReportsConsume(cfg, args, cur);
    var o := Next(cfg, args, cur);
    if o.Yield? {
      TerminatorIsNoNonOption(cfg, args, o.cur, k);
    }
  }

  lemma {:induction false} RunFinishes(cfg: Config, args: seq<string>, cur: Cursor)
    requires cfg.Valid() && cur.In(args) && cfg.Permuting()
    ensures var end := Run(cfg, args, cur).end;
            end.Stuck? || (end.Finished? && (end.cur.i == |args| || args[end.cur.i - 1] == "--"))
    decreases ElementsLeft(args, cur), CharactersLeft(args, cur)
  {
    hide Next;
    NoMoreMeans(cfg, args, cur);
    ReportsConsume(cfg, args, cur);
    var o := Next(cfg, args, cur);
    if o.Yield? {
      RunFinishes(cfg, args, o.cur);
    }
  }

  /** Without a table the run can end early: "-a-" reports 'a', then -1 with optind still on it
      and an option behind it unseen; the next call would report 'a' again. */
  lemma LooseDashEndsTheRun()
    ensures var cfg := Config("ab", None, true, false, false);
            var args := ["prog", "-a-", "-b"];
            var h := Run(cfg, args, START);
            && h.reports == [Plainly('a' as int, None)] && h.end == Stuck(START)
            && Next(cfg, args, h.end.cur) == Next(cfg, args, START)
  {
    var cfg := Config("ab", None, true, false, false);
    var args := ["prog", "-a-", "-b"];
    var c := Cursor(1, 2, []);
    LetterBeforeLooseDash(cfg, args[2..]);
    assert [] + seq(0, _ => true) == [];
    assert Next(cfg, args, START) == Yield(Plainly('a' as int, None), c);
    hide ShortStep;
    assert Next(cfg, args, c) == Stuck(START) by {
      StuckExactly(cfg, args, c);
    }
    hide Next;
    assert Run(cfg, args, c) == History([], Stuck(START));
  }

  lemma LetterBeforeLooseDash(cfg: Config, following: seq<string>)
    requires cfg == Config("ab", None, true, false, false)
    ensures ShortStep(cfg, 1, "-a-", 1, following) == Step(Plainly('a' as int, None), 1, 2)
  {
    assert "ab"[0] == 'a' && "-a-"[2..] == "-";
    assert StrChr("ab", 'a') == Some(0);
    var b := After("ab", 'a');
    assert cfg.Letters() == "ab" && b == "b" && b[0] == 'b' && !([':'] <= b);
  }

  // ---- the caller's loop --------------------------------------------------------------------

  /** What the caller finds after a call: its results, and the variables that this and earlier calls
      have written. */
  datatype Seen = Seen(ret: int, optarg: Option<string>, idx: Option<nat>, optopt: int, flags: map<nat, int>)

  /** optopt after these reports. */
  function OptOptAfter(reports: seq<Report>, optopt0: int): int {
    if reports == [] then optopt0
    else
      var r := reports[|reports| - 1];
      if r.optopt.Some? then r.optopt.value else OptOptAfter(reports[..|reports| - 1], optopt0)
  }

  /** The variables that long options point to, after these reports. */
  function FlagsAfter(reports: seq<Report>, flags0: map<nat, int>): map<nat, int> {
    if reports == [] then flags0
    else
      var r, before := reports[|reports| - 1], FlagsAfter(reports[..|reports| - 1], flags0);
      if r.flag.Some? then before[r.flag.value.0 := r.flag.value.1] else before
  }

  function SeenOf(reports: seq<Report>, optopt0: int, flags0: map<nat, int>): (r: seq<Seen>)
    ensures |r| == |reports|
  {
    if reports == [] then []
    else
      var r := reports[|reports| - 1];
      SeenOf(reports[..|reports| - 1], optopt0, flags0)
      + [Seen(r.ret, r.optarg, r.idx, OptOptAfter(reports, optopt0), FlagsAfter(reports, flags0))]
  }

  /** A run, one call at a time. */
  lemma RunByCalls(cfg: Config, args: seq<string>, cur: Cursor, before: seq<Report>)
    requires cfg.Valid() && cur.In(args)
    ensures var o, h := Next(cfg, args, cur), Run(cfg, args, cur);
            if o.Yield? then
              && o.report.ret != NO_MORE && h.end == Run(cfg, args, o.cur).end
              && before + h.reports == (before + [o.report]) + Run(cfg, args, o.cur).reports
              && (|| ElementsLeft(args, o.cur) < ElementsLeft(args, cur)
                  || (ElementsLeft(args, o.cur) == ElementsLeft(args, cur)
                      && CharactersLeft(args, o.cur) < CharactersLeft(args, cur)))
            else
              h.end == o && before + h.reports == before
  {
    hide Next;
    NoMoreMeans(cfg, args, cur);
    ReportsConsume(cfg, args, cur);
  }

  /** Without permutation nothing is ever moved. */
  lemma NothingMoves(s: Scanner)
    requires s.Valid() && (s.cfg.AllArgs() || !s.cfg.Permuting())
    ensures s.nargv[..] == s.args
  {
  }

  /** The scanner when a run that began with the vector args has ended. */
  ghost predicate RunEnded(s: Scanner, end: Outcome, args: seq<string>)
    requires end.cur.In(args)
    reads s, s.nargv
  {
    && s.Valid()
    && match end
       case Yield(_, _) => false
       case Finished(c) => s.nargv[..] == Partitioned(args, c.taken) && s.optind == Count(c.taken, true) + 1
       case Stopped(c) => s.nargv[..] == args && s.optind == c.i
       case Stuck(c) => s.args == args && s.optind == c.i
  }

  /** One call that returns -1 ends the run. */
  lemma LastCall(s: Scanner, args: seq<string>, cur: Cursor, ret: int, idx: Option<nat>, optopt0: int,
                 flags0: map<nat, int>)
    requires s.cfg.Valid() && cur.In(args) && !Next(s.cfg, args, cur).Yield?
    requires s.Ended(Next(s.cfg, args, cur), args, ret, idx, optopt0, flags0)
    ensures ret == NO_MORE && RunEnded(s, Run(s.cfg, args, cur).end, args)
  {
    hide Next, Partitioned;
    RunByCalls(s.cfg, args, cur, []);
    NoMoreMeans(s.cfg, args, cur);
    if Next(s.cfg, args, cur).Stopped? {
      StopsOnlyUnpermuted(s.cfg, args, cur);
      NothingMoves(s);
    }
  }

  lemma {:induction false} StopsOnlyUnpermuted(cfg: Config, args: seq<string>, cur: Cursor)
    requires cfg.Valid() && cur.In(args) && Next(cfg, args, cur).Stopped?
    ensures !cfg.Permuting()
  {
    NoMoreMeans(cfg, args, cur);
  }

  /** One call that does not return -1 goes on. */
  lemma OtherCall(s: Scanner, args: seq<string>, cur: Cursor, ret: int, idx: Option<nat>, optopt0: int,
                  flags0: map<nat, int>)
    requires s.cfg.Valid() && cur.In(args) && Next(s.cfg, args, cur).Yield?
    requires s.Ended(Next(s.cfg, args, cur), args, ret, idx, optopt0, flags0)
    ensures var r := Next(s.cfg, args, cur).report;
            ret == r.ret != NO_MORE && s.Reported(r, ret, idx, optopt0, flags0)
    ensures s.Valid() && s.args == args && s.cur == Next(s.cfg, args, cur).cur
  {
    hide Next;
    NoMoreMeans(s.cfg, args, cur);
  }

  /** One more report is one more entry. */
  lemma SeenMore(s: Scanner, reports: seq<Report>, r: Report, ret: int, idx: Option<nat>, optopt0: int,
                 flags0: map<nat, int>)
    requires s.Reported(r, ret, idx, OptOptAfter(reports, optopt0), FlagsAfter(reports, flags0))
    ensures s.optopt == OptOptAfter(reports + [r], optopt0) && s.flags == FlagsAfter(reports + [r], flags0)
    ensures SeenOf(reports + [r], optopt0, flags0)
         == SeenOf(reports, optopt0, flags0) + [Seen(ret, s.optarg, idx, s.optopt, s.flags)]
  {
    assert (reports + [r])[..|reports|] == reports;
  }

  /** A call that returns -1 writes no variable. */
  lemma NothingMoreWritten(s: Scanner, args: seq<string>, cur: Cursor, ret: int, idx: Option<nat>, optopt0: int,
                           flags0: map<nat, int>)
    requires s.cfg.Valid() && cur.In(args) && !Next(s.cfg, args, cur).Yield?
    requires s.Ended(Next(s.cfg, args, cur), args, ret, idx, optopt0, flags0)
    ensures s.optopt == optopt0 && s.flags == flags0 && s.optarg == None
  {
    hide Next, Partitioned;
  }

  /** Calling the scanner until it returns -1: the reports, with all that they write, are those of the
      vector read from left to right, and at the end the options are in front, in order, and optind
      behind them. */
  method ScanAll(s: Scanner) returns (seen: seq<Seen>)
    requires s.Valid() && s.cur == START
    modifies s, s.nargv
    ensures START.In(old(s.args)) && s.cfg.Valid()
    ensures seen == SeenOf(Run(s.cfg, old(s.args), START).reports, old(s.optopt), old(s.flags))
    ensures s.optopt == OptOptAfter(Run(s.cfg, old(s.args), START).reports, old(s.optopt))
    ensures s.flags == FlagsAfter(Run(s.cfg, old(s.args), START).reports, old(s.flags)) && s.optarg == None
    ensures RunEnded(s, Run(s.cfg, old(s.args), START).end, old(s.args))
  {
    hide Next, Run, RunEnded, Scanner.Ended, Scanner.Reported, SeenOf;
    ghost var cfg, args, reports := s.cfg, s.args, [];
    ghost var optopt0, flags0 := s.optopt, s.flags;
    seen := [];
    assert seen == SeenOf([], optopt0, flags0) by {
      NothingSeen(optopt0, flags0);
    }
    while true
      invariant s.Valid() && s.args == args && s.cur.In(args)
      invariant seen == SeenOf(reports, optopt0, flags0)
      invariant s.optopt == OptOptAfter(reports, optopt0) && s.flags == FlagsAfter(reports, flags0)
      invariant Run(cfg, args, START).reports == reports + Run(cfg, args, s.cur).reports
      invariant Run(cfg, args, START).end == Run(cfg, args, s.cur).end
      decreases ElementsLeft(args, s.cur), CharactersLeft(args, s.cur)
    {
      ghost var cur, optopt1, flags1 := s.cur, s.optopt, s.flags;
      RunByCalls(cfg, args, cur, reports);
      var ret, idx := s.GetoptInternal();
      if Next(cfg, args, cur).Yield? {
        OtherCall(s, args, cur, ret, idx, optopt1, flags1);
        SeenMore(s, reports, Next(cfg, args, cur).report, ret, idx, optopt0, flags0);
      } else {
        LastCall(s, args, cur, ret, idx, optopt1, flags1);
        NothingMoreWritten(s, args, cur, ret, idx, optopt1, flags1);
      }
      if ret == NO_MORE {
        break;
      }
      seen := seen + [Seen(ret, s.optarg, idx, s.optopt, s.flags)];
      reports := reports + [Next(cfg, args, cur).report];
    }
  }

  lemma NothingSeen(optopt0: int, flags0: map<nat, int>)
    ensures SeenOf([], optopt0, flags0) == []
  {
  }
}
