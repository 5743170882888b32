/** How a permuting scan goes from one option to the next, and what a whole run takes. */
module OptionSteps {
  import opened Basics
  import opened ScanSpec

  /** How many of the following elements a step that began in element i uses up. */
  function Used(s: Step, i: nat): nat {
    if s.i > i then s.i - i - 1 else 0
  }

  predicate Permutes(cfg: Config) {
    cfg.Valid() && cfg.Permuting() && !cfg.AllArgs()
  }

  lemma PermutesValid(cfg: Config)
    requires Permutes(cfg)
    ensures cfg.Valid()
  {
  }

  /** Where the scan stands when it has skipped what it can skip. */
  function SkipTo(cfg: Config, args: seq<string>, cur: Cursor): (c: Cursor)
    requires cur.In(args)
    ensures c.In(args) && c.i >= cur.i && cur.taken <= c.taken && c.pos == cur.pos && (cur.pos != 0 ==> c == cur)
    ensures c.pos == 0 && c.i < |args| ==> !KindOf(cfg, args[c.i]).NonOption?
    decreases |args| - cur.i
  {
    if cur.pos != 0 || cur.i == |args| || !KindOf(cfg, args[cur.i]).NonOption? then cur
    else SkipTo(cfg, args, Cursor(cur.i + 1, 0, cur.taken + [false]))
  }

  lemma {:induction false} SkipsFirst(cfg: Config, args: seq<string>, cur: Cursor)
    requires Permutes(cfg) && cur.In(args)
    ensures Next(cfg, args, cur) == Next(cfg, args, SkipTo(cfg, args, cur))
    ensures Count(SkipTo(cfg, args, cur).taken, true) == Count(cur.taken, true)
    decreases |args| - cur.i
  {
    if cur.pos == 0 && cur.i < |args| && KindOf(cfg, args[cur.i]).NonOption? {
      var c := Cursor(cur.i + 1, 0, cur.taken + [false]);
      SkipsFirst(cfg, args, c);
      assert c.taken[..|cur.taken|] == cur.taken;
    }
  }

  function OffsetAt(a: string, pos: nat): nat {
    if pos != 0 then pos else FirstOffset(a)
  }

  /** The scan stands at an option. */
  predicate AtAnOption(cfg: Config, args: seq<string>, c: Cursor) {
    && c.In(args) && c.i < |args| && OffsetAt(args[c.i], c.pos) < |args[c.i]|
    && (c.pos == 0 ==> KindOf(cfg, args[c.i]).OptionElement?)
  }

  function StepAt(cfg: Config, args: seq<string>, c: Cursor): Step
    requires AtAnOption(cfg, args, c)
  {
    OptionStep(cfg, c.i, args[c.i], OffsetAt(args[c.i], c.pos), args[c.i + 1..])
  }

  /** The cursor after the step at c. */
  function Stepped(cfg: Config, args: seq<string>, c: Cursor): Cursor
    requires AtAnOption(cfg, args, c) && StepAt(cfg, args, c).i >= c.i
  {
    var s := StepAt(cfg, args, c);
    Cursor(s.i, s.pos, Taking(c.taken, s.i - c.i))
  }

  /** A call that reports something took the option it skipped to. */
  lemma NextTakes(cfg: Config, args: seq<string>, cur: Cursor)
    requires Permutes(cfg) && cur.In(args) && Next(cfg, args, cur).Yield?
    ensures var c := SkipTo(cfg, args, cur);
            && AtAnOption(cfg, args, c) && StepAt(cfg, args, c).report.ret != NO_MORE && StepAt(cfg, args, c).i >= c.i
            && Next(cfg, args, cur) == Yield(StepAt(cfg, args, c).report, Stepped(cfg, args, c))
  {
    SkipsFirst(cfg, args, cur);
    hide OptionStep;
  }

  lemma TakeAt(cfg: Config, args: seq<string>, c: Cursor)
    requires Permutes(cfg) && AtAnOption(cfg, args, c) && StepAt(cfg, args, c).report.ret != NO_MORE
    ensures c.In(args)
    ensures StepAt(cfg, args, c).i >= c.i
    ensures Next(cfg, args, c) == Yield(StepAt(cfg, args, c).report, Stepped(cfg, args, c))
  {
    hide OptionStep;
  }

  /** A call that reports nothing found the end of the vector, "--" or a loose dash there. */
  lemma NextEnds(cfg: Config, args: seq<string>, cur: Cursor)
    requires Permutes(cfg) && cur.In(args) && !Next(cfg, args, cur).Yield?
    ensures var c, o := SkipTo(cfg, args, cur), Next(cfg, args, cur);
            || (c.pos == 0 && c.i == |args| && o == Finished(c))
            || (c.pos == 0 && c.i < |args| && args[c.i] == "--" && o == Finished(Cursor(c.i + 1, 0, c.taken + [true])))
            || (o.Stuck? && o.cur.taken == c.taken)
  {
    SkipsFirst(cfg, args, cur);
    hide OptionStep;
  }

  // ---- what a run takes ------------------------------------------------------------------------

  /** The scan went on from taken to all. */
  predicate Leads(taken: seq<bool>, all: seq<bool>) {
    |taken| <= |all| && all[..|taken|] == taken
  }

  /** The n elements from here on are taken. */
  predicate Stretch(all: seq<bool>, i: nat, n: nat) {
    i + n <= |all| && forall k :: i <= k < i + n ==> all[k]
  }

  lemma StretchOf(all: seq<bool>, taken: seq<bool>, n: nat)
    requires Leads(Taking(taken, n), all)
    ensures Leads(taken, all) && Stretch(all, |taken|, n)
  {
    var t := Taking(taken, n);
    assert all[..|taken|] == t[..|taken|] == taken;
    assert forall k :: |taken| <= k < |taken| + n ==> t[k] && all[k] == t[k];
  }

  lemma LeadsOn(a: seq<bool>, b: seq<bool>, c: seq<bool>)
    requires Leads(a, b) && Leads(b, c)
    ensures Leads(a, c)
  {
    assert c[..|a|] == b[..|a|];
  }

  lemma LeadsMore(taken: seq<bool>, x: bool)
    ensures Leads(taken, taken) && Leads(taken, taken + [x])
  {
  }

  lemma SkipLeads(cfg: Config, args: seq<string>, cur: Cursor)
    requires cur.In(args)
    ensures var c := SkipTo(cfg, args, cur);
            Leads(cur.taken, c.taken) && (cur.pos != 0 ==> c == cur && c.pos != 0) && |c.taken| == c.i - 1
  {
  }

  /** What the step uses up, and the option itself. */
  function Consumed(cfg: Config, args: seq<string>, c: Cursor): nat
    requires AtAnOption(cfg, args, c)
  {
    1 + Used(StepAt(cfg, args, c), c.i)
  }

  lemma SteppedOn(cfg: Config, args: seq<string>, c: Cursor)
    requires cfg.Valid() && AtAnOption(cfg, args, c) && StepAt(cfg, args, c).report.ret != NO_MORE
    ensures StepAt(cfg, args, c).i >= c.i
    ensures var next := Stepped(cfg, args, c);
            && next.taken == Taking(c.taken, next.i - c.i)
            && if next.i == c.i then next.pos != 0 && next.taken == c.taken && Consumed(cfg, args, c) == 1
               else Consumed(cfg, args, c) == next.i - c.i
  {
    hide OptionStep;
    assert Taking(c.taken, 0) == c.taken;
  }

  lemma StepLeads(cur: Cursor, c: Cursor, next: Cursor, all: seq<bool>, finished: bool)
    requires Leads(cur.taken, c.taken) && (cur.pos != 0 ==> c == cur) && |c.taken| == c.i - 1 && next.i >= c.i
    requires next.taken == Taking(c.taken, next.i - c.i) && (next.i == c.i ==> next.pos != 0)
    requires Leads(next.taken, all) && (finished && next.pos != 0 ==> Stretch(all, next.i - 1, 1))
    ensures Leads(cur.taken, all) && (finished && cur.pos != 0 ==> Stretch(all, cur.i - 1, 1))
  {
    StretchOf(all, c.taken, next.i - c.i);
    LeadsOn(cur.taken, c.taken, all);
  }

  /** What a run took and skipped stays so, and an element that it stands in will be taken. */
  lemma {:induction false} RunLeads(cfg: Config, args: seq<string>, cur: Cursor)
    requires Permutes(cfg) && cur.In(args)
    ensures var end := Run(cfg, args, cur).end;
            && Leads(cur.taken, end.cur.taken)
            && (cur.pos != 0 && end.Finished? ==> Stretch(end.cur.taken, cur.i - 1, 1))
    decreases ElementsLeft(args, cur), CharactersLeft(args, cur)
  {
    hide Next, StepAt, AtAnOption, OptionStep, Leads, Stretch, Taking, SkipTo, Permutes;
    PermutesValid(cfg);
    ReportsConsume(cfg, args, cur);
    SkipLeads(cfg, args, cur);
    var o, c := Next(cfg, args, cur), SkipTo(cfg, args, cur);
    if o.Yield? {
      NextTakes(cfg, args, cur);
      SteppedOn(cfg, args, c);
      RunLeads(cfg, args, o.cur);
      var end := Run(cfg, args, cur).end;
      StepLeads(cur, c, o.cur, end.cur.taken, end.Finished?);
    } else {
      NextEnds(cfg, args, cur);
      LeadsMore(c.taken, true);
      LeadsOn(cur.taken, c.taken, o.cur.taken);
    }
  }
}
