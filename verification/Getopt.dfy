/** The resumable scanner of wingetopt: `getopt_internal` and its static variables. */
module Getopt {
  import opened Basics
  import opened LongOptions
  import opened ScanSpec
  import opened Permute
  import opened Arrangement

  /** What nonopt_start and nonopt_end say: nothing was skipped, the block of skipped elements
      goes from ns up to the scan, or options were found behind the block [ns, ne). */
  datatype Block = NoBlock | Open(ns: int) | Closed(ns: int, ne: int)

  function BlockOf(ns: int, ne: int): Block {
    if ne != -1 then Closed(ns, ne) else if ns != -1 then Open(ns) else NoBlock
  }

  /** The vector v while the scan stands behind |taken| elements. */
  ghost predicate Layout(v: seq<string>, args: seq<string>, taken: seq<bool>, block: Block) {
    match block
    case NoBlock =>
      |taken| < |args| && Count(taken, false) == 0 && v == args
    case Open(ns) =>
      |taken| < |args| && Count(taken, false) > 0 && ns == Count(taken, true) + 1 && v == Partitioned(args, taken)
    case Closed(ns, ne) =>
      && |taken| < |args| && Count(taken, false) > 0 && 1 <= ns <= Count(taken, true) + 1
      && ne == ns + Count(taken, false) && v == Arranged(args, taken, ns - 1)
  }

  lemma LayoutStart(v: seq<string>, taken: seq<bool>, n: nat)
    requires n < |v| && taken == AllTaken(n)
    ensures Layout(v, v, taken, NoBlock)
  {
    CountMore([], n);
    assert [] + AllTaken(n) == taken;
  }

  /** Taking elements moves nothing. */
  lemma LayoutTake(v: seq<string>, args: seq<string>, taken: seq<bool>, taken': seq<bool>, n: nat, block: Block)
    requires Layout(v, args, taken, block) && |taken| + n < |args| && taken' == taken + AllTaken(n) && !block.Open?
    ensures Layout(v, args, taken', block)
  {
    if block.Closed? {
      TakeMovesNothing(args, taken, taken', n, block.ns - 1);
    } else {
      CountMore(taken, n);
    }
  }

  /** Skipping a non-option moves nothing while the block touches the scan, or is empty. */
  lemma LayoutSkip(v: seq<string>, args: seq<string>, taken: seq<bool>, taken': seq<bool>, block: Block, block': Block)
    requires Layout(v, args, taken, block) && |taken| + 1 < |args| && taken' == taken + [false] && !block.Closed?
    requires block' == if block.Open? then block else Open(|taken| + 1)
    ensures Layout(v, args, taken', block')
  {
    SkipMovesNothing(args, taken, taken');
    if block.NoBlock? {
      NothingSkipped(args, taken);
    }
  }

  /** Options are found behind an open block. */
  lemma LayoutClose(v: seq<string>, args: seq<string>, taken: seq<bool>, ns: int, ne: int)
    requires Layout(v, args, taken, Open(ns)) && ne == |taken| + 1
    ensures Layout(v, args, taken, Closed(ns, ne))
  {
    CountsAddUp(taken);
  }

  /** Exchanging the block with the taken elements behind it brings it up to the scan. */
  lemma LayoutPermute(v: seq<string>, w: seq<string>, args: seq<string>, taken: seq<bool>, ns: int, ne: int, i: int)
    requires Layout(v, args, taken, Closed(ns, ne)) && i == |taken| + 1
    requires ns < ne <= i <= |v| && w == Exchange(v, ns, ne, i)
    ensures Layout(w, args, taken, Open(i - (ne - ns)))
  {
    CountsAddUp(taken);
    ExchangePartitions(args, taken, ns - 1, ns, ne, i);
  }

  /** The block is where its bounds say, inside the scanned part, and what is ahead is untouched. */
  lemma LayoutBounds(v: seq<string>, args: seq<string>, taken: seq<bool>, block: Block, i: int)
    requires Layout(v, args, taken, block) && i == |taken| + 1
    ensures |v| == |args| && v[0] == args[0] && i <= |v| && v[i..] == args[i..]
    ensures i < |v| ==> v[i] == args[i] && v[i + 1..] == args[i + 1..]
    ensures block.Open? ==> 1 <= block.ns < i
    ensures block.Closed? ==> 1 <= block.ns < block.ne <= i
  {
    CountsAddUp(taken);
    assert i < |v| ==> v[i] == v[i..][0] == args[i] && v[i + 1..] == v[i..][1..];
  }

  /** A block that touches the scan, or is empty, leaves the vector partitioned. */
  lemma LayoutDone(v: seq<string>, args: seq<string>, taken: seq<bool>, block: Block, i: int)
    requires Layout(v, args, taken, block) && !block.Closed? && i == |taken| + 1
    ensures v == Partitioned(args, taken) && Count(taken, true) + 1 == if block.Open? then block.ns else i
  {
    CountsAddUp(taken);
    if block.NoBlock? {
      NothingSkipped(args, taken);
    }
  }

  /** An element the scanner can stop inside of. */
  predicate IsCluster(a: string) {
    |a| >= 2 && a[0] == '-' && a != "--"
  }

  class Scanner {
    const cfg: Config
    const nargv: array<string>      // nargv[nargc], read as None, is the terminating null
    var optind: nat
    var optarg: Option<string>
    var optopt: int
    var flags: map<nat, int>        // the variables long options point to
    var placeArg: string            // place points to placeArg[placePos]
    var placePos: nat
    var nonoptStart: int
    var nonoptEnd: int
    ghost var args: seq<string>     // the vector as it was when the scan started
    ghost var cur: Cursor

    predicate PlaceEmpty()
      reads this
    {
      placePos >= |placeArg|
    }

    /** The block that nonoptStart and nonoptEnd describe is where the vector has it. */
    ghost predicate InLayout()
      reads this`args, this`cur, this`nonoptStart, this`nonoptEnd, nargv
    {
      Layout(nargv[..], args, cur.taken, BlockOf(nonoptStart, nonoptEnd))
    }

    /** Nothing is skipped unless permuting, and options are found behind the block. */
    predicate BlockAllowed()
      reads this`nonoptStart
    {
      nonoptStart != -1 ==> cfg.Permuting() && !cfg.AllArgs()
    }

    /** Between calls. */
    ghost predicate Valid()
      reads this, nargv
    {
      match cur
      case Cursor(i, pos, taken) =>
        && InLayout() && i == optind && cfg.Valid() && cur.In(args) && BlockAllowed()
        && (nonoptEnd < optind || (optind < |args| && IsCluster(args[optind])))
        && if pos == 0 then PlaceEmpty() else
             placeArg == args[optind] && placePos == pos < |placeArg| && !BlockOf(nonoptStart, nonoptEnd).Open?
    }

    constructor (nargv: array<string>, cfg: Config)
      requires nargv.Length >= 1 && cfg.Valid()
      ensures Valid() && this.nargv == nargv && this.cfg == cfg && args == nargv[..] && cur == START
      ensures optind == 1 && optopt == BAD_CHAR && flags == map[] && optarg == None
    {
      this.nargv, this.cfg := nargv, cfg;
      optind, optarg, optopt, flags := 1, None, BAD_CHAR, map[];
      placeArg, placePos, nonoptStart, nonoptEnd := "", 0, -1, -1;
      args, cur := nargv[..], START;
    }

    /** The element at k, or null at the end of the vector. */
    function Arg(k: nat): Option<string>
      requires k <= nargv.Length
      reads this, nargv
    {
      if k < nargv.Length then Some(nargv[k]) else None
    }

    /** What a report says of the variables a caller reads, given two of them before the call. */
    ghost predicate Reported(r: Report, ret: int, idx: Option<nat>, optopt0: int, flags0: map<nat, int>)
      reads this`optarg, this`optopt, this`flags
    {
      && ret == r.ret && idx == r.idx && optarg == r.optarg
      && optopt == (if r.optopt.Some? then r.optopt.value else optopt0)
      && flags == (if r.flag.Some? then flags0[r.flag.value.0 := r.flag.value.1] else flags0)
    }

    /** The scan goes on at offset pos of the element at optind, or at the start of an element. */
    ghost predicate PlaceAt(pos: nat)
      reads this, nargv
    {
      if pos == 0 then PlaceEmpty() else
        optind < nargv.Length && placeArg == nargv[optind] && placePos == pos < |placeArg|
    }

    /** The scanner after a call that began with the vector args0 and ended with outcome o. */
    ghost predicate Ended(o: Outcome, args0: seq<string>, ret: int, idx: Option<nat>, optopt0: int,
                          flags0: map<nat, int>)
      requires o.cur.In(args0)
      reads this, nargv
    {
      match o
      case Yield(report, c) =>
        Valid() && Reported(report, ret, idx, optopt0, flags0) && args == args0 && cur == c
      case Finished(c) =>
        // the vector is partitioned, and scanning may resume at the first skipped element
        && Valid() && Reported(Plainly(NO_MORE, None), ret, idx, optopt0, flags0)
        && nargv[..] == args == Partitioned(args0, c.taken)
        && optind == Count(c.taken, true) + 1 && cur == Cursor(optind, 0, AllTaken(optind - 1))
      case Stopped(c) =>
        Valid() && Reported(Plainly(NO_MORE, None), ret, idx, optopt0, flags0) && args == args0 && cur == c
      case Stuck(c) =>
        Valid() && Reported(Plainly(NO_MORE, None), ret, idx, optopt0, flags0) && args == args0 && cur == c
    }

    /** The end of `parse_long_options`: row k of the table, with the argument after '=', if any;
        optind is already behind the option's element. */
    method AcceptLongOption(k: nat, o: LongOption, hasEqual: Option<string>, ghost following: seq<string>)
      returns (ret: int, idx: Option<nat>)
      requires 1 <= optind <= nargv.Length && optarg == None && following == nargv[optind..]
      modifies this`optind, this`optarg, this`optopt, this`flags
      ensures var s := RowStep(cfg, old(optind) - 1, k, o, hasEqual, following);
              Reported(s.report, ret, idx, old(optopt), old(flags)) && optind == s.i
    {
      if o.hasArg == NO_ARGUMENT && hasEqual.Some? {
        optopt := OptOptOf(o);
        return cfg.BadArg(), None;
      }
      if o.hasArg == REQUIRED_ARGUMENT || o.hasArg == OPTIONAL_ARGUMENT {
        if hasEqual.Some? {
          optarg := hasEqual;
        } else if o.hasArg == REQUIRED_ARGUMENT {
          optarg := Arg(optind);
          optind := optind + 1;
        }
      }
      if o.hasArg == REQUIRED_ARGUMENT && optarg == None {
        optopt := OptOptOf(o);
        optind := optind - 1;
        return cfg.BadArg(), None;
      }
      idx := Some(k);
      if o.flag.Some? {
        flags := flags[o.flag.value := o.val];
        ret := 0;
      } else {
        ret := o.val;
      }
    }

    /** `parse_long_options`, for the long option `text` that place points to. */
    method ParseLongOptions(text: string, shortToo: bool, ghost following: seq<string>)
        returns (ret: int, idx: Option<nat>)
      requires cfg.table.Some? && optind < nargv.Length && optarg == None && following == nargv[optind + 1..]
      modifies this`optind, this`optarg, this`optopt, this`flags
      ensures var s := LongStep(cfg, old(optind), text, following, shortToo);
              Reported(s.report, ret, idx, old(optopt), old(flags)) && optind == s.i
    {
      optind := optind + 1;
      var s := FindLongOption(cfg.table.value, KeyOf(text), shortToo);
      match s
      case Ambiguous =>
        optopt := 0;
        return BAD_CHAR, None;
      case NoMatch =>
        if shortToo {
          optind := optind - 1;
          return NO_MORE, None;
        }
        optopt := 0;
        return BAD_CHAR, None;
      case Match(k) =>
        ret, idx := AcceptLongOption(k, cfg.table.value[k], ArgumentIn(text), following);
    }

    /** "-W name": the rest of the element, or the next one, is a long option. */
    method ParseLongAfterW(ghost following: seq<string>) returns (ret: int, idx: Option<nat>)
      requires cfg.table.Some? && optind < nargv.Length && optarg == None && following == nargv[optind + 1..]
      requires placeArg == nargv[optind] && 0 < placePos <= |placeArg|
      modifies this`optind, this`optarg, this`optopt, this`flags, this`placeArg, this`placePos
      ensures var s := AfterW(cfg, old(optind), old(placeArg[placePos..]), following);
              Reported(s.report, ret, idx, old(optopt), old(flags)) && optind == s.i && PlaceAt(0)
    {
      ghost var ahead := following;
      if PlaceEmpty() {
        optind := optind + 1;
        if optind >= nargv.Length {
          placeArg, placePos := "", 0;
          optopt := 'W' as int;
          return cfg.BadArg(), None;
        }
        placeArg, placePos := nargv[optind], 0;
        ahead := following[1..];
      }
      ret, idx := ParseLongOptions(placeArg[placePos..], false, ahead);
      placeArg, placePos := "", 0;
    }

    /** The argument of option letter c: the rest of the element, or the next one unless the
        argument is optional. */
    method TakeArgument(c: char, isOptional: bool, ghost following: seq<string>) returns (ret: int)
      requires optind < nargv.Length && optarg == None && following == nargv[optind + 1..]
      requires placeArg == nargv[optind] && 0 < placePos <= |placeArg|
      modifies this`optind, this`optarg, this`optopt, this`placeArg, this`placePos
      ensures var s := Argument(cfg, old(optind), c, isOptional, old(placeArg[placePos..]), following);
              Reported(s.report, ret, None, old(optopt), old(flags)) && optind == s.i && PlaceAt(0)
    {
      if !PlaceEmpty() {
        optarg := Some(placeArg[placePos..]);
      } else if !isOptional {
        optind := optind + 1;
        if optind >= nargv.Length {
          placeArg, placePos := "", 0;
          optopt := c as int;
          return cfg.BadArg();
        }
        optarg := Some(nargv[optind]);
      }
      placeArg, placePos := "", 0;
      optind := optind + 1;
      return c as int;
    }

    /** The last part of `getopt_internal`: the option letter that place points to. */
    method ParseOptionLetter(ghost following: seq<string>) returns (ret: int, idx: Option<nat>)
      requires cfg.Valid() && optind < nargv.Length && optarg == None && following == nargv[optind + 1..]
      requires placeArg == nargv[optind] && placePos < |placeArg|
      modifies this`optind, this`optarg, this`optopt, this`flags, this`placeArg, this`placePos
      ensures var s := ShortStep(cfg, old(optind), old(placeArg), old(placePos), following);
              Reported(s.report, ret, idx, old(optopt), old(flags)) && optind == s.i && PlaceAt(s.pos)
    {
      var options := cfg.Letters();
      var c := placeArg[placePos];
      placePos := placePos + 1;
      if c == ':' || (c == '-' && !PlaceEmpty()) || c !in options {
        if c == '-' && PlaceEmpty() {
          return NO_MORE, None;
        }
        if PlaceEmpty() {
          optind := optind + 1;
        }
        optopt := c as int;
        return BAD_CHAR, None;
      }
      var oli := After(options, c);
      if cfg.table.Some? && c == 'W' && [';'] <= oli {
        ret, idx := ParseLongAfterW(following);
      } else if !([':'] <= oli) {
        if PlaceEmpty() {
          optind := optind + 1;
        }
        return c as int, None;
      } else {
        idx := None;
        ret := TakeArgument(c, "::" <= oli, following);
      }
    }

    /** The middle part of `getopt_internal`: the option at place, long if it may be. */
    method ParseOption(ghost following: seq<string>) returns (ret: int, idx: Option<nat>)
      requires cfg.Valid() && optind < nargv.Length && optarg == None && following == nargv[optind + 1..]
      requires placeArg == nargv[optind] && placePos < |placeArg|
      modifies this`optind, this`optarg, this`optopt, this`flags, this`placeArg, this`placePos
      ensures var s := OptionStep(cfg, old(optind), old(placeArg), old(placePos), following);
              Reported(s.report, ret, idx, old(optopt), old(flags)) && optind == s.i && PlaceAt(s.pos)
    {
      if cfg.table.Some? && placePos != 0 && (placeArg[placePos] == '-' || cfg.longOnly) {
        var shortToo := false;
        if placeArg[placePos] == '-' {
          placePos := placePos + 1;
        } else if placeArg[placePos] != ':' && placeArg[placePos] in cfg.Letters() {
          shortToo := true;
        }
        ret, idx := ParseLongOptions(placeArg[placePos..], shortToo, following);
        if ret != NO_MORE {
          placeArg, placePos := "", 0;
          return;
        }
      }
      ret, idx := ParseOptionLetter(following);
    }

    /** The call of `permute_args` in each branch: the block of skipped elements is brought up to
        the scan. */
    method PermuteToScan()
      requires InLayout() && nonoptEnd != -1 && nonoptEnd < optind == |cur.taken| + 1
      modifies nargv
      ensures Layout(nargv[..], args, cur.taken, Open(optind - (nonoptEnd - nonoptStart)))
      ensures optind - (nonoptEnd - nonoptStart) >= 1
    {
      hide Layout;
      ghost var v := nargv[..];
      LayoutBounds(v, args, cur.taken, BlockOf(nonoptStart, nonoptEnd), optind);
      PermuteArgs(nargv, nonoptStart, nonoptEnd, optind);
      LayoutPermute(v, nargv[..], args, cur.taken, nonoptStart, nonoptEnd, optind);
    }

    /** The end of the vector, or "--", behind optind: bring the options together. */
    method Finish()
      requires InLayout() && nonoptEnd < optind == |cur.taken| + 1
      modifies this`optind, this`nonoptStart, this`nonoptEnd, nargv
      ensures nargv[..] == Partitioned(args, cur.taken) && optind == Count(cur.taken, true) + 1
      ensures nonoptStart == nonoptEnd == -1
    {
      hide Layout, Partitioned, Count;
      ghost var i, block := optind, BlockOf(nonoptStart, nonoptEnd);
      if nonoptEnd != -1 {
        PermuteToScan();
        optind := optind - (nonoptEnd - nonoptStart);
        block := Open(optind);
      } else if nonoptStart != -1 {
        LayoutBounds(nargv[..], args, cur.taken, block, i);
        optind := nonoptStart;
      }
      LayoutDone(nargv[..], args, cur.taken, block, i);
      nonoptStart, nonoptEnd := -1, -1;
    }

    /** Between elements, in a call that began at `from`: all elements since then were skipped. */
    ghost predicate Skipping(from: Cursor)
      reads this`args, this`cur, this`optind, this`nonoptStart, this`nonoptEnd, nargv
    {
      match cur
      case Cursor(i, pos, taken) =>
        && InLayout() && i == optind && pos == 0
        && cfg.Valid() && cur.In(args) && from.In(args)
        && (nonoptEnd < optind || (optind < |args| && IsCluster(args[optind])))
        && BlockAllowed() && Next(cfg, args, cur) == Next(cfg, args, from)
    }

    /** Bring a closed block up to the scan. */
    method JoinBlock()
      requires InLayout() && nonoptEnd != -1 && nonoptEnd < optind == |cur.taken| + 1
      modifies this`nonoptStart, this`nonoptEnd, nargv
      ensures InLayout() && nonoptEnd == -1 && 1 <= nonoptStart
    {
      hide Layout;
      PermuteToScan();
      nonoptStart := optind - (nonoptEnd - nonoptStart);
      nonoptEnd := -1;
      assert BlockOf(nonoptStart, nonoptEnd) == Open(nonoptStart);
    }

    /** A non-option to be skipped: the block of skipped ones is brought up to it, and grows. */
    method SkipNonOption()
      requires InLayout() && nonoptEnd < optind == |cur.taken| + 1 == cur.i < |args|
      modifies this`optind, this`nonoptStart, this`nonoptEnd, this`cur, nargv
      ensures cur == Cursor(old(cur).i + 1, 0, old(cur).taken + [false]) && cur.i == optind
      ensures InLayout() && nonoptStart != -1 && nonoptEnd == -1
    {
      hide Layout;
      LayoutBounds(nargv[..], args, cur.taken, BlockOf(nonoptStart, nonoptEnd), optind);
      if nonoptEnd != -1 {
        JoinBlock();
      }
      ghost var taken', block := cur.taken + [false], BlockOf(nonoptStart, nonoptEnd);
      if nonoptStart == -1 {
        nonoptStart := optind;
      }
      LayoutSkip(nargv[..], args, cur.taken, taken', block, Open(nonoptStart));
      assert BlockOf(nonoptStart, nonoptEnd) == Open(nonoptStart);
      optind := optind + 1;
      cur := Cursor(cur.i + 1, 0, taken');
    }

    method SkipOne(ghost from: Cursor)
      requires Skipping(from) && optind < |args| && KindOf(cfg, args[optind]).NonOption? && cfg.Permuting()
               && !cfg.AllArgs()
      modifies this`optind, this`nonoptStart, this`nonoptEnd, this`cur, nargv
      ensures Skipping(from) && optind == old(optind) + 1
    {
      SkipNonOption();
    }

    /** What is ahead of the scan is as it was. */
    lemma Ahead(from: Cursor)
      requires Skipping(from)
      ensures |args| == nargv.Length && 1 <= optind <= |args|
      ensures optind < |args| ==> nargv[optind] == args[optind] && nargv[optind + 1..] == args[optind + 1..]
    {
      LayoutBounds(nargv[..], args, cur.taken, BlockOf(nonoptStart, nonoptEnd), optind);
    }

    /** The `start:` loop of `getopt_internal`: skip non-options, permuting, as long as that is
        allowed. */
    method FindElement(ghost from: Cursor)
      requires Skipping(from)
      modifies this`optind, this`nonoptStart, this`nonoptEnd, this`cur, nargv
      ensures Skipping(from)
      ensures optind < |args| && KindOf(cfg, args[optind]).NonOption? ==> cfg.AllArgs() || !cfg.Permuting()
    {
      Ahead(from);
      while optind < nargv.Length && KindOf(cfg, nargv[optind]).NonOption? && !cfg.AllArgs() && cfg.Permuting()
        invariant Skipping(from) && |args| == nargv.Length
        invariant optind < |args| ==> nargv[optind] == args[optind]
        decreases nargv.Length - optind
      {
        SkipOne(from);
        Ahead(from);
      }
    }

    /** At the start of an option element or "--". */
    ghost predicate Entered(from: Cursor)
      reads this`args, this`cur, this`optind, this`nonoptStart, this`nonoptEnd, nargv
    {
      match cur
      case Cursor(i, pos, taken) =>
        && InLayout() && i == optind && pos == 0
        && cfg.Valid() && cur.In(args) && from.In(args) && BlockAllowed()
        && optind < |args| && !KindOf(cfg, args[optind]).NonOption?
        && !BlockOf(nonoptStart, nonoptEnd).Open? && nonoptEnd <= optind
        && Next(cfg, args, cur) == Next(cfg, args, from)
    }

    /** An option closes the block of skipped elements in front of it. */
    method EnterElement(ghost from: Cursor)
      requires Skipping(from) && optind < |args| && !KindOf(cfg, args[optind]).NonOption?
      modifies this`nonoptEnd
      ensures Entered(from)
    {
      hide Layout;
      LayoutBounds(nargv[..], args, cur.taken, BlockOf(nonoptStart, nonoptEnd), optind);
      if nonoptStart != -1 && nonoptEnd == -1 {
        LayoutClose(nargv[..], args, cur.taken, nonoptStart, optind);
        nonoptEnd := optind;
      }
    }

    /** The end of the options: behind the last element, or behind "--". */
    method EndScan(ghost c: Cursor)
      requires cur == c && cfg.Valid() && cur.In(args) && cur.pos == 0 && InLayout() && nonoptEnd < optind == cur.i
      requires PlaceEmpty() && optarg == None
      modifies this`optind, this`nonoptStart, this`nonoptEnd, this`args, this`cur, nargv
      ensures Ended(Finished(c), old(args), NO_MORE, None, optopt, flags)
    {
      hide Layout, Partitioned, Count;
      Finish();
      ghost var v, taken := nargv[..], AllTaken(optind - 1);
      LayoutStart(v, taken, optind - 1);
      args, cur := v, Cursor(optind, 0, taken);
      assert BlockOf(nonoptStart, nonoptEnd) == NoBlock;
    }

    /** "--" is taken, and ends the options. */
    method TakeTerminator(ghost from: Cursor)
      requires Entered(from) && KindOf(cfg, args[optind]).Terminator? && PlaceEmpty() && optarg == None
      modifies this`optind, this`nonoptStart, this`nonoptEnd, this`args, this`cur, nargv
      ensures Ended(Next(cfg, old(args), from), old(args), NO_MORE, None, optopt, flags)
    {
      hide Layout, Ended;
      ghost var c := Cursor(optind + 1, 0, cur.taken + [true]);
      assert c.taken == cur.taken + AllTaken(1);
      LayoutTake(nargv[..], args, cur.taken, c.taken, 1, BlockOf(nonoptStart, nonoptEnd));
      optind := optind + 1;
      cur := c;
      EndScan(c);
    }

    /** A leading '-' in the options reports a non-option in place, as the argument of option 1. */
    method ReportNonOption(ghost from: Cursor)
      requires Skipping(from) && optind < |args| && KindOf(cfg, args[optind]).NonOption? && cfg.AllArgs()
      requires PlaceEmpty() && optarg == None
      modifies this`optind, this`optarg, this`cur
      ensures Ended(Next(cfg, args, from), args, IN_ORDER, None, optopt, flags)
    {
      hide Layout;
      Ahead(from);
      optarg := Some(nargv[optind]);
      ghost var c := Cursor(optind + 1, 0, cur.taken + [true]);
      assert c.taken == cur.taken + AllTaken(1);
      LayoutTake(nargv[..], args, cur.taken, c.taken, 1, BlockOf(nonoptStart, nonoptEnd));
      optind := optind + 1;
      cur := c;
    }

    /** Without permutation the scan stops at a non-option. */
    lemma StopAtNonOption(from: Cursor)
      requires Skipping(from) && optind < |args| && KindOf(cfg, args[optind]).NonOption?
      requires !cfg.AllArgs() && !cfg.Permuting() && PlaceEmpty() && optarg == None
      ensures Ended(Next(cfg, args, from), args, NO_MORE, None, optopt, flags)
    {
      hide InLayout;
    }

    /** Place points to an option, in a call that began at `from`. */
    ghost predicate AtPlace(from: Cursor)
      reads this, nargv
    {
      match cur
      case Cursor(i, pos, taken) =>
        && InLayout() && i == optind && cfg.Valid() && cur.In(args) && from.In(args) && BlockAllowed()
        && optind < |args| && placeArg == args[optind] && placePos < |placeArg|
        && !BlockOf(nonoptStart, nonoptEnd).Open? && nonoptEnd <= optind
        && (nonoptEnd < optind || IsCluster(placeArg) || (placeArg == "-" && '-' in cfg.Letters()))
        && Next(cfg, args, from) == AtOption(cfg, args, cur, placePos)
    }

    /** Mid-element, place points to the next letter already. */
    lemma MidElement()
      requires Valid() && !PlaceEmpty()
      ensures AtPlace(cur)
    {
    }

    /** At the start of an option element, it points behind the first '-', if more follows. */
    lemma FirstPlace(from: Cursor)
      requires Entered(from) && placeArg == args[optind] && placeArg != "--" && placePos == FirstOffset(placeArg)
      ensures AtPlace(from)
    {
    }

    /** What Next finds at place. */
    lemma NextAtPlace(from: Cursor, s: Step)
      requires AtPlace(from) && s == OptionStep(cfg, optind, args[optind], placePos, args[optind + 1..])
      ensures Next(cfg, args, from) == if s.report.ret == NO_MORE then Stuck(cur.(pos := 0))
                else Yield(s.report, Cursor(s.i, s.pos, cur.taken + AllTaken(s.i - cur.i)))
      ensures Next(cfg, args, from).cur.In(args)
    {
      hide Next, OptionStep, InLayout;
    }

    /** A position inside a cluster, or behind the element. */
    lemma StepEnds(s: Step, i: nat, a: string, pos: nat, following: seq<string>)
      requires cfg.Valid() && pos < |a| && s == OptionStep(cfg, i, a, pos, following)
      ensures s.report.ret == NO_MORE ==>
                s == Step(Plainly(NO_MORE, None), i, 0) && (a == "-" ==> '-' !in cfg.Letters())
      ensures s.report.ret != NO_MORE ==> (s.pos == 0 && i < s.i) || (s.i == i && s.pos == pos + 1 < |a|)
    {
      hide OptionStep;
    }

    /** Parse the option at place and step over it. */
    method StepOverOption(ghost s: Step) returns (ret: int, idx: Option<nat>)
      requires InLayout() && cfg.Valid() && optarg == None && cur.In(args) && cur.i == optind < |args|
      requires placeArg == args[optind] && placePos < |placeArg| && !BlockOf(nonoptStart, nonoptEnd).Open?
      requires s == OptionStep(cfg, optind, args[optind], placePos, args[optind + 1..])
      modifies this`optind, this`optarg, this`optopt, this`flags, this`placeArg, this`placePos, this`cur
      ensures optind == s.i && PlaceAt(s.pos) && InLayout()
      ensures Reported(s.report, ret, idx, old(optopt), old(flags))
      ensures cur == if s.report.ret == NO_MORE then old(cur).(pos := 0)
                else Cursor(s.i, s.pos, old(cur).taken + AllTaken(s.i - old(cur).i))
    {
      hide Layout, OptionStep, Reported, BlockOf;
      ghost var block := BlockOf(nonoptStart, nonoptEnd);
      LayoutBounds(nargv[..], args, cur.taken, block, optind);
      assert s == OptionStep(cfg, optind, placeArg, placePos, args[optind + 1..]);
      ret, idx := ParseOption(args[optind + 1..]);
      ghost var taken' := cur.taken + AllTaken(s.i - cur.i);
      if s.report.ret == NO_MORE {
        cur := cur.(pos := 0);
      } else {
        LayoutTake(nargv[..], args, cur.taken, taken', s.i - cur.i, block);
        cur := Cursor(s.i, s.pos, taken');
      }
    }

    /** The scanner is fit for the next call after one element or letter was stepped over. */
    lemma SteppedOver(s: Step, c: Cursor, i: nat, a: string, pos: nat)
      requires cfg.Valid() && c.In(args) && c.i == i < |args| && a == args[i] && pos < |a|
      requires s == OptionStep(cfg, i, a, pos, args[i + 1..])
      requires optind == s.i && PlaceAt(s.pos) && InLayout() && cur.In(args) && nargv.Length == |args|
      requires s.i < |args| ==> nargv[s.i] == args[s.i]
      requires cur == if s.report.ret == NO_MORE then c.(pos := 0)
                      else Cursor(s.i, s.pos, c.taken + AllTaken(s.i - c.i))
      requires BlockAllowed() && !BlockOf(nonoptStart, nonoptEnd).Open? && nonoptEnd <= i
      requires nonoptEnd < i || IsCluster(a) || (a == "-" && '-' in cfg.Letters())
      ensures Valid()
    {
      hide OptionStep, InLayout;
      StepEnds(s, i, a, pos, args[i + 1..]);
    }

    /** Take the option at place. */
    method TakeOption(ghost from: Cursor) returns (ret: int, idx: Option<nat>)
      requires AtPlace(from) && optarg == None
      modifies this`optind, this`optarg, this`optopt, this`flags, this`placeArg, this`placePos, this`cur
      ensures Ended(Next(cfg, args, from), args, ret, idx, old(optopt), old(flags))
    {
      hide Next, OptionStep, InLayout, PlaceAt, Reported, BlockAllowed, Valid;
      ghost var s := OptionStep(cfg, optind, args[optind], placePos, args[optind + 1..]);
      ghost var c, i, a, pos := cur, optind, placeArg, placePos;
      NextAtPlace(from, s);
      ret, idx := StepOverOption(s);
      LookAhead();
      SteppedOver(s, c, i, a, pos);
    }

    lemma LookAhead()
      requires InLayout() && cur.In(args) && cur.i == optind
      ensures nargv.Length == |args|
      ensures optind < |args| ==> nargv[optind] == args[optind]
    {
      LayoutBounds(nargv[..], args, cur.taken, BlockOf(nonoptStart, nonoptEnd), optind);
    }

    /** An option element, or "--". */
    method TakeElement(ghost from: Cursor) returns (over: bool)
      requires Skipping(from) && optind < |args| && !KindOf(cfg, args[optind]).NonOption? && PlaceEmpty()
      requires optarg == None
      modifies this`optind, this`placeArg, this`placePos, this`nonoptStart, this`nonoptEnd, this`args, this`cur, nargv
      ensures over ==> Ended(Next(cfg, old(args), from), old(args), NO_MORE, None, optopt, flags)
      ensures !over ==> AtPlace(from) && args == old(args)
    {
      hide Ended, AtPlace, Skipping, Entered;
      Ahead(from);
      EnterElement(from);
      if nargv[optind] == "--" {
        TakeTerminator(from);
        return true;
      }
      placeArg, placePos := nargv[optind], if nargv[optind] == "-" then 0 else 1;
      FirstPlace(from);
      return false;
    }

    /** `getopt_internal`, when an element was used up: look for the next option. `over` tells
        that the call ends with ret, without an option. */
    method NextElement(ghost from: Cursor) returns (over: bool, ret: int)
      requires Valid() && PlaceEmpty() && cur == from && optarg == None
      modifies this`optind, this`optarg, this`placeArg, this`placePos, this`nonoptStart, this`nonoptEnd, this`args,
               this`cur, nargv
      ensures over ==> Ended(Next(cfg, old(args), from), old(args), ret, None, optopt, flags)
      ensures !over ==> AtPlace(from) && args == old(args) && optarg == None
    {
      hide Ended, AtPlace;
      over, ret := true, NO_MORE;
      FindElement(from);
      Ahead(from);
      if optind >= nargv.Length {
        EndScan(cur);
      } else if KindOf(cfg, nargv[optind]).NonOption? {
        if cfg.AllArgs() {
          ret := IN_ORDER;
          ReportNonOption(from);
        } else {
          StopAtNonOption(from);
        }
      } else {
        over := TakeElement(from);
      }
    }

    /** `getopt_internal`: one call reports what Next finds in the vector as the scan met it,
        however much of it has been moved since. */
    method GetoptInternal() returns (ret: int, idx: Option<nat>)
      requires Valid()
      modifies this, nargv
      ensures Ended(Next(cfg, old(args), old(cur)), old(args), ret, idx, old(optopt), old(flags))
    {
      hide Ended, AtPlace;
      optarg := None;
      if PlaceEmpty() {
        var over;
        over, ret := NextElement(cur);
        if over {
          return ret, None;
        }
      } else {
        MidElement();
      }
      ret, idx := TakeOption(old(cur));
    }
  }
}
