/** Where a permuting scan keeps the elements of the vector: taken ones in front, skipped ones in
    one block that moves towards the scan. */
module Arrangement {
  import opened Basics
  import opened Permute

  /** The taken (want) or skipped elements of args[1..], in order. */
  function Pick<T>(args: seq<T>, taken: seq<bool>, want: bool): (r: seq<T>)
    requires |taken| < |args|
    ensures |r| == Count(taken, want)
  {
    if taken == [] then [] else
      Pick(args, taken[..|taken| - 1], want) + if taken[|taken| - 1] == want then [args[|taken|]] else []
  }

  /** The block s after the first k elements of t. */
  function Assemble<T>(first: T, t: seq<T>, s: seq<T>, rest: seq<T>, k: nat): (r: seq<T>)
    requires k <= |t|
    ensures |r| == 1 + |t| + |s| + |rest| && r[0] == first && r[1 + |t| + |s|..] == rest
  {
    [first] + t[..k] + s + t[k..] + rest
  }

  /** The vector with the block of skipped elements after the first k taken ones. */
  function Arranged<T>(args: seq<T>, taken: seq<bool>, k: nat): (r: seq<T>)
    requires |taken| < |args| && k <= Count(taken, true)
    ensures |r| == |args| && r[0] == args[0] && r[|taken| + 1..] == args[|taken| + 1..]
  {
    CountsAddUp(taken);
    Assemble(args[0], Pick(args, taken, true), Pick(args, taken, false), args[|taken| + 1..], k)
  }

  /** Taken elements first, skipped ones next, then what was not scanned; each in order. */
  function Partitioned<T>(args: seq<T>, taken: seq<bool>): (r: seq<T>)
    requires |taken| < |args|
    ensures |r| == |args|
  {
    Arranged(args, taken, Count(taken, true))
  }

  function AllTaken(n: nat): seq<bool> {
    seq(n, _ => true)
  }

  lemma {:induction false} CountsAddUp(taken: seq<bool>)
    ensures Count(taken, true) + Count(taken, false) == |taken|
  {
    if taken != [] {
      CountsAddUp(taken[..|taken| - 1]);
    }
  }

  lemma PickOneMore<T>(args: seq<T>, taken: seq<bool>, taken': seq<bool>)
    requires |taken| + 1 < |args| && taken' == taken + [true]
    ensures Pick(args, taken', true) == Pick(args, taken, true) + [args[|taken| + 1]]
    ensures Pick(args, taken', false) == Pick(args, taken, false)
  {
    assert taken'[..|taken|] == taken;
  }

  lemma Longer<T>(t: seq<T>, args: seq<T>, i: nat, j: nat)
    requires i <= j < |args|
    ensures (t + args[i..j]) + [args[j]] == t + args[i..j + 1]
  {
  }

  lemma {:induction false} PickMore<T>(args: seq<T>, taken: seq<bool>, n: nat)
    requires |taken| + n < |args|
    ensures Pick(args, taken + AllTaken(n), true) == Pick(args, taken, true) + args[|taken| + 1..|taken| + 1 + n]
    ensures Pick(args, taken + AllTaken(n), false) == Pick(args, taken, false)
  {
    if n == 0 {
      assert taken + AllTaken(0) == taken;
    } else {
      PickMore(args, taken, n - 1);
      var before, now, i := taken + AllTaken(n - 1), taken + AllTaken(n), |taken| + 1;
      assert now == before + [true];
      hide Pick, Count, AllTaken;
      PickOneMore(args, before, now);
      Longer(Pick(args, taken, true), args, i, i + n - 1);
    }
  }

  lemma {:induction false} CountMore(taken: seq<bool>, n: nat)
    ensures Count(taken + AllTaken(n), true) == Count(taken, true) + n
    ensures Count(taken + AllTaken(n), false) == Count(taken, false)
  {
    if n == 0 {
      assert taken + AllTaken(0) == taken;
    } else {
      CountMore(taken, n - 1);
      assert (taken + AllTaken(n))[..|taken| + n - 1] == taken + AllTaken(n - 1);
    }
  }

  lemma AssembleMore<T>(first: T, t: seq<T>, t': seq<T>, x: seq<T>, s: seq<T>, rest: seq<T>, rest': seq<T>, k: nat)
    requires k <= |t| && t' == t + x && rest == x + rest'
    ensures Assemble(first, t', s, rest', k) == Assemble(first, t, s, rest, k)
  {
    assert t'[..k] == t[..k] && t'[k..] == t[k..] + x;
  }

  lemma AssembleBlock<T>(first: T, t: seq<T>, s: seq<T>, s': seq<T>, x: T, rest: seq<T>, rest': seq<T>, k: nat)
    requires k == |t| && s' == s + [x] && rest == [x] + rest'
    ensures Assemble(first, t, s', rest', k) == Assemble(first, t, s, rest, k)
  {
    assert t[k..] == [];
  }

  lemma AssembleExchange<T>(first: T, t: seq<T>, s: seq<T>, rest: seq<T>, k: nat, k': nat, b: nat, m: nat, e: nat)
    requires k <= |t| == k' && b == k + 1 && m == b + |s| && e == 1 + |t| + |s|
    ensures Exchange(Assemble(first, t, s, rest, k), b, m, e) == Assemble(first, t, s, rest, k')
  {
    var q := Assemble(first, t, s, rest, k);
    assert q[..b] == [first] + t[..k];
    assert q[b..m] == s;
    assert q[m..e] == t[k..];
    assert t[..k'] == t[..k] + t[k..];
  }

  /** Nothing moves when the elements x are taken where they stand ... */
  lemma TakeInPlace<T>(args: seq<T>, taken: seq<bool>, taken': seq<bool>, x: seq<T>, k: nat)
    requires |taken| < |args| && |taken'| < |args| && k <= Count(taken, true) && k <= Count(taken', true)
    requires Pick(args, taken', true) == Pick(args, taken, true) + x
    requires Pick(args, taken', false) == Pick(args, taken, false)
    requires args[|taken| + 1..] == x + args[|taken'| + 1..]
    ensures Arranged(args, taken', k) == Arranged(args, taken, k)
  {
    AssembleMore(args[0], Pick(args, taken, true), Pick(args, taken', true), x,
                 Pick(args, taken, false), args[|taken| + 1..], args[|taken'| + 1..], k);
  }

  lemma TakeMovesNothing<T>(args: seq<T>, taken: seq<bool>, taken': seq<bool>, n: nat, k: nat)
    requires |taken| + n < |args| && k <= Count(taken, true) && taken' == taken + AllTaken(n)
    ensures Count(taken', true) == Count(taken, true) + n && Count(taken', false) == Count(taken, false)
    ensures Arranged(args, taken', k) == Arranged(args, taken, k)
  {
    CountMore(taken, n);
    PickMore(args, taken, n);
    var i, j := |taken| + 1, |taken'| + 1;
    assert args[i..] == args[i..j] + args[j..];
    TakeInPlace(args, taken, taken', args[i..j], k);
  }

  /** ... or when the element x joins the block of skipped ones right in front of it. */
  lemma SkipInPlace<T>(args: seq<T>, taken: seq<bool>, taken': seq<bool>, x: T)
    requires |taken| < |args| && |taken'| < |args|
    requires Pick(args, taken', true) == Pick(args, taken, true)
    requires Pick(args, taken', false) == Pick(args, taken, false) + [x]
    requires args[|taken| + 1..] == [x] + args[|taken'| + 1..]
    ensures Partitioned(args, taken') == Partitioned(args, taken)
  {
    assert Count(taken', true) == |Pick(args, taken', true)| == Count(taken, true);
    AssembleBlock(args[0], Pick(args, taken, true), Pick(args, taken, false), Pick(args, taken', false),
                  x, args[|taken| + 1..], args[|taken'| + 1..], Count(taken, true));
  }

  lemma SkipMovesNothing<T>(args: seq<T>, taken: seq<bool>, taken': seq<bool>)
    requires |taken| + 1 < |args| && taken' == taken + [false]
    ensures Count(taken', true) == Count(taken, true) && Count(taken', false) == Count(taken, false) + 1
    ensures Partitioned(args, taken') == Partitioned(args, taken)
  {
    assert taken'[..|taken|] == taken;
    var i, j := |taken| + 1, |taken'| + 1;
    assert args[i..] == [args[i]] + args[j..];
    SkipInPlace(args, taken, taken', args[i]);
  }

  /** Exchanging the block with the taken elements behind it gives the partition. */
  lemma ExchangePartitions<T>(args: seq<T>, taken: seq<bool>, k: nat, b: nat, m: nat, e: nat)
    requires |taken| < |args| && k <= Count(taken, true)
    requires b == k + 1 && m == b + Count(taken, false) && e == |taken| + 1
    ensures m <= e
    ensures Exchange(Arranged(args, taken, k), b, m, e) == Partitioned(args, taken)
  {
    CountsAddUp(taken);
    AssembleExchange(args[0], Pick(args, taken, true), Pick(args, taken, false), args[|taken| + 1..], k,
                     Count(taken, true), b, m, e);
  }

  /** With nothing skipped the vector is as it was. */
  lemma {:induction false} NothingSkipped<T>(args: seq<T>, taken: seq<bool>)
    requires |taken| < |args| && Count(taken, false) == 0
    ensures taken == AllTaken(|taken|) && Count(taken, true) == |taken|
    ensures Partitioned(args, taken) == args
  {
    OnlyTaken(taken);
    CountsAddUp(taken);
    assert [] + AllTaken(|taken|) == taken;
    PickMore(args, [], |taken|);
    assert args == [args[0]] + args[1..|taken| + 1] + args[|taken| + 1..];
  }

  lemma {:induction false} OnlyTaken(taken: seq<bool>)
    requires Count(taken, false) == 0
    ensures taken == AllTaken(|taken|)
  {
    if taken != [] {
      OnlyTaken(taken[..|taken| - 1]);
    }
  }
}
