/** Cutting a sequence into blocks of equal length, and repeating every element. */
module Blocks {
  import opened Arithmetic

  function Repeat<T>(x: T, n: nat): (r: seq<T>)
    ensures |r| == n && forall k :: 0 <= k < n ==> r[k] == x
  {
    seq(n, _ => x)
  }

  /** f of every block of r elements; what does not fill a block is at the front. */
  function MapBlocks<T, U>(f: seq<T> -> U, s: seq<T>, r: nat): seq<U>
    requires 0 < r
    decreases |s|
  {
    if |s| < r then [] else MapBlocks(f, s[..|s| - r], r) + [f(s[|s| - r..])]
  }

  /** Every element r times. */
  function Upsample<T>(s: seq<T>, r: nat): (u: seq<T>) {
    if s == [] then [] else Upsample(s[..|s| - 1], r) + Repeat(s[|s| - 1], r)
  }

  lemma {:induction false} MapBlocksLength<T, U>(f: seq<T> -> U, s: seq<T>, r: nat, n: nat)
    requires 0 < r && |s| == n * r
    ensures |MapBlocks(f, s, r)| == n
    decreases n
  {
    Dist(n, 1, r);
    if n > 0 {
      MultipleIsLarge(n, r);
      MapBlocksLength(f, s[..|s| - r], r, n - 1);
    }
  }

  lemma MapBlocksSnoc<T, U>(f: seq<T> -> U, s: seq<T>, block: seq<T>, r: nat)
    requires 0 < r == |block|
    ensures MapBlocks(f, s + block, r) == MapBlocks(f, s, r) + [f(block)]
  {
    assert (s + block)[..|s|] == s && (s + block)[|s|..] == block;
  }

  /** Element k is f of block k. */
  lemma {:induction false} MapBlocksAt<T, U>(f: seq<T> -> U, s: seq<T>, r: nat, n: nat, k: nat)
    requires 0 < r && |s| == n * r && k < n
    ensures |MapBlocks(f, s, r)| == n
    ensures 0 <= k * r <= k * r + r <= |s| && MapBlocks(f, s, r)[k] == f(s[k * r..k * r + r])
    decreases n
  {
    MapBlocksLength(f, s, r, n);
    Dist(n, 1, r);
    MultipleIsLarge(n, r);
    var front := s[..|s| - r];
    MapBlocksLength(f, front, r, n - 1);
    if k < n - 1 {
      MapBlocksAt(f, front, r, n - 1, k);
      assert front[k * r..k * r + r] == s[k * r..k * r + r];
    } else {
      assert s[k * r..k * r + r] == s[|s| - r..];
    }
  }

  /** Cutting distributes over concatenation at a block boundary. */
  lemma {:induction false} MapBlocksConcat<T, U>(f: seq<T> -> U, s: seq<T>, t: seq<T>, r: nat, m: nat)
    requires 0 < r && |t| == m * r
    ensures MapBlocks(f, s + t, r) == MapBlocks(f, s, r) + MapBlocks(f, t, r)
    decreases m
  {
    Dist(m, 1, r);
    if m == 0 {
      assert s + t == s && MapBlocks(f, t, r) == [];
    } else {
      MultipleIsLarge(m, r);
      var q, n := s + t, |t| - r;
      MapBlocksConcat(f, s, t[..n], r, m - 1);
      assert q[..|q| - r] == s + t[..n] && q[|q| - r..] == t[n..];
    }
  }

  lemma {:induction false} UpsampleLength<T>(s: seq<T>, r: nat)
    ensures |Upsample(s, r)| == |s| * r
  {
    if s != [] {
      UpsampleLength(s[..|s| - 1], r);
      Dist(|s|, 1, r);
    }
  }

  lemma {:induction false} UpsampleConcat<T>(s: seq<T>, t: seq<T>, r: nat)
    ensures Upsample(s + t, r) == Upsample(s, r) + Upsample(t, r)
  {
    if t == [] {
      assert s + t == s;
    } else {
      var n := |t| - 1;
      UpsampleConcat(s, t[..n], r);
      assert (s + t)[..|s| + n] == s + t[..n] && (s + t)[|s| + n] == t[n];
    }
  }

  /** Element k of the upsampled sequence is element k / r of the source. */
  lemma {:induction false} UpsampleAt<T>(s: seq<T>, r: nat, k: nat)
    requires 0 < r && k < |s| * r
    ensures k / r < |s| && |Upsample(s, r)| == |s| * r && Upsample(s, r)[k] == s[k / r]
  {
    var n := |s| - 1;
    UpsampleLength(s, r);
    Dist(|s|, 1, r);
    UpsampleLength(s[..n], r);
    if k < n * r {
      UpsampleAt(s[..n], r, k);
    } else {
      DivModUnique(k, r, n, k - n * r);
    }
  }

  lemma {:induction false} UpsampleRepeat<T>(x: T, a: nat, r: nat)
    ensures Upsample(Repeat(x, a), r) == Repeat(x, a * r)
  {
    if a > 0 {
      UpsampleRepeat(x, a - 1, r);
      assert Repeat(x, a)[..a - 1] == Repeat(x, a - 1);
      Dist(a, 1, r);
    }
  }

  /** Repeating a times, then r times, is repeating a * r times. */
  lemma {:induction false} UpsampleTwice<T>(s: seq<T>, a: nat, r: nat)
    ensures Upsample(Upsample(s, a), r) == Upsample(s, a * r)
  {
    if s != [] {
      var n := |s| - 1;
      UpsampleTwice(s[..n], a, r);
      UpsampleConcat(Upsample(s[..n], a), Repeat(s[n], a), r);
      UpsampleRepeat(s[n], a, r);
    }
  }
}
