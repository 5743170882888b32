/** Resampling of analog samples: block means and linear interpolation, over the reals. */
module Analog {
  import opened Arithmetic
  import opened Blocks

  function Sum(s: seq<real>): real {
    if s == [] then 0.0 else Sum(s[..|s| - 1]) + s[|s| - 1]
  }

  function Mean(block: seq<real>): real {
    if block == [] then 0.0 else Sum(block) / (|block| as real)
  }

  ghost predicate Within(s: seq<real>, lo: real, hi: real) {
    forall k :: 0 <= k < |s| ==> lo <= s[k] <= hi
  }

  lemma {:induction false} SumBounds(s: seq<real>, lo: real, hi: real)
    requires Within(s, lo, hi)
    ensures lo * (|s| as real) <= Sum(s) <= hi * (|s| as real)
  {
    if s != [] {
      var n := |s| - 1;
      SumBounds(s[..n], lo, hi);
      assert |s| as real == n as real + 1.0;
      RealDist(lo, n as real);
      RealDist(hi, n as real);
    }
  }

  lemma RealDist(x: real, n: real)
    ensures x * (n + 1.0) == x * n + x
  {
  }

  lemma QuotientBounds(lo: real, x: real, hi: real, n: real)
    requires 0.0 < n && lo * n <= x <= hi * n
    ensures lo <= x / n <= hi
  {
    var q := x / n;
    assert q * n == x;
    if q < lo {
      ProductPositive(lo - q, n);
    } else if q > hi {
      ProductPositive(q - hi, n);
    }
  }

  lemma ProductPositive(d: real, n: real)
    requires 0.0 < d && 0.0 < n
    ensures 0.0 < d * n
  {
  }

  /** A block mean lies between any bounds of the block. */
  lemma MeanBounds(block: seq<real>, lo: real, hi: real)
    requires block != [] && Within(block, lo, hi)
    ensures lo <= Mean(block) <= hi
  {
    SumBounds(block, lo, hi);
    QuotientBounds(lo, Sum(block), hi, |block| as real);
  }

  lemma {:induction false} SumConcat(s: seq<real>, t: seq<real>)
    ensures Sum(s + t) == Sum(s) + Sum(t)
  {
    if t == [] {
      assert s + t == s;
    } else {
      SumConcat(s, t[..|t| - 1]);
      assert (s + t)[..|s + t| - 1] == s + t[..|t| - 1];
    }
  }

  function Decimated(src: seq<real>, ratio: nat): seq<real> {
    if ratio < 2 then src else MapBlocks(Mean, src, ratio)
  }

  /** x added up n times. */
  function Times(n: nat, x: real): real {
    if n == 0 then 0.0 else Times(n - 1, x) + x
  }

  lemma {:induction false} TimesIsProduct(n: nat, x: real)
    ensures Times(n, x) == (n as real) * x
  {
    if n > 0 {
      TimesIsProduct(n - 1, x);
      RealDist(x, (n - 1) as real);
    }
  }

  lemma {:induction false} TimesSum(n: nat, x: real, y: real)
    ensures Times(n, x + y) == Times(n, x) + Times(n, y)
  {
    if n > 0 {
      TimesSum(n - 1, x, y);
    }
  }

  lemma MeanWeighs(block: seq<real>)
    requires block != []
    ensures Times(|block|, Mean(block)) == Sum(block)
  {
    TimesIsProduct(|block|, Mean(block));
  }

  /** If r times f of a block is its sum, r times the sum over all blocks is the whole sum. */
  lemma {:induction false} BlockSums(f: seq<real> -> real, src: seq<real>, r: nat, n: nat)
    requires 0 < r && |src| == n * r
    requires forall b :: |b| == r ==> Times(r, f(b)) == Sum(b)
    ensures Times(r, Sum(MapBlocks(f, src, r))) == Sum(src)
    decreases n
  {
    Dist(n, 1, r);
    if n == 0 {
      TimesIsProduct(r, 0.0);
    } else {
      MultipleIsLarge(n, r);
      var m := |src| - r;
      BlockSums(f, src[..m], r, n - 1);
      assert src == src[..m] + src[m..];
      OneMoreBlock(f, src[..m], src[m..], r);
    }
  }

  lemma OneMoreBlock(f: seq<real> -> real, front: seq<real>, block: seq<real>, r: nat)
    requires 0 < r == |block| && Times(r, f(block)) == Sum(block)
    requires Times(r, Sum(MapBlocks(f, front, r))) == Sum(front)
    ensures Times(r, Sum(MapBlocks(f, front + block, r))) == Sum(front + block)
  {
    MapBlocksSnoc(f, front, block, r);
    SumConcat(front, block);
    var sums := MapBlocks(f, front, r);
    SumConcat(sums, [f(block)]);
    assert Sum([f(block)]) == f(block);
    TimesSum(r, Sum(sums), f(block));
  }

  /** Decimation conserves mass: the means, r times over, weigh as much as the samples. */
  lemma DecimationConserves(src: seq<real>, r: nat, n: nat)
    requires 2 <= r && |src| == n * r
    ensures Times(r, Sum(Decimated(src, r))) == Sum(src)
  {
    forall b: seq<real> | |b| == r ensures Times(r, Mean(b)) == Sum(b) {
      MeanWeighs(b);
    }
    BlockSums(Mean, src, r, n);
  }

  method AnalogicalDecimation(src: seq<real>, dest: seq<real>, ratio: nat) returns (dest': seq<real>)
    requires ratio >= 2 ==> |src| % ratio == 0
    ensures dest' == if ratio < 2 then src else dest + MapBlocks(Mean, src, ratio)
  {
    if ratio < 2 {
      return src;
    }
    dest' := dest;
    var it := 0;
    ghost var n := 0;
    while it < |src|
      invariant 0 <= it <= |src| && it == n * ratio && 0 <= n
      invariant dest' == dest + MapBlocks(Mean, src[..it], ratio)
      decreases |src| - it
    {
      if it + ratio > |src| {
        DivModUnique(|src|, ratio, n, |src| - it);
        assert false;
      }
      var acc := Accumulate(src, it, it + ratio);
      dest' := dest' + [acc / (ratio as real)];
      assert src[..it + ratio][..it] == src[..it] && src[..it + ratio][it..] == src[it..it + ratio];
      Dist(n, 1, ratio);
      it, n := it + ratio, n + 1;
    }
    assert src[..it] == src;
  }

  /** std::accumulate from 0.0. */
  method Accumulate(src: seq<real>, first: nat, last: nat) returns (acc: real)
    requires first <= last <= |src|
    ensures acc == Sum(src[first..last])
  {
    acc := 0.0;
    for k := first to last
      invariant acc == Sum(src[first..k])
    {
      assert src[first..k + 1][..k - first] == src[first..k];
      acc := acc + src[k];
    }
  }

  // ---- linear interpolation ---------------------------------------------------------------

  /** The j-th of r steps from x to y. */
  function Point(x: real, y: real, r: nat, j: nat): real
    requires 0 < r
  {
    x + (j as real) * ((y - x) / (r as real))
  }

  /** A knot and the r points after it; the last of them is the next knot. */
  function Segment(x: real, y: real, r: nat): (s: seq<real>)
    requires 0 < r
    ensures |s| == r + 1
  {
    seq(r + 1, j requires 0 <= j => Point(x, y, r, j))
  }

  function Segments(src: seq<real>, r: nat): seq<real>
    requires 0 < r
  {
    if |src| <= 1 then [] else
      var n := |src| - 1;
      Segments(src[..n], r) + Segment(src[n - 1], src[n], r)
  }

  function Interpolated(src: seq<real>, ratio: nat): seq<real>
    requires ratio >= 2 ==> src != []
  {
    if ratio < 2 then src else Segments(src, ratio) + [src[|src| - 1]]
  }

  lemma {:induction false} SegmentsLength(src: seq<real>, r: nat)
    requires 0 < r && src != []
    ensures |Segments(src, r)| == (|src| - 1) * (r + 1)
  {
    var n := |src| - 1;
    if n > 0 {
      SegmentsLength(src[..n], r);
      Dist(n, 1, r + 1);
    }
  }

  /** n samples become (n - 1)(r + 1) + 1. */
  lemma InterpolationLength(src: seq<real>, r: nat)
    requires 2 <= r && src != []
    ensures |Interpolated(src, r)| == (|src| - 1) * (r + 1) + 1
  {
    SegmentsLength(src, r);
  }

  lemma {:induction false} SegmentAt(src: seq<real>, r: nat, i: nat, j: nat)
    requires 0 < r && i + 1 < |src| && j <= r
    ensures 0 <= i * (r + 1) + j < |Segments(src, r)|
    ensures Segments(src, r)[i * (r + 1) + j] == Segment(src[i], src[i + 1], r)[j]
  {
    hide Segment;
    var n := |src| - 1;
    var front, last := Segments(src[..n], r), Segment(src[n - 1], src[n], r);
    SegmentsLength(src[..n], r);
    if i + 1 < n {
      SegmentAt(src[..n], r, i, j);
    } else {
      InLast(front, last, i * (r + 1), j);
    }
  }

  /** Sample i(r + 1) + j is the j-th of r equal steps from the i-th knot to the next. */
  lemma InterpolationAt(src: seq<real>, r: nat, i: nat, j: nat)
    requires 2 <= r && i + 1 < |src| && j <= r
    ensures 0 <= i * (r + 1) + j < |Interpolated(src, r)|
    ensures Interpolated(src, r)[i * (r + 1) + j] == src[i] + (j as real) * ((src[i + 1] - src[i]) / (r as real))
  {
    SegmentAt(src, r, i, j);
  }

  /** The last sample is the last knot, and below a ratio of 2 all samples are knots. */
  lemma InterpolationEnds(src: seq<real>, r: nat)
    requires src != []
    ensures var out := Interpolated(src, r);
            && (r < 2 ==> out == src)
            && (r >= 2 ==> |out| == (|src| - 1) * (r + 1) + 1)
            && out[|out| - 1] == src[|src| - 1]
  {
    if r >= 2 {
      InterpolationLength(src, r);
    }
  }

  lemma InLast(front: seq<real>, last: seq<real>, k: int, j: nat)
    requires k == |front| && j < |last|
    ensures 0 <= k + j < |front + last| && (front + last)[k + j] == last[j]
  {
  }

  /** Every segment starts at its knot and reaches the next one exactly. */
  lemma SegmentReachesKnot(x: real, y: real, r: nat)
    requires 0 < r
    ensures Segment(x, y, r)[0] == x && Segment(x, y, r)[r] == y
  {
    assert (r as real) * ((y - x) / (r as real)) == y - x;
    assert Segment(x, y, r)[r] == Point(x, y, r, r);
  }

  /** Points stay between the knots. */
  lemma PointBounds(x: real, y: real, r: nat, j: nat, lo: real, hi: real)
    requires 0 < r && j <= r && lo <= x <= hi && lo <= y <= hi
    ensures lo <= Point(x, y, r, j) <= hi
  {
    var d, n, m := (y - x) / (r as real), r as real, j as real;
    assert n * d == y - x;
    if d >= 0.0 {
      RealMonotone(m, n, d);
    } else {
      RealMonotone(m, n, -d);
      assert m * -d == -(m * d) && n * -d == -(n * d);
    }
  }

  lemma RealMonotone(m: real, n: real, d: real)
    requires 0.0 <= m <= n && 0.0 <= d
    ensures 0.0 <= m * d <= n * d
  {
    assert (n - m) * d >= 0.0;
  }

  /** Interpolation stays within any bounds of its source. */
  lemma {:induction false} InterpolationBounds(src: seq<real>, r: nat, lo: real, hi: real)
    requires 2 <= r && src != [] && Within(src, lo, hi)
    ensures Within(Interpolated(src, r), lo, hi)
  {
    var n := |src| - 1;
    if n > 0 {
      InterpolationBounds(src[..n], r, lo, hi);
      assert Interpolated(src[..n], r) == Segments(src[..n], r) + [src[n - 1]];
      forall k | 0 <= k < |Segments(src[..n], r)| ensures lo <= Segments(src[..n], r)[k] <= hi {
        assert Segments(src[..n], r)[k] == Interpolated(src[..n], r)[k];
      }
      var last := Segment(src[n - 1], src[n], r);
      forall j | 0 <= j < |last| ensures lo <= last[j] <= hi {
        PointBounds(src[n - 1], src[n], r, j, lo, hi);
      }
    }
  }

  /** An empty source makes the size computation throw: ok is false. */
  method AnalogicalInterpolation(src: seq<real>, dest: seq<real>, ratio: nat) returns (ok: bool, dest': seq<real>)
    ensures ok <==> ratio < 2 || src != []
    ensures ok && ratio < 2 ==> dest' == src
    ensures ok && ratio >= 2 ==> dest' == dest + Interpolated(src, ratio)
  {
    if ratio < 2 {
      return true, src;
    }
    if src == [] {
      return false, dest;
    }
    dest' := dest;
    for i := 0 to |src| - 1
      invariant dest' == dest + Segments(src[..i + 1], ratio)
    {
      var val := (src[i + 1] - src[i]) / (ratio as real);
      ghost var before, points := dest', Segment(src[i], src[i + 1], ratio);
      dest' := dest' + [src[i]];
      assert points[0] == src[i];
      for j := 0 to ratio
        invariant dest' == before + points[..j + 1]
      {
        assert points[j + 1] == points[j] + val;
        dest' := dest' + [dest'[|dest'| - 1] + val];
      }
      assert src[..i + 2][..i + 1] == src[..i + 1] && points[..ratio + 1] == points;
    }
    assert src[..|src| - 1 + 1] == src;
    dest' := dest' + [src[|src| - 1]];
    ok := true;
  }
}
