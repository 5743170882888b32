/** Resampling of logic samples: bit voting and repetition. */
module Digital {
  import opened Arithmetic
  import opened Blocks

  const BITS := 16

  predicate GetBit(number: bv16, index: nat)
    requires index < BITS
  {
    (number >> index) & 1 == 1
  }

  function SetBit(number: bv16, index: nat): bv16
    requires index < BITS
  {
    number | ((1 as bv16) << index)
  }

  lemma ShiftedOr(x: bv16, y: bv16, j: nat)
    requires j < BITS
    ensures ((x | y) >> j) == (x >> j) | (y >> j)
  {
  }

  lemma LowBitOfOr(x: bv16, y: bv16)
    ensures ((x | y) & 1 == 1) <==> (x & 1 == 1 || y & 1 == 1)
  {
  }

  lemma BitOfOr(x: bv16, y: bv16, j: nat)
    requires j < BITS
    ensures GetBit(x | y, j) == (GetBit(x, j) || GetBit(y, j))
  {
    ShiftedOr(x, y, j);
    LowBitOfOr(x >> j, y >> j);
  }

  lemma BitOfOne(k: nat, j: nat)
    requires k < BITS && j < BITS
    ensures GetBit((1 as bv16) << k, j) == (j == k)
  {
  }

  lemma SetBitSets(x: bv16, k: nat, j: nat)
    requires k < BITS && j < BITS
    ensures GetBit(SetBit(x, k), j) == (j == k || GetBit(x, j))
  {
    BitOfOr(x, (1 as bv16) << k, j);
    BitOfOne(k, j);
    hide GetBit;
  }

  /** Samples that differ differ in a bit. */
  lemma BitsDetermine(x: bv16, y: bv16)
    requires x != y
    ensures exists k :: 0 <= k < BITS && GetBit(x, k) != GetBit(y, k)
  {
    assert GetBit(x, 0) != GetBit(y, 0) || GetBit(x, 1) != GetBit(y, 1) || GetBit(x, 2) != GetBit(y, 2)
        || GetBit(x, 3) != GetBit(y, 3) || GetBit(x, 4) != GetBit(y, 4) || GetBit(x, 5) != GetBit(y, 5)
        || GetBit(x, 6) != GetBit(y, 6) || GetBit(x, 7) != GetBit(y, 7) || GetBit(x, 8) != GetBit(y, 8)
        || GetBit(x, 9) != GetBit(y, 9) || GetBit(x, 10) != GetBit(y, 10) || GetBit(x, 11) != GetBit(y, 11)
        || GetBit(x, 12) != GetBit(y, 12) || GetBit(x, 13) != GetBit(y, 13) || GetBit(x, 14) != GetBit(y, 14)
        || GetBit(x, 15) != GetBit(y, 15);
  }

  /** How many samples have bit k set. */
  function Ones(block: seq<bv16>, k: nat): (n: nat)
    requires k < BITS
    ensures n <= |block|
  {
    if block == [] then 0 else
      Ones(block[..|block| - 1], k) + if GetBit(block[|block| - 1], k) then 1 else 0
  }

  /** The bits below n that at least half of the block, rounded down, has set. */
  function VoteBelow(block: seq<bv16>, n: nat): bv16
    requires n <= BITS
  {
    if n == 0 then 0
    else if Ones(block, n - 1) >= |block| / 2 then SetBit(VoteBelow(block, n - 1), n - 1)
    else VoteBelow(block, n - 1)
  }

  function Vote(block: seq<bv16>): bv16 {
    VoteBelow(block, BITS)
  }

  lemma {:induction false} VoteBelowBits(block: seq<bv16>, n: nat, k: nat)
    requires n <= BITS && k < BITS
    ensures GetBit(VoteBelow(block, n), k) <==> k < n && Ones(block, k) >= |block| / 2
  {
    if n > 0 {
      VoteBelowBits(block, n - 1, k);
      SetBitSets(VoteBelow(block, n - 1), n - 1, k);
    } else {
      assert !GetBit(0, k);
    }
  }

  /** Bit k of the vote is set exactly when at least half the samples, rounded down, have it. */
  lemma VoteBits(block: seq<bv16>, k: nat)
    requires k < BITS
    ensures GetBit(Vote(block), k) <==> Ones(block, k) >= |block| / 2
  {
    VoteBelowBits(block, BITS, k);
  }

  lemma {:induction false} OnesMonotone(block: seq<bv16>, block': seq<bv16>, k: nat)
    requires k < BITS && |block| == |block'|
    requires forall j :: 0 <= j < |block| && GetBit(block[j], k) ==> GetBit(block'[j], k)
    ensures Ones(block, k) <= Ones(block', k)
  {
    if block != [] {
      OnesMonotone(block[..|block| - 1], block'[..|block| - 1], k);
    }
  }

  /** Setting bits in the samples never clears a bit of the vote. */
  lemma VoteMonotone(block: seq<bv16>, block': seq<bv16>, k: nat)
    requires k < BITS && |block| == |block'|
    requires forall j :: 0 <= j < |block| && GetBit(block[j], k) ==> GetBit(block'[j], k)
    ensures GetBit(Vote(block), k) ==> GetBit(Vote(block'), k)
  {
    OnesMonotone(block, block', k);
    VoteBits(block, k);
    VoteBits(block', k);
  }

  lemma {:induction false} OnesOfRepeat(x: bv16, r: nat, k: nat)
    requires k < BITS
    ensures Ones(Repeat(x, r), k) == if GetBit(x, k) then r else 0
  {
    if r > 0 {
      OnesOfRepeat(x, r - 1, k);
      assert Repeat(x, r)[..r - 1] == Repeat(x, r - 1);
    }
  }

  /** A constant block votes for its sample. */
  lemma VoteOfRepeat(x: bv16, r: nat)
    requires 2 <= r
    ensures Vote(Repeat(x, r)) == x
  {
    var v := Vote(Repeat(x, r));
    forall k | 0 <= k < BITS ensures GetBit(v, k) == GetBit(x, k) {
      VoteBits(Repeat(x, r), k);
      OnesOfRepeat(x, r, k);
    }
    if v != x {
      BitsDetermine(v, x);
    }
  }

  // ---- the two resamplers -----------------------------------------------------------------

  /** What `digital_interpolation` is for, ratio 0 and 1 included. */
  function Interpolated(src: seq<bv16>, ratio: nat): seq<bv16> {
    if ratio < 2 then src else Upsample(src, ratio)
  }

  function Decimated(src: seq<bv16>, ratio: nat): seq<bv16> {
    if ratio < 2 then src else MapBlocks(Vote, src, ratio)
  }

  /** Decimation undoes interpolation. */
  lemma {:induction false} DecimationUndoesInterpolation(s: seq<bv16>, r: nat)
    requires 1 <= r
    ensures Decimated(Interpolated(s, r), r) == s
  {
    if 2 <= r {
      VotesUndoRepetition(s, r);
    }
  }

  lemma VotesOfRepeat(x: bv16, r: nat)
    requires 2 <= r
    ensures MapBlocks(Vote, Repeat(x, r), r) == [x]
  {
    hide Vote, Repeat;
    VoteOfRepeat(x, r);
    MapBlocksLength(Vote, Repeat(x, r), r, 1);
    MapBlocksAt(Vote, Repeat(x, r), r, 1, 0);
    assert Repeat(x, r)[0 * r..0 * r + r] == Repeat(x, r);
  }

  lemma {:induction false} VotesUndoRepetition(s: seq<bv16>, r: nat)
    requires 2 <= r
    ensures MapBlocks(Vote, Upsample(s, r), r) == s
  {
    if s != [] {
      var n := |s| - 1;
      hide Vote, MapBlocks;
      assert Upsample(s, r) == Upsample(s[..n], r) + Repeat(s[n], r);
      hide Upsample, Repeat;
      VotesUndoRepetition(s[..n], r);
      MapBlocksConcat(Vote, Upsample(s[..n], r), Repeat(s[n], r), r, 1);
      VotesOfRepeat(s[n], r);
    }
  }

  method DigitalInterpolation(src: seq<bv16>, dest: seq<bv16>, ratio: nat) returns (dest': seq<bv16>)
    ensures dest' == if ratio < 2 then src else dest + Upsample(src, ratio)
  {
    if ratio < 2 {
      return src;
    }
    dest' := dest;
    for i := 0 to |src|
      invariant dest' == dest + Upsample(src[..i], ratio)
    {
      ghost var before := dest';
      for j := 0 to ratio
        invariant dest' == before + Repeat(src[i], j)
      {
        dest' := dest' + [src[i]];
      }
      assert src[..i + 1][..i] == src[..i];
    }
    assert src[..|src|] == src;
  }

  /** The body of the decimation loop: count the bits of one block, then vote. */
  method VoteOnBlock(src: seq<bv16>, i: nat, ratio: nat) returns (sample: bv16)
    requires i + ratio <= |src|
    ensures sample == Vote(src[i..i + ratio])
  {
    ghost var block := src[i..i + ratio];
    var bitsSum := seq(BITS, _ => 0);
    for j := 0 to ratio
      invariant |bitsSum| == BITS
      invariant forall k :: 0 <= k < BITS ==> bitsSum[k] == Ones(block[..j], k)
    {
      assert block[..j + 1][..j] == block[..j] && block[j] == src[i + j];
      ghost var before := bitsSum;
      for k := 0 to BITS
        invariant |bitsSum| == BITS
        invariant forall b :: 0 <= b < BITS ==> bitsSum[b] == Ones(block[..if b < k then j + 1 else j], b)
      {
        bitsSum := bitsSum[k := bitsSum[k] + if GetBit(src[i + j], k) then 1 else 0];
      }
    }
    assert block[..ratio] == block;
    sample := 0;
    for k := 0 to BITS
      invariant sample == VoteBelow(block, k)
    {
      if bitsSum[k] >= ratio / 2 {
        sample := SetBit(sample, k);
      }
    }
  }

  /** A block cut short by the end of the source is an out-of-range access: ok is false. */
  method DigitalDecimation(src: seq<bv16>, dest: seq<bv16>, ratio: nat) returns (ok: bool, dest': seq<bv16>)
    ensures ok <==> ratio < 2 || |src| % ratio == 0
    ensures ok ==> dest' == if ratio < 2 then src else dest + MapBlocks(Vote, src, ratio)
  {
    if ratio < 2 {
      return true, src;
    }
    dest' := dest;
    var i := 0;
    ghost var n := 0;
    while i < |src|
      invariant 0 <= i <= |src| && i == n * ratio && 0 <= n
      invariant dest' == dest + MapBlocks(Vote, src[..i], ratio)
      decreases |src| - i
    {
      if i + ratio > |src| {
        DivModUnique(|src|, ratio, n, |src| - i);
        return false, dest';
      }
      var sample := VoteOnBlock(src, i, ratio);
      dest' := dest' + [sample];
      assert src[..i + ratio][..i] == src[..i] && src[..i + ratio][i..] == src[i..i + ratio];
      Dist(n, 1, ratio);
      i, n := i + ratio, n + 1;
    }
    QuotientOfMultiple(n, ratio);
    assert src[..i] == src;
    ok := true;
  }
}
