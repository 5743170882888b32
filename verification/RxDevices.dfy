/** The receiving devices of the ADALM2000: they pull samples from the connected transmitters and
    decimate them. */
module RxDevices {
  import opened Arithmetic
  import opened Blocks
  import opened Playback
  import opened TxDevices
  import Digital
  import Analog

  /** What a read of n logic samples at a ratio delivers. */
  function LogicRead(st: Tx<bv16>, n: nat, ratio: nat): seq<bv16>
    requires st.Readable(n * ratio)
  {
    Digital.Decimated(st.Output(0, n * ratio), ratio)
  }

  lemma PulledInBlocks<T>(pulled: seq<T>, n: nat, ratio: nat)
    requires 1 <= ratio && |pulled| == n * ratio
    ensures |pulled| % ratio == 0
  {
    QuotientOfMultiple(n, ratio);
  }

  /** How many of n samples from place `start` on, going round the buffer, have the bit set. */
  function WindowOnes(samples: seq<bv16>, start: nat, n: nat, bit: nat): nat
    requires samples != [] && bit < Digital.BITS
  {
    if n == 0 then 0 else
      WindowOnes(samples, start, n - 1, bit)
      + if Digital.GetBit(samples[(start + n - 1) % |samples|], bit) then 1 else 0
  }

  lemma {:induction false} OnesOfWindow(samples: seq<bv16>, start: nat, block: seq<bv16>, bit: nat)
    requires samples != [] && bit < Digital.BITS
    requires forall j :: 0 <= j < |block| ==> block[j] == samples[(start + j) % |samples|]
    ensures Digital.Ones(block, bit) == WindowOnes(samples, start, |block|, bit)
  {
    if block != [] {
      OnesOfWindow(samples, start, block[..|block| - 1], bit);
    }
  }

  lemma BlockFits(n: nat, ratio: nat, k: nat)
    requires k < n
    ensures 0 <= k * ratio <= k * ratio + ratio <= n * ratio
  {
    Dist(n, k, ratio);
    MultipleIsLarge(n - k, ratio);
  }

  /** A block of the samples pulled is a stretch of the buffer. */
  lemma PulledBlock(samples: seq<bv16>, index: nat, pulled: seq<bv16>, from: nat, block: seq<bv16>)
    requires index < |samples| && pulled == Play(samples, index, |pulled|)
    requires from + |block| <= |pulled| && block == pulled[from..from + |block|]
    ensures forall j :: 0 <= j < |block| ==> block[j] == samples[(index + from + j) % |samples|]
  {
    hide Play;
    forall j | 0 <= j < |block| ensures block[j] == samples[(index + from + j) % |samples|] {
      PlayAt(samples, index, |pulled|, from + j);
    }
  }

  /** At a ratio of 1 the samples of the buffer are delivered, going round it. */
  lemma LogicReadPlain(st: Tx<bv16>, n: nat, k: nat)
    requires st.index < |st.samples| && k < n && n * 1 == n
    ensures |LogicRead(st, n, 1)| == n
    ensures LogicRead(st, n, 1)[k] == st.samples[(st.index + k) % |st.samples|]
  {
    PlayAt(st.samples, st.index, n, k);
  }

  /** Sample k that a read delivers: the vote of `ratio` samples of the buffer, going round it. */
  lemma LogicReadAt(st: Tx<bv16>, n: nat, ratio: nat, k: nat, bit: nat)
    requires st.index < |st.samples| && k < n && 2 <= ratio && bit < Digital.BITS
    ensures |LogicRead(st, n, ratio)| == n
    ensures Digital.GetBit(LogicRead(st, n, ratio)[k], bit)
            <==> WindowOnes(st.samples, st.index + k * ratio, ratio, bit) >= ratio / 2
  {
    BlockFits(n, ratio, k);
    var pulled := st.Output(0, n * ratio);
    var block := pulled[k * ratio..k * ratio + ratio];
    assert pulled == Play(st.samples, st.index, |pulled|);
    hide Tx.Output, Digital.GetBit, Digital.Vote, Play, WindowOnes, MapBlocks;
    PulledBlock(st.samples, st.index, pulled, k * ratio, block);
    MapBlocksLength(Digital.Vote, pulled, ratio, n);
    MapBlocksAt(Digital.Vote, pulled, ratio, n, k);
    OnesOfWindow(st.samples, st.index + k * ratio, block, bit);
    Digital.VoteBits(block, bit);
  }

  /** An empty buffer reads as zeros. */
  lemma LogicReadEmpty(st: Tx<bv16>, n: nat, ratio: nat)
    requires st.samples == [] && st.Readable(n * ratio) && 1 <= ratio
    ensures LogicRead(st, n, ratio) == Repeat(0, n)
  {
    var pulled := Repeat(0 as bv16, n * ratio);
    forall j | 0 <= j < n * ratio ensures st.Output(0, n * ratio)[j] == 0 {
      PlayAt(pulled, st.index, n * ratio, j);
    }
    assert st.Output(0, n * ratio) == pulled;
    hide Tx.Output, Digital.Vote;
    if ratio >= 2 {
      MapBlocksLength(Digital.Vote, pulled, ratio, n);
      forall k | 0 <= k < n ensures LogicRead(st, n, ratio)[k] == 0 {
        MapBlocksAt(Digital.Vote, pulled, ratio, n, k);
        assert pulled[k * ratio..k * ratio + ratio] == Repeat(0, ratio);
        Digital.VoteOfRepeat(0, ratio);
      }
    }
  }

  /** Sample m of a read is this one: 0 from an empty buffer, otherwise the vote of the `ratio` samples from
      place index + m * ratio on, which for a ratio of 1 is the one sample. */
  predicate IsSample(samples: seq<bv16>, index: nat, ratio: nat, m: nat, x: bv16) {
    && (samples == [] ==> x == 0)
    && (samples != [] && ratio == 1 ==> x == samples[(index + m) % |samples|])
    && (samples != [] && ratio >= 2 ==>
          forall bit :: 0 <= bit < Digital.BITS ==>
            (Digital.GetBit(x, bit) <==> WindowOnes(samples, index + m * ratio, ratio, bit) >= ratio / 2))
  }

  lemma LogicReadSample(st: Tx<bv16>, n: nat, ratio: nat, m: nat)
    requires st.Readable(n * ratio) && 1 <= ratio && m < n
    ensures |LogicRead(st, n, ratio)| == n
    ensures IsSample(st.samples, st.index, ratio, m, LogicRead(st, n, ratio)[m])
  {
    MultipleIsLarge(n, ratio);
    if st.samples == [] {
      LogicReadEmpty(st, n, ratio);
    } else if ratio == 1 {
      LogicReadPlain(st, n, m);
    } else {
      hide LogicRead, Digital.GetBit, WindowOnes;
      LogicReadAt(st, n, ratio, m, 0);
      forall bit | 0 <= bit < Digital.BITS
        ensures Digital.GetBit(LogicRead(st, n, ratio)[m], bit)
                <==> WindowOnes(st.samples, st.index + m * ratio, ratio, bit) >= ratio / 2
      {
        LogicReadAt(st, n, ratio, m, bit);
      }
    }
  }

  lemma LogicReadSamples(st: Tx<bv16>, n: nat, ratio: nat)
    requires st.Readable(n * ratio) && 1 <= ratio
    ensures |LogicRead(st, n, ratio)| == n
    ensures forall m :: 0 <= m < n ==> IsSample(st.samples, st.index, ratio, m, LogicRead(st, n, ratio)[m])
  {
    if n == 0 {
      assert LogicRead(st, 0, ratio) == [];
    } else {
      hide LogicRead, IsSample;
      LogicReadSample(st, n, ratio, 0);
      forall m | 0 <= m < n ensures IsSample(st.samples, st.index, ratio, m, LogicRead(st, n, ratio)[m]) {
        LogicReadSample(st, n, ratio, m);
      }
    }
  }

  lemma LogicReadIs(st: Tx<bv16>, n: nat, ratio: nat, pbuf: seq<bv16>)
    requires st.Readable(n * ratio) && 1 <= ratio
    requires var pulled := st.Output(0, n * ratio);
             pbuf == if ratio < 2 then pulled else [] + MapBlocks(Digital.Vote, pulled, ratio)
    ensures pbuf == LogicRead(st, n, ratio)
  {
    hide MapBlocks, Tx.Output;
  }

  class LogicRx {
    const tx: LogicTx    // the connected device

    constructor (tx: LogicTx)
      ensures this.tx == tx
    {
      this.tx := tx;
    }

    method ReadDev(bytesCount: nat, ratio: nat) returns (ok: bool, pbuf: seq<bv16>)
      requires bytesCount % 2 == 0 && 1 <= ratio
      modifies tx
      ensures ok <==> old(tx.State()).Readable(bytesCount / 2 * ratio)
      ensures ok ==> |pbuf| == bytesCount / 2
      ensures ok ==> forall m :: 0 <= m < |pbuf| ==>
                       IsSample(old(tx.samples), old(tx.currentIndex), ratio, m, pbuf[m])
      ensures ok ==> pbuf == LogicRead(old(tx.State()), bytesCount / 2, ratio)
                     && tx.State() == old(tx.State()).Advanced(0, bytesCount / 2 * ratio)
    {
      var len := bytesCount / 2;
      var tmpSamples;
      ok, tmpSamples := tx.TransferSamplesToRx(len * ratio);
      if !ok {
        return false, [];
      }
      hide Tx.Output, Tx.Readable, Tx.Advanced, LogicRead, IsSample, MapBlocks;
      PulledInBlocks(tmpSamples, len, ratio);
      ok, pbuf := Digital.DigitalDecimation(tmpSamples, [], ratio);
      LogicReadIs(old(tx.State()), len, ratio, pbuf);
      LogicReadSamples(old(tx.State()), len, ratio);
    }
  }

  // ---- the two-channel converter ------------------------------------------------------------

  /** a[0], b[0], a[1], b[1], ... */
  function Interleave<T>(a: seq<T>, b: seq<T>): (r: seq<T>)
    requires |a| == |b|
    ensures |r| == 2 * |a|
  {
    if a == [] then [] else
      var n := |a| - 1;
      Interleave(a[..n], b[..n]) + [a[n], b[n]]
  }

  lemma InterleaveMore<T>(a: seq<T>, b: seq<T>, x: T, y: T)
    requires |a| == |b|
    ensures Interleave(a + [x], b + [y]) == Interleave(a, b) + [x, y]
  {
    assert (a + [x])[..|a|] == a && (b + [y])[..|b|] == b;
  }

  function Converted(toRaw: real -> int, volts: seq<real>): (r: seq<int>)
    ensures |r| == |volts|
  {
    seq(|volts|, k requires 0 <= k < |volts| => toRaw(volts[k]))
  }

  /** What one channel's worker delivers: n samples at a ratio. */
  function Resampled(st: Tx<real>, n: nat, ratio: nat): seq<real>
    requires st.InBounds(n * ratio)
  {
    Analog.Decimated(st.BlockOutput(0.0, n * ratio), ratio)
  }

  lemma ResampledLength(st: Tx<real>, n: nat, ratio: nat)
    requires 1 <= ratio && st.InBounds(n * ratio)
    ensures |Resampled(st, n, ratio)| == n
  {
    if ratio >= 2 {
      MapBlocksLength(Analog.Mean, st.BlockOutput(0.0, n * ratio), ratio, n);
    }
  }

  /** The sum of n samples from place `start` on, going round the buffer. */
  function WindowSum(samples: seq<real>, start: nat, n: nat): real
    requires samples != []
  {
    if n == 0 then 0.0 else WindowSum(samples, start, n - 1) + samples[(start + n - 1) % |samples|]
  }

  lemma {:induction false} SumOfWindow(samples: seq<real>, start: nat, block: seq<real>)
    requires samples != []
    requires forall j :: 0 <= j < |block| ==> block[j] == samples[(start + j) % |samples|]
    ensures Analog.Sum(block) == WindowSum(samples, start, |block|)
  {
    if block != [] {
      SumOfWindow(samples, start, block[..|block| - 1]);
    }
  }

  /** From right behind a buffer it is read from its start. */
  lemma RoundTheBuffer(size: nat, index: nat, j: nat)
    requires 0 < size && index <= size
    ensures ((if index == size then 0 else index) + j) % size == (index + j) % size
  {
    ShiftByMultiple(j, size, 1);
  }

  /** Sample j of what a transfer from a DAC delivers: inside its buffer, or right behind it. */
  lemma BlockOutputAt(st: Tx<real>, n: nat, j: nat)
    requires st.samples != [] && st.index <= |st.samples| && j < n
    ensures 0 <= (st.index + j) % |st.samples| < |st.samples|
    ensures st.BlockOutput(0.0, n)[j] == st.samples[(st.index + j) % |st.samples|]
  {
    var start := if st.index == |st.samples| then 0 else st.index;
    assert st.BlockOutput(0.0, n) == Play(st.samples, start, n);
    hide Tx.BlockOutput, Play;
    RoundTheBuffer(|st.samples|, st.index, j);
    PlayAt(st.samples, start, n, j);
  }

  lemma EmptyBlockOutput(st: Tx<real>, n: nat)
    requires st.samples == [] && st.InBounds(n)
    ensures st.BlockOutput(0.0, n) == Repeat(0.0, n)
  {
    if n > 0 {
      forall j | 0 <= j < n ensures st.BlockOutput(0.0, n)[j] == 0.0 {
        PlayAt(Repeat(0.0, n), if st.index == n then 0 else st.index, n, j);
      }
    }
  }

  lemma BlockIsWindow(st: Tx<real>, n: nat, ratio: nat, k: nat)
    requires st.samples != [] && st.index <= |st.samples| && k < n && 1 <= ratio
    ensures 0 <= k * ratio <= k * ratio + ratio <= n * ratio
    ensures var block := st.BlockOutput(0.0, n * ratio)[k * ratio..k * ratio + ratio];
            Analog.Sum(block) == WindowSum(st.samples, st.index + k * ratio, ratio)
  {
    BlockFits(n, ratio, k);
    var pulled, from := st.BlockOutput(0.0, n * ratio), k * ratio;
    hide Tx.BlockOutput;
    var block := pulled[from..from + ratio];
    forall j | 0 <= j < ratio ensures block[j] == st.samples[(st.index + from + j) % |st.samples|] {
      BlockOutputAt(st, n * ratio, from + j);
    }
    SumOfWindow(st.samples, st.index + from, block);
  }

  /** What a channel's worker delivers, sample by sample, from inside the buffer or right behind it. */
  lemma ResampledAt(st: Tx<real>, n: nat, ratio: nat, k: nat)
    requires st.samples != [] && st.index <= |st.samples| && k < n && 1 <= ratio
    ensures st.InBounds(n * ratio) && |Resampled(st, n, ratio)| == n
    ensures Resampled(st, n, ratio)[k] == WindowSum(st.samples, st.index + k * ratio, ratio) / (ratio as real)
    ensures ratio == 1 ==> Resampled(st, n, ratio)[k] == st.samples[(st.index + k) % |st.samples|]
  {
    ResampledLength(st, n, ratio);
    BlockIsWindow(st, n, ratio, k);
    if ratio == 1 {
      BlockOutputAt(st, n, k);
      assert n * ratio == n && k * ratio == k;
      assert WindowSum(st.samples, st.index + k, 1) == st.samples[(st.index + k) % |st.samples|];
    } else {
      MapBlocksAt(Analog.Mean, st.BlockOutput(0.0, n * ratio), ratio, n, k);
    }
  }

  lemma {:induction false} SumOfZeros(n: nat)
    ensures Analog.Sum(Repeat(0.0, n)) == 0.0
  {
    if n > 0 {
      SumOfZeros(n - 1);
      assert Repeat(0.0, n)[..n - 1] == Repeat(0.0, n - 1);
    }
  }

  /** An empty buffer reads as 0 volts. */
  lemma ResampledEmpty(st: Tx<real>, n: nat, ratio: nat, k: nat)
    requires st.samples == [] && st.InBounds(n * ratio) && k < n && 1 <= ratio
    ensures |Resampled(st, n, ratio)| == n && Resampled(st, n, ratio)[k] == 0.0
  {
    ResampledLength(st, n, ratio);
    EmptyBlockOutput(st, n * ratio);
    var pulled := Repeat(0.0, n * ratio);
    hide Tx.BlockOutput;
    if ratio >= 2 {
      MapBlocksAt(Analog.Mean, pulled, ratio, n, k);
      assert pulled[k * ratio..k * ratio + ratio] == Repeat(0.0, ratio);
      SumOfZeros(ratio);
    }
  }

  /** Frame k of a channel is this voltage: 0 for an empty buffer, otherwise the mean of the `ratio` samples
      from place index + k * ratio on, which for a ratio of 1 is the one sample. */
  predicate IsFrame(samples: seq<real>, index: nat, ratio: nat, k: nat, volts: real) {
    && (samples == [] ==> volts == 0.0)
    && (samples != [] && ratio >= 1 ==> volts == WindowSum(samples, index + k * ratio, ratio) / (ratio as real))
    && (samples != [] && ratio == 1 ==> volts == samples[(index + k) % |samples|])
  }

  lemma ResampledFrames(st: Tx<real>, n: nat, ratio: nat)
    requires st.InBounds(n * ratio) && 1 <= ratio
    ensures |Resampled(st, n, ratio)| == n
    ensures forall k :: 0 <= k < n ==> IsFrame(st.samples, st.index, ratio, k, Resampled(st, n, ratio)[k])
  {
    ResampledLength(st, n, ratio);
    hide Resampled;
    forall k | 0 <= k < n ensures IsFrame(st.samples, st.index, ratio, k, Resampled(st, n, ratio)[k]) {
      MultipleIsLarge(n, ratio);
      if st.samples == [] {
        ResampledEmpty(st, n, ratio, k);
      } else {
        ResampledAt(st, n, ratio, k);
      }
    }
  }

  lemma {:induction false} InterleaveAt<T>(a: seq<T>, b: seq<T>, m: nat)
    requires |a| == |b| && m < 2 * |a|
    ensures Interleave(a, b)[m] == if m % 2 == 0 then a[m / 2] else b[m / 2]
  {
    var n := |a| - 1;
    if m < 2 * n {
      InterleaveAt(a[..n], b[..n], m);
    }
  }

  /** The raw value that the voltage of frame k is converted to. */
  predicate IsRaw(toRaw: real -> int, samples: seq<real>, index: nat, ratio: nat, k: nat, raw: int) {
    && (samples == [] ==> raw == toRaw(0.0))
    && (samples != [] && ratio >= 1 ==> raw == toRaw(WindowSum(samples, index + k * ratio, ratio) / (ratio as real)))
    && (samples != [] && ratio == 1 ==> raw == toRaw(samples[(index + k) % |samples|]))
  }

  class Adc {
    const dacA: Dac
    const dacB: Dac
    const toRaw1: real -> int    // the conversion of a voltage, as calibrated, for each channel
    const toRaw2: real -> int

    constructor (dacA: Dac, dacB: Dac, toRaw1: real -> int, toRaw2: real -> int)
      ensures this.dacA == dacA && this.dacB == dacB && this.toRaw1 == toRaw1 && this.toRaw2 == toRaw2
    {
      this.dacA, this.dacB, this.toRaw1, this.toRaw2 := dacA, dacB, toRaw1, toRaw2;
    }

    /** One channel's worker. */
    static method Resample(devOut: Dac, size: nat, ratio: nat, ghost n: nat) returns (dest: seq<real>)
      requires 1 <= ratio && size == n * ratio && devOut.State().InBounds(size)
      modifies devOut`samples, devOut`currentIndex
      ensures dest == Resampled(old(devOut.State()), n, ratio) && |dest| == n
      ensures forall k :: 0 <= k < n ==> IsFrame(old(devOut.samples), old(devOut.currentIndex), ratio, k, dest[k])
      ensures devOut.State() == old(devOut.State()).BlockAdvanced(0.0, size)
    {
      ResampledLength(devOut.State(), n, ratio);
      ResampledFrames(devOut.State(), n, ratio);
      var tmpSamples := devOut.TransferSamplesToRx(size);
      if ratio < 2 {
        return tmpSamples;
      }
      PulledInBlocks(tmpSamples, n, ratio);
      dest := Analog.AnalogicalDecimation(tmpSamples, [], ratio);
      assert [] + MapBlocks(Analog.Mean, tmpSamples, ratio) == MapBlocks(Analog.Mean, tmpSamples, ratio);
    }

    /** The loop that converts the samples and puts them into the buffer. */
    method InterleaveRaw(a: seq<real>, b: seq<real>) returns (pbuf: seq<int>)
      requires |a| == |b|
      ensures pbuf == Interleave(Converted(toRaw1, a), Converted(toRaw2, b))
    {
      ghost var rawA, rawB := Converted(toRaw1, a), Converted(toRaw2, b);
      pbuf := [];
      assert rawA[..0] == [] && rawB[..0] == [];
      for i := 0 to |a|
        invariant pbuf == Interleave(rawA[..i], rawB[..i])
      {
        hide Interleave;
        assert rawA[..i + 1] == rawA[..i] + [rawA[i]] && rawB[..i + 1] == rawB[..i] + [rawB[i]];
        InterleaveMore(rawA[..i], rawB[..i], rawA[i], rawB[i]);
        pbuf := pbuf + [toRaw1(a[i]), toRaw2(b[i])];
      }
      assert rawA[..|a|] == rawA && rawB[..|a|] == rawB;
    }

    lemma Frames(a: seq<real>, b: seq<real>, pbuf: seq<int>, samplesA: seq<real>, indexA: nat, samplesB: seq<real>,
                 indexB: nat, ratio: nat)
      requires |a| == |b| && 1 <= ratio && pbuf == Interleave(Converted(toRaw1, a), Converted(toRaw2, b))
      requires forall k :: 0 <= k < |a| ==> IsFrame(samplesA, indexA, ratio, k, a[k])
      requires forall k :: 0 <= k < |b| ==> IsFrame(samplesB, indexB, ratio, k, b[k])
      ensures |pbuf| == 2 * |a|
      ensures forall m :: 0 <= m < |pbuf| ==>
                if m % 2 == 0 then IsRaw(toRaw1, samplesA, indexA, ratio, m / 2, pbuf[m])
                else IsRaw(toRaw2, samplesB, indexB, ratio, m / 2, pbuf[m])
    {
      forall m | 0 <= m < |pbuf|
        ensures pbuf[m] == if m % 2 == 0 then toRaw1(a[m / 2]) else toRaw2(b[m / 2])
      {
        InterleaveAt(Converted(toRaw1, a), Converted(toRaw2, b), m);
      }
      hide Interleave, Converted, WindowSum;
    }

    /** Four bytes hold one sample of each channel: sample 2k is frame k of channel 1, and sample 2k + 1 that
        of channel 2. */
    method ReadDev(bytesCount: nat, ratio: nat) returns (pbuf: seq<int>)
      requires bytesCount % 4 == 0 && 1 <= ratio && dacA != dacB
      requires dacA.State().InBounds(bytesCount / 4 * ratio) && dacB.State().InBounds(bytesCount / 4 * ratio)
      modifies dacA`samples, dacA`currentIndex, dacB`samples, dacB`currentIndex
      ensures |pbuf| == bytesCount / 2
      ensures forall m :: 0 <= m < |pbuf| ==>
                if m % 2 == 0 then
                  IsRaw(toRaw1, old(dacA.samples), old(dacA.currentIndex), ratio, m / 2, pbuf[m])
                else
                  IsRaw(toRaw2, old(dacB.samples), old(dacB.currentIndex), ratio, m / 2, pbuf[m])
      ensures |Resampled(old(dacA.State()), bytesCount / 4, ratio)|
              == |Resampled(old(dacB.State()), bytesCount / 4, ratio)|
      ensures pbuf == Interleave(Converted(toRaw1, Resampled(old(dacA.State()), bytesCount / 4, ratio)),
                                 Converted(toRaw2, Resampled(old(dacB.State()), bytesCount / 4, ratio)))
      ensures dacA.State() == old(dacA.State()).BlockAdvanced(0.0, bytesCount / 4 * ratio)
      ensures dacB.State() == old(dacB.State()).BlockAdvanced(0.0, bytesCount / 4 * ratio)
    {
      hide Interleave, Resampled, Tx.BlockAdvanced, Tx.InBounds, WindowSum, IsFrame, IsRaw;
      var n := bytesCount / 4;
      var a := Resample(dacA, n * ratio, ratio, n);
      var b := Resample(dacB, n * ratio, ratio, n);
      pbuf := InterleaveRaw(a, b);
      Frames(a, b, pbuf, old(dacA.samples), old(dacA.currentIndex), old(dacB.samples), old(dacB.currentIndex), ratio);
    }
  }
}
