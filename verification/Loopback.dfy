/** Runs of the ADALM2000 devices: the index invariant, batching, and the loopback from the
    transmitter to the receiver. */
module Loopback {
  import opened Basics
  import opened Arithmetic
  import opened Blocks
  import opened Playback
  import opened TxDevices
  import opened RxDevices
  import Digital
  import Analog

  // ---- the index invariant over runs ---------------------------------------------------------

  datatype Op<T> = Write(data: seq<T>) | Load(ratio: nat) | Transfer(n: nat) | Cancel | Close

  /** One operation of the logic transmitter; a failed transfer leaves the filled buffer. */
  function LogicStep(st: Tx<bv16>, op: Op<bv16>): Tx<bv16> {
    match op
    case Write(data) => st.Written(data)
    case Load(ratio) => st.Loaded(Digital.Interpolated(st.samples, ratio))
    case Transfer(n) => if st.Readable(n) then st.Advanced(0, n) else st.Filled(0, n)
    case Cancel => st.Cleared()
    case Close => st
  }

  /** A transfer from a DAC has to stay inside its buffer; all else can always be called. */
  predicate DacCan(st: Tx<real>, op: Op<real>) {
    op.Transfer? ==> st.InBounds(op.n)
  }

  /** One operation of an enabled DAC; loading an empty buffer at ratio 2 and up changes nothing. */
  function DacStep(st: Tx<real>, op: Op<real>): Tx<real>
    requires DacCan(st, op)
  {
    match op
    case Write(data) => st.Written(data)
    case Load(ratio) => if ratio < 2 || st.samples != [] then st.Loaded(Analog.Interpolated(st.samples, ratio)) else st
    case Transfer(n) => st.BlockAdvanced(0.0, n)
    case Cancel => Tx([], 0, st.reset)
    case Close => st.Cleared()
  }

  lemma DigitalNeverShrinks(s: seq<bv16>, ratio: nat)
    ensures |Digital.Interpolated(s, ratio)| >= |s| && (s == [] ==> Digital.Interpolated(s, ratio) == [])
  {
    if ratio >= 2 {
      UpsampleLength(s, ratio);
      if s != [] {
        MultipleIsLarge(ratio, |s|);
      }
    }
  }

  lemma AnalogNeverShrinks(s: seq<real>, ratio: nat)
    requires ratio < 2 || s != []
    ensures |Analog.Interpolated(s, ratio)| >= |s| && (s == [] ==> Analog.Interpolated(s, ratio) == [])
  {
    if ratio >= 2 {
      Analog.InterpolationLength(s, ratio);
      Dist(|s| - 1, |s| - 1, ratio);
      if |s| > 1 {
        MultipleIsLarge(ratio + 1, |s| - 1);
      }
    }
  }

  /** From a usable index every operation but one keeps it usable: cancelling the logic transmitter
      away from index 0 leaves a stale index, and nothing else does. */
  lemma LogicIndex(st: Tx<bv16>, op: Op<bv16>)
    requires st.IndexOk()
    ensures LogicStep(st, op).IndexOk() <==> !(op.Cancel? && st.index != 0)
  {
    if op.Load? {
      DigitalNeverShrinks(st.samples, op.ratio);
    }
  }

  /** For the DAC the one operation is closing away from index 0. */
  lemma DacIndex(st: Tx<real>, op: Op<real>)
    requires st.IndexOk()
    ensures DacStep(st, op).IndexOk() <==> !(op.Close? && st.index != 0)
  {
    if op.Load? && (op.ratio < 2 || st.samples != []) {
      AnalogNeverShrinks(st.samples, op.ratio);
    }
  }

  /** From a stale index: what makes it usable again. */
  lemma LogicRecovers(st: Tx<bv16>, op: Op<bv16>)
    requires !st.IndexOk()
    ensures LogicStep(st, op).IndexOk()
            <==> match op
                 case Write(data) => st.reset || st.index < |st.samples| + |data|
                 case Load(ratio) => ratio >= 2 && st.index < |st.samples| * ratio
                 case Transfer(n) => st.samples == [] && st.index < n
                 case Cancel => false
                 case Close => false
  {
    if op.Load? {
      UpsampleLength(st.samples, op.ratio);
    }
  }

  /** For the DAC also a cancel does, and a read that the buffer bears. */
  lemma DacRecovers(st: Tx<real>, op: Op<real>)
    requires !st.IndexOk() && DacCan(st, op)
    ensures DacStep(st, op).IndexOk()
            <==> match op
                 case Write(data) => st.reset || st.index < |st.samples| + |data|
                 case Load(ratio) =>
                   ratio >= 2 && st.samples != [] && st.index <= (|st.samples| - 1) * (ratio + 1)
                 case Transfer(n) => n > 0
                 case Cancel => true
                 case Close => false
  {
    if op.Load? && op.ratio >= 2 && st.samples != [] {
      Analog.InterpolationLength(st.samples, op.ratio);
    }
  }

  /** After cancelling the logic transmitter, reads succeed exactly when they ask for nothing or for more
      samples than the index has passed. */
  lemma ReadAfterCancel(st: Tx<bv16>, n: nat)
    ensures LogicStep(st, Cancel).Readable(n) <==> n == 0 || n > st.index
  {
  }

  /** After closing the DAC, reads are in bounds exactly when they ask for nothing or for as many
      samples as the index has passed. */
  lemma ReadAfterClose(st: Tx<real>, n: nat)
    ensures DacStep(st, Close).InBounds(n) <==> n == 0 || n >= st.index
  {
  }

  function LogicRun(st: Tx<bv16>, ops: seq<Op<bv16>>): Tx<bv16> {
    if ops == [] then st else LogicStep(LogicRun(st, ops[..|ops| - 1]), ops[|ops| - 1])
  }

  /** Every transfer of the run stays inside the buffer. */
  predicate DacRuns(st: Tx<real>, ops: seq<Op<real>>)
    decreases |ops|, 0
  {
    ops == [] || (DacRuns(st, ops[..|ops| - 1]) && DacCan(DacRun(st, ops[..|ops| - 1]), ops[|ops| - 1]))
  }

  function DacRun(st: Tx<real>, ops: seq<Op<real>>): Tx<real>
    requires DacRuns(st, ops)
    decreases |ops|, 1
  {
    if ops == [] then st else DacStep(DacRun(st, ops[..|ops| - 1]), ops[|ops| - 1])
  }

  /** The index is usable before the run and after each of its operations. */
  predicate LogicStaysUsable(st: Tx<bv16>, ops: seq<Op<bv16>>) {
    LogicRun(st, ops).IndexOk() && (ops == [] || LogicStaysUsable(st, ops[..|ops| - 1]))
  }

  /** No cancel of the run is called away from index 0. */
  predicate CancelsAtZero(st: Tx<bv16>, ops: seq<Op<bv16>>) {
    ops == [] || (CancelsAtZero(st, ops[..|ops| - 1])
                  && (ops[|ops| - 1].Cancel? ==> LogicRun(st, ops[..|ops| - 1]).index == 0))
  }

  /** Over a run the index stays usable if and only if no cancel is called away from index 0. */
  lemma {:induction false} LogicUsableExactly(st: Tx<bv16>, ops: seq<Op<bv16>>)
    requires st.IndexOk()
    ensures LogicStaysUsable(st, ops) <==> CancelsAtZero(st, ops)
  {
    if ops != [] {
      var before := ops[..|ops| - 1];
      hide LogicStep;
      LogicUsableExactly(st, before);
      if LogicStaysUsable(st, before) {
        LogicIndex(LogicRun(st, before), ops[|ops| - 1]);
      }
    }
  }

  predicate DacStaysUsable(st: Tx<real>, ops: seq<Op<real>>)
    requires DacRuns(st, ops)
  {
    DacRun(st, ops).IndexOk() && (ops == [] || DacStaysUsable(st, ops[..|ops| - 1]))
  }

  /** No close of the run is called away from index 0. */
  predicate ClosesAtZero(st: Tx<real>, ops: seq<Op<real>>)
    requires DacRuns(st, ops)
  {
    ops == [] || (ClosesAtZero(st, ops[..|ops| - 1])
                  && (ops[|ops| - 1].Close? ==> DacRun(st, ops[..|ops| - 1]).index == 0))
  }

  /** For the DAC it is no close away from index 0. */
  lemma {:induction false} DacUsableExactly(st: Tx<real>, ops: seq<Op<real>>)
    requires st.IndexOk() && DacRuns(st, ops)
    ensures DacStaysUsable(st, ops) <==> ClosesAtZero(st, ops)
  {
    if ops != [] {
      var before := ops[..|ops| - 1];
      hide DacStep;
      DacUsableExactly(st, before);
      if DacStaysUsable(st, before) {
        DacIndex(DacRun(st, before), ops[|ops| - 1]);
      }
    }
  }

  /** Without cancels the index stays usable, and every transfer succeeds. */
  lemma {:induction false} LogicRunIndex(st: Tx<bv16>, ops: seq<Op<bv16>>)
    requires st.IndexOk() && forall k :: 0 <= k < |ops| ==> !ops[k].Cancel?
    ensures LogicRun(st, ops).IndexOk() && forall n: nat :: LogicRun(st, ops).Readable(n)
  {
    if ops != [] {
      LogicRunIndex(st, ops[..|ops| - 1]);
      LogicIndex(LogicRun(st, ops[..|ops| - 1]), ops[|ops| - 1]);
    }
  }

  /** Without closes the same holds for the DAC, and every transfer of the run is in bounds. */
  lemma {:induction false} DacRunIndex(st: Tx<real>, ops: seq<Op<real>>)
    requires st.IndexOk() && forall k :: 0 <= k < |ops| ==> !ops[k].Close?
    ensures DacRuns(st, ops) && DacRun(st, ops).IndexOk() && forall n: nat :: DacRun(st, ops).Readable(n)
  {
    if ops != [] {
      DacRunIndex(st, ops[..|ops| - 1]);
      DacIndex(DacRun(st, ops[..|ops| - 1]), ops[|ops| - 1]);
    }
  }

  lemma {:induction false} LogicResetStays(st: Tx<bv16>, ops: seq<Op<bv16>>)
    requires st.reset && forall k :: 0 <= k < |ops| ==> !ops[k].Write?
    ensures LogicRun(st, ops).reset
  {
    if ops != [] {
      LogicResetStays(st, ops[..|ops| - 1]);
    }
  }

  /** Whatever the index was and whatever was called between a load and the next write, that write
      makes it usable again. */
  lemma LogicWriteRecovers(st: Tx<bv16>, ratio: nat, ops: seq<Op<bv16>>, data: seq<bv16>)
    requires forall k :: 0 <= k < |ops| ==> !ops[k].Write?
    ensures LogicStep(LogicRun(LogicStep(st, Load(ratio)), ops), Write(data)) == Tx(data, 0, false)
    ensures LogicStep(LogicRun(LogicStep(st, Load(ratio)), ops), Write(data)).IndexOk()
  {
    LogicResetStays(LogicStep(st, Load(ratio)), ops);
  }

  lemma {:induction false} DacResetStays(st: Tx<real>, ops: seq<Op<real>>)
    requires st.reset && DacRuns(st, ops) && forall k :: 0 <= k < |ops| ==> !ops[k].Write?
    ensures DacRun(st, ops).reset
  {
    if ops != [] {
      DacResetStays(st, ops[..|ops| - 1]);
    }
  }

  /** For the DAC, if the load did not throw and no transfer leaves the buffer. */
  lemma DacWriteRecovers(st: Tx<real>, ratio: nat, ops: seq<Op<real>>, data: seq<real>)
    requires (ratio < 2 || st.samples != []) && forall k :: 0 <= k < |ops| ==> !ops[k].Write?
    requires DacRuns(DacStep(st, Load(ratio)), ops)
    ensures DacStep(DacRun(DacStep(st, Load(ratio)), ops), Write(data)) == Tx(data, 0, false)
    ensures DacStep(DacRun(DacStep(st, Load(ratio)), ops), Write(data)).IndexOk()
  {
    DacResetStays(DacStep(st, Load(ratio)), ops);
  }

  lemma LogicRunOfThree(st: Tx<bv16>, a: Op<bv16>, b: Op<bv16>, c: Op<bv16>)
    ensures LogicRun(st, [a, b, c]) == LogicStep(LogicStep(LogicStep(st, a), b), c)
  {
    hide LogicStep;
    assert [a, b, c][..2] == [a, b] && [a, b][..1] == [a] && [a][..0] == [];
    assert LogicRun(st, []) == st;
    assert LogicRun(st, [a]) == LogicStep(st, a);
    assert LogicRun(st, [a, b]) == LogicStep(LogicStep(st, a), b);
  }

  lemma DacRunOfThree(st: Tx<real>, a: Op<real>, b: Op<real>, c: Op<real>)
    requires DacCan(st, a) && DacCan(DacStep(st, a), b) && DacCan(DacStep(DacStep(st, a), b), c)
    ensures DacRuns(st, [a, b, c]) && DacRun(st, [a, b, c]) == DacStep(DacStep(DacStep(st, a), b), c)
  {
    hide DacStep, DacCan;
    assert [a, b, c][..2] == [a, b] && [a, b][..1] == [a] && [a][..0] == [];
    assert DacRuns(st, []) && DacRun(st, []) == st;
    assert DacRuns(st, [a]) && DacRun(st, [a]) == DacStep(st, a);
    assert DacRuns(st, [a, b]) && DacRun(st, [a, b]) == DacStep(DacStep(st, a), b);
  }

  /** From the start of a buffer, reading fewer samples than it holds moves the index by that many. */
  lemma ReadFromStart<T>(samples: seq<T>, zero: T, n: nat)
    requires n < |samples|
    ensures Tx(samples, 0, false).Readable(n) && Tx(samples, 0, false).InBounds(n)
    ensures Tx(samples, 0, false).Advanced(zero, n) == Tx(samples, n, false)
    ensures Tx(samples, 0, false).BlockAdvanced(zero, n) == Tx(samples, n, false)
  {
    PlayIsCopy(samples, 0, n);
  }

  /** A fresh logic transmitter: samples x and y are written, one is read, and the buffer is cancelled.
      The index is stale, and the next read of one sample throws. */
  lemma CancelLeavesStaleIndex(x: bv16, y: bv16)
    ensures var st := LogicRun(Tx([], 0, false), [Write([x, y]), Transfer(1), Cancel]);
            st == Tx([], 1, false) && !st.IndexOk() && !st.Readable(1)
  {
    hide LogicRun, Tx.Advanced;
    var written := [x, y];
    LogicRunOfThree(Tx([], 0, false), Write(written), Transfer(1), Cancel);
    assert [] + written == written;
    ReadFromStart(written, 0, 1);
  }

  /** A fresh DAC: three samples are written, two are read, and it is closed. The index is stale, and
      the next read of one sample would leave the buffer. */
  lemma CloseLeavesStaleIndex(x: real, y: real, z: real)
    ensures var ops := [Write([x, y, z]), Transfer(2), Close];
            && DacRuns(Tx([], 0, true), ops)
            && var st := DacRun(Tx([], 0, true), ops);
               st == Tx([], 2, false) && !st.IndexOk() && !st.InBounds(1)
  {
    hide DacRuns, DacRun, Tx.BlockAdvanced;
    var written := [x, y, z];
    ReadFromStart(written, 0.0, 2);
    DacRunOfThree(Tx([], 0, true), Write(written), Transfer(2), Close);
  }

  // ---- batching ------------------------------------------------------------------------------

  /** On a filled buffer, reading a samples and then b is reading a + b. */
  lemma ReadsAddUp<T>(st: Tx<T>, zero: T, a: nat, b: nat)
    requires st.index < |st.samples|
    ensures var st' := st.Advanced(zero, a);
            && st'.index < |st'.samples| && st'.samples == st.samples
            && st.Output(zero, a + b) == st.Output(zero, a) + st'.Output(zero, b)
            && st.Advanced(zero, a + b) == st'.Advanced(zero, b)
  {
    PlayTwice(st.samples, st.index, a, b);
  }

  lemma LogicReadsAddUp(st: Tx<bv16>, a: nat, b: nat, ratio: nat)
    requires st.index < |st.samples| && 1 <= ratio
    ensures var st' := st.Advanced(0, a * ratio);
            && st'.index < |st'.samples| && st'.samples == st.samples
            && LogicRead(st, a + b, ratio) == LogicRead(st, a, ratio) + LogicRead(st', b, ratio)
            && st.Advanced(0, (a + b) * ratio) == st'.Advanced(0, b * ratio)
  {
    Dist(a, b, ratio);
    ReadsAddUp(st, 0, a * ratio, b * ratio);
    var st' := st.Advanced(0, a * ratio);
    hide Tx.Advanced, Tx.Output;
    if ratio >= 2 {
      MapBlocksConcat(Digital.Vote, st.Output(0, a * ratio), st'.Output(0, b * ratio), ratio, b);
    }
  }

  /** The same for copying in blocks, from right behind the buffer, too. */
  lemma BlockReadsAddUp(st: Tx<real>, a: nat, b: nat)
    requires st.samples != [] && st.index <= |st.samples|
    ensures var st' := st.BlockAdvanced(0.0, a);
            && st'.index <= |st'.samples| && st'.samples == st.samples
            && (st.IndexOk() ==> st'.IndexOk())
            && st.BlockOutput(0.0, a + b) == st.BlockOutput(0.0, a) + st'.BlockOutput(0.0, b)
            && st.BlockAdvanced(0.0, a + b) == st'.BlockAdvanced(0.0, b)
  {
    if a > 0 {
      ReadsAddUp(st.Wrapped(0.0, a), 0.0, a, b);
    } else {
      assert st.BlockAdvanced(0.0, 0) == st && st.BlockOutput(0.0, 0) == [];
    }
  }

  lemma ChannelReadsAddUp(st: Tx<real>, a: nat, b: nat, ratio: nat)
    requires st.samples != [] && st.index <= |st.samples| && 1 <= ratio
    ensures var st' := st.BlockAdvanced(0.0, a * ratio);
            && st'.index <= |st'.samples| && st'.samples == st.samples
            && (st.IndexOk() ==> st'.IndexOk())
            && Resampled(st, a + b, ratio) == Resampled(st, a, ratio) + Resampled(st', b, ratio)
            && st.BlockAdvanced(0.0, (a + b) * ratio) == st'.BlockAdvanced(0.0, b * ratio)
  {
    Dist(a, b, ratio);
    BlockReadsAddUp(st, a * ratio, b * ratio);
    var st' := st.BlockAdvanced(0.0, a * ratio);
    hide Tx.BlockAdvanced, Tx.BlockOutput;
    if ratio >= 2 {
      MapBlocksConcat(Analog.Mean, st.BlockOutput(0.0, a * ratio), st'.BlockOutput(0.0, b * ratio), ratio, b);
    }
  }

  lemma {:induction false} InterleaveConcat<T>(a: seq<T>, b: seq<T>, a': seq<T>, b': seq<T>)
    requires |a| == |b| && |a'| == |b'|
    ensures Interleave(a + a', b + b') == Interleave(a, b) + Interleave(a', b')
  {
    if a' == [] {
      assert a + a' == a && b + b' == b;
    } else {
      var n := |a'| - 1;
      hide Interleave;
      var last := [a'[n], b'[n]];
      assert Interleave(a + a', b + b') == Interleave(a + a'[..n], b + b'[..n]) + last by {
        assert a + a' == (a + a'[..n]) + [a'[n]] && b + b' == (b + b'[..n]) + [b'[n]];
        InterleaveMore(a + a'[..n], b + b'[..n], a'[n], b'[n]);
      }
      assert Interleave(a', b') == Interleave(a'[..n], b'[..n]) + last by {
        assert a' == a'[..n] + [a'[n]] && b' == b'[..n] + [b'[n]];
        InterleaveMore(a'[..n], b'[..n], a'[n], b'[n]);
      }
      InterleaveConcat(a, b, a'[..n], b'[..n]);
    }
  }

  /** What the converter delivers for n frames. */
  function AdcRead(stA: Tx<real>, stB: Tx<real>, toRaw1: real -> int, toRaw2: real -> int, n: nat, ratio: nat): seq<int>
    requires 1 <= ratio && stA.InBounds(n * ratio) && stB.InBounds(n * ratio)
  {
    ResampledLength(stA, n, ratio);
    ResampledLength(stB, n, ratio);
    Interleave(Converted(toRaw1, Resampled(stA, n, ratio)), Converted(toRaw2, Resampled(stB, n, ratio)))
  }

  /** Converter streams do not depend on batching: a frames and then b frames are a + b frames,
      and leave both DACs where the one read would. */
  lemma AdcReadsAddUp(stA: Tx<real>, stB: Tx<real>, toRaw1: real -> int, toRaw2: real -> int, a: nat, b: nat,
                      ratio: nat)
    requires stA.samples != [] && stA.index <= |stA.samples| && stB.samples != [] && stB.index <= |stB.samples|
    requires 1 <= ratio
    ensures var stA', stB' := stA.BlockAdvanced(0.0, a * ratio), stB.BlockAdvanced(0.0, a * ratio);
            && (stA.IndexOk() ==> stA'.IndexOk()) && (stB.IndexOk() ==> stB'.IndexOk())
            && stA'.samples == stA.samples && stB'.samples == stB.samples
            && AdcRead(stA, stB, toRaw1, toRaw2, a + b, ratio)
               == AdcRead(stA, stB, toRaw1, toRaw2, a, ratio) + AdcRead(stA', stB', toRaw1, toRaw2, b, ratio)
            && stA.BlockAdvanced(0.0, (a + b) * ratio) == stA'.BlockAdvanced(0.0, b * ratio)
            && stB.BlockAdvanced(0.0, (a + b) * ratio) == stB'.BlockAdvanced(0.0, b * ratio)
  {
    var stA', stB' := stA.BlockAdvanced(0.0, a * ratio), stB.BlockAdvanced(0.0, a * ratio);
    ChannelReadsAddUp(stA, a, b, ratio);
    ChannelReadsAddUp(stB, a, b, ratio);
    ResampledLength(stA, a, ratio);
    ResampledLength(stB, a, ratio);
    ResampledLength(stA', b, ratio);
    ResampledLength(stB', b, ratio);
    hide Interleave, Resampled, Converted, Tx.BlockAdvanced;
    var x, x' := Resampled(stA, a, ratio), Resampled(stA', b, ratio);
    var y, y' := Resampled(stB, a, ratio), Resampled(stB', b, ratio);
    ConvertedConcat(toRaw1, x, x');
    ConvertedConcat(toRaw2, y, y');
    InterleaveConcat(Converted(toRaw1, x), Converted(toRaw2, y), Converted(toRaw1, x'), Converted(toRaw2, y'));
  }

  lemma ConvertedConcat(toRaw: real -> int, x: seq<real>, x': seq<real>)
    ensures Converted(toRaw, x + x') == Converted(toRaw, x) + Converted(toRaw, x')
  {
  }

  // ---- the two channel workers, interleaved turn by turn ----------------------------------------

  /** The DACs that the workers share, by number. */
  type Store = map<nat, Tx<real>>

  /** A worker inside the transfer from a DAC. */
  datatype Worker = Worker(dac: nat, begun: bool, left: nat, buf: seq<real>)

  predicate Done(w: Worker) {
    w.begun && w.left == 0
  }

  /** One turn: the first one fills an empty buffer, every other one copies a block, which is empty
      right behind the buffer. A worker whose index is beyond that takes no turn here. */
  function Turned(st: Tx<real>, w: Worker): (r: (Tx<real>, Worker))
    ensures r.1.dac == w.dac
  {
    if !w.begun then
      (st.Filled(0.0, w.left), w.(begun := true))
    else if w.left == 0 || st.samples == [] || st.index > |st.samples| then
      (st, w)
    else
      var n := Min(|st.samples| - st.index, w.left);
      (st.(index := (st.index + n) % |st.samples|),
       w.(left := w.left - n, buf := w.buf + st.samples[st.index..st.index + n]))
  }

  function Turn(store: Store, w: Worker): (r: (Store, Worker))
    requires w.dac in store
    ensures r.0.Keys == store.Keys && r.1.dac == w.dac
  {
    var (st, w') := Turned(store[w.dac], w);
    (store[w.dac := st], w')
  }

  /** The store and the two workers, taking turns as the schedule says. */
  function Interleaved(store: Store, w1: Worker, w2: Worker, schedule: seq<bool>): (r: (Store, Worker, Worker))
    requires w1.dac in store && w2.dac in store
    ensures r.0.Keys == store.Keys && r.1.dac == w1.dac && r.2.dac == w2.dac
  {
    if schedule == [] then (store, w1, w2)
    else
      var (t, v1, v2) := Interleaved(store, w1, w2, schedule[..|schedule| - 1]);
      OneTurn(t, v1, v2, schedule[|schedule| - 1])
  }

  function OneTurn(t: Store, v1: Worker, v2: Worker, first: bool): (r: (Store, Worker, Worker))
    requires v1.dac in t && v2.dac in t
    ensures r.0.Keys == t.Keys && r.1.dac == v1.dac && r.2.dac == v2.dac
  {
    if first then (Turn(t, v1).0, Turn(t, v1).1, v2) else (Turn(t, v2).0, v1, Turn(t, v2).1)
  }

  function Fresh(dac: nat, total: nat): Worker {
    Worker(dac, false, total, [])
  }

  /** How many turns copy n samples at the most. */
  function Turns(st: Tx<real>, n: nat): nat {
    n + if st.Behind(n) then 1 else 0
  }

  /** now is the DAC that was in state st, and w has copied part of what reading `total` samples from
      st delivers. */
  ghost predicate Halfway(st: Tx<real>, total: nat, now: Tx<real>, w: Worker) {
    st.InBounds(total) && w.left <= total
    && if !w.begun then now == st && w.left == total && w.buf == []
       else (now == st.Filled(0.0, total) && w.left == total && w.buf == []) || Copied(st, total, now, w)
  }

  ghost predicate Copied(st: Tx<real>, total: nat, now: Tx<real>, w: Worker)
    requires w.left <= total
  {
    var from := st.Wrapped(0.0, total);
    && (w.left < total ==> from.index < |from.samples|)
    && now == from.(index := Advance(|from.samples|, from.index, total - w.left))
    && w.buf == Play(from.samples, from.index, total - w.left)
  }

  /** A turn inside the buffer copies one block of what is played from `from`. */
  lemma OneBlock(from: Tx<real>, done: nat, index: nat, w: Worker)
    requires from.index < |from.samples| && index == Advance(|from.samples|, from.index, done)
    requires w.begun && 0 < w.left && w.buf == Play(from.samples, from.index, done)
    ensures var n := Min(|from.samples| - index, w.left);
            && n > 0
            && Turned(from.(index := index), w)
               == (from.(index := Advance(|from.samples|, from.index, done + n)),
                   w.(left := w.left - n, buf := Play(from.samples, from.index, done + n)))
  {
    PlayBlock(from.samples, from.index, done, index, Min(|from.samples| - index, w.left));
    hide Advance, Play;
  }

  lemma InsideTurns(st: Tx<real>, n: nat)
    requires st.index < |st.samples|
    ensures Turns(st, n) == n
  {
  }

  /** A turn that copies samples. */
  lemma CopyStaysHalfway(st: Tx<real>, total: nat, now: Tx<real>, w: Worker)
    requires st.InBounds(total) && w.begun && 0 < w.left <= total && Copied(st, total, now, w)
    ensures var (now', w') := Turned(now, w);
            && w'.begun && w'.left < w.left && Copied(st, total, now', w')
            && (w'.left == 0 || Turns(now', w'.left) < Turns(now, w.left))
  {
    var from, done := st.Wrapped(0.0, total), total - w.left;
    assert from.index < |from.samples|;
    hide Advance, Play, Tx.Wrapped, Tx.Filled, Tx.InBounds, Turns, Turned, Min;
    assert now == from.(index := now.index);
    OneBlock(from, done, now.index, w);
    var (now', w') := Turned(now, w);
    assert total - w'.left == done + Min(|from.samples| - now.index, w.left);
    InsideTurns(now, w.left);
    InsideTurns(now', w'.left);
  }

  /** A turn that copies nothing and goes to the start of the buffer. */
  lemma WrapStaysHalfway(st: Tx<real>, total: nat, now: Tx<real>, w: Worker)
    requires st.Behind(total) && w.begun && w.left == total && w.buf == [] && now == st.Filled(0.0, total)
    ensures var (now', w') := Turned(now, w);
            && w'.begun && w'.left == total && Copied(st, total, now', w')
            && Turns(now', w'.left) < Turns(now, w.left)
  {
    var size := |now.samples|;
    assert size % size == 0 && w.buf + now.samples[size..size] == [];
  }

  lemma TurnStaysHalfway(st: Tx<real>, total: nat, now: Tx<real>, w: Worker)
    requires Halfway(st, total, now, w)
    ensures var (now', w') := Turned(now, w);
            && Halfway(st, total, now', w') && w'.begun
            && (!w.begun ==> Turns(now', w'.left) == Turns(now, w.left))
            && (w.begun ==> w'.left == 0 || Turns(now', w'.left) < Turns(now, w.left))
  {
    if w.begun && w.left > 0 {
      hide Turns;
      if Copied(st, total, now, w) {
        CopyStaysHalfway(st, total, now, w);
      } else {
        WrapStaysHalfway(st, total, now, w);
      }
    }
  }

  /** A turn of one worker does not touch the DAC of the other. */
  lemma TurnElsewhere(store: Store, w: Worker, d: nat)
    requires w.dac in store && d in store && d != w.dac
    ensures Turn(store, w).0[d] == store[d]
  {
  }

  /** How far a worker is after this many turns. */
  predicate Far(st: Tx<real>, total: nat, now: Tx<real>, w: Worker, turns: nat) {
    if turns == 0 then !w.begun && Turns(now, w.left) == Turns(st, total)
    else w.begun && (w.left == 0 || Turns(now, w.left) + turns <= Turns(st, total) + 1)
  }

  lemma {:induction false} AnyScheduleStaysHalfway(store: Store, a: nat, b: nat, total: nat, schedule: seq<bool>)
    requires a in store && b in store && a != b && store[a].InBounds(total) && store[b].InBounds(total)
    ensures var (t, v1, v2) := Interleaved(store, Fresh(a, total), Fresh(b, total), schedule);
            && Halfway(store[a], total, t[a], v1) && Halfway(store[b], total, t[b], v2)
            && Far(store[a], total, t[a], v1, Count(schedule, true))
            && Far(store[b], total, t[b], v2, Count(schedule, false))
            && forall d :: d in store && d != a && d != b ==> t[d] == store[d]
  {
    if schedule != [] {
      AnyScheduleStaysHalfway(store, a, b, total, schedule[..|schedule| - 1]);
      var (t, v1, v2) := Interleaved(store, Fresh(a, total), Fresh(b, total), schedule[..|schedule| - 1]);
      hide Halfway, Turned, Turns;
      if schedule[|schedule| - 1] {
        TurnStaysHalfway(store[a], total, t[a], v1);
        forall d | d in store && d != a
          ensures Turn(t, v1).0[d] == t[d]
        {
          TurnElsewhere(t, v1, d);
        }
      } else {
        TurnStaysHalfway(store[b], total, t[b], v2);
        forall d | d in store && d != b
          ensures Turn(t, v2).0[d] == t[d]
        {
          TurnElsewhere(t, v2, d);
        }
      }
    }
  }

  lemma DoneDelivered(st: Tx<real>, total: nat, now: Tx<real>, w: Worker)
    requires Halfway(st, total, now, w) && Done(w)
    ensures w.buf == st.BlockOutput(0.0, total) && now == st.BlockAdvanced(0.0, total)
  {
  }

  /** Whatever the schedule: when the two channels are connected to two DACs, a worker that is done has
      delivered and left what its transfer would without the other, as many turns after the first as it
      copies samples are enough for it, or one more from right behind the buffer, and no third DAC is
      touched. */
  lemma AnyScheduleDelivers(store: Store, a: nat, b: nat, total: nat, schedule: seq<bool>)
    requires a in store && b in store && a != b && store[a].InBounds(total) && store[b].InBounds(total)
    ensures var (t, v1, v2) := Interleaved(store, Fresh(a, total), Fresh(b, total), schedule);
            && (Done(v1) ==> v1.buf == store[a].BlockOutput(0.0, total) && t[a] == store[a].BlockAdvanced(0.0, total))
            && (Done(v2) ==> v2.buf == store[b].BlockOutput(0.0, total) && t[b] == store[b].BlockAdvanced(0.0, total))
            && (Count(schedule, true) > Turns(store[a], total) ==> Done(v1))
            && (Count(schedule, false) > Turns(store[b], total) ==> Done(v2))
            && forall d :: d in store && d != a && d != b ==> t[d] == store[d]
  {
    AnyScheduleStaysHalfway(store, a, b, total, schedule);
    hide Interleaved, Count, Halfway, Tx.InBounds, Tx.BlockOutput, Tx.BlockAdvanced, Turns;
    var (t, v1, v2) := Interleaved(store, Fresh(a, total), Fresh(b, total), schedule);
    if Done(v1) {
      DoneDelivered(store[a], total, t[a], v1);
    }
    if Done(v2) {
      DoneDelivered(store[b], total, t[b], v2);
    }
  }

  lemma InterleavedMore(store: Store, w1: Worker, w2: Worker, schedule: seq<bool>, first: bool)
    requires w1.dac in store && w2.dac in store
    ensures var (t, v1, v2) := Interleaved(store, w1, w2, schedule);
            Interleaved(store, w1, w2, schedule + [first]) == OneTurn(t, v1, v2, first)
  {
    hide OneTurn;
    var longer := schedule + [first];
    assert longer[..|longer| - 1] == schedule && longer[|longer| - 1] == first;
  }

  /** Two channels on one DAC disturb each other: of two samples each worker gets one, and alone each
      would get the first. */
  lemma OneDacIsDisturbed(x: real, y: real, store: Store)
    requires x != y && store == map[0 := Tx([x, y], 0, true)]
    ensures var (_, v1, v2) := Interleaved(store, Fresh(0, 1), Fresh(0, 1), [true] + [false] + [true] + [false]);
            && Done(v1) && v1.buf == [x] && Done(v2) && v2.buf == [y]
            && store[0].Readable(1) && store[0].Output(0.0, 1) == [x]
  {
    var w, begun := Fresh(0, 1), Worker(0, true, 1, []);
    assert [] + [true] == [true];
    assert Turn(store, w) == (store, begun) by {
      assert store[0 := store[0]] == store;
    }
    assert Interleaved(store, w, w, []) == (store, w, w);
    InterleavedMore(store, w, w, [], true);
    InterleavedMore(store, w, w, [true], false);
    InterleavedMore(store, w, w, [true] + [false], true);
    InterleavedMore(store, w, w, [true] + [false] + [true], false);
    var next: Store := store[0 := Tx([x, y], 1, true)];
    assert [x, y][0..1] == [x] && [x, y][1..2] == [y] && [] + [x] == [x] && [] + [y] == [y];
    assert Turn(store, begun) == (next, Worker(0, true, 0, [x]));
    assert Turn(next, begun).1 == Worker(0, true, 0, [y]);
    hide Interleaved, Turn;
    assert Play([x, y], 0, 1) == [x] by {
      PlayIsCopy([x, y], 0, 1);
    }
  }

  // ---- the digital loopback -----------------------------------------------------------------------

  /** Sample j of block k, in a buffer of n elements each repeated q * r times, is element
      (k / q) mod n: one block never straddles two elements. */
  lemma LoopIndex(k: nat, j: nat, r: nat, q: nat, n: nat)
    requires j < r && 0 < q && 0 < n
    ensures 0 < n * (q * r) && 0 < q * r
    ensures (k * r + j) % (n * (q * r)) / (q * r) == (k / q) % n
  {
    var u, v := k / q, k % q;
    var w, t := u / n, u % n;
    var e := q * r;
    MultipleIsLarge(q, r);
    MultipleIsLarge(n, e);
    // k * r + j == u * e + (v * r + j), with the rest below e
    assert k == u * q + v;
    Dist(u * q, v, r);
    Assoc(u, q, r);
    InBlock(v, j, r, q);
    // u * e == w * (n * e) + t * e
    assert u == w * n + t;
    Dist(w * n, t, e);
    Assoc(w, n, e);
    InBlock(t, v * r + j, e, n);
    DivModUnique(k * r + j, n * e, w, t * e + (v * r + j));
    DivModUnique(t * e + (v * r + j), e, t, v * r + j);
  }

  /** Offset j of block v of q blocks of r is inside. */
  lemma InBlock(v: nat, j: nat, r: nat, q: nat)
    requires v < q && j < r
    ensures 0 <= v * r + j < q * r
  {
    Dist(q, v, r);
    MultipleIsLarge(q - v, r);
  }

  /** The endless repetition of s, each sample q times, up to n samples. */
  function Endless<T>(s: seq<T>, q: nat, n: nat): (e: seq<T>)
    requires s != [] && 0 < q
    ensures |e| == n
  {
    seq(n, k requires 0 <= k => s[(k / q) % |s|])
  }

  lemma UpsampleOnce<T>(s: seq<T>)
    ensures Upsample(s, 1) == s
  {
    UpsampleLength(s, 1);
    forall k | 0 <= k < |s| ensures Upsample(s, 1)[k] == s[k] {
      UpsampleAt(s, 1, k);
    }
  }

  lemma InterpolatedIsUpsampled(s: seq<bv16>, ratio: nat)
    requires 1 <= ratio
    ensures Digital.Interpolated(s, ratio) == Upsample(s, ratio)
  {
    if ratio == 1 {
      UpsampleOnce(s);
    }
  }

  /** What is played from a buffer that holds s upsampled, from its start. */
  lemma PlayedAt(s: seq<bv16>, q: nat, r: nat, n: nat, k: nat, j: nat)
    requires s != [] && 0 < q && j < r && k < n
    ensures var buffer := Upsample(s, q * r);
            0 < |buffer| && 0 <= k * r + j < n * r && Play(buffer, 0, n * r)[k * r + j] == s[(k / q) % |s|]
  {
    LoopIndex(k, j, r, q, |s|);
    InBlock(k, j, r, n);
    UpsampleLength(s, q * r);
    var buffer := Upsample(s, q * r);
    PlayAt(buffer, 0, n * r, k * r + j);
    UpsampleAt(s, q * r, (k * r + j) % |buffer|);
  }

  /** Block k of what is played holds one sample only. */
  lemma PlayedBlock(s: seq<bv16>, q: nat, r: nat, n: nat, k: nat, pulled: seq<bv16>)
    requires s != [] && 0 < q && 0 < r && k < n && Upsample(s, q * r) != []
    requires pulled == Play(Upsample(s, q * r), 0, n * r)
    ensures 0 <= k * r <= k * r + r <= |pulled| && pulled[k * r..k * r + r] == Repeat(s[(k / q) % |s|], r)
  {
    InBlock(k, r - 1, r, n);
    var block, x := pulled[k * r..k * r + r], s[(k / q) % |s|];
    forall j | 0 <= j < |block| ensures block[j] == x {
      PlayedAt(s, q, r, n, k, j);
    }
  }

  /** One read of n samples from the start of the buffer. */
  lemma OneRead(s: seq<bv16>, q: nat, r: nat, n: nat, st: Tx<bv16>)
    requires s != [] && 0 < q && 0 < r && st.samples == Upsample(s, q * r) && st.index == 0
    ensures st.samples != [] && LogicRead(st, n, r) == Endless(s, q, n)
  {
    PlayedAt(s, q, r, 1, 0, 0);
    var pulled, out := st.Output(0, n * r), Endless(s, q, n);
    forall k | 0 <= k < n
      ensures 0 <= k * r <= k * r + r <= |pulled| && pulled[k * r..k * r + r] == Repeat(out[k], r)
    {
      PlayedBlock(s, q, r, n, k, pulled);
    }
    DecimatedConstantBlocks(pulled, r, n, out);
  }

  /** Blocks of one sample each decimate to those samples. */
  lemma DecimatedConstantBlocks(pulled: seq<bv16>, r: nat, n: nat, out: seq<bv16>)
    requires 0 < r && |pulled| == n * r && |out| == n
    requires forall k :: 0 <= k < n ==>
               0 <= k * r <= k * r + r <= |pulled| && pulled[k * r..k * r + r] == Repeat(out[k], r)
    ensures Digital.Decimated(pulled, r) == out
  {
    if r == 1 {
      forall k | 0 <= k < n ensures pulled[k] == out[k] {
        assert pulled[k * r..k * r + r][0] == Repeat(out[k], r)[0];
      }
    } else {
      MapBlocksLength(Digital.Vote, pulled, r, n);
      forall k | 0 <= k < n ensures MapBlocks(Digital.Vote, pulled, r)[k] == out[k] {
        MapBlocksAt(Digital.Vote, pulled, r, n, k);
        Digital.VoteOfRepeat(out[k], r);
      }
    }
  }

  function Total(batches: seq<nat>): nat {
    if batches == [] then 0 else Total(batches[..|batches| - 1]) + batches[|batches| - 1]
  }

  /** One read: the samples delivered, and the transmitter afterwards. */
  function Read(st: Tx<bv16>, ratio: nat, n: nat): (r: (seq<bv16>, Tx<bv16>))
    requires st.index < |st.samples|
    ensures r.1.index < |r.1.samples|
  {
    (LogicRead(st, n, ratio), st.Advanced(0, n * ratio))
  }

  /** Reads one after the other. */
  function ReadRun(st: Tx<bv16>, ratio: nat, batches: seq<nat>): (r: (seq<bv16>, Tx<bv16>))
    requires st.index < |st.samples|
    ensures r.1.index < |r.1.samples|
  {
    if batches == [] then ([], st) else
      var (out, st') := ReadRun(st, ratio, batches[..|batches| - 1]);
      var (more, st'') := Read(st', ratio, batches[|batches| - 1]);
      (out + more, st'')
  }

  lemma ReadNothing(st: Tx<bv16>, ratio: nat)
    requires st.index < |st.samples| && 1 <= ratio
    ensures Read(st, ratio, 0) == ([], st)
  {
    assert LogicRead(st, 0, ratio) == [];
  }

  lemma ReadTwice(st: Tx<bv16>, ratio: nat, a: nat, b: nat)
    requires st.index < |st.samples| && 1 <= ratio
    ensures var (out, st') := Read(st, ratio, a);
            var (more, st'') := Read(st', ratio, b);
            Read(st, ratio, a + b) == (out + more, st'')
  {
    LogicReadsAddUp(st, a, b, ratio);
    hide LogicRead, Tx.Advanced;
  }

  lemma {:induction false} RunIsOneRead(st: Tx<bv16>, ratio: nat, batches: seq<nat>)
    requires st.index < |st.samples| && 1 <= ratio
    ensures ReadRun(st, ratio, batches) == Read(st, ratio, Total(batches))
  {
    hide Read;
    if batches == [] {
      ReadNothing(st, ratio);
    } else {
      RunIsOneRead(st, ratio, batches[..|batches| - 1]);
      ReadTwice(st, ratio, Total(batches[..|batches| - 1]), batches[|batches| - 1]);
    }
  }

  /** Loading s leaves s upsampled, to be played from its start. */
  lemma LoadedBuffer(s: seq<bv16>, ratio: nat)
    requires s != [] && 1 <= ratio
    ensures LogicStep(Tx(s, 0, false), Load(ratio)) == Tx(Upsample(s, ratio), 0, true)
    ensures |Upsample(s, ratio)| == |s| * ratio > 0
  {
    InterpolatedIsUpsampled(s, ratio);
    UpsampleLength(s, ratio);
    MultipleIsLarge(|s|, ratio);
  }

  /** The samples of several writes, one write after the other. */
  function Together<T>(writes: seq<seq<T>>): seq<T> {
    if writes == [] then [] else Together(writes[..|writes| - 1]) + writes[|writes| - 1]
  }

  function Writes<T>(writes: seq<seq<T>>): seq<Op<T>> {
    seq(|writes|, k requires 0 <= k < |writes| => Write(writes[k]))
  }

  /** A buffer is empty or about to start over. */
  predicate StartsOver<T(==)>(st: Tx<T>) {
    st.reset || (st.samples == [] && st.index == 0)
  }

  /** Several writes put their samples one behind the other. */
  lemma {:induction false} LogicWritesAppend(st: Tx<bv16>, writes: seq<seq<bv16>>)
    requires StartsOver(st) && writes != []
    ensures LogicRun(st, Writes(writes)) == Tx(Together(writes), 0, false)
  {
    var n := |writes| - 1;
    assert Writes(writes)[..n] == Writes(writes[..n]) && Writes(writes)[n] == Write(writes[n]);
    if n == 0 {
      assert LogicRun(st, Writes(writes[..0])) == st && [] + writes[0] == writes[0];
    } else {
      LogicWritesAppend(st, writes[..n]);
    }
  }

  lemma {:induction false} DacWritesAppend(st: Tx<real>, writes: seq<seq<real>>)
    requires StartsOver(st) && writes != []
    ensures DacRuns(st, Writes(writes)) && DacRun(st, Writes(writes)) == Tx(Together(writes), 0, false)
  {
    var n := |writes| - 1;
    assert Writes(writes)[..n] == Writes(writes[..n]) && Writes(writes)[n] == Write(writes[n]);
    if n == 0 {
      assert DacRuns(st, Writes(writes[..0])) && DacRun(st, Writes(writes[..0])) == st;
      assert [] + writes[0] == writes[0];
    } else {
      DacWritesAppend(st, writes[..n]);
    }
  }

  lemma {:induction false} TogetherOfNone<T>(writes: seq<seq<T>>)
    requires Together(writes) != []
    ensures writes != []
  {
  }

  /** Digital loopback. Samples are written, in one write or several, to a transmitter that is empty or about
      to reset, and loaded at ratio q * r. Then any batches read at ratio r deliver, put together, the
      endless repetition of all of them with each sample q times, and leave the index on a block boundary. */
  lemma DigitalLoopback(st: Tx<bv16>, writes: seq<seq<bv16>>, q: nat, r: nat, batches: seq<nat>)
    requires Together(writes) != [] && 0 < q && 0 < r && StartsOver(st)
    ensures var s, loaded := Together(writes), LogicStep(LogicRun(st, Writes(writes)), Load(q * r));
            && loaded.index < |loaded.samples|
            && var (out, st') := ReadRun(loaded, r, batches);
               out == Endless(s, q, Total(batches))
               && st'.index == (Total(batches) * r) % (|s| * (q * r)) && st'.index % r == 0
  {
    var s := Together(writes);
    TogetherOfNone(writes);
    LogicWritesAppend(st, writes);
    hide LogicRead, Upsample, ReadRun, LogicRun, Together, StartsOver;
    MultipleIsLarge(q, r);
    LoadedBuffer(s, q * r);
    var loaded, n := Tx(Upsample(s, q * r), 0, true), Total(batches);
    OneRead(s, q, r, n, loaded);
    RunIsOneRead(loaded, r, batches);
    FinalIndex(loaded, n, |s|, q, r);
  }

  /** Analog loopback. Voltages are written to a DAC that is empty or about to reset, and loaded. Below a ratio
      of 2 a channel that reads at ratio 1 delivers their endless repetition; at a higher ratio it delivers
      the written voltages ratio + 1 samples apart. */
  lemma AnalogLoopback(st: Tx<real>, writes: seq<seq<real>>, ratio: nat, n: nat, k: nat)
    requires Together(writes) != [] && StartsOver(st) && k < n
    ensures DacRuns(st, Writes(writes))
    ensures var s, loaded := Together(writes), DacStep(DacRun(st, Writes(writes)), Load(ratio));
            && loaded.InBounds(n * 1) && |Resampled(loaded, n, 1)| == n
            && (ratio < 2 ==> Resampled(loaded, n, 1)[k] == s[k % |s|])
            && (ratio >= 2 ==> forall i: nat :: k == i * (ratio + 1) && i < |s| ==> Resampled(loaded, n, 1)[k] == s[i])
  {
    TogetherOfNone(writes);
    DacWritesAppend(st, writes);
    var s := Together(writes);
    var loaded := Tx(Analog.Interpolated(s, ratio), 0, true);
    hide DacRun, DacRuns, Together, StartsOver, Resampled;
    Analog.InterpolationEnds(s, ratio);
    ResampledAt(loaded, n, 1, k);
    if ratio >= 2 {
      forall i: nat | k == i * (ratio + 1) && i < |s|
        ensures Resampled(loaded, n, 1)[k] == s[i]
      {
        KnotComesBack(s, ratio, i);
      }
    }
  }

  lemma KnotComesBack(s: seq<real>, ratio: nat, i: nat)
    requires 2 <= ratio && i < |s|
    ensures var buffer := Analog.Interpolated(s, ratio);
            && 0 <= i * (ratio + 1) < |buffer|
            && (0 + i * (ratio + 1)) % |buffer| == i * (ratio + 1) && buffer[i * (ratio + 1)] == s[i]
  {
    var buffer, k := Analog.Interpolated(s, ratio), i * (ratio + 1);
    if i + 1 < |s| {
      Analog.InterpolationAt(s, ratio, i, 0);
    } else {
      Analog.InterpolationEnds(s, ratio);
    }
    DivModUnique(k, |buffer|, 0, k);
  }

  lemma FinalIndex(st: Tx<bv16>, n: nat, m: nat, q: nat, r: nat)
    requires 0 < m && 0 < q && 0 < r && |st.samples| == m * (q * r) > 0 && st.index == 0
    ensures var i := st.Advanced(0, n * r).index; i == (n * r) % (m * (q * r)) && i % r == 0
  {
    AdvanceIsModulo(|st.samples|, 0, n * r);
    MultipleIsLarge(m, q);
    RemainderAligned(n, r, m * q);
    Assoc(m, q, r);
  }

  lemma RemainderAligned(n: nat, r: nat, m: nat)
    requires 0 < r && 0 < m
    ensures 0 < m * r && (n * r) % (m * r) % r == 0
  {
    MultipleIsLarge(m, r);
    var k, t := n / m, n % m;
    Dist(k * m, t, r);
    Assoc(k, m, r);
    InBlock(t, 0, r, m);
    DivModUnique(n * r, m * r, k, t * r);
    QuotientOfMultiple(t, r);
  }
}
