/** The transmitting devices of the ADALM2000: a buffer that is written, interpolated and then
    played cyclically to whoever reads. */
module TxDevices {
  import opened Arithmetic
  import opened Blocks
  import opened Playback
  import Digital
  import Analog

  /** m_samples, m_current_index and m_reset_buffer. */
  datatype Tx<T> = Tx(samples: seq<T>, index: nat, reset: bool)
  {
    /** The index can be read from, or the buffer is empty and would be filled from 0. */
    predicate IndexOk() {
      index < |samples| || (samples == [] && index == 0)
    }

    /** write_dev, with the samples that were written. */
    function Written(data: seq<T>): Tx<T> {
      if reset then Tx(data, 0, false) else Tx(samples + data, index, false)
    }

    /** transfer_mem_to_dev, with the interpolated samples. */
    function Loaded(interpolated: seq<T>): Tx<T> {
      Tx(interpolated, index, true)
    }

    /** An empty buffer is filled with as many zeros as are asked for. */
    function Filled(zero: T, n: nat): Tx<T> {
      if samples == [] then Tx(Repeat(zero, n), index, reset) else this
    }

    /** n samples can be read one by one: there are none, or the index is inside the filled buffer. */
    predicate Readable(n: nat) {
      n == 0 || (samples == [] && index < n) || index < |samples|
    }

    /** transfer_samples_to_RX_device, one by one. */
    function Output(zero: T, n: nat): seq<T>
      requires Readable(n)
    {
      Play(Filled(zero, n).samples, index, n)
    }

    function Advanced(zero: T, n: nat): Tx<T>
      requires Readable(n)
    {
      var st := Filled(zero, n);
      st.(index := Advance(|st.samples|, index, n))
    }

    /** n samples can be copied in blocks: there are none, or the index is inside the filled buffer or
        right behind it. */
    predicate InBounds(n: nat) {
      n == 0 || index <= if samples == [] then n else |samples|
    }

    /** Samples are wanted, and the index is right behind the filled buffer. */
    predicate Behind(n: nat) {
      n > 0 && index == if samples == [] then n else |samples|
    }

    /** The filled buffer; from right behind it, copying goes on at its start. */
    function Wrapped(zero: T, n: nat): Tx<T> {
      if Behind(n) then Filled(zero, n).(index := 0) else Filled(zero, n)
    }

    /** transfer_samples_to_RX_device, in blocks. */
    function BlockOutput(zero: T, n: nat): seq<T>
      requires InBounds(n)
    {
      Wrapped(zero, n).Output(zero, n)
    }

    function BlockAdvanced(zero: T, n: nat): Tx<T>
      requires InBounds(n)
    {
      Wrapped(zero, n).Advanced(zero, n)
    }

    /** Where both can be done, both do the same. */
    lemma BlocksAsOneByOne(zero: T, n: nat)
      requires Readable(n)
      ensures InBounds(n) && BlockOutput(zero, n) == Output(zero, n) && BlockAdvanced(zero, n) == Advanced(zero, n)
    {
    }

    function Cleared(): Tx<T> {
      Tx([], index, reset)
    }
  }

  class LogicTx {
    var samples: seq<bv16>
    var currentIndex: nat
    var resetBuffer: bool

    ghost function State(): Tx<bv16>
      reads this
    {
      Tx(samples, currentIndex, resetBuffer)
    }

    constructor ()
      ensures State() == Tx([], 0, false)
    {
      samples, currentIndex, resetBuffer := [], 0, false;
    }

    method WriteDev(buf: seq<bv16>, bytesCount: nat) returns (written: nat)
      requires bytesCount / 2 <= |buf|
      modifies this
      ensures written == bytesCount && State() == old(State()).Written(buf[..bytesCount / 2])
    {
      if resetBuffer {
        samples := [];
        currentIndex := 0;
        resetBuffer := false;
      }
      ghost var before := samples;
      for i := 0 to bytesCount / 2
        invariant samples == before + buf[..i] && !resetBuffer
        invariant currentIndex == if old(resetBuffer) then 0 else old(currentIndex)
      {
        samples := samples + [buf[i]];
      }
      written := bytesCount;
    }

    method TransferMemToDev(ratio: nat)
      modifies this
      ensures State() == old(State()).Loaded(Digital.Interpolated(old(samples), ratio))
    {
      if ratio >= 2 {
        samples := Digital.DigitalInterpolation(samples, [], ratio);
      }
      resetBuffer := true;
    }

    /** Sample by sample; the checked access throws (ok is false) when the index is stale. */
    method TransferSamplesToRx(samplesCount: nat) returns (ok: bool, buf: seq<bv16>)
      modifies this
      ensures ok <==> old(State()).Readable(samplesCount)
      ensures ok ==> buf == old(State()).Output(0, samplesCount) && State() == old(State()).Advanced(0, samplesCount)
      ensures !ok ==> State() == old(State()).Filled(0, samplesCount)
    {
      if samples == [] {
        samples := Repeat(0, samplesCount);
      }
      buf := [];
      for i := 0 to samplesCount
        invariant samples == old(State()).Filled(0, samplesCount).samples && resetBuffer == old(resetBuffer)
        invariant i == 0 || old(currentIndex) < |samples|
        invariant buf == Play(samples, old(currentIndex), i) && currentIndex == Advance(|samples|, old(currentIndex), i)
      {
        if currentIndex >= |samples| {
          return false, buf;
        }
        buf := buf + [samples[currentIndex]];
        currentIndex := currentIndex + 1;
        if currentIndex >= |samples| {
          currentIndex := 0;
        }
      }
      ok := true;
    }

    method CancelBuffer()
      modifies this
      ensures State() == old(State()).Cleared()
    {
      samples := [];
    }
  }

  class Dac {
    const toVolts: int -> real    // the conversion of a raw sample, as calibrated
    var enabled: bool
    var samples: seq<real>
    var currentIndex: nat
    var resetBuffer: bool

    ghost function State(): Tx<real>
      reads this
    {
      Tx(samples, currentIndex, resetBuffer)
    }

    constructor (toVolts: int -> real)
      ensures State() == Tx([], 0, true) && this.toVolts == toVolts && !enabled
    {
      this.toVolts := toVolts;
      enabled, samples, currentIndex, resetBuffer := false, [], 0, true;
    }

    method OpenDev(mask: nat)
      modifies this`enabled
      ensures enabled == (mask != 0)
    {
      enabled := mask != 0;
    }

    method WriteDev(buf: seq<int>, bytesCount: nat) returns (written: nat)
      requires bytesCount / 2 <= |buf|
      modifies this
      ensures enabled == old(enabled)
      ensures !enabled ==> written == 0 && State() == old(State())
      ensures enabled ==> written == bytesCount
      ensures enabled ==>
                State() == old(State()).Written(seq(bytesCount / 2, k requires 0 <= k < |buf| => toVolts(buf[k])))
    {
      if !enabled {
        return 0;
      }
      if resetBuffer {
        samples := [];
        currentIndex := 0;
        resetBuffer := false;
      }
      ghost var before := samples;
      ghost var volts := seq(bytesCount / 2, k requires 0 <= k < |buf| => toVolts(buf[k]));
      for i := 0 to bytesCount / 2
        invariant samples == before + volts[..i] && enabled
        invariant currentIndex == (if old(resetBuffer) then 0 else old(currentIndex)) && !resetBuffer
      {
        samples := samples + [toVolts(buf[i])];
      }
      written := bytesCount;
    }

    /** Interpolating an empty buffer throws (ok is false) and changes nothing. */
    method TransferMemToDev(ratio: nat) returns (ok: bool)
      modifies this
      ensures ok <==> ratio < 2 || old(samples) != []
      ensures enabled == old(enabled)
      ensures State() == if ok then old(State()).Loaded(Analog.Interpolated(old(samples), ratio)) else old(State())
    {
      if ratio >= 2 {
        var resampled;
        ok, resampled := Analog.AnalogicalInterpolation(samples, [], ratio);
        if !ok {
          return;
        }
        samples := resampled;
      }
      resetBuffer := true;
      ok := true;
    }

    /** One memcpy: up to the end of the buffer, or the samples still wanted. Right behind the buffer
        it copies nothing, and the index goes to the start. */
    method CopyBlock(left: nat, ghost start: nat, ghost done: nat) returns (n: nat, block: seq<real>)
      requires 0 < left && start < |samples|
      requires currentIndex == Advance(|samples|, start, done) || (currentIndex == |samples| && start == done == 0)
      modifies this`currentIndex
      ensures n <= left && (old(currentIndex) < |samples| ==> 0 < n)
      ensures currentIndex == Advance(|samples|, start, done + n) < |samples|
      ensures Play(samples, start, done + n) == Play(samples, start, done) + block
    {
      n := |samples| - currentIndex;
      n := if n < left then n else left;
      block := samples[currentIndex..currentIndex + n];
      if currentIndex < |samples| {
        PlayBlock(samples, start, done, currentIndex, n);
      } else {
        DivModUnique(|samples|, |samples|, 1, 0);
      }
      currentIndex := (currentIndex + n) % |samples|;
    }

    /** Block by block, wrapping around at the end of the buffer. */
    method TransferSamplesToRx(samplesCount: nat) returns (buf: seq<real>)
      requires State().InBounds(samplesCount)
      modifies this`samples, this`currentIndex
      ensures buf == old(State()).BlockOutput(0.0, samplesCount)
      ensures State() == old(State()).BlockAdvanced(0.0, samplesCount)
    {
      if samples == [] {
        samples := Repeat(0.0, samplesCount);
      }
      buf := [];
      var left: nat := samplesCount;
      ghost var start: nat, done: nat := old(State()).Wrapped(0.0, samplesCount).index, 0;
      while left > 0
        invariant done + left == samplesCount
        invariant samples == old(State()).Filled(0.0, samplesCount).samples
        invariant samplesCount == 0 || start < |samples|
        invariant currentIndex == Advance(|samples|, start, done)
                  || (currentIndex == |samples| && start == done == 0 && left > 0)
        invariant buf == Play(samples, start, done)
        decreases left, if currentIndex == |samples| then 1 else 0
      {
        var n, block := CopyBlock(left, start, done);
        buf := buf + block;
        left := left - n;
        done := done + n;
      }
    }

    method CloseDev()
      modifies this`samples
      ensures State() == old(State()).Cleared()
    {
      samples := [];
    }

    method CancelBuffer()
      modifies this`samples, this`currentIndex
      ensures State() == Tx([], 0, old(resetBuffer))
    {
      samples := [];
      currentIndex := 0;
    }
  }
}
