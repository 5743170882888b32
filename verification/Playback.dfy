/** Playing a buffer cyclically. */
module Playback {
  import opened Arithmetic

  /** The read index after n samples of a buffer of the given size. */
  function Advance(size: nat, index: nat, n: nat): (i: nat)
    requires n == 0 || index < size
    ensures index < size ==> i < size
  {
    if n == 0 then index else
      var i := Advance(size, index, n - 1) + 1;
      if i >= size then 0 else i
  }

  /** The n samples read from index on. */
  function Play<T>(buffer: seq<T>, index: nat, n: nat): (p: seq<T>)
    requires n == 0 || index < |buffer|
    ensures |p| == n
  {
    if n == 0 then [] else
      Play(buffer, index, n - 1) + [buffer[Advance(|buffer|, index, n - 1)]]
  }

  lemma NextModulo(x: nat, size: nat)
    requires 0 < size
    ensures (x + 1) % size == if x % size + 1 == size then 0 else x % size + 1
  {
    var q := x / size;
    if x % size + 1 == size {
      Dist(q, 1, size);
      DivModUnique(x + 1, size, q + 1, 0);
    } else {
      DivModUnique(x + 1, size, q, x % size + 1);
    }
  }

  /** The index counts modulo the size. */
  lemma {:induction false} AdvanceIsModulo(size: nat, index: nat, n: nat)
    requires index < size
    ensures Advance(size, index, n) == (index + n) % size
  {
    if n == 0 {
      DivModUnique(index, size, 0, index);
    } else {
      AdvanceIsModulo(size, index, n - 1);
      NextModulo(index + n - 1, size);
    }
  }

  /** Sample k is the one k places behind the index, modulo the size. */
  lemma {:induction false} PlayAt<T>(buffer: seq<T>, index: nat, n: nat, k: nat)
    requires index < |buffer| && k < n
    ensures 0 <= (index + k) % |buffer| < |buffer|
    ensures Play(buffer, index, n)[k] == buffer[(index + k) % |buffer|]
  {
    if k < n - 1 {
      PlayAt(buffer, index, n - 1, k);
    } else {
      AdvanceIsModulo(|buffer|, index, k);
    }
  }

  /** Reading a samples and then b is reading a + b. */
  lemma {:induction false} PlayTwice<T>(buffer: seq<T>, index: nat, a: nat, b: nat)
    requires index < |buffer|
    ensures Advance(|buffer|, index, a + b) == Advance(|buffer|, Advance(|buffer|, index, a), b)
    ensures Play(buffer, index, a + b) == Play(buffer, index, a) + Play(buffer, Advance(|buffer|, index, a), b)
  {
    if b > 0 {
      PlayTwice(buffer, index, a, b - 1);
    }
  }

  /** Up to the end of the buffer, playing is copying. */
  lemma {:induction false} PlayIsCopy<T>(buffer: seq<T>, index: nat, n: nat)
    requires index < |buffer| && index + n <= |buffer|
    ensures Play(buffer, index, n) == buffer[index..index + n]
    ensures Advance(|buffer|, index, n) == if index + n < |buffer| then index + n else 0
  {
    if n > 0 {
      PlayIsCopy(buffer, index, n - 1);
    }
  }

  /** A block that ends with the buffer or before it continues what was played. */
  lemma PlayBlock<T>(buffer: seq<T>, start: nat, done: nat, index: nat, n: nat)
    requires start < |buffer| && index == Advance(|buffer|, start, done) && index + n <= |buffer|
    ensures Play(buffer, start, done + n) == Play(buffer, start, done) + buffer[index..index + n]
    ensures (index + n) % |buffer| == Advance(|buffer|, start, done + n)
  {
    PlayTwice(buffer, start, done, n);
    PlayIsCopy(buffer, index, n);
    AdvanceIsModulo(|buffer|, index, n);
  }
}
