/** The file-backed loopback: `GenericTXDevice` appends to a file, `GenericRXDevice` takes a prefix
    of it away, through a temporary file and two chunked copies. */
module FileFifo {
  import opened Basics

  type Byte = bv8

  const BUF_SIZE := 4096
  const TMP_FILE := "iio_emu_tmp_file.txt"

  /** q with s over its beginning. */
  function Over(q: seq<Byte>, s: seq<Byte>): (r: seq<Byte>)
    requires |s| <= |q|
    ensures |r| == |q|
  {
    s + q[|s|..]
  }

  lemma ReadInto(q: seq<Byte>, s: seq<Byte>, r: seq<Byte>)
    requires |s| <= |q| && r == Over(q, s)
    ensures forall k :: 0 <= k < |q| ==> r[k] == if k < |s| then s[k] else q[k]
  {
  }

  lemma OverMore(q: seq<Byte>, s: seq<Byte>, c: Byte, s': seq<Byte>)
    requires |s| < |q| && s' == s + [c]
    ensures Over(q, s)[|s| := c] == Over(q, s')
  {
  }

  method Put(buf: array<Byte>, s: seq<Byte>)
    requires |s| <= buf.Length
    modifies buf
    ensures buf[..] == Over(old(buf[..]), s)
  {
    ghost var q := buf[..];
    for k := 0 to |s|
      invariant buf[..] == Over(q, s[..k])
    {
      OverMore(q, s[..k], s[k], s[..k + 1]);
      buf[k] := s[k];
    }
    assert s[..|s|] == s;
  }

  // ---- files and streams ---------------------------------------------------------------------

  class FileSystem {
    var files: map<string, seq<Byte>>

    constructor ()
      ensures files == map[]
    {
      files := map[];
    }

    method Remove(path: string)
      modifies this
      ensures files == old(files) - {path}
    {
      files := files - {path};
    }
  }

  datatype Mode = In | Out | App

  /** An `fstream` opened in binary mode. */
  class Stream {
    const disk: FileSystem
    const path: string
    var good: bool       // neither failbit nor eofbit is set
    var pos: nat         // the get position
    var gcount: nat

    /** Open on a file with this content. */
    ghost predicate On(content: seq<Byte>)
      reads this, disk
    {
      path in disk.files && disk.files[path] == content && pos <= |content| && (!good ==> pos == |content|)
    }

    /** Out truncates the file, App keeps it; both create it when it is missing. */
    constructor (d: FileSystem, p: string, mode: Mode)
      modifies d
      ensures disk == d && path == p && pos == 0
      ensures good <==> (mode.In? ==> p in old(d.files))
      ensures d.files == match mode {
                           case In => old(d.files)
                           case Out => old(d.files)[p := []]
                           case App => if p in old(d.files) then old(d.files) else old(d.files)[p := []]
                         }
    {
      disk, path, pos, gcount := d, p, 0, 0;
      good := !mode.In? || p in d.files;
      new;
      if mode.Out? || (mode.App? && p !in d.files) {
        d.files := d.files[p := []];
      }
    }

    /** read: fewer than n bytes when the file ends, and then the stream fails. */
    method Read(buf: array<Byte>, n: nat, ghost content: seq<Byte>)
      requires On(content) && n <= buf.Length
      modifies this`good, this`pos, this`gcount, buf
      ensures On(content) && gcount == Min(n, |content| - old(pos)) && pos == old(pos) + gcount
      ensures buf[..] == Over(old(buf[..]), content[old(pos)..pos])
    {
      hide Over;
      gcount := 0;
      if good {
        gcount := Min(n, |disk.files[path]| - pos);
        good := gcount == n;
      }
      pos := pos + gcount;
      Put(buf, disk.files[path][pos - gcount..pos]);
    }

    method Write(buf: array<Byte>, n: nat)
      requires good && path in disk.files && n <= buf.Length
      modifies disk
      ensures disk.files == old(disk.files)[path := old(disk.files)[path] + buf[..n]]
    {
      disk.files := disk.files[path := disk.files[path] + buf[..n]];
    }
  }

  // ---- the devices -----------------------------------------------------------------------------

  /** `copyFileData`: everything from the get position on. */
  method CopyFileData(input: Stream, output: Stream, ghost content: seq<Byte>)
    requires input.disk == output.disk && input.path != output.path
    requires input.On(content) && output.good && output.path in output.disk.files
    modifies input`good, input`pos, input`gcount, output.disk
    ensures output.disk.files
         == old(output.disk.files)[output.path := old(output.disk.files)[output.path] + content[old(input.pos)..]]
  {
    ghost var files := output.disk.files;
    ghost var there := files[output.path];
    ghost var k := input.pos;
    var buf := new Byte[BUF_SIZE];
    CopyChunk(input, output, buf, content);
    while input.gcount > 0
      invariant k <= input.pos && input.On(content) && output.good
      invariant input.gcount == 0 ==> input.pos == |content|
      invariant output.disk.files == files[output.path := there + content[k..input.pos]]
      decreases |content| - input.pos, input.gcount
    {
      ghost var m := input.pos;
      CopyChunk(input, output, buf, content);
      Slices(there, content, k, m, input.pos);
    }
    assert content[k..input.pos] == content[k..];
  }

  lemma Slices(there: seq<Byte>, content: seq<Byte>, k: nat, m: nat, n: nat)
    requires k <= m <= n <= |content|
    ensures there + content[k..m] + content[m..n] == there + content[k..n]
  {
  }

  /** One round of `copyFileData`. */
  method CopyChunk(input: Stream, output: Stream, buf: array<Byte>, ghost content: seq<Byte>)
    requires input.disk == output.disk && input.path != output.path && buf.Length == BUF_SIZE
    requires input.On(content) && output.good && output.path in output.disk.files
    modifies input`good, input`pos, input`gcount, buf, output.disk
    ensures input.On(content) && output.good == old(output.good)
    ensures input.gcount == Min(BUF_SIZE, |content| - old(input.pos)) && input.pos == old(input.pos) + input.gcount
    ensures output.disk.files
         == old(output.disk.files)[output.path := old(output.disk.files)[output.path]
             + content[old(input.pos)..input.pos]]
  {
    assert input != output;
    input.Read(buf, BUF_SIZE, content);
    output.Write(buf, input.gcount);
  }

  function Lookup(files: map<string, seq<Byte>>, path: string): Option<seq<Byte>> {
    if path in files then Some(files[path]) else None
  }

  datatype Call = Write(bytes: seq<Byte>) | Read(count: nat)

  /** The bytes of the file that a call delivers, padding excluded. */
  function Delivered(file: Option<seq<Byte>>, c: Call): seq<Byte> {
    if c.Read? && file.Some? then file.value[..Min(c.count, |file.value|)] else []
  }

  /** The file after a call. */
  function Step(file: Option<seq<Byte>>, c: Call): Option<seq<Byte>> {
    match c
    case Write(bytes) => Some(Content(file) + bytes)
    case Read(count) => if file.None? then None else Some(file.value[Min(count, |file.value|)..])
  }

  function Content(file: Option<seq<Byte>>): seq<Byte> {
    if file.Some? then file.value else []
  }

  /** A buffer after a read of count bytes: the first bytes of the file, then zeros. */
  predicate Shows(file: Option<seq<Byte>>, count: nat, pbuf: seq<Byte>) {
    file.Some? ==>
      && count <= |pbuf|
      && forall k :: 0 <= k < count ==> pbuf[k] == if k < |file.value| then file.value[k] else 0
  }

  class GenericRXDevice {
    const disk: FileSystem
    const filePath: string

    constructor (d: FileSystem, path: string)
      ensures disk == d && filePath == path
    {
      disk, filePath := d, path;
    }

    /** `read_dev`: -1 and nothing else when the file is missing; otherwise the first bytes of the
        file, with zeros for those it is short of, and the file keeps the rest. */
    method ReadDev(pbuf: array<Byte>, count: nat) returns (ret: int)
      requires count <= pbuf.Length && filePath != TMP_FILE
      modifies disk, pbuf
      ensures filePath !in old(disk.files) ==> ret == -1 && disk.files == old(disk.files) && pbuf[..] == old(pbuf[..])
      ensures filePath in old(disk.files) ==>
                && ret == count
                && disk.files == (var files := old(disk.files);
                                  files[filePath := Step(Lookup(files, filePath), Read(count)).value] - {TMP_FILE})
      ensures filePath in old(disk.files) ==>
                var file := old(disk.files)[filePath];
                forall k :: 0 <= k < pbuf.Length ==>
                  pbuf[k] == if k < count && k < |file| then file[k]
                             else if k < count then 0
                             else old(pbuf[..])[k]
      ensures Shows(Lookup(old(disk.files), filePath), count, pbuf[..])
    {
      ghost var files := disk.files;
      var input := new Stream(disk, filePath, In);
      if !input.good {
        return -1;
      }
      ghost var content := files[filePath];
      TakePrefix(input, pbuf, count, content);
      ghost var rest := content[input.pos..];
      SaveRest(input, content);
      CopyBack(rest);
      disk.Remove(TMP_FILE);
      ret := count;
    }

    /** Everything from the get position on goes to the temporary file. */
    method SaveRest(input: Stream, ghost content: seq<Byte>)
      requires input.disk == disk && input.path != TMP_FILE && input.On(content)
      modifies disk, input`good, input`pos, input`gcount
      ensures disk.files == old(disk.files)[TMP_FILE := content[old(input.pos)..]]
    {
      var tmp := new Stream(disk, TMP_FILE, Out);
      assert [] + content[input.pos..] == content[input.pos..];
      CopyFileData(input, tmp, content);
    }

    /** The file is truncated, and the temporary file is copied into it. */
    method CopyBack(ghost rest: seq<Byte>)
      requires filePath != TMP_FILE && TMP_FILE in disk.files && disk.files[TMP_FILE] == rest
      modifies disk
      ensures disk.files == old(disk.files)[filePath := rest]
    {
      var input := new Stream(disk, filePath, Out);
      var tmp := new Stream(disk, TMP_FILE, In);
      input := new Stream(disk, filePath, Out);
      CopyFileData(tmp, input, rest);
      assert [] + rest[0..] == rest;
    }

    /** The read into pbuf and the zero padding. */
    method TakePrefix(input: Stream, pbuf: array<Byte>, count: nat, ghost content: seq<Byte>)
      requires count <= pbuf.Length && input.On(content) && input.pos == 0
      modifies input`good, input`pos, input`gcount, pbuf
      ensures input.On(content) && input.pos == Min(count, |content|)
      ensures forall k :: 0 <= k < pbuf.Length ==>
                pbuf[k] == if k < input.pos then content[k] else if k < count then 0 else old(pbuf[..])[k]
    {
      input.Read(pbuf, count, content);
      ReadInto(old(pbuf[..]), content[..input.pos], pbuf[..]);
      for i := input.gcount to count
        invariant input.On(content) && input.pos == Min(count, |content|) == input.gcount
        invariant forall k :: 0 <= k < pbuf.Length ==>
                    pbuf[k] == if k < input.pos then content[k] else if k < i then 0 else old(pbuf[..])[k]
      {
        pbuf[i] := 0;
      }
    }
  }

  class GenericTXDevice {
    const disk: FileSystem
    const filePath: string

    constructor (d: FileSystem, path: string)
      ensures disk == d && filePath == path
    {
      disk, filePath := d, path;
    }

    /** `write_dev`. */
    method WriteDev(buf: array<Byte>, count: nat) returns (ret: int)
      requires count <= buf.Length
      modifies disk
      ensures ret == count
      ensures disk.files
           == old(disk.files)[filePath := Step(Lookup(old(disk.files), filePath), Write(buf[..count])).value]
    {
      var output := new Stream(disk, filePath, App);
      output.Write(buf, count);
      ret := count;
    }
  }

  // ---- runs: any interleaving of writes and reads on one file ---------------------------------------

  function Run(file: Option<seq<Byte>>, calls: seq<Call>): Option<seq<Byte>> {
    if calls == [] then file else Step(Run(file, calls[..|calls| - 1]), calls[|calls| - 1])
  }

  /** All bytes delivered by the calls, padding excluded. */
  function AllDelivered(file: Option<seq<Byte>>, calls: seq<Call>): seq<Byte> {
    if calls == [] then []
    else
      var before := calls[..|calls| - 1];
      AllDelivered(file, before) + Delivered(Run(file, before), calls[|calls| - 1])
  }

  function Written(c: Call): seq<Byte> {
    if c.Write? then c.bytes else []
  }

  function AllWritten(calls: seq<Call>): seq<Byte> {
    if calls == [] then []
    else
      AllWritten(calls[..|calls| - 1]) + Written(calls[|calls| - 1])
  }

  /** Nothing is lost, duplicated or reordered: what was there and what was written is what was
      delivered, followed by what is still in the file. */
  lemma {:induction false} Conservation(file: Option<seq<Byte>>, calls: seq<Call>)
    ensures Content(file) + AllWritten(calls) == AllDelivered(file, calls) + Content(Run(file, calls))
  {
    if calls != [] {
      var before, c := calls[..|calls| - 1], calls[|calls| - 1];
      var now := Run(file, before);
      Conservation(file, before);
      StepConserves(now, c);
      Regroup(Content(file), AllWritten(before), Written(c), AllDelivered(file, before), Content(now),
              Delivered(now, c), Content(Step(now, c)));
    }
  }

  lemma Regroup(s: seq<Byte>, w: seq<Byte>, w1: seq<Byte>, d: seq<Byte>, t: seq<Byte>, d1: seq<Byte>, t1: seq<Byte>)
    requires s + w == d + t && t + w1 == d1 + t1
    ensures s + (w + w1) == (d + d1) + t1
  {
    assert s + (w + w1) == (s + w) + w1;
    assert (d + t) + w1 == d + (t + w1);
    assert d + (d1 + t1) == (d + d1) + t1;
  }

  lemma StepConserves(file: Option<seq<Byte>>, c: Call)
    ensures Content(file) + Written(c) == Delivered(file, c) + Content(Step(file, c))
  {
  }

  /** A read after any run is padded exactly when it asks for more than is left of what was there
      and what was written, and then it leaves the file empty. */
  lemma PaddingOnlyWhenTheFileRunsOut(file: Option<seq<Byte>>, calls: seq<Call>, count: nat)
    requires Run(file, calls).Some?
    ensures |Delivered(Run(file, calls), Read(count))| < count
            <==> |Content(file)| + |AllWritten(calls)| < |AllDelivered(file, calls)| + count
    ensures |Delivered(Run(file, calls), Read(count))| < count ==> Run(file, calls + [Read(count)]) == Some([])
  {
    Conservation(file, calls);
    RunMore(file, calls, Read(count));
    ghost var now := Run(file, calls).value;
    assert now[|now|..] == [];
    hide Run, AllDelivered, AllWritten;
    assert |Content(file) + AllWritten(calls)| == |AllDelivered(file, calls) + Content(Run(file, calls))|;
  }

  lemma RunMore(file: Option<seq<Byte>>, calls: seq<Call>, c: Call)
    ensures Run(file, calls + [c]) == Step(Run(file, calls), c)
  {
    assert (calls + [c])[..|calls|] == calls;
  }

  /** What a read delivers is the next stretch of what was there and what was written. */
  lemma ReadsInOrder(file: Option<seq<Byte>>, calls: seq<Call>, count: nat, k: nat)
    requires k < |Delivered(Run(file, calls), Read(count))|
    ensures |AllDelivered(file, calls)| + k < |Content(file) + AllWritten(calls)|
    ensures Delivered(Run(file, calls), Read(count))[k]
         == (Content(file) + AllWritten(calls))[|AllDelivered(file, calls)| + k]
  {
    Conservation(file, calls);
    hide Run, AllDelivered, AllWritten;
    SecondPart(AllDelivered(file, calls), Content(Run(file, calls)), Content(file) + AllWritten(calls), k);
  }

  lemma SecondPart(d: seq<Byte>, t: seq<Byte>, whole: seq<Byte>, k: nat)
    requires whole == d + t && k < |t|
    ensures |d| + k < |whole| && whole[|d| + k] == t[k]
  {
  }

  /** Reading a bytes and then b bytes is reading a + b bytes. */
  lemma TwoReadsAreOne(file: Option<seq<Byte>>, a: nat, b: nat)
    ensures Delivered(file, Read(a)) + Delivered(Step(file, Read(a)), Read(b)) == Delivered(file, Read(a + b))
    ensures Step(Step(file, Read(a)), Read(b)) == Step(file, Read(a + b))
  {
    if file.Some? {
      var c := file.value;
      var m := Min(a, |c|);
      var n := Min(b, |c| - m);
      assert c[m..][n..] == c[m + n..] && c[..m] + c[m..][..n] == c[..m + n];
    }
  }

  // ---- the same with what callers find in their buffers -----------------------------------------------

  /** pbufs[i] is the buffer of call i, if it is a read. */
  predicate AllShow(file: Option<seq<Byte>>, calls: seq<Call>, pbufs: seq<seq<Byte>>)
    requires |pbufs| == |calls|
  {
    calls == [] ||
    var n := |calls| - 1;
    && AllShow(file, calls[..n], pbufs[..n])
    && (calls[n].Read? ==> Shows(Run(file, calls[..n]), calls[n].count, pbufs[n]))
  }

  /** The bytes in front of the padding, of all buffers. */
  function ReadOut(file: Option<seq<Byte>>, calls: seq<Call>, pbufs: seq<seq<Byte>>): seq<Byte>
    requires |pbufs| == |calls| && AllShow(file, calls, pbufs)
  {
    if calls == [] then []
    else
      var n := |calls| - 1;
      var now := Run(file, calls[..n]);
      ReadOut(file, calls[..n], pbufs[..n])
      + if calls[n].Read? && now.Some? then pbufs[n][..Min(calls[n].count, |now.value|)] else []
  }

  lemma {:induction false} ReadOutIsDelivered(file: Option<seq<Byte>>, calls: seq<Call>, pbufs: seq<seq<Byte>>)
    requires |pbufs| == |calls| && AllShow(file, calls, pbufs)
    ensures ReadOut(file, calls, pbufs) == AllDelivered(file, calls)
  {
    if calls != [] {
      var n := |calls| - 1;
      ReadOutIsDelivered(file, calls[..n], pbufs[..n]);
      var now := Run(file, calls[..n]);
      if calls[n].Read? && now.Some? {
        assert pbufs[n][..Min(calls[n].count, |now.value|)] == Delivered(now, calls[n]);
      }
    }
  }

  /** What was there and what was written is what the callers find in their buffers in front of the padding,
      followed by what is still in the file. */
  lemma BuffersConserve(file: Option<seq<Byte>>, calls: seq<Call>, pbufs: seq<seq<Byte>>)
    requires |pbufs| == |calls| && AllShow(file, calls, pbufs)
    ensures Content(file) + AllWritten(calls) == ReadOut(file, calls, pbufs) + Content(Run(file, calls))
  {
    ReadOutIsDelivered(file, calls, pbufs);
    Conservation(file, calls);
  }
}
