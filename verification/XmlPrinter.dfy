/** The size-then-fill printer of `genxml`: a buffer of exactly the size computed in advance is
    filled piece by piece, every piece behind a guard. */
module XmlPrinter {
  import opened Basics
  import opened XmlText
  import opened XmlFill

  const NUL := '\0'

  /** q with s put at position at. */
  function Overlaid(q: seq<char>, at: nat, s: seq<char>): (r: seq<char>)
    requires at + |s| <= |q|
    ensures |r| == |q|
  {
    q[..at] + s + q[at + |s|..]
  }

  /** q with as much of s as fits in size characters, NUL included, put at position at. */
  function Printed(q: seq<char>, at: nat, s: string, size: nat): (r: seq<char>)
    requires 0 < size && at + size <= |q|
    ensures |r| == |q|
  {
    Overlaid(q, at, s[..Min(|s|, size - 1)] + [NUL])
  }

  lemma OverlaidMore(q: seq<char>, at: nat, s: seq<char>, c: char, s': seq<char>)
    requires at + |s| < |q| && s' == s + [c]
    ensures Overlaid(q, at, s)[at + |s| := c] == Overlaid(q, at, s')
  {
  }

  /** snprintf of the text s: returns the length s would have needed. */
  method SnPrintF(dst: array<char>, at: nat, size: nat, s: string) returns (n: nat)
    requires 0 < size && at + size <= dst.Length
    modifies dst
    ensures n == |s| && dst[..] == Printed(old(dst[..]), at, s, size)
  {
    ghost var q := dst[..];
    var room := Min(|s|, size - 1);
    for k := 0 to room
      invariant dst[..] == Overlaid(q, at, s[..k])
    {
      OverlaidMore(q, at, s[..k], s[k], s[..k + 1]);
      dst[at + k] := s[k];
    }
    OverlaidMore(q, at, s[..room], NUL, s[..room] + [NUL]);
    dst[at + room] := NUL;
    n := |s|;
  }

  /** `iio_strlcpy` of the C string src: as many characters as fit, NUL, and src's full length. */
  method StrLCpy(dst: array<char>, at: nat, src: string, dsize: nat) returns (n: nat)
    requires at + dsize <= dst.Length && NUL !in src
    modifies dst
    ensures n == |src|
    ensures dst[..] == if dsize == 0 then old(dst[..]) else Printed(old(dst[..]), at, src, dsize)
  {
    ghost var q := dst[..];
    var nleft: nat := dsize;
    var k: nat := 0;                  // both pointers have advanced by k
    if nleft != 0 {
      nleft := nleft - 1;
      while nleft != 0
        invariant nleft + k == dsize - 1 && k <= |src|
        invariant dst[..] == Overlaid(q, at, src[..k])
        decreases nleft
      {
        var c := if k < |src| then src[k] else NUL;
        OverlaidMore(q, at, src[..k], c, src[..k] + [c]);
        dst[at + k] := c;
        k := k + 1;
        if c == NUL {
          assert src[..k - 1] == src[..Min(|src|, dsize - 1)];
          return k - 1;
        }
        assert src[..k - 1] + [c] == src[..k];
        nleft := nleft - 1;
      }
    }
    if dsize != 0 {
      OverlaidMore(q, at, src[..k], NUL, src[..k] + [NUL]);
      dst[at + k] := NUL;
    }
    while k < |src|
      invariant k <= |src|
    {
      k := k + 1;
    }
    n := k;
  }

  method MemCpy(dst: array<char>, at: nat, src: seq<char>, n: nat)
    requires at + n <= dst.Length && n <= |src|
    modifies dst
    ensures dst[..] == Overlaid(old(dst[..]), at, src[..n])
  {
    ghost var q := dst[..];
    for k := 0 to n
      invariant dst[..] == Overlaid(q, at, src[..k])
    {
      OverlaidMore(q, at, src[..k], src[k], src[..k + 1]);
      dst[at + k] := src[k];
    }
  }

  /** A text that fits stands behind what was there, and NUL behind it. */
  lemma PrintedWhole(q: seq<char>, at: nat, s: string, size: nat, t: string)
    requires |s| < size && at + size <= |q| && q[..at] == t
    ensures Printed(q, at, s, size)[..at + |s|] == t + s && Printed(q, at, s, size)[at + |s|] == NUL
  {
    assert s[..|s|] == s;
  }

  lemma CopiedWhole(q: seq<char>, at: nat, s: string, t: string)
    requires at + |s| <= |q| && q[..at] == t
    ensures Overlaid(q, at, s)[..at + |s|] == t + s
  {
  }

  /** The locals str, ptr and len that every printer keeps; eptr is the end of str. */
  class Output {
    const str: array<char>
    var ptr: nat
    var len: int
    ghost var ops: seq<Op>    // what was to be put into it so far

    /** str holds what ops leave in it, and len is negative once a printed text ran out of room. */
    ghost predicate Valid()
      reads this, str
    {
      && len == str.Length - ptr
      && match FillAll(str.Length, ops)
         case Some(t) => ptr == |t| < str.Length && str[..ptr] == t
         case None => len <= 0
    }

    constructor (size: nat)
      requires size > 0
      ensures Valid() && fresh(str) && str.Length == size && ops == []
    {
      str := new char[size];
      ptr, len, ops := 0, size, [];
    }

    /** Prints s when any room is left, cut to that room; ptr and len count the whole of s. */
    method Print(s: string)
      requires Valid()
      modifies this, str
      ensures Valid() && ops == old(ops) + [Put(s)]
    {
      hide FillAll, Printed;
      FillMore(str.Length, ops, Put(s));
      if len > 0 {
        if |s| < len {
          PrintedWhole(str[..], ptr, s, len, str[..ptr]);
        }
        var n := SnPrintF(str, ptr, len, s);
        ptr := ptr + n;
        len := str.Length - ptr;
      }
      ops := ops + [Put(s)];
    }

    /** Copies the first n characters of block when there is room for them and a NUL. */
    method Copy(block: seq<char>, n: nat)
      requires Valid() && n <= |block|
      modifies this, str
      ensures Valid() && ops == old(ops) + [Block(block[..n])]
    {
      hide FillAll, Overlaid;
      FillMore(str.Length, ops, Block(block[..n]));
      if len > n {
        CopiedWhole(str[..], ptr, block[..n], str[..ptr]);
        MemCpy(str, ptr, block, n);
        ptr := ptr + n;
        len := len - n;
      }
      ops := ops + [Block(block[..n])];
    }

    /** Prints the literal s like Print, by way of strlcpy. */
    method Append(s: string)
      requires Valid() && NUL !in s
      modifies this, str
      ensures Valid() && ops == old(ops) + [Put(s)]
      ensures FillAll(str.Length, ops).Some? ==> str[ptr] == NUL
    {
      hide FillAll, Printed;
      FillMore(str.Length, ops, Put(s));
      if len > 0 {
        if |s| < len {
          PrintedWhole(str[..], ptr, s, len, str[..ptr]);
        }
        var n := StrLCpy(str, ptr, s, len);
        ptr := ptr + n;
        len := len - |s|;
      }
      ops := ops + [Put(s)];
    }

    /** Prints the closing tag and returns the buffer, if room for NUL and nothing else is left. */
    method Close(s: string) returns (r: Option<seq<char>>, length: int)
      requires Valid() && NUL !in s
      modifies this, str
      ensures r == Terminated(Finished(str.Length, old(ops) + [Put(s)]))
      ensures r.Some? ==> length == str.Length - 1
    {
      Append(s);
      length := ptr;
      r := if len != 1 then None else Some(str[..]);
      assert ptr == str.Length - 1 ==> str[..] == str[..ptr] + [str[ptr]];
    }
  }

  /** A returned text with its NUL. */
  function Terminated(text: Option<string>): Option<seq<char>> {
    match text case None => None case Some(t) => Some(t + [NUL])
  }

  /** A malloc'ed text with its length, as the attribute, channel and device printers return it. */
  datatype Piece = Piece(str: seq<char>, length: nat)
  {
    predicate Valid() {
      length <= |str|
    }

    function Text(): seq<char>
      requires Valid()
    {
      str[..length]
    }
  }

  /** The texts of the pieces are the blocks of xs. */
  ghost predicate PiecesOf<T>(pieces: seq<Piece>, xs: seq<T>, block: T -> string) {
    |pieces| == |xs| && forall k :: 0 <= k < |xs| ==> pieces[k].Valid() && pieces[k].Text() == block(xs[k])
  }

  /** The loop that copies the pieces of one kind. */
  method CopyAll<T>(out: Output, pieces: seq<Piece>, ghost xs: seq<T>, ghost block: T -> string)
    requires out.Valid() && PiecesOf(pieces, xs, block)
    modifies out, out.str
    ensures out.Valid() && out.ops == old(out.ops) + Blocks(block, xs)
  {
    hide Output.Valid;
    assert xs[..0] == [] && Blocks(block, []) == [] && out.ops + [] == out.ops;
    for i := 0 to |pieces|
      invariant out.Valid() && out.ops == old(out.ops) + Blocks(block, xs[..i])
    {
      assert xs[..i + 1][..i] == xs[..i];
      ghost var before := out.ops;
      out.Copy(pieces[i].str, pieces[i].length);
      OneBlockMore(old(out.ops), Blocks(block, xs[..i]), before, Block(block(xs[i])));
    }
    assert xs[..|pieces|] == xs;
  }

  lemma OneBlockMore(a: seq<Op>, b: seq<Op>, ops: seq<Op>, op: Op)
    requires ops == a + b
    ensures ops + [op] == a + (b + [op])
  {
  }

  /** `get_attr_xml2`: kind is "", "debug-" or "buffer-". */
  method AttrXml(kind: string, a: Attr) returns (p: Piece)
    ensures p.Valid() && p.length == AttrLength(kind, a) && |p.str| == p.length + 1 && p.str[p.length] == NUL
    ensures p.Text() == AttrBlock(kind, a) == PrintAttr(kind, a)[..p.length]
  {
    var len := |"<attribute name=\"\" />"| + Capped(a.name, NAME_MAX) + |kind|;
    var value := ValueText(a.value);
    len := len + |" value=\"\""| + Capped(value, NAME_MAX);
    AttrExact(kind, a);
    p := Format(len, PrintAttr(kind, a));
  }

  /** `get_attr_xml`. */
  method ChannelAttrXml(a: ChannelAttr) returns (p: Piece)
    ensures p.Valid() && p.length == ChannelAttrLength(a) && |p.str| == p.length + 1 && p.str[p.length] == NUL
    ensures p.Text() == ChannelAttrBlock(a) == PrintChannelAttr(a)[..p.length]
  {
    var len := Capped(a.name, NAME_MAX) + |"<attribute name=\"\" />"|;
    if a.filename.Some? {
      len := len + Capped(a.filename.value, NAME_MAX) + |" filename=\"\""|;
    }
    len := len + |" value=\"\""|;
    len := len + Capped(ValueText(a.value), NAME_MAX);
    ChannelAttrExact(a);
    p := Format(len, PrintChannelAttr(a));
  }

  /** A block of len + 1 characters with the text printed into it. */
  method Format(len: nat, text: string) returns (p: Piece)
    requires len <= |text|
    ensures p.Valid() && p.length == len && |p.str| == len + 1
    ensures p.Text() == text[..len] && p.str[len] == NUL
  {
    var str := new char[len + 1];
    var _ := SnPrintF(str, 0, len + 1, text);
    p := Piece(str[..], len);
  }

  // ---- the pieces of one level ------------------------------------------------------------------

  lemma PiecesMore<T>(pieces: seq<Piece>, xs: seq<T>, i: nat, p: Piece, length: T -> nat, block: T -> string)
    requires i < |xs| && PiecesOf(pieces, xs[..i], block) && p.Valid() && p.length == length(xs[i])
    requires p.Text() == block(xs[i])
    ensures PiecesOf(pieces + [p], xs[..i + 1], block)
    ensures SumOf(length, xs[..i + 1]) == SumOf(length, xs[..i]) + p.length
  {
    assert xs[..i + 1][..i] == xs[..i];
  }

  /** length and block are those of the attributes of this kind. */
  method AttrPieces(kind: string, attrs: seq<Attr>, ghost length: Attr -> nat, ghost block: Attr -> string)
      returns (pieces: seq<Piece>, total: nat)
    requires forall a :: length(a) == AttrLength(kind, a) && block(a) == AttrBlock(kind, a)
    ensures PiecesOf(pieces, attrs, block) && total == SumOf(length, attrs)
  {
    pieces, total := [], 0;
    assert PiecesOf(pieces, attrs[..0], block) && total == SumOf(length, attrs[..0]);
    hide PiecesOf, SumOf, AttrLength, AttrBlock;
    for i := 0 to |attrs|
      invariant PiecesOf(pieces, attrs[..i], block) && total == SumOf(length, attrs[..i])
    {
      var p := AttrXml(kind, attrs[i]);
      PiecesMore(pieces, attrs, i, p, length, block);
      pieces, total := pieces + [p], total + p.length;
    }
    assert attrs[..|attrs|] == attrs;
  }

  method ChannelAttrPieces(attrs: seq<ChannelAttr>) returns (pieces: seq<Piece>, total: nat)
    ensures PiecesOf(pieces, attrs, ChannelAttrBlock) && total == SumOf(ChannelAttrLength, attrs)
  {
    pieces, total := [], 0;
    assert PiecesOf(pieces, attrs[..0], ChannelAttrBlock) && total == SumOf(ChannelAttrLength, attrs[..0]);
    hide PiecesOf, SumOf, ChannelAttrLength, ChannelAttrBlock;
    for i := 0 to |attrs|
      invariant PiecesOf(pieces, attrs[..i], ChannelAttrBlock) && total == SumOf(ChannelAttrLength, attrs[..i])
    {
      var p := ChannelAttrXml(attrs[i]);
      PiecesMore(pieces, attrs, i, p, ChannelAttrLength, ChannelAttrBlock);
      pieces, total := pieces + [p], total + p.length;
    }
    assert attrs[..|attrs|] == attrs;
  }

  // ---- channel -----------------------------------------------------------------------------------

  /** `iio_channel_get_xml`. */
  method ChannelXml(ch: Channel) returns (r: Option<seq<char>>, length: int)
    ensures r == Terminated(ChannelResult(ch)) && (r.Some? ==> length == ChannelLength(ch))
    ensures r == Some(PrintChannel(ch) + [NUL]) <==> ChannelFits(ch)
  {
    var len := |"<channel id=\"\" type=\"\" ></channel>"| + Capped(ch.id, NAME_MAX) + |Direction(ch)|;
    if ch.name.Some? {
      len := len + |" name=\"\""| + Capped(ch.name.value, NAME_MAX);
    }
    if ch.scanElement.Some? {
      len := len + |ch.scanElement.value|;
    }
    var pieces, total := ChannelAttrPieces(ch.attrs);
    len := len + total;
    assert len == ChannelLength(ch);
    hide ChannelLength, PrintChannel, ChannelFits, PiecesOf;
    r, length := FillChannel(ch, len, pieces);
    ChannelComplete(ch);
    WithNul(ChannelResult(ch), PrintChannel(ch));
  }

  lemma WithNul(text: Option<string>, s: string)
    ensures Terminated(text) == Some(s + [NUL]) <==> text == Some(s)
  {
    if text.Some? && text.value + [NUL] == s + [NUL] {
      assert text.value == (text.value + [NUL])[..|s|] == s;
    }
  }

  /** The filling of the channel's buffer. */
  method FillChannel(ch: Channel, len: nat, pieces: seq<Piece>) returns (r: Option<seq<char>>, length: int)
    requires PiecesOf(pieces, ch.attrs, ChannelAttrBlock)
    ensures r == Terminated(Finished(len + 1, ChannelOps(ch))) && (r.Some? ==> length == len)
  {
    hide Output.Valid, PiecesOf, ChannelHead, ChannelType, Blocks;
    var out := new Output(len + 1);
    out.Print(ChannelHead(ch));
    if ch.name.Some? {
      out.Print(" name=\"" + ch.name.value + "\"");
    }
    assert out.ops == [Put(ChannelHead(ch))] + PutOptional(NameAttribute(ch.name));
    out.Print(ChannelType(ch));
    if ch.scanElement.Some? {
      out.Copy(ch.scanElement.value, |ch.scanElement.value|);
      assert ch.scanElement.value[..|ch.scanElement.value|] == ch.scanElement.value;
    }
    assert out.ops == [Put(ChannelHead(ch))] + PutOptional(NameAttribute(ch.name)) + [Put(ChannelType(ch))]
                      + BlockOptional(ch.scanElement);
    CopyAll(out, pieces, ch.attrs, ChannelAttrBlock);
    r, length := out.Close("</channel>");
  }

  // ---- device ------------------------------------------------------------------------------------

  lemma ChannelReturnedMore(channels: seq<Channel>, i: nat)
    requires i < |channels| && ChannelsReturned(channels[..i])
    ensures ChannelsReturned(channels[..i + 1]) <==> ChannelResult(channels[i]).Some?
    ensures ChannelResult(channels[i]).None? ==> !ChannelsReturned(channels)
  {
    hide ChannelResult;
    assert channels[i] in channels && channels[..i + 1] == channels[..i] + [channels[i]];
  }

  /** The text of the piece made of a returned block. */
  lemma TerminatedText(text: Option<string>, p: Piece)
    requires text.Some? && Terminated(text) == Some(p.str) && p.length == |text.value|
    ensures p.Valid() && p.Text() == text.value
  {
  }

  /** ok is false when the print of a channel failed. */
  method ChannelPieces(channels: seq<Channel>) returns (ok: bool, pieces: seq<Piece>, total: nat)
    ensures ok <==> ChannelsReturned(channels)
    ensures ok ==> PiecesOf(pieces, channels, ChannelBlock) && total == SumOf(ChannelLength, channels)
  {
    ok, pieces, total := true, [], 0;
    assert PiecesOf(pieces, channels[..0], ChannelBlock) && total == SumOf(ChannelLength, channels[..0]);
    assert ChannelsReturned(channels[..0]);
    hide PiecesOf, SumOf, ChannelLength, ChannelResult, PrintChannel, ChannelFits, ChannelsReturned, Piece.Text;
    for i := 0 to |channels|
      invariant PiecesOf(pieces, channels[..i], ChannelBlock) && total == SumOf(ChannelLength, channels[..i])
      invariant ChannelsReturned(channels[..i])
    {
      var xml, n := ChannelXml(channels[i]);
      ChannelReturnedMore(channels, i);
      if xml.None? {
        ok := false;
        return;
      }
      var p := Piece(xml.value, n);
      TerminatedText(ChannelResult(channels[i]), p);
      PiecesMore(pieces, channels, i, p, ChannelLength, ChannelBlock);
      pieces, total := pieces + [p], total + p.length;
    }
    assert channels[..|channels|] == channels;
  }

  /** The blocks of a device's children. */
  ghost predicate ChildrenOf(d: Device, channels: seq<Piece>, attrs: seq<Piece>, buffer: seq<Piece>,
                             debug: seq<Piece>)
  {
    && PiecesOf(channels, d.channels, ChannelBlock) && PiecesOf(attrs, d.attrs, DeviceAttrBlock)
    && PiecesOf(buffer, d.bufferAttrs, BufferAttrBlock) && PiecesOf(debug, d.debugAttrs, DebugAttrBlock)
  }

  /** The first half of `iio_device_get_xml`: the pieces, and the length computed in advance. */
  method GatherDevice(d: Device)
      returns (ok: bool, len: nat, channels: seq<Piece>, attrs: seq<Piece>, buffer: seq<Piece>, debug: seq<Piece>)
    ensures ok <==> ChannelsReturned(d.channels)
    ensures ok ==> len == DeviceLength(d) && ChildrenOf(d, channels, attrs, buffer, debug)
  {
    hide PiecesOf, ChannelsReturned, SumOf;
    len := |"<device id=\"\" ></device>"| + Capped(d.id, NAME_MAX);
    if d.name.Some? {
      len := len + |" name=\"\""| + Capped(d.name.value, NAME_MAX);
    }
    var attrsLen, channelsLen, bufferLen, debugLen;
    buffer, debug := [], [];
    attrs, attrsLen := AttrPieces("", d.attrs, DeviceAttrLength, DeviceAttrBlock);
    ok, channels, channelsLen := ChannelPieces(d.channels);
    if !ok {
      return;
    }
    buffer, bufferLen := AttrPieces("buffer-", d.bufferAttrs, BufferAttrLength, BufferAttrBlock);
    debug, debugLen := AttrPieces("debug-", d.debugAttrs, DebugAttrLength, DebugAttrBlock);
    len := len + attrsLen + channelsLen + bufferLen + debugLen;
  }

  /** `iio_device_get_xml`. */
  method DeviceXml(d: Device) returns (r: Option<seq<char>>, length: int)
    ensures r == Terminated(DeviceResult(d)) && (r.Some? ==> length == DeviceLength(d))
    ensures r == Some(PrintDevice(d) + [NUL]) <==> DeviceFits(d)
    ensures !ChannelsReturned(d.channels) ==> r == None
  {
    hide PrintDevice, DeviceFits, ChildrenOf, ChannelsReturned, DeviceLength, DeviceOps, Finished;
    DeviceComplete(d);
    WithNul(DeviceResult(d), PrintDevice(d));
    var ok, len, channels, attrs, buffer, debug := GatherDevice(d);
    if !ok {
      return None, 0;
    }
    r, length := FillDevice(d, len, channels, attrs, buffer, debug);
  }

  /** The opening tag of a device. */
  method PutDeviceHead(out: Output, d: Device)
    requires out.Valid()
    modifies out, out.str
    ensures out.Valid() && out.ops == old(out.ops) + [Put(DeviceHead(d))] + PutOptional(NameAttribute(d.name))
            + [Put(" >")]
  {
    hide Output.Valid, DeviceHead;
    out.Print(DeviceHead(d));
    if d.name.Some? {
      out.Print(" name=\"" + d.name.value + "\"");
    }
    assert out.ops == old(out.ops) + [Put(DeviceHead(d))] + PutOptional(NameAttribute(d.name));
    out.Append(" >");
  }

  /** The filling of the device's buffer. */
  method FillDevice(d: Device, len: nat, channels: seq<Piece>, attrs: seq<Piece>, buffer: seq<Piece>, debug: seq<Piece>)
      returns (r: Option<seq<char>>, length: int)
    requires ChildrenOf(d, channels, attrs, buffer, debug)
    ensures r == Terminated(Finished(len + 1, DeviceOps(d))) && (r.Some? ==> length == len)
  {
    hide Output.Valid, PiecesOf, DeviceHead, Blocks, PutOptional, Terminated, Finished;
    var out := new Output(len + 1);
    PutDeviceHead(out, d);
    assert out.ops == [Put(DeviceHead(d))] + PutOptional(NameAttribute(d.name)) + [Put(" >")];
    CopyAll(out, channels, d.channels, ChannelBlock);
    CopyAll(out, attrs, d.attrs, DeviceAttrBlock);
    CopyAll(out, buffer, d.bufferAttrs, BufferAttrBlock);
    CopyAll(out, debug, d.debugAttrs, DebugAttrBlock);
    r, length := out.Close("</device>");
  }

  // ---- context -----------------------------------------------------------------------------------

  lemma DeviceReturnedMore(devices: seq<Device>, i: nat)
    requires i < |devices| && DevicesReturned(devices[..i])
    ensures DevicesReturned(devices[..i + 1]) <==> DeviceResult(devices[i]).Some?
    ensures DeviceResult(devices[i]).None? ==> !DevicesReturned(devices)
  {
    hide DeviceResult;
    assert devices[i] in devices && devices[..i + 1] == devices[..i] + [devices[i]];
  }

  /** ok is false when the print of a device failed. */
  method DevicePieces(devices: seq<Device>) returns (ok: bool, pieces: seq<Piece>, total: nat)
    ensures ok <==> DevicesReturned(devices)
    ensures ok ==> PiecesOf(pieces, devices, DeviceBlock) && total == SumOf(DeviceLength, devices)
  {
    ok, pieces, total := true, [], 0;
    assert PiecesOf(pieces, devices[..0], DeviceBlock) && total == SumOf(DeviceLength, devices[..0]);
    assert DevicesReturned(devices[..0]);
    hide PiecesOf, SumOf, DeviceLength, DeviceResult, PrintDevice, DeviceFits, ChannelResult, DevicesReturned,
        Piece.Text;
    for i := 0 to |devices|
      invariant PiecesOf(pieces, devices[..i], DeviceBlock) && total == SumOf(DeviceLength, devices[..i])
      invariant DevicesReturned(devices[..i])
    {
      var xml, n := DeviceXml(devices[i]);
      DeviceReturnedMore(devices, i);
      if xml.None? {
        ok := false;
        return;
      }
      var p := Piece(xml.value, n);
      TerminatedText(DeviceResult(devices[i]), p);
      PiecesMore(pieces, devices, i, p, DeviceLength, DeviceBlock);
      pieces, total := pieces + [p], total + p.length;
    }
    assert devices[..|devices|] == devices;
  }

  method ContextAttrLengths(attrs: seq<ContextAttr>) returns (total: nat)
    ensures total == SumOf(ContextAttrLength, attrs)
  {
    total := 0;
    for i := 0 to |attrs|
      invariant total == SumOf(ContextAttrLength, attrs[..i])
    {
      assert attrs[..i + 1][..i] == attrs[..i];
      total := total + Capped(attrs[i].name, NAME_MAX);
      total := total + Capped(attrs[i].value, PAGESIZE);
      total := total + |"<context-attribute name=\"\" value=\"\" />"|;
    }
    assert attrs[..|attrs|] == attrs;
  }

  /** Once a printed text ran out of room, it makes no difference what else is to be printed. */
  lemma {:induction false} NoRoomStays<T>(size: nat, ops: seq<Op>, f: T -> string, xs: seq<T>, i: nat)
    requires i <= |xs| && FillAll(size, ops + Puts(f, xs[..i])).None?
    ensures FillAll(size, ops + Puts(f, xs)).None?
    decreases |xs|
  {
    if i == |xs| {
      assert xs[..i] == xs;
    } else {
      var n := |xs| - 1;
      assert xs[..n][..i] == xs[..i];
      NoRoomStays(size, ops, f, xs[..n], i);
      FillMore(size, ops + Puts(f, xs[..n]), Put(f(xs[n])));
      OneBlockMore(ops, Puts(f, xs[..n]), ops + Puts(f, xs[..n]), Put(f(xs[n])));
    }
  }

  lemma PutsOfNone(ops: seq<Op>, attrs: seq<ContextAttr>)
    ensures ops + Puts(PrintContextAttr, attrs[..0]) == ops
  {
  }

  lemma OneAttrMore(ops: seq<Op>, attrs: seq<ContextAttr>, i: nat)
    requires i < |attrs|
    ensures ops + Puts(PrintContextAttr, attrs[..i]) + [Put(PrintContextAttr(attrs[i]))]
            == ops + Puts(PrintContextAttr, attrs[..i + 1])
  {
    hide PrintContextAttr;
    assert attrs[..i + 1][..i] == attrs[..i];
  }

  /** The attributes that were not printed for want of room make no difference. */
  lemma RestMakesNoDifference(size: nat, ops: seq<Op>, attrs: seq<ContextAttr>, i: nat)
    requires i <= |attrs|
    requires i < |attrs| ==> FillAll(size, ops + Puts(PrintContextAttr, attrs[..i])).None?
    ensures FillAll(size, ops + Puts(PrintContextAttr, attrs))
            == FillAll(size, ops + Puts(PrintContextAttr, attrs[..i]))
  {
    hide PrintContextAttr;
    if i < |attrs| {
      NoRoomStays(size, ops, PrintContextAttr, attrs, i);
    } else {
      assert attrs[..i] == attrs;
    }
  }

  /** The loop that prints the context's attributes; it stops when the buffer is full. */
  method PrintContextAttrs(out: Output, attrs: seq<ContextAttr>)
    requires out.Valid()
    modifies out, out.str
    ensures out.Valid() && out.ops == old(out.ops) + Puts(PrintContextAttr, attrs)
  {
    hide PrintContextAttr, Puts, FillAll;
    var i: nat := 0;
    PutsOfNone(out.ops, attrs);
    while i < |attrs| && out.len > 0
      invariant i <= |attrs|
      invariant out.Valid() && out.ops == old(out.ops) + Puts(PrintContextAttr, attrs[..i])
    {
      OneAttrMore(old(out.ops), attrs, i);
      out.Print(PrintContextAttr(attrs[i]));
      i := i + 1;
    }
    RestMakesNoDifference(out.str.Length, old(out.ops), attrs, i);
    out.ops := old(out.ops) + Puts(PrintContextAttr, attrs);
  }

  /** `iio_context_create_xml`. */
  method ContextXml(header: string, c: Context) returns (r: Option<seq<char>>)
    ensures r == Terminated(ContextResult(header, c))
    ensures r.Some? ==> |r.value| == ContextLength(header, c) + 1
    ensures r == Some(PrintContext(header, c) + [NUL]) <==> ContextFits(c)
    ensures !DevicesReturned(c.devices) ==> r == None
  {
    ContextComplete(header, c);
    WithNul(ContextResult(header, c), PrintContext(header, c));
    hide PrintContext, ContextFits, PiecesOf, DeviceResult;
    var len: nat := |header| + Capped(c.name, NAME_MAX) + |"<context name=\"\" ></context>"|;
    if c.description.Some? {
      len := len + Capped(c.description.value, NAME_MAX) + |" description=\"\""|;
    }
    var attrsLen := ContextAttrLengths(c.attrs);
    var ok, devices, devicesLen := DevicePieces(c.devices);
    if !ok {
      return None;
    }
    len := len + attrsLen + devicesLen;
    assert len == ContextLength(header, c);
    r := FillContext(header, c, len, devices);
  }

  /** The filling of the context's buffer. */
  method FillContext(header: string, c: Context, len: nat, devices: seq<Piece>) returns (r: Option<seq<char>>)
    requires PiecesOf(devices, c.devices, DeviceBlock)
    ensures r == Terminated(Finished(len + 1, ContextOps(header, c)))
  {
    hide Output.Valid, PiecesOf, ContextHead, Blocks, Puts;
    var out := new Output(len + 1);
    out.Print(ContextHead(header, c));
    assert out.ops == [Put(ContextHead(header, c))];
    PrintContextAttrs(out, c.attrs);
    CopyAll(out, devices, c.devices, DeviceBlock);
    var length;
    r, length := out.Close("</context>");
  }
}
