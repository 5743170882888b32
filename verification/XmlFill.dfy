/** What the printers of `genxml` return for every tree, whether or not its strings are within their
    caps: the pieces that are put into a buffer of the size computed in advance. */
module XmlFill {
  import opened Basics
  import opened XmlText

  // ---- filling a buffer ------------------------------------------------------------------------

  /** Text that is printed while there is room, and a block that is copied if it fits whole. */
  datatype Op = Put(text: string) | Block(text: string)

  /** What a buffer of that many characters holds, NUL aside; None when a printed text did not fit,
      after which nothing more is put into it. */
  function FillOne(size: nat, filled: Option<string>, op: Op): Option<string> {
    match filled
    case None => None
    case Some(t) => if |t| + |op.text| < size then Some(t + op.text) else if op.Put? then None else filled
  }

  function FillAll(size: nat, ops: seq<Op>): Option<string> {
    if ops == [] then (if size > 0 then Some("") else None)
    else FillOne(size, FillAll(size, ops[..|ops| - 1]), ops[|ops| - 1])
  }

  /** The final test: nothing but the NUL has room left. */
  function Finished(size: nat, ops: seq<Op>): (r: Option<string>)
    ensures r.Some? ==> |r.value| + 1 == size
  {
    match FillAll(size, ops)
    case Some(t) => if |t| + 1 == size then Some(t) else None
    case None => None
  }

  function Texts(ops: seq<Op>): string {
    if ops == [] then "" else Texts(ops[..|ops| - 1]) + ops[|ops| - 1].text
  }

  /** How many characters the skipped blocks have. */
  function Skipped(size: nat, ops: seq<Op>): nat {
    if ops == [] then 0
    else
      var before, op := ops[..|ops| - 1], ops[|ops| - 1];
      var filled := FillAll(size, before);
      Skipped(size, before)
      + if op.Block? && filled.Some? && |filled.value| + |op.text| >= size then |op.text| else 0
  }

  lemma FillMore(size: nat, ops: seq<Op>, op: Op)
    ensures FillAll(size, ops + [op]) == FillOne(size, FillAll(size, ops), op)
    ensures Texts(ops + [op]) == Texts(ops) + op.text
  {
    assert (ops + [op])[..|ops|] == ops;
  }

  /** What fits altogether is filled in altogether. */
  lemma {:induction false} FillsWhole(size: nat, ops: seq<Op>)
    requires |Texts(ops)| < size
    ensures FillAll(size, ops) == Some(Texts(ops)) && Skipped(size, ops) == 0
  {
    if ops != [] {
      FillsWhole(size, ops[..|ops| - 1]);
    }
  }

  lemma {:induction false} FillAccounts(size: nat, ops: seq<Op>)
    requires FillAll(size, ops).Some?
    ensures |FillAll(size, ops).value| + Skipped(size, ops) == |Texts(ops)|
  {
    if ops != [] {
      FillAccounts(size, ops[..|ops| - 1]);
    }
  }

  /** The filled buffer is returned if and only if no printed text ran out of room and the skipped
      blocks make up for what the size falls short of; it is complete if and only if the size was
      exact. */
  lemma ReturnedExactly(size: nat, ops: seq<Op>)
    ensures Finished(size, ops).Some? <==> FillAll(size, ops).Some? && |Texts(ops)| + 1 == size + Skipped(size, ops)
    ensures Finished(size, ops) == Some(Texts(ops)) <==> |Texts(ops)| + 1 == size
  {
    if FillAll(size, ops).Some? {
      FillAccounts(size, ops);
    }
    if |Texts(ops)| + 1 == size {
      FillsWhole(size, ops);
    }
  }

  // ---- the three printers -----------------------------------------------------------------------

  function Blocks<T>(f: T -> string, xs: seq<T>): seq<Op> {
    if xs == [] then [] else Blocks(f, xs[..|xs| - 1]) + [Block(f(xs[|xs| - 1]))]
  }

  function Puts<T>(f: T -> string, xs: seq<T>): seq<Op> {
    if xs == [] then [] else Puts(f, xs[..|xs| - 1]) + [Put(f(xs[|xs| - 1]))]
  }

  /** The block of an attribute: its print, cut to the length computed for it. */
  function AttrBlock(kind: string, a: Attr): (r: string)
    ensures |r| == AttrLength(kind, a) && (AttrFits(a) ==> r == PrintAttr(kind, a))
  {
    AttrExact(kind, a);
    PrintAttr(kind, a)[..AttrLength(kind, a)]
  }

  function DeviceAttrBlock(a: Attr): string { AttrBlock("", a) }
  function BufferAttrBlock(a: Attr): string { AttrBlock("buffer-", a) }
  function DebugAttrBlock(a: Attr): string { AttrBlock("debug-", a) }

  function ChannelAttrBlock(a: ChannelAttr): (r: string)
    ensures |r| == ChannelAttrLength(a) && (ChannelAttrFits(a) ==> r == PrintChannelAttr(a))
  {
    ChannelAttrExact(a);
    PrintChannelAttr(a)[..ChannelAttrLength(a)]
  }

  function ChannelHead(ch: Channel): string {
    "<channel id=\"" + ch.id + "\""
  }

  function ChannelType(ch: Channel): string {
    " type=\"" + Direction(ch) + "\" >"
  }

  function PutOptional(text: Option<string>): seq<Op> {
    if text.Some? then [Put(text.value)] else []
  }

  function NameAttribute(name: Option<string>): Option<string> {
    if name.Some? then Some(" name=\"" + name.value + "\"") else None
  }

  function BlockOptional(text: Option<string>): seq<Op> {
    if text.Some? then [Block(text.value)] else []
  }

  function ChannelOps(ch: Channel): seq<Op> {
    [Put(ChannelHead(ch))] + PutOptional(NameAttribute(ch.name)) + [Put(ChannelType(ch))]
    + BlockOptional(ch.scanElement) + Blocks(ChannelAttrBlock, ch.attrs) + [Put("</channel>")]
  }

  /** What `iio_channel_get_xml` returns, NUL aside. */
  function ChannelResult(ch: Channel): (r: Option<string>)
    ensures r.Some? ==> |r.value| == ChannelLength(ch)
  {
    Finished(ChannelLength(ch) + 1, ChannelOps(ch))
  }

  function ChannelBlock(ch: Channel): string {
    match ChannelResult(ch) case None => "" case Some(t) => t
  }

  predicate ChannelsReturned(channels: seq<Channel>) {
    forall ch :: ch in channels ==> ChannelResult(ch).Some?
  }

  function DeviceHead(d: Device): string {
    "<device id=\"" + d.id + "\""
  }

  function DeviceOps(d: Device): seq<Op> {
    [Put(DeviceHead(d))] + PutOptional(NameAttribute(d.name)) + [Put(" >")]
    + Blocks(ChannelBlock, d.channels) + Blocks(DeviceAttrBlock, d.attrs)
    + Blocks(BufferAttrBlock, d.bufferAttrs) + Blocks(DebugAttrBlock, d.debugAttrs) + [Put("</device>")]
  }

  /** What `iio_device_get_xml` returns: nothing when a channel fails. */
  function DeviceResult(d: Device): (r: Option<string>)
    ensures r.Some? ==> |r.value| == DeviceLength(d)
  {
    if !ChannelsReturned(d.channels) then None
    else Finished(DeviceLength(d) + 1, DeviceOps(d))
  }

  function DeviceBlock(d: Device): string {
    match DeviceResult(d) case None => "" case Some(t) => t
  }

  predicate DevicesReturned(devices: seq<Device>) {
    forall d :: d in devices ==> DeviceResult(d).Some?
  }

  function ContextHead(header: string, c: Context): string {
    header + "<context name=\"" + c.name + "\"" + PrintDescription(c.description) + " >"
  }

  function ContextOps(header: string, c: Context): seq<Op> {
    [Put(ContextHead(header, c))] + Puts(PrintContextAttr, c.attrs) + Blocks(DeviceBlock, c.devices)
        + [Put("</context>")]
  }

  /** What `iio_context_create_xml` returns: nothing when a device fails. */
  function ContextResult(header: string, c: Context): (r: Option<string>)
    ensures r.Some? ==> |r.value| == ContextLength(header, c)
  {
    if !DevicesReturned(c.devices) then None
    else Finished(ContextLength(header, c) + 1, ContextOps(header, c))
  }

  // ---- the print is complete exactly when everything fits ------------------------------------------

  lemma {:induction false} TextsConcat(a: seq<Op>, b: seq<Op>)
    ensures Texts(a + b) == Texts(a) + Texts(b)
  {
    if b == [] {
      assert a + b == a;
    } else {
      var before, op := b[..|b| - 1], b[|b| - 1];
      assert b == before + [op] && a + b == (a + before) + [op];
      hide Texts, FillAll;
      TextsConcat(a, before);
      FillMore(0, a + before, op);
      FillMore(0, before, op);
      assert Texts(a) + Texts(before) + op.text == Texts(a) + (Texts(before) + op.text);
    }
  }

  lemma TextOfOne(op: Op)
    ensures Texts([op]) == op.text
  {
    assert [op][..0] == [];
  }

  lemma {:induction false} TextsOfBlocks<T>(f: T -> string, g: T -> string, xs: seq<T>)
    requires forall x :: x in xs ==> f(x) == g(x)
    ensures Texts(Blocks(f, xs)) == Concat(g, xs)
  {
    if xs != [] {
      var n := |xs| - 1;
      assert xs[n] in xs && forall x :: x in xs[..n] ==> x in xs;
      TextsOfBlocks(f, g, xs[..n]);
      FillMore(0, Blocks(f, xs[..n]), Block(f(xs[n])));
    }
  }

  lemma {:induction false} TextsOfPuts<T>(f: T -> string, xs: seq<T>)
    ensures Texts(Puts(f, xs)) == Concat(f, xs)
  {
    if xs != [] {
      var n := |xs| - 1;
      TextsOfPuts(f, xs[..n]);
      FillMore(0, Puts(f, xs[..n]), Put(f(xs[n])));
    }
  }

  lemma ChannelOpsText(ch: Channel)
    ensures Texts(ChannelOps(ch)) == ChannelHead(ch) + PrintName(ch.name) + ChannelType(ch) + ScanText(ch)
                                     + Texts(Blocks(ChannelAttrBlock, ch.attrs)) + "</channel>"
  {
    hide Texts, Blocks, ChannelHead, ChannelType;
    var a := [Put(ChannelHead(ch))];
    var b := a + PutOptional(NameAttribute(ch.name));
    var c := b + [Put(ChannelType(ch))];
    var e := c + BlockOptional(ch.scanElement);
    var f := e + Blocks(ChannelAttrBlock, ch.attrs);
    TextOfOne(Put(ChannelHead(ch)));
    TextsConcat(a, PutOptional(NameAttribute(ch.name)));
    OptionalTexts(ch.name, ch.scanElement);
    TextsConcat(b, [Put(ChannelType(ch))]);
    TextOfOne(Put(ChannelType(ch)));
    TextsConcat(c, BlockOptional(ch.scanElement));
    TextsConcat(e, Blocks(ChannelAttrBlock, ch.attrs));
    TextsConcat(f, [Put("</channel>")]);
    TextOfOne(Put("</channel>"));
  }

  lemma OptionalTexts(name: Option<string>, scan: Option<string>)
    ensures Texts(PutOptional(NameAttribute(name))) == PrintName(name)
    ensures Texts(BlockOptional(scan)) == if scan.Some? then scan.value else ""
  {
    if name.Some? {
      TextOfOne(Put(" name=\"" + name.value + "\""));
    }
    if scan.Some? {
      TextOfOne(Block(scan.value));
    }
  }

  lemma OpenTagText(ch: Channel)
    ensures ChannelHead(ch) + PrintName(ch.name) + ChannelType(ch)
            == "<channel id=\"" + ch.id + "\"" + PrintName(ch.name) + " type=\"" + Direction(ch) + "\" >"
  {
    hide PrintName, Direction;
    var a := ChannelHead(ch) + PrintName(ch.name);
    assert a + ChannelType(ch) == a + " type=\"" + Direction(ch) + "\" >";
  }

  lemma PrintChannelParts(ch: Channel)
    ensures PrintChannel(ch)
            == ("<channel id=\"" + ch.id + "\"" + PrintName(ch.name) + " type=\"" + Direction(ch) + "\" >")
               + ScanText(ch) + Concat(PrintChannelAttr, ch.attrs) + "</channel>"
  {
    hide PrintName, Direction, ScanText, Concat, PrintChannelAttr;
  }

  lemma ChannelText(ch: Channel)
    requires ChannelFits(ch)
    ensures Texts(ChannelOps(ch)) == PrintChannel(ch)
  {
    assert forall a :: a in ch.attrs ==> ChannelAttrBlock(a) == PrintChannelAttr(a);
    hide *;
    TextsOfBlocks(ChannelAttrBlock, PrintChannelAttr, ch.attrs);
    ChannelOpsText(ch);
    OpenTagText(ch);
    PrintChannelParts(ch);
  }

  /** The channel's print is returned whole if and only if its strings are within their caps. */
  lemma ChannelComplete(ch: Channel)
    ensures ChannelResult(ch) == Some(PrintChannel(ch)) <==> ChannelFits(ch)
  {
    ChannelExact(ch);
    if ChannelFits(ch) {
      ChannelText(ch);
      ReturnedExactly(ChannelLength(ch) + 1, ChannelOps(ch));
    }
  }

  /** The text of a device with these children. */
  function DeviceAround(d: Device, channels: string, attrs: string, buffer: string, debug: string): string {
    DeviceHead(d) + PrintName(d.name) + " >" + channels + attrs + buffer + debug + "</device>"
  }

  lemma DeviceOpsText(d: Device)
    ensures Texts(DeviceOps(d))
         == DeviceAround(d, Texts(Blocks(ChannelBlock, d.channels)), Texts(Blocks(DeviceAttrBlock, d.attrs)),
                         Texts(Blocks(BufferAttrBlock, d.bufferAttrs)), Texts(Blocks(DebugAttrBlock, d.debugAttrs)))
  {
    hide Texts, Blocks, DeviceHead;
    var a := [Put(DeviceHead(d))];
    var b := a + PutOptional(NameAttribute(d.name));
    var c := b + [Put(" >")];
    var e := c + Blocks(ChannelBlock, d.channels);
    var f := e + Blocks(DeviceAttrBlock, d.attrs);
    var g := f + Blocks(BufferAttrBlock, d.bufferAttrs);
    var h := g + Blocks(DebugAttrBlock, d.debugAttrs);
    TextOfOne(Put(DeviceHead(d)));
    TextsConcat(a, PutOptional(NameAttribute(d.name)));
    OptionalTexts(d.name, None);
    TextsConcat(b, [Put(" >")]);
    TextOfOne(Put(" >"));
    TextsConcat(c, Blocks(ChannelBlock, d.channels));
    TextsConcat(e, Blocks(DeviceAttrBlock, d.attrs));
    TextsConcat(f, Blocks(BufferAttrBlock, d.bufferAttrs));
    TextsConcat(g, Blocks(DebugAttrBlock, d.debugAttrs));
    TextsConcat(h, [Put("</device>")]);
    TextOfOne(Put("</device>"));
  }

  lemma AttrTexts(attrs: seq<Attr>)
    requires forall a :: a in attrs ==> AttrFits(a)
    ensures Texts(Blocks(DeviceAttrBlock, attrs)) == Concat(PrintDeviceAttr, attrs)
    ensures Texts(Blocks(BufferAttrBlock, attrs)) == Concat(PrintBufferAttr, attrs)
    ensures Texts(Blocks(DebugAttrBlock, attrs)) == Concat(PrintDebugAttr, attrs)
  {
    hide AttrFits, PrintAttr, AttrBlock;
    TextsOfBlocks(DeviceAttrBlock, PrintDeviceAttr, attrs);
    TextsOfBlocks(BufferAttrBlock, PrintBufferAttr, attrs);
    TextsOfBlocks(DebugAttrBlock, PrintDebugAttr, attrs);
  }

  lemma ChannelTexts(channels: seq<Channel>)
    requires forall ch :: ch in channels ==> ChannelFits(ch)
    ensures ChannelsReturned(channels)
    ensures Texts(Blocks(ChannelBlock, channels)) == Concat(PrintChannel, channels)
  {
    hide ChannelFits, ChannelResult, PrintChannel;
    forall ch | ch in channels
      ensures ChannelResult(ch) == Some(PrintChannel(ch)) && ChannelBlock(ch) == PrintChannel(ch)
    {
      ChannelComplete(ch);
    }
    TextsOfBlocks(ChannelBlock, PrintChannel, channels);
  }

  lemma DeviceText(d: Device)
    requires DeviceFits(d)
    ensures Texts(DeviceOps(d)) == PrintDevice(d)
  {
    DeviceOpsText(d);
    ChannelTexts(d.channels);
    AttrTexts(d.attrs);
    AttrTexts(d.bufferAttrs);
    AttrTexts(d.debugAttrs);
    hide Texts, Blocks, Concat, DeviceOps, DeviceFits;
  }

  /** The same for a device. */
  lemma DeviceComplete(d: Device)
    ensures DeviceResult(d) == Some(PrintDevice(d)) <==> DeviceFits(d)
  {
    DeviceExact(d);
    if DeviceFits(d) {
      DeviceText(d);
      ChannelTexts(d.channels);
      hide DeviceOps, PrintDevice, DeviceLength, ChannelResult, DeviceFits, Texts;
      ReturnedExactly(DeviceLength(d) + 1, DeviceOps(d));
    }
  }

  lemma ContextOpsText(header: string, c: Context)
    ensures Texts(ContextOps(header, c)) == ContextHead(header, c) + Concat(PrintContextAttr, c.attrs)
                                            + Texts(Blocks(DeviceBlock, c.devices)) + "</context>"
  {
    hide Texts, Blocks, Concat, ContextHead, Puts;
    var a := [Put(ContextHead(header, c))];
    var b := a + Puts(PrintContextAttr, c.attrs);
    var e := b + Blocks(DeviceBlock, c.devices);
    TextOfOne(Put(ContextHead(header, c)));
    TextsOfPuts(PrintContextAttr, c.attrs);
    TextsConcat(a, Puts(PrintContextAttr, c.attrs));
    TextsConcat(b, Blocks(DeviceBlock, c.devices));
    TextsConcat(e, [Put("</context>")]);
    TextOfOne(Put("</context>"));
  }

  lemma DeviceTexts(devices: seq<Device>)
    requires forall d :: d in devices ==> DeviceFits(d)
    ensures DevicesReturned(devices)
    ensures Texts(Blocks(DeviceBlock, devices)) == Concat(PrintDevice, devices)
  {
    hide DeviceFits, DeviceResult, PrintDevice;
    forall d | d in devices
      ensures DeviceResult(d) == Some(PrintDevice(d)) && DeviceBlock(d) == PrintDevice(d)
    {
      DeviceComplete(d);
    }
    TextsOfBlocks(DeviceBlock, PrintDevice, devices);
  }

  /** The same for a context. */
  lemma ContextComplete(header: string, c: Context)
    ensures ContextResult(header, c) == Some(PrintContext(header, c)) <==> ContextFits(c)
  {
    ContextExact(header, c);
    if ContextFits(c) {
      ContextOpsText(header, c);
      DeviceTexts(c.devices);
      assert Texts(ContextOps(header, c)) == PrintContext(header, c);
      hide ContextOps, PrintContext, ContextLength, DeviceResult, ContextFits, Texts, Concat, Blocks;
      ReturnedExactly(ContextLength(header, c) + 1, ContextOps(header, c));
    }
  }

  // ---- an incomplete print that is returned --------------------------------------------------------------

  /** The id of a device exceeds its cap by the length of the device's only attribute: the attribute is
      skipped, the final test passes, and the print without it is returned. */
  lemma GapGoesUnnoticed(d: Device, a: Attr)
    requires d.name == None && d.channels == [] && d.attrs == [a] && d.bufferAttrs == [] && d.debugAttrs == []
    requires AttrFits(a) && |d.id| == NAME_MAX + |PrintDeviceAttr(a)|
    ensures DeviceResult(d) == Some(DeviceHead(d) + " >" + "</device>") && DeviceResult(d) != Some(PrintDevice(d))
  {
    DeviceComplete(d);
    AttrExact("", a);
    var head, block := DeviceHead(d), PrintDeviceAttr(a);
    var size := DeviceLength(d) + 1;
    assert SumOf(DeviceAttrLength, d.attrs) == |block|;
    assert |head| == |"<device id=\"\""| + |d.id| && |block| >= 10;
    GapOps(d, a);
    hide DeviceLength, PrintDeviceAttr, DeviceHead, PrintDevice, SumOf, DeviceOps, AttrFits, PrintAttr, DeviceFits;
    FillGap(size, head, block);
  }

  lemma GapOps(d: Device, a: Attr)
    requires d.name == None && d.channels == [] && d.attrs == [a] && d.bufferAttrs == [] && d.debugAttrs == []
    requires AttrFits(a)
    ensures DeviceOps(d) == [Put(DeviceHead(d))] + [Put(" >")] + [Block(PrintDeviceAttr(a))] + [Put("</device>")]
  {
    assert Blocks(DeviceAttrBlock, [a]) == [Block(DeviceAttrBlock(a))] by {
      assert [a][..0] == [];
    }
    hide DeviceHead, PrintAttr, AttrBlock;
  }

  lemma FillGap(size: nat, head: string, block: string)
    requires size == |head| + |" >"| + |"</device>"| + 1 && |block| >= 10
    ensures Finished(size, [Put(head)] + [Put(" >")] + [Block(block)] + [Put("</device>")])
            == Some(head + " >" + "</device>")
  {
    var a: seq<Op> := [Put(head)];
    var b := a + [Put(" >")];
    var c := b + [Block(block)];
    FillMore(size, [], Put(head));
    assert [] + a == a;
    FillMore(size, a, Put(" >"));
    FillMore(size, b, Block(block));
    FillMore(size, c, Put("</device>"));
    assert FillAll(size, []) == Some("") && "" + head == head;
    hide FillAll;
  }
}
