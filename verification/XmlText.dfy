/** The XML text of an IIO context, and the lengths that are computed for it in advance. */
module XmlText {
  import opened Basics

  // The caps on the lengths of names and values. The system's headers fix them, and nothing here depends
  // on their values: all that follows holds whatever they are.
  const NAME_MAX: nat
  const PAGESIZE: nat

  /** A value is None when reading the attribute failed. */
  datatype Attr = Attr(name: string, value: Option<string>)
  datatype ChannelAttr = ChannelAttr(name: string, filename: Option<string>, value: Option<string>)
  datatype Channel = Channel(id: string, name: Option<string>, output: bool, scanElement: Option<string>,
                             attrs: seq<ChannelAttr>)
  datatype Device = Device(id: string, name: Option<string>, channels: seq<Channel>,
                           attrs: seq<Attr>, bufferAttrs: seq<Attr>, debugAttrs: seq<Attr>)
  datatype ContextAttr = ContextAttr(name: string, value: string)    // entities encoded
  datatype Context = Context(name: string, description: Option<string>, attrs: seq<ContextAttr>, devices: seq<Device>)

  function ValueText(value: Option<string>): string {
    match value case None => "ERROR" case Some(v) => v
  }

  function Concat<T>(f: T -> string, xs: seq<T>): string {
    if xs == [] then "" else Concat(f, xs[..|xs| - 1]) + f(xs[|xs| - 1])
  }

  // ---- the recursive print -----------------------------------------------------------------

  /** kind is "", "debug-" or "buffer-". */
  function PrintAttr(kind: string, a: Attr): string {
    "<" + kind + "attribute name=\"" + a.name + "\" value=\"" + ValueText(a.value) + "\" />"
  }

  function PrintDeviceAttr(a: Attr): string { PrintAttr("", a) }
  function PrintBufferAttr(a: Attr): string { PrintAttr("buffer-", a) }
  function PrintDebugAttr(a: Attr): string { PrintAttr("debug-", a) }

  function PrintChannelAttr(a: ChannelAttr): string {
    "<attribute name=\"" + a.name + "\"" + PrintFilename(a.filename) + " value=\"" + ValueText(a.value) + "\" />"
  }

  function PrintFilename(filename: Option<string>): string {
    match filename case None => "" case Some(f) => " filename=\"" + f + "\""
  }

  function PrintName(name: Option<string>): string {
    match name case None => "" case Some(n) => " name=\"" + n + "\""
  }

  function ScanText(ch: Channel): string {
    match ch.scanElement case None => "" case Some(s) => s
  }

  function Direction(ch: Channel): string {
    if ch.output then "output" else "input"
  }

  function PrintChannel(ch: Channel): string {
    "<channel id=\"" + ch.id + "\"" + PrintName(ch.name) + " type=\"" + Direction(ch) + "\" >"
    + ScanText(ch) + Concat(PrintChannelAttr, ch.attrs) + "</channel>"
  }

  function PrintDevice(d: Device): string {
    "<device id=\"" + d.id + "\"" + PrintName(d.name) + " >"
    + Concat(PrintChannel, d.channels)
    + Concat(PrintDeviceAttr, d.attrs)
    + Concat(PrintBufferAttr, d.bufferAttrs)
    + Concat(PrintDebugAttr, d.debugAttrs)
    + "</device>"
  }

  function PrintDescription(description: Option<string>): string {
    match description case None => "" case Some(t) => " description=\"" + t + "\""
  }

  function PrintContextAttr(a: ContextAttr): string {
    "<context-attribute name=\"" + a.name + "\" value=\"" + a.value + "\" />"
  }

  /** header is the XML declaration with the DTD. */
  function PrintContext(header: string, c: Context): string {
    header + "<context name=\"" + c.name + "\"" + PrintDescription(c.description) + " >"
    + Concat(PrintContextAttr, c.attrs) + Concat(PrintDevice, c.devices) + "</context>"
  }

  // ---- the lengths computed in advance -------------------------------------------------------

  function Capped(s: string, cap: nat): (n: nat)
    ensures n <= |s| && n <= cap && (n == |s| <==> |s| <= cap)
  {
    if |s| <= cap then |s| else cap
  }

  function SumOf<T>(f: T -> nat, xs: seq<T>): nat {
    if xs == [] then 0 else SumOf(f, xs[..|xs| - 1]) + f(xs[|xs| - 1])
  }

  function AttrLength(kind: string, a: Attr): nat {
    |"<attribute name=\"\" />"| + Capped(a.name, NAME_MAX) + |kind| + |" value=\"\""|
        + Capped(ValueText(a.value), NAME_MAX)
  }

  function DeviceAttrLength(a: Attr): nat { AttrLength("", a) }
  function BufferAttrLength(a: Attr): nat { AttrLength("buffer-", a) }
  function DebugAttrLength(a: Attr): nat { AttrLength("debug-", a) }

  function ChannelAttrLength(a: ChannelAttr): nat {
    Capped(a.name, NAME_MAX) + |"<attribute name=\"\" />"|
    + (if a.filename.Some? then Capped(a.filename.value, NAME_MAX) + |" filename=\"\""| else 0)
    + |" value=\"\""| + Capped(ValueText(a.value), NAME_MAX)
  }

  function NameLength(name: Option<string>): nat {
    if name.Some? then |" name=\"\""| + Capped(name.value, NAME_MAX) else 0
  }

  function ChannelLength(ch: Channel): nat {
    |"<channel id=\"\" type=\"\" ></channel>"| + Capped(ch.id, NAME_MAX) + |Direction(ch)| + NameLength(ch.name)
    + |ScanText(ch)| + SumOf(ChannelAttrLength, ch.attrs)
  }

  function DeviceLength(d: Device): nat {
    |"<device id=\"\" ></device>"| + Capped(d.id, NAME_MAX) + NameLength(d.name)
    + SumOf(DeviceAttrLength, d.attrs) + SumOf(ChannelLength, d.channels)
    + SumOf(BufferAttrLength, d.bufferAttrs)
    + SumOf(DebugAttrLength, d.debugAttrs)
  }

  function ContextAttrLength(a: ContextAttr): nat {
    Capped(a.name, NAME_MAX) + Capped(a.value, PAGESIZE) + |"<context-attribute name=\"\" value=\"\" />"|
  }

  function ContextLength(header: string, c: Context): nat {
    |header| + Capped(c.name, NAME_MAX) + |"<context name=\"\" ></context>"|
    + (if c.description.Some? then Capped(c.description.value, NAME_MAX) + |" description=\"\""| else 0)
    + SumOf(ContextAttrLength, c.attrs) + SumOf(DeviceLength, c.devices)
  }

  // ---- when the lengths are exact --------------------------------------------------------------

  predicate NameFits(name: Option<string>, cap: nat) {
    name.Some? ==> |name.value| <= cap
  }

  predicate AttrFits(a: Attr) {
    |a.name| <= NAME_MAX && |ValueText(a.value)| <= NAME_MAX
  }

  predicate ChannelAttrFits(a: ChannelAttr) {
    |a.name| <= NAME_MAX && NameFits(a.filename, NAME_MAX) && |ValueText(a.value)| <= NAME_MAX
  }

  predicate ChannelFits(ch: Channel) {
    |ch.id| <= NAME_MAX && NameFits(ch.name, NAME_MAX) && forall a :: a in ch.attrs ==> ChannelAttrFits(a)
  }

  predicate DeviceFits(d: Device) {
    && |d.id| <= NAME_MAX && NameFits(d.name, NAME_MAX)
    && (forall ch :: ch in d.channels ==> ChannelFits(ch))
    && (forall a :: a in d.attrs ==> AttrFits(a))
    && (forall a :: a in d.bufferAttrs ==> AttrFits(a))
    && (forall a :: a in d.debugAttrs ==> AttrFits(a))
  }

  predicate ContextAttrFits(a: ContextAttr) {
    |a.name| <= NAME_MAX && |a.value| <= PAGESIZE
  }

  predicate ContextFits(c: Context) {
    && |c.name| <= NAME_MAX && NameFits(c.description, NAME_MAX)
    && (forall a :: a in c.attrs ==> ContextAttrFits(a))
    && (forall d :: d in c.devices ==> DeviceFits(d))
  }

  lemma AttrExact(kind: string, a: Attr)
    ensures AttrLength(kind, a) <= |PrintAttr(kind, a)|
    ensures AttrLength(kind, a) == |PrintAttr(kind, a)| <==> AttrFits(a)
  {
  }

  lemma ChannelAttrExact(a: ChannelAttr)
    ensures ChannelAttrLength(a) <= |PrintChannelAttr(a)|
    ensures ChannelAttrLength(a) == |PrintChannelAttr(a)| <==> ChannelAttrFits(a)
  {
  }

  lemma ContextAttrExact(a: ContextAttr)
    ensures ContextAttrLength(a) <= |PrintContextAttr(a)|
    ensures ContextAttrLength(a) == |PrintContextAttr(a)| <==> ContextAttrFits(a)
  {
  }

  /** Item by item exact lengths add up to an exact length. */
  lemma {:induction false} SumExact<T>(length: T -> nat, text: T -> string, fits: T -> bool, xs: seq<T>)
    requires forall x :: x in xs ==> length(x) <= |text(x)| && (length(x) == |text(x)| <==> fits(x))
    ensures SumOf(length, xs) <= |Concat(text, xs)|
    ensures SumOf(length, xs) == |Concat(text, xs)| <==> forall x :: x in xs ==> fits(x)
  {
    if xs != [] {
      var n := |xs| - 1;
      SumExact(length, text, fits, xs[..n]);
      assert xs == xs[..n] + [xs[n]];
      assert forall x :: x in xs <==> x in xs[..n] || x == xs[n];
    }
  }

  lemma ChannelExact(ch: Channel)
    ensures ChannelLength(ch) <= |PrintChannel(ch)|
    ensures ChannelLength(ch) == |PrintChannel(ch)| <==> ChannelFits(ch)
  {
    ChannelAttrsExact(ch.attrs);
    hide Concat, SumOf, PrintChannelAttr, ChannelAttrLength, ChannelAttrFits;
  }

  lemma ChannelAttrsExact(attrs: seq<ChannelAttr>)
    ensures SumOf(ChannelAttrLength, attrs) <= |Concat(PrintChannelAttr, attrs)|
    ensures SumOf(ChannelAttrLength, attrs) == |Concat(PrintChannelAttr, attrs)|
            <==> forall a :: a in attrs ==> ChannelAttrFits(a)
  {
    forall a | a in attrs
      ensures ChannelAttrLength(a) <= |PrintChannelAttr(a)|
              && (ChannelAttrLength(a) == |PrintChannelAttr(a)| <==> ChannelAttrFits(a))
    {
      ChannelAttrExact(a);
    }
    SumExact(ChannelAttrLength, PrintChannelAttr, ChannelAttrFits, attrs);
  }

  lemma ChannelsExact(channels: seq<Channel>)
    ensures SumOf(ChannelLength, channels) <= |Concat(PrintChannel, channels)|
    ensures SumOf(ChannelLength, channels) == |Concat(PrintChannel, channels)|
            <==> forall ch :: ch in channels ==> ChannelFits(ch)
  {
    forall ch | ch in channels
      ensures ChannelLength(ch) <= |PrintChannel(ch)| && (ChannelLength(ch) == |PrintChannel(ch)| <==> ChannelFits(ch))
    {
      ChannelExact(ch);
    }
    SumExact(ChannelLength, PrintChannel, ChannelFits, channels);
  }

  /** length and text are those of one kind of device attribute. */
  lemma AttrsExact(length: Attr -> nat, text: Attr -> string, attrs: seq<Attr>)
    requires forall a :: length(a) <= |text(a)| && (length(a) == |text(a)| <==> AttrFits(a))
    ensures SumOf(length, attrs) <= |Concat(text, attrs)|
    ensures SumOf(length, attrs) == |Concat(text, attrs)| <==> forall a :: a in attrs ==> AttrFits(a)
  {
    SumExact(length, text, AttrFits, attrs);
  }

  lemma DeviceAttrsExact(d: Device)
    ensures SumOf(DeviceAttrLength, d.attrs) <= |Concat(PrintDeviceAttr, d.attrs)|
    ensures SumOf(DeviceAttrLength, d.attrs) == |Concat(PrintDeviceAttr, d.attrs)|
            <==> forall a :: a in d.attrs ==> AttrFits(a)
    ensures SumOf(BufferAttrLength, d.bufferAttrs) <= |Concat(PrintBufferAttr, d.bufferAttrs)|
    ensures SumOf(BufferAttrLength, d.bufferAttrs) == |Concat(PrintBufferAttr, d.bufferAttrs)|
            <==> forall a :: a in d.bufferAttrs ==> AttrFits(a)
    ensures SumOf(DebugAttrLength, d.debugAttrs) <= |Concat(PrintDebugAttr, d.debugAttrs)|
    ensures SumOf(DebugAttrLength, d.debugAttrs) == |Concat(PrintDebugAttr, d.debugAttrs)|
            <==> forall a :: a in d.debugAttrs ==> AttrFits(a)
  {
    hide PrintAttr, AttrLength, AttrFits, Concat, SumOf;
    forall a: Attr, kind: string
      ensures AttrLength(kind, a) <= |PrintAttr(kind, a)|
              && (AttrLength(kind, a) == |PrintAttr(kind, a)| <==> AttrFits(a))
    {
      AttrExact(kind, a);
    }
    AttrsExact(DeviceAttrLength, PrintDeviceAttr, d.attrs);
    AttrsExact(BufferAttrLength, PrintBufferAttr, d.bufferAttrs);
    AttrsExact(DebugAttrLength, PrintDebugAttr, d.debugAttrs);
  }

  lemma DeviceExact(d: Device)
    ensures DeviceLength(d) <= |PrintDevice(d)|
    ensures DeviceLength(d) == |PrintDevice(d)| <==> DeviceFits(d)
  {
    hide Concat, SumOf, ChannelFits, AttrFits;
    ChannelsExact(d.channels);
    DeviceAttrsExact(d);
  }

  lemma DevicesExact(devices: seq<Device>)
    ensures SumOf(DeviceLength, devices) <= |Concat(PrintDevice, devices)|
    ensures SumOf(DeviceLength, devices) == |Concat(PrintDevice, devices)|
            <==> forall d :: d in devices ==> DeviceFits(d)
  {
    forall d | d in devices
      ensures DeviceLength(d) <= |PrintDevice(d)| && (DeviceLength(d) == |PrintDevice(d)| <==> DeviceFits(d))
    {
      DeviceExact(d);
    }
    SumExact(DeviceLength, PrintDevice, DeviceFits, devices);
  }

  lemma ContextAttrsExact(attrs: seq<ContextAttr>)
    ensures SumOf(ContextAttrLength, attrs) <= |Concat(PrintContextAttr, attrs)|
    ensures SumOf(ContextAttrLength, attrs) == |Concat(PrintContextAttr, attrs)|
            <==> forall a :: a in attrs ==> ContextAttrFits(a)
  {
    forall a | a in attrs
      ensures ContextAttrLength(a) <= |PrintContextAttr(a)|
              && (ContextAttrLength(a) == |PrintContextAttr(a)| <==> ContextAttrFits(a))
    {
      ContextAttrExact(a);
    }
    SumExact(ContextAttrLength, PrintContextAttr, ContextAttrFits, attrs);
  }

  /** The length computed in advance is that of the print exactly when every string of the tree
      is within its cap, and otherwise falls short of it. */
  lemma ContextExact(header: string, c: Context)
    ensures ContextLength(header, c) <= |PrintContext(header, c)|
    ensures ContextLength(header, c) == |PrintContext(header, c)| <==> ContextFits(c)
  {
    hide Concat, SumOf, DeviceFits, ContextAttrFits;
    ContextAttrsExact(c.attrs);
    DevicesExact(c.devices);
  }
}
