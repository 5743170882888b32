/** A reader of the XML text, written without regard to the printer, that finds the tree in its print: the text is
    split at '<' into tags and each tag at its quotes. */
module XmlReader {
  import opened Basics
  import opened XmlText
  import opened XmlFill

  // ---- splitting -------------------------------------------------------------------------------------

  /** One character more in front: it ends the first part or belongs to it. */
  function InFront(x: char, parts: seq<string>, c: char): (r: seq<string>)
    requires parts != []
    ensures r != []
  {
    if x == c then [""] + parts else [[x] + parts[0]] + parts[1..]
  }

  /** What stands before the first c, between two of them, and behind the last. */
  function Split(s: string, c: char): (r: seq<string>)
    ensures r != []
  {
    if s == "" then [""] else InFront(s[0], Split(s[1..], c), c)
  }

  lemma {:induction false} SplitNone(s: string, c: char)
    requires c !in s
    ensures Split(s, c) == [s]
  {
    if s != "" {
      SplitNone(s[1..], c);
      assert [s[0]] + s[1..] == s;
    }
  }

  lemma SplitCons(x: char, s: string, c: char)
    ensures Split([x] + s, c) == InFront(x, Split(s, c), c)
  {
    assert ([x] + s)[1..] == s;
  }

  lemma InFrontOfConcat(x: char, a: seq<string>, b: seq<string>, c: char)
    requires a != []
    ensures InFront(x, a + b, c) == InFront(x, a, c) + b
  {
    assert (a + b)[1..] == a[1..] + b;
  }

  lemma {:induction false} SplitAt(a: string, c: char, b: string)
    ensures Split(a + [c] + b, c) == Split(a, c) + Split(b, c)
  {
    if a == "" {
      assert a + [c] + b == [c] + b;
      SplitCons(c, b, c);
    } else {
      hide Split, InFront;
      var rest := a[1..] + [c] + b;
      assert a + [c] + b == [a[0]] + rest && a == [a[0]] + a[1..];
      SplitCons(a[0], rest, c);
      SplitCons(a[0], a[1..], c);
      SplitAt(a[1..], c, b);
      InFrontOfConcat(a[0], Split(a[1..], c), Split(b, c), c);
    }
  }

  /** Three texts with quotes between them, and five, and seven. */
  function Three(a: string, b: string, c: string): string {
    a + "\"" + b + "\"" + c
  }

  function Five(a: string, b: string, c: string, d: string, e: string): string {
    Three(a, b, c) + "\"" + d + "\"" + e
  }

  function Seven(a: string, b: string, c: string, d: string, e: string, f: string, g: string): string {
    Five(a, b, c, d, e) + "\"" + f + "\"" + g
  }

  lemma SplitMore(s: string, parts: seq<string>, a: string, b: string)
    requires Split(s, '"') == parts && '"' !in a && '"' !in b
    ensures Split(s + "\"" + a + "\"" + b, '"') == parts + [a, b]
  {
    SplitAt(s, '"', a);
    SplitAt(s + "\"" + a, '"', b);
    SplitNone(a, '"');
    SplitNone(b, '"');
  }

  lemma SplitThree(a: string, b: string, c: string)
    requires '"' !in a && '"' !in b && '"' !in c
    ensures Split(Three(a, b, c), '"') == [a, b, c]
  {
    SplitNone(a, '"');
    SplitMore(a, [a], b, c);
  }

  lemma SplitFive(a: string, b: string, c: string, d: string, e: string)
    requires '"' !in a && '"' !in b && '"' !in c && '"' !in d && '"' !in e
    ensures Split(Five(a, b, c, d, e), '"') == [a, b, c, d, e]
  {
    SplitThree(a, b, c);
    SplitMore(Three(a, b, c), [a, b, c], d, e);
  }

  lemma SplitSeven(a: string, b: string, c: string, d: string, e: string, f: string, g: string)
    requires '"' !in a && '"' !in b && '"' !in c && '"' !in d && '"' !in e && '"' !in f && '"' !in g
    ensures Split(Seven(a, b, c, d, e, f, g), '"') == [a, b, c, d, e, f, g]
  {
    SplitFive(a, b, c, d, e);
    SplitMore(Five(a, b, c, d, e), [a, b, c, d, e], f, g);
  }

  // ---- the reader ------------------------------------------------------------------------------------

  /** What has been read: nothing yet, a context with the device and the channel that are open in it, the whole
      context, or a text that is no context. */
  datatype State = Start | Open(ctx: Context, dev: Option<Device>, chn: Option<Channel>) | Done(ctx: Context) | Bad

  function ReadContextTag(q: seq<string>): State {
    if |q| == 3 && q[0] == "context name=" && q[2] == " >" then
      Open(Context(q[1], None, [], []), None, None)
    else if |q| == 5 && q[0] == "context name=" && q[2] == " description=" && q[4] == " >" then
      Open(Context(q[1], Some(q[3]), [], []), None, None)
    else Bad
  }

  /** A tag inside the context: an attribute of it, in front of all devices, or a device. */
  function ReadInContext(ctx: Context, piece: string, q: seq<string>): State {
    if piece == "/context>" then Done(ctx)
    else if |q| == 5 && q[0] == "context-attribute name=" && q[2] == " value=" && q[4] == " />"
            && ctx.devices == [] then
      Open(ctx.(attrs := ctx.attrs + [ContextAttr(q[1], q[3])]), None, None)
    else if |q| == 3 && q[0] == "device id=" && q[2] == " >" then
      Open(ctx, Some(Device(q[1], None, [], [], [], [])), None)
    else if |q| == 5 && q[0] == "device id=" && q[2] == " name=" && q[4] == " >" then
      Open(ctx, Some(Device(q[1], Some(q[3]), [], [], [], [])), None)
    else Bad
  }

  /** A tag inside a device: channels, attributes, buffer attributes, debug attributes, in this order. */
  function ReadInDevice(ctx: Context, d: Device, piece: string, q: seq<string>): State {
    if piece == "/device>" then Open(ctx.(devices := ctx.devices + [d]), None, None)
    else if |q| >= 5 && q[0] == "channel id=" && d.attrs == [] && d.bufferAttrs == [] && d.debugAttrs == [] then
      ReadChannelTag(ctx, d, q)
    else if |q| == 5 && q[2] == " value=" && q[4] == " />" then
      var a := Attr(q[1], Some(q[3]));
      if q[0] == "attribute name=" && d.bufferAttrs == [] && d.debugAttrs == [] then
        Open(ctx, Some(d.(attrs := d.attrs + [a])), None)
      else if q[0] == "buffer-attribute name=" && d.debugAttrs == [] then
        Open(ctx, Some(d.(bufferAttrs := d.bufferAttrs + [a])), None)
      else if q[0] == "debug-attribute name=" then
        Open(ctx, Some(d.(debugAttrs := d.debugAttrs + [a])), None)
      else Bad
    else Bad
  }

  function ReadChannelTag(ctx: Context, d: Device, q: seq<string>): State
    requires |q| >= 5
  {
    var n := |q|;
    if q[n - 3] == " type=" && (q[n - 2] == "output" || q[n - 2] == "input") && q[n - 1] == " >" then
      if n == 5 then Open(ctx, Some(d), Some(Channel(q[1], None, q[n - 2] == "output", None, [])))
      else if n == 7 && q[2] == " name=" then
        Open(ctx, Some(d), Some(Channel(q[1], Some(q[3]), q[n - 2] == "output", None, [])))
      else Bad
    else Bad
  }

  /** A tag inside a channel: its scan element, then its attributes. */
  function ReadInChannel(ctx: Context, d: Device, ch: Channel, piece: string, q: seq<string>): State {
    if piece == "/channel>" then Open(ctx, Some(d.(channels := d.channels + [ch])), None)
    else if "scan-element " <= piece && ch.scanElement.None? && ch.attrs == [] then
      Open(ctx, Some(d), Some(ch.(scanElement := Some("<" + piece))))
    else if |q| == 5 && q[0] == "attribute name=" && q[2] == " value=" && q[4] == " />" then
      Open(ctx, Some(d), Some(ch.(attrs := ch.attrs + [ChannelAttr(q[1], None, Some(q[3]))])))
    else if |q| == 7 && q[0] == "attribute name=" && q[2] == " filename=" && q[4] == " value=" && q[6] == " />" then
      Open(ctx, Some(d), Some(ch.(attrs := ch.attrs + [ChannelAttr(q[1], Some(q[3]), Some(q[5]))])))
    else Bad
  }

  /** One tag. */
  function ReadTag(st: State, piece: string): State {
    var q := Split(piece, '"');
    match st
    case Start => ReadContextTag(q)
    case Open(ctx, None, None) => ReadInContext(ctx, piece, q)
    case Open(ctx, Some(d), None) => ReadInDevice(ctx, d, piece, q)
    case Open(ctx, Some(d), Some(ch)) => ReadInChannel(ctx, d, ch, piece, q)
    case _ => Bad
  }

  function ReadTags(st: State, pieces: seq<string>): State {
    if pieces == [] then st else ReadTag(ReadTags(st, pieces[..|pieces| - 1]), pieces[|pieces| - 1])
  }

  /** The tags of a text; what stands before the first one is no part of it. */
  function Read(st: State, text: string): State {
    ReadTags(st, Split(text, '<')[1..])
  }

  lemma ReadTagsMore(st: State, pieces: seq<string>, piece: string)
    ensures ReadTags(st, pieces + [piece]) == ReadTag(ReadTags(st, pieces), piece)
  {
    hide ReadTag;
    assert (pieces + [piece])[..|pieces|] == pieces;
  }

  lemma {:induction false} ReadTagsConcat(st: State, a: seq<string>, b: seq<string>)
    ensures ReadTags(st, a + b) == ReadTags(ReadTags(st, a), b)
  {
    hide ReadTag;
    if b == [] {
      assert a + b == a;
    } else {
      var n := |b| - 1;
      ReadTagsConcat(st, a, b[..n]);
      hide ReadTags;
      ReadTagsMore(st, a + b[..n], b[n]);
      ReadTagsMore(ReadTags(st, a), b[..n], b[n]);
      assert a + b == a + b[..n] + [b[n]] && b == b[..n] + [b[n]];
    }
  }

  lemma ReadNothing(st: State)
    ensures Read(st, "") == st
  {
    assert Split("", '<')[1..] == [];
  }

  predicate Tagged(s: string) {
    s == "" || s[0] == '<'
  }

  lemma TagsOf(rest: string)
    ensures Split("<" + rest, '<')[1..] == Split(rest, '<')
  {
    SplitCons('<', rest, '<');
  }

  lemma TagsOfConcat(a: string, rest: string)
    ensures Split(a + ("<" + rest), '<')[1..] == Split(a, '<')[1..] + Split(rest, '<')
  {
    SplitAt(a, '<', rest);
    hide Split;
    assert a + ("<" + rest) == a + ['<'] + rest;
    var x, y := Split(a, '<'), Split(rest, '<');
    assert (x + y)[1..] == x[1..] + y;
  }

  /** A text is read tag by tag. */
  lemma ReadMore(st: State, a: string, b: string)
    requires Tagged(b)
    ensures Read(st, a + b) == Read(Read(st, a), b)
  {
    hide Split, ReadTags;
    if b == "" {
      assert a + b == a;
      ReadNothing(Read(st, a));
    } else {
      var rest := b[1..];
      assert b == "<" + rest;
      TagsOf(rest);
      TagsOfConcat(a, rest);
      ReadTagsConcat(st, Split(a, '<')[1..], Split(rest, '<'));
    }
  }

  lemma ReadOne(st: State, piece: string)
    requires '<' !in piece
    ensures Read(st, "<" + piece) == ReadTag(st, piece)
  {
    hide Split, ReadTag;
    TagsOf(piece);
    SplitNone(piece, '<');
    ReadTagsMore(st, [], piece);
    assert [] + [piece] == [piece] && ReadTags(st, []) == st;
  }

  // ---- what is read from a print ----------------------------------------------------------------------

  /** A string without quotes and without angle brackets. */
  predicate Clean(s: string) {
    '"' !in s && '<' !in s
  }

  predicate CleanOption(s: Option<string>) {
    s.Some? ==> Clean(s.value)
  }

  predicate CleanAttr(a: Attr) {
    Clean(a.name) && CleanOption(a.value)
  }

  predicate CleanChannelAttr(a: ChannelAttr) {
    Clean(a.name) && CleanOption(a.filename) && CleanOption(a.value)
  }

  /** A scan element is one tag. */
  predicate CleanChannel(ch: Channel) {
    && Clean(ch.id) && CleanOption(ch.name) && (forall a :: a in ch.attrs ==> CleanChannelAttr(a))
    && (ch.scanElement.Some? ==>
          var s := ch.scanElement.value; "<scan-element " <= s && '<' !in s[1..])
  }

  predicate CleanDevice(d: Device) {
    && Clean(d.id) && CleanOption(d.name) && (forall ch :: ch in d.channels ==> CleanChannel(ch))
    && (forall a :: a in d.attrs ==> CleanAttr(a)) && (forall a :: a in d.bufferAttrs ==> CleanAttr(a))
    && (forall a :: a in d.debugAttrs ==> CleanAttr(a))
  }

  predicate CleanContext(c: Context) {
    && Clean(c.name) && CleanOption(c.description) && (forall d :: d in c.devices ==> CleanDevice(d))
    && forall a :: a in c.attrs ==> Clean(a.name) && Clean(a.value)
  }

  /** What the text shows of a value: ERROR when it could not be read. */
  function Shown(value: Option<string>): Option<string> {
    if value.None? then Some("ERROR") else value
  }

  function Mapped<T, U>(f: T -> U, xs: seq<T>): (r: seq<U>)
    ensures |r| == |xs|
  {
    seq(|xs|, i requires 0 <= i < |xs| => f(xs[i]))
  }

  lemma MappedMore<T, U>(f: T -> U, xs: seq<T>)
    requires xs != []
    ensures var n := |xs| - 1; Mapped(f, xs) == Mapped(f, xs[..n]) + [f(xs[n])]
  {
  }

  function ShownAttr(a: Attr): Attr { a.(value := Shown(a.value)) }
  function ShownChannelAttr(a: ChannelAttr): ChannelAttr { a.(value := Shown(a.value)) }
  function ShownChannel(ch: Channel): Channel { ch.(attrs := Mapped(ShownChannelAttr, ch.attrs)) }

  function ShownDevice(d: Device): Device {
    Device(d.id, d.name, Mapped(ShownChannel, d.channels), Mapped(ShownAttr, d.attrs),
           Mapped(ShownAttr, d.bufferAttrs), Mapped(ShownAttr, d.debugAttrs))
  }

  function ShownContext(c: Context): Context { c.(devices := Mapped(ShownDevice, c.devices)) }

  lemma {:induction false} ConcatTagged<T>(f: T -> string, xs: seq<T>)
    requires forall x :: x in xs ==> f(x) != "" && f(x)[0] == '<'
    ensures Tagged(Concat(f, xs))
  {
    if xs != [] {
      var n := |xs| - 1;
      assert xs[n] in xs && forall x :: x in xs[..n] ==> x in xs;
      ConcatTagged(f, xs[..n]);
    }
  }

  lemma ReadThree(st: State, a: string, b: string, c: string)
    requires Clean(a) && Clean(b) && Clean(c)
    ensures Read(st, "<" + Three(a, b, c)) == ReadTag(st, Three(a, b, c))
    ensures Split(Three(a, b, c), '"') == [a, b, c]
  {
    ReadOne(st, Three(a, b, c));
    SplitThree(a, b, c);
  }

  lemma ReadFive(st: State, a: string, b: string, c: string, d: string, e: string)
    requires Clean(a) && Clean(b) && Clean(c) && Clean(d) && Clean(e)
    ensures Read(st, "<" + Five(a, b, c, d, e)) == ReadTag(st, Five(a, b, c, d, e))
    ensures Split(Five(a, b, c, d, e), '"') == [a, b, c, d, e]
  {
    ReadOne(st, Five(a, b, c, d, e));
    SplitFive(a, b, c, d, e);
  }

  lemma ReadSeven(st: State, a: string, b: string, c: string, d: string, e: string, f: string, g: string)
    requires Clean(a) && Clean(b) && Clean(c) && Clean(d) && Clean(e) && Clean(f) && Clean(g)
    ensures Read(st, "<" + Seven(a, b, c, d, e, f, g)) == ReadTag(st, Seven(a, b, c, d, e, f, g))
    ensures Split(Seven(a, b, c, d, e, f, g), '"') == [a, b, c, d, e, f, g]
  {
    ReadOne(st, Seven(a, b, c, d, e, f, g));
    SplitSeven(a, b, c, d, e, f, g);
  }

  lemma AttrText(kind: string, a: Attr)
    ensures PrintAttr(kind, a)
         == "<" + Five(kind + "attribute name=", a.name, " value=", ValueText(a.value), " />")
  {
    hide ValueText;
  }

  // the texts between the strings of a tree

  lemma CleanAttributeKey()
    ensures Clean("attribute name=")
  {
  }

  lemma BufferKey()
    ensures "buffer-" + "attribute name=" == "buffer-attribute name=" && Clean("buffer-attribute name=")
  {
  }

  lemma DebugKey()
    ensures "debug-" + "attribute name=" == "debug-attribute name=" && Clean("debug-attribute name=")
  {
  }

  lemma CleanContextKey()
    ensures Clean("context-attribute name=")
  {
  }

  lemma CleanTagKeys()
    ensures Clean("channel id=") && Clean("device id=") && Clean("context name=")
  {
  }

  lemma CleanKeys()
    ensures Clean(" value=") && Clean(" filename=") && Clean(" name=")
  {
  }

  lemma CleanMoreKeys()
    ensures Clean(" type=") && Clean(" description=")
  {
  }

  lemma CleanEnds()
    ensures Clean(" />") && Clean(" >") && Clean("output") && Clean("input") && Clean("ERROR")
  {
  }

  lemma ReadAttr(st: State, kind: string, key: string, a: Attr)
    requires CleanAttr(a) && Clean(key) && key == kind + "attribute name=" && key[0] != '/'
    ensures var tag := Five(key, a.name, " value=", ValueText(a.value), " />");
            && Read(st, PrintAttr(kind, a)) == ReadTag(st, tag)
            && Split(tag, '"') == [key, a.name, " value=", ValueText(a.value), " />"]
            && tag != "" && tag[0] != '/'
  {
    CleanKeys();
    CleanEnds();
    AttrText(kind, a);
    assert Clean(ValueText(a.value));
    hide Clean, PrintAttr, ValueText;
    ReadFive(st, key, a.name, " value=", ValueText(a.value), " />");
  }

  lemma ReadDeviceAttr(ctx: Context, d: Device, a: Attr)
    requires CleanAttr(a) && d.bufferAttrs == [] && d.debugAttrs == []
    ensures Read(Open(ctx, Some(d), None), PrintDeviceAttr(a))
         == Open(ctx, Some(d.(attrs := d.attrs + [ShownAttr(a)])), None)
  {
    CleanAttributeKey();
    assert "" + "attribute name=" == "attribute name=";
    hide Read, Split, Five, PrintAttr, Clean;
    ReadAttr(Open(ctx, Some(d), None), "", "attribute name=", a);
  }

  lemma ReadBufferAttr(ctx: Context, d: Device, a: Attr)
    requires CleanAttr(a) && d.debugAttrs == []
    ensures Read(Open(ctx, Some(d), None), PrintBufferAttr(a))
         == Open(ctx, Some(d.(bufferAttrs := d.bufferAttrs + [ShownAttr(a)])), None)
  {
    BufferKey();
    hide Read, Split, Five, PrintAttr, Clean;
    ReadAttr(Open(ctx, Some(d), None), "buffer-", "buffer-attribute name=", a);
  }

  lemma ReadDebugAttr(ctx: Context, d: Device, a: Attr)
    requires CleanAttr(a)
    ensures Read(Open(ctx, Some(d), None), PrintDebugAttr(a))
         == Open(ctx, Some(d.(debugAttrs := d.debugAttrs + [ShownAttr(a)])), None)
  {
    DebugKey();
    hide Read, Split, Five, PrintAttr, Clean;
    ReadAttr(Open(ctx, Some(d), None), "debug-", "debug-attribute name=", a);
  }

  /** Device attributes one after the other, and buffer and debug attributes. */
  lemma {:induction false} ReadDeviceAttrs(ctx: Context, d: Device, attrs: seq<Attr>)
    requires (forall a :: a in attrs ==> CleanAttr(a)) && d.bufferAttrs == [] && d.debugAttrs == []
    ensures Read(Open(ctx, Some(d), None), Concat(PrintDeviceAttr, attrs))
         == Open(ctx, Some(d.(attrs := d.attrs + Mapped(ShownAttr, attrs))), None)
  {
    var st := Open(ctx, Some(d), None);
    if attrs == [] {
      ReadNothing(st);
      assert d.attrs + [] == d.attrs;
    } else {
      var n := |attrs| - 1;
      assert attrs[n] in attrs && forall a :: a in attrs[..n] ==> a in attrs;
      hide Read, CleanAttr, PrintAttr, ShownAttr, Mapped;
      ReadDeviceAttrs(ctx, d, attrs[..n]);
      PrintAttrTagged("", attrs[n]);
      ReadMore(st, Concat(PrintDeviceAttr, attrs[..n]), PrintDeviceAttr(attrs[n]));
      ReadDeviceAttr(ctx, d.(attrs := d.attrs + Mapped(ShownAttr, attrs[..n])), attrs[n]);
      MappedMore(ShownAttr, attrs);
      Regroup(d.attrs, Mapped(ShownAttr, attrs[..n]), ShownAttr(attrs[n]));
    }
  }

  lemma {:induction false} ReadBufferAttrs(ctx: Context, d: Device, attrs: seq<Attr>)
    requires (forall a :: a in attrs ==> CleanAttr(a)) && d.debugAttrs == []
    ensures Read(Open(ctx, Some(d), None), Concat(PrintBufferAttr, attrs))
         == Open(ctx, Some(d.(bufferAttrs := d.bufferAttrs + Mapped(ShownAttr, attrs))), None)
  {
    var st := Open(ctx, Some(d), None);
    if attrs == [] {
      ReadNothing(st);
      assert d.bufferAttrs + [] == d.bufferAttrs;
    } else {
      var n := |attrs| - 1;
      assert attrs[n] in attrs && forall a :: a in attrs[..n] ==> a in attrs;
      hide Read, CleanAttr, PrintAttr, ShownAttr, Mapped;
      ReadBufferAttrs(ctx, d, attrs[..n]);
      PrintAttrTagged("buffer-", attrs[n]);
      ReadMore(st, Concat(PrintBufferAttr, attrs[..n]), PrintBufferAttr(attrs[n]));
      ReadBufferAttr(ctx, d.(bufferAttrs := d.bufferAttrs + Mapped(ShownAttr, attrs[..n])), attrs[n]);
      MappedMore(ShownAttr, attrs);
      Regroup(d.bufferAttrs, Mapped(ShownAttr, attrs[..n]), ShownAttr(attrs[n]));
    }
  }

  lemma {:induction false} ReadDebugAttrs(ctx: Context, d: Device, attrs: seq<Attr>)
    requires forall a :: a in attrs ==> CleanAttr(a)
    ensures Read(Open(ctx, Some(d), None), Concat(PrintDebugAttr, attrs))
         == Open(ctx, Some(d.(debugAttrs := d.debugAttrs + Mapped(ShownAttr, attrs))), None)
  {
    var st := Open(ctx, Some(d), None);
    if attrs == [] {
      ReadNothing(st);
      assert d.debugAttrs + [] == d.debugAttrs;
    } else {
      var n := |attrs| - 1;
      assert attrs[n] in attrs && forall a :: a in attrs[..n] ==> a in attrs;
      hide Read, CleanAttr, PrintAttr, ShownAttr, Mapped;
      ReadDebugAttrs(ctx, d, attrs[..n]);
      PrintAttrTagged("debug-", attrs[n]);
      ReadMore(st, Concat(PrintDebugAttr, attrs[..n]), PrintDebugAttr(attrs[n]));
      ReadDebugAttr(ctx, d.(debugAttrs := d.debugAttrs + Mapped(ShownAttr, attrs[..n])), attrs[n]);
      MappedMore(ShownAttr, attrs);
      Regroup(d.debugAttrs, Mapped(ShownAttr, attrs[..n]), ShownAttr(attrs[n]));
    }
  }

  lemma PrintAttrTagged(kind: string, a: Attr)
    ensures PrintAttr(kind, a) != "" && PrintAttr(kind, a)[0] == '<'
  {
  }

  lemma Regroup<T>(a: seq<T>, b: seq<T>, x: T)
    ensures (a + b) + [x] == a + (b + [x])
  {
  }

  // channels

  lemma ReadChannelAttr(ctx: Context, d: Device, ch: Channel, a: ChannelAttr)
    requires CleanChannelAttr(a)
    ensures Read(Open(ctx, Some(d), Some(ch)), PrintChannelAttr(a))
         == Open(ctx, Some(d), Some(ch.(attrs := ch.attrs + [ShownChannelAttr(a)])))
  {
    assert Clean(a.name) && (a.filename.Some? ==> Clean(a.filename.value)) && Clean(ValueText(a.value)) by {
      CleanEnds();
    }
    assert ShownChannelAttr(a) == ChannelAttr(a.name, a.filename, Some(ValueText(a.value)));
    hide *;
    ChannelAttrText(a);
    match a.filename
    case None => ReadPlainAttr(ctx, d, ch, a.name, ValueText(a.value));
    case Some(f) => ReadAttrWithFile(ctx, d, ch, a.name, f, ValueText(a.value));
  }

  lemma ReadPlainAttr(ctx: Context, d: Device, ch: Channel, name: string, v: string)
    requires Clean(name) && Clean(v)
    ensures Read(Open(ctx, Some(d), Some(ch)), "<" + Five("attribute name=", name, " value=", v, " />"))
         == Open(ctx, Some(d), Some(ch.(attrs := ch.attrs + [ChannelAttr(name, None, Some(v))])))
  {
    CleanAttributeKey();
    CleanKeys();
    CleanEnds();
    hide Clean, Read, Split;
    ReadFive(Open(ctx, Some(d), Some(ch)), "attribute name=", name, " value=", v, " />");
    NotAScanElement(Five("attribute name=", name, " value=", v, " />"));
  }

  lemma ReadAttrWithFile(ctx: Context, d: Device, ch: Channel, name: string, f: string, v: string)
    requires Clean(name) && Clean(f) && Clean(v)
    ensures Read(Open(ctx, Some(d), Some(ch)),
                 "<" + Seven("attribute name=", name, " filename=", f, " value=", v, " />"))
         == Open(ctx, Some(d), Some(ch.(attrs := ch.attrs + [ChannelAttr(name, Some(f), Some(v))])))
  {
    CleanAttributeKey();
    CleanKeys();
    CleanEnds();
    hide Clean, Read, Split;
    ReadSeven(Open(ctx, Some(d), Some(ch)), "attribute name=", name, " filename=", f, " value=", v, " />");
    NotAScanElement(Seven("attribute name=", name, " filename=", f, " value=", v, " />"));
  }

  lemma NotAScanElement(tag: string)
    requires tag != "" && tag[0] == 'a'
    ensures !("scan-element " <= tag) && tag != "/channel>"
  {
    assert tag[0] != "scan-element "[0];
  }

  /** A value behind its key, printed in one piece or in several. */
  lemma KeyAndValue(x: string, key: string, printed: string, v: string)
    requires printed == key + "\""
    ensures x + "\"" + (printed + v + "\"") == (x + "\"" + key + "\"" + v) + "\""
    ensures x + "\"" + printed + v == x + "\"" + key + "\"" + v
  {
  }

  lemma Ended(x: string, y: string, printed: string, end: string)
    requires x == "<" + y && printed == "\"" + end
    ensures x + printed == "<" + (y + "\"" + end)
  {
  }

  lemma Begun(key: string, printed: string, v: string)
    requires printed == "<" + key + "\""
    ensures printed + v == "<" + (key + "\"" + v)
  {
  }

  lemma Joined(x: string, y: string, key: string, v: string)
    requires x == "<" + y
    ensures x + "\"" + key + "\"" + v == "<" + (y + "\"" + key + "\"" + v)
  {
  }

  // the printed tags, whose literals hold the quotes, as texts with quotes between them

  lemma ThreeText(p0: string, k0: string, v0: string, e: string)
    requires p0 == "<" + k0 + "\""
    ensures p0 + v0 + "\"" + "" + e == "<" + Three(k0, v0, e)
  {
    Begun(k0, p0, v0);
    assert p0 + v0 + "\"" + "" == p0 + v0 + "\"";
    Ended(p0 + v0, k0 + "\"" + v0, "\"" + e, e);
    assert p0 + v0 + "\"" + e == p0 + v0 + ("\"" + e);
  }

  lemma FiveText(p0: string, k0: string, v0: string, p1: string, k1: string, v1: string, pe: string, e: string)
    requires p0 == "<" + k0 + "\"" && p1 == k1 + "\"" && pe == "\"" + e
    ensures p0 + v0 + "\"" + "" + p1 + v1 + pe == "<" + Five(k0, v0, k1, v1, e)
    ensures p0 + v0 + "\"" + (p1 + v1 + "\"") + e == "<" + Five(k0, v0, k1, v1, e)
  {
    var x, y := p0 + v0, k0 + "\"" + v0;
    Begun(k0, p0, v0);
    assert x + "\"" + "" == x + "\"";
    KeyAndValue(x, k1, p1, v1);
    Joined(x, y, k1, v1);
    var x', y' := x + "\"" + k1 + "\"" + v1, y + "\"" + k1 + "\"" + v1;
    Ended(x', y', pe, e);
    assert x' + "\"" + e == x' + ("\"" + e);
  }

  lemma SevenText(p0: string, k0: string, v0: string, p1: string, k1: string, v1: string, p2: string, k2: string,
                  v2: string, pe: string, e: string)
    requires p0 == "<" + k0 + "\"" && p1 == k1 + "\"" && p2 == k2 + "\"" && pe == "\"" + e
    ensures p0 + v0 + "\"" + (p1 + v1 + "\"") + p2 + v2 + pe == "<" + Seven(k0, v0, k1, v1, k2, v2, e)
  {
    var x, y := p0 + v0, k0 + "\"" + v0;
    Begun(k0, p0, v0);
    KeyAndValue(x, k1, p1, v1);
    Joined(x, y, k1, v1);
    var x', y' := x + "\"" + k1 + "\"" + v1, y + "\"" + k1 + "\"" + v1;
    KeyAndValue(x', k2, p2, v2);
    Joined(x', y', k2, v2);
    Ended(x' + "\"" + k2 + "\"" + v2, y' + "\"" + k2 + "\"" + v2, pe, e);
  }

  lemma ChannelAttrText(a: ChannelAttr)
    ensures PrintChannelAttr(a) == match a.filename {
              case None => "<" + Five("attribute name=", a.name, " value=", ValueText(a.value), " />")
              case Some(f) =>
                "<" + Seven("attribute name=", a.name, " filename=", f, " value=", ValueText(a.value), " />")
            }
  {
    hide ValueText;
    match a.filename
    case None =>
      FiveText("<attribute name=\"", "attribute name=", a.name, " value=\"", " value=", ValueText(a.value),
               "\" />", " />");
    case Some(f) =>
      SevenText("<attribute name=\"", "attribute name=", a.name, " filename=\"", " filename=", f,
                " value=\"", " value=", ValueText(a.value), "\" />", " />");
  }

  lemma ChannelTagText(ch: Channel)
    ensures "<channel id=\"" + ch.id + "\"" + PrintName(ch.name) + " type=\"" + Direction(ch) + "\" >"
         == match ch.name {
              case None => "<" + Five("channel id=", ch.id, " type=", Direction(ch), " >")
              case Some(n) => "<" + Seven("channel id=", ch.id, " name=", n, " type=", Direction(ch), " >")
            }
  {
    hide Direction;
    match ch.name
    case None =>
      FiveText("<channel id=\"", "channel id=", ch.id, " type=\"", " type=", Direction(ch), "\" >", " >");
    case Some(n) =>
      SevenText("<channel id=\"", "channel id=", ch.id, " name=\"", " name=", n,
                " type=\"", " type=", Direction(ch), "\" >", " >");
  }

  lemma DeviceTagText(id: string, name: Option<string>)
    ensures "<device id=\"" + id + "\"" + PrintName(name) + " >"
         == match name {
              case None => "<" + Three("device id=", id, " >")
              case Some(n) => "<" + Five("device id=", id, " name=", n, " >")
            }
  {
    match name
    case None => ThreeText("<device id=\"", "device id=", id, " >");
    case Some(n) => FiveText("<device id=\"", "device id=", id, " name=\"", " name=", n, "\" >", " >");
  }

  lemma ContextTagText(name: string, description: Option<string>)
    ensures "<context name=\"" + name + "\"" + PrintDescription(description) + " >"
         == match description {
              case None => "<" + Three("context name=", name, " >")
              case Some(t) => "<" + Five("context name=", name, " description=", t, " >")
            }
  {
    match description
    case None => ThreeText("<context name=\"", "context name=", name, " >");
    case Some(t) =>
      FiveText("<context name=\"", "context name=", name, " description=\"", " description=", t, "\" >", " >");
  }

  lemma {:induction false} ReadChannelAttrs(ctx: Context, d: Device, ch: Channel, attrs: seq<ChannelAttr>)
    requires forall a :: a in attrs ==> CleanChannelAttr(a)
    ensures Read(Open(ctx, Some(d), Some(ch)), Concat(PrintChannelAttr, attrs))
         == Open(ctx, Some(d), Some(ch.(attrs := ch.attrs + Mapped(ShownChannelAttr, attrs))))
  {
    var st := Open(ctx, Some(d), Some(ch));
    if attrs == [] {
      ReadNothing(st);
      assert ch.attrs + [] == ch.attrs;
    } else {
      var n := |attrs| - 1;
      assert attrs[n] in attrs && forall a :: a in attrs[..n] ==> a in attrs;
      ChannelAttrTagged(attrs[n]);
      hide Read, CleanChannelAttr, PrintChannelAttr, ShownChannelAttr, Mapped;
      ReadChannelAttrs(ctx, d, ch, attrs[..n]);
      ReadMore(st, Concat(PrintChannelAttr, attrs[..n]), PrintChannelAttr(attrs[n]));
      ReadChannelAttr(ctx, d, ch.(attrs := ch.attrs + Mapped(ShownChannelAttr, attrs[..n])), attrs[n]);
      MappedMore(ShownChannelAttr, attrs);
      Regroup(ch.attrs, Mapped(ShownChannelAttr, attrs[..n]), ShownChannelAttr(attrs[n]));
    }
  }

  lemma ChannelAttrTagged(a: ChannelAttr)
    ensures PrintChannelAttr(a) != "" && PrintChannelAttr(a)[0] == '<'
  {
    ChannelAttrText(a);
  }

  /** The tag that opens a channel. */
  lemma ReadChannelOpened(ctx: Context, d: Device, ch: Channel)
    requires Clean(ch.id) && CleanOption(ch.name) && d.attrs == [] && d.bufferAttrs == [] && d.debugAttrs == []
    ensures Read(Open(ctx, Some(d), None),
                 "<channel id=\"" + ch.id + "\"" + PrintName(ch.name) + " type=\"" + Direction(ch) + "\" >")
         == Open(ctx, Some(d), Some(Channel(ch.id, ch.name, ch.output, None, [])))
  {
    assert ch.name.Some? ==> Clean(ch.name.value);
    ChannelTagText(ch);
    hide Clean, Read, Split, PrintName;
    match ch.name
    case None => ReadChannelUnnamed(ctx, d, ch.id, ch.output, Direction(ch));
    case Some(n) => ReadChannelNamed(ctx, d, ch.id, n, ch.output, Direction(ch));
  }

  lemma ReadChannelUnnamed(ctx: Context, d: Device, id: string, output: bool, direction: string)
    requires Clean(id) && d.attrs == [] && d.bufferAttrs == [] && d.debugAttrs == []
    requires direction == if output then "output" else "input"
    ensures Read(Open(ctx, Some(d), None), "<" + Five("channel id=", id, " type=", direction, " >"))
         == Open(ctx, Some(d), Some(Channel(id, None, output, None, [])))
  {
    CleanTagKeys();
    CleanMoreKeys();
    CleanEnds();
    assert "output" != "input";
    hide Clean, Read, Split;
    ReadFive(Open(ctx, Some(d), None), "channel id=", id, " type=", direction, " >");
    NoClosingTag(Five("channel id=", id, " type=", direction, " >"));
  }

  lemma ReadChannelNamed(ctx: Context, d: Device, id: string, name: string, output: bool, direction: string)
    requires Clean(id) && Clean(name) && d.attrs == [] && d.bufferAttrs == [] && d.debugAttrs == []
    requires direction == if output then "output" else "input"
    ensures Read(Open(ctx, Some(d), None), "<" + Seven("channel id=", id, " name=", name, " type=", direction, " >"))
         == Open(ctx, Some(d), Some(Channel(id, Some(name), output, None, [])))
  {
    CleanTagKeys();
    CleanKeys();
    CleanMoreKeys();
    CleanEnds();
    assert "output" != "input";
    hide Clean, Read, Split;
    ReadSeven(Open(ctx, Some(d), None), "channel id=", id, " name=", name, " type=", direction, " >");
    NoClosingTag(Seven("channel id=", id, " name=", name, " type=", direction, " >"));
  }

  lemma NoClosingTag(tag: string)
    requires tag != "" && tag[0] != '/'
    ensures tag != "/device>" && tag != "/context>" && tag != "/channel>"
  {
  }

  lemma ReadScanElement(ctx: Context, d: Device, ch: Channel, scan: Option<string>)
    requires ch.attrs == [] && ch.scanElement.None?
    requires scan.Some? ==> "<scan-element " <= scan.value && '<' !in scan.value[1..]
    ensures var text := match scan case None => "" case Some(s) => s;
            && Tagged(text)
            && Read(Open(ctx, Some(d), Some(ch)), text) == Open(ctx, Some(d), Some(ch.(scanElement := scan)))
  {
    var st := Open(ctx, Some(d), Some(ch));
    match scan
    case None => ReadNothing(st);
    case Some(s) =>
      var piece := s[1..];
      assert s[0] == "<scan-element "[0] && piece[0] == "<scan-element "[1];
      assert "scan-element " <= piece by {
        assert "<scan-element "[1..] == "scan-element ";
      }
      assert s == "<" + piece;
      hide Read, Split;
      ReadOne(st, piece);
      NoClosingTag(piece);
  }

  lemma ReadChannelClosed(ctx: Context, d: Device, ch: Channel)
    ensures Read(Open(ctx, Some(d), Some(ch)), "</channel>") == Open(ctx, Some(d.(channels := d.channels + [ch])), None)
  {
    hide Read, Split;
    assert "</channel>" == "<" + "/channel>";
    ReadOne(Open(ctx, Some(d), Some(ch)), "/channel>");
  }

  lemma ReadChannel(ctx: Context, d: Device, ch: Channel)
    requires CleanChannel(ch) && d.attrs == [] && d.bufferAttrs == [] && d.debugAttrs == []
    ensures Read(Open(ctx, Some(d), None), PrintChannel(ch))
         == Open(ctx, Some(d.(channels := d.channels + [ShownChannel(ch)])), None)
  {
    var st := Open(ctx, Some(d), None);
    var a := "<channel id=\"" + ch.id + "\"" + PrintName(ch.name) + " type=\"" + Direction(ch) + "\" >";
    var b, c := a + ScanText(ch), a + ScanText(ch) + Concat(PrintChannelAttr, ch.attrs);
    assert PrintChannel(ch) == c + "</channel>";
    var begun := Channel(ch.id, ch.name, ch.output, None, []);
    var scanned := Channel(ch.id, ch.name, ch.output, ch.scanElement, []);
    ReadChannelOpened(ctx, d, ch);
    ReadScanElement(ctx, d, begun, ch.scanElement);
    ReadChannelAttrs(ctx, d, scanned, ch.attrs);
    forall x | x in ch.attrs ensures PrintChannelAttr(x) != "" && PrintChannelAttr(x)[0] == '<' {
      ChannelAttrTagged(x);
    }
    ConcatTagged(PrintChannelAttr, ch.attrs);
    hide Read, PrintChannel, PrintChannelAttr, Concat, CleanChannel, Mapped, PrintName, Direction;
    ReadMore(st, a, ScanText(ch));
    ReadMore(st, b, Concat(PrintChannelAttr, ch.attrs));
    ReadMore(st, c, "</channel>");
    assert [] + Mapped(ShownChannelAttr, ch.attrs) == Mapped(ShownChannelAttr, ch.attrs);
    ReadChannelClosed(ctx, d, ShownChannel(ch));
  }

  lemma ChannelTagged(ch: Channel)
    ensures PrintChannel(ch) != "" && PrintChannel(ch)[0] == '<'
  {
    var a := "<channel id=\"" + ch.id;
    assert a[0] == '<';
    hide PrintName, Direction, ScanText, Concat;
  }

  lemma {:induction false} ReadChannels(ctx: Context, d: Device, channels: seq<Channel>)
    requires (forall ch :: ch in channels ==> CleanChannel(ch))
    requires d.attrs == [] && d.bufferAttrs == [] && d.debugAttrs == []
    ensures Read(Open(ctx, Some(d), None), Concat(PrintChannel, channels))
         == Open(ctx, Some(d.(channels := d.channels + Mapped(ShownChannel, channels))), None)
  {
    var st := Open(ctx, Some(d), None);
    if channels == [] {
      ReadNothing(st);
      assert d.channels + [] == d.channels;
    } else {
      var n := |channels| - 1;
      assert channels[n] in channels && forall ch :: ch in channels[..n] ==> ch in channels;
      hide Read, CleanChannel, PrintChannel, ShownChannel, Mapped;
      ReadChannels(ctx, d, channels[..n]);
      ChannelTagged(channels[n]);
      ReadMore(st, Concat(PrintChannel, channels[..n]), PrintChannel(channels[n]));
      ReadChannel(ctx, d.(channels := d.channels + Mapped(ShownChannel, channels[..n])), channels[n]);
      MappedMore(ShownChannel, channels);
      Regroup(d.channels, Mapped(ShownChannel, channels[..n]), ShownChannel(channels[n]));
    }
  }

  // devices

  lemma ReadDeviceOpened(ctx: Context, id: string, name: Option<string>)
    requires Clean(id) && CleanOption(name)
    ensures Read(Open(ctx, None, None), "<device id=\"" + id + "\"" + PrintName(name) + " >")
         == Open(ctx, Some(Device(id, name, [], [], [], [])), None)
  {
    DeviceTagText(id, name);
    CleanTagKeys();
    CleanKeys();
    CleanEnds();
    assert name.Some? ==> Clean(name.value);
    hide Clean, Read, Split, PrintName;
    match name
    case None =>
      ReadThree(Open(ctx, None, None), "device id=", id, " >");
      NoClosingTag(Three("device id=", id, " >"));
    case Some(n) =>
      ReadFive(Open(ctx, None, None), "device id=", id, " name=", n, " >");
      NoClosingTag(Five("device id=", id, " name=", n, " >"));
  }

  lemma ReadDeviceClosed(ctx: Context, d: Device)
    ensures Read(Open(ctx, Some(d), None), "</device>") == Open(ctx.(devices := ctx.devices + [d]), None, None)
  {
    hide Read, Split;
    assert "</device>" == "<" + "/device>";
    ReadOne(Open(ctx, Some(d), None), "/device>");
  }

  lemma DeviceListsTagged(d: Device)
    ensures Tagged(Concat(PrintChannel, d.channels)) && Tagged(Concat(PrintDeviceAttr, d.attrs))
    ensures Tagged(Concat(PrintBufferAttr, d.bufferAttrs)) && Tagged(Concat(PrintDebugAttr, d.debugAttrs))
  {
    forall ch | ch in d.channels ensures PrintChannel(ch) != "" && PrintChannel(ch)[0] == '<' {
      ChannelTagged(ch);
    }
    hide PrintAttr, PrintChannel, Concat;
    forall kind: string, a: Attr ensures PrintAttr(kind, a) != "" && PrintAttr(kind, a)[0] == '<' {
      PrintAttrTagged(kind, a);
    }
    ConcatTagged(PrintChannel, d.channels);
    ConcatTagged(PrintDeviceAttr, d.attrs);
    ConcatTagged(PrintBufferAttr, d.bufferAttrs);
    ConcatTagged(PrintDebugAttr, d.debugAttrs);
  }

  /** The children of a device, in the order in which they are printed. */
  lemma ReadDeviceBody(ctx: Context, d: Device, a: string)
    requires CleanDevice(d)
    requires Read(Open(ctx, None, None), a) == Open(ctx, Some(Device(d.id, d.name, [], [], [], [])), None)
    ensures Read(Open(ctx, None, None),
                 a + Concat(PrintChannel, d.channels) + Concat(PrintDeviceAttr, d.attrs)
                 + Concat(PrintBufferAttr, d.bufferAttrs) + Concat(PrintDebugAttr, d.debugAttrs))
         == Open(ctx, Some(ShownDevice(d)), None)
  {
    var st, begun := Open(ctx, None, None), Device(d.id, d.name, [], [], [], []);
    var channels, attrs := Mapped(ShownChannel, d.channels), Mapped(ShownAttr, d.attrs);
    var buffers, debugs := Mapped(ShownAttr, d.bufferAttrs), Mapped(ShownAttr, d.debugAttrs);
    var b := a + Concat(PrintChannel, d.channels);
    var c := b + Concat(PrintDeviceAttr, d.attrs);
    var e := c + Concat(PrintBufferAttr, d.bufferAttrs);
    assert [] + channels == channels && [] + attrs == attrs && [] + buffers == buffers && [] + debugs == debugs;
    DeviceListsTagged(d);
    hide Read, Concat, Mapped, CleanChannel, CleanAttr, Tagged;
    ReadMore(st, a, Concat(PrintChannel, d.channels));
    ReadChannels(ctx, begun, d.channels);
    ReadMore(st, b, Concat(PrintDeviceAttr, d.attrs));
    ReadDeviceAttrs(ctx, begun.(channels := channels), d.attrs);
    ReadMore(st, c, Concat(PrintBufferAttr, d.bufferAttrs));
    ReadBufferAttrs(ctx, begun.(channels := channels, attrs := attrs), d.bufferAttrs);
    ReadMore(st, e, Concat(PrintDebugAttr, d.debugAttrs));
    ReadDebugAttrs(ctx, begun.(channels := channels, attrs := attrs, bufferAttrs := buffers), d.debugAttrs);
  }

  lemma ReadDevice(ctx: Context, d: Device)
    requires CleanDevice(d)
    ensures Read(Open(ctx, None, None), PrintDevice(d))
         == Open(ctx.(devices := ctx.devices + [ShownDevice(d)]), None, None)
  {
    var a := "<device id=\"" + d.id + "\"" + PrintName(d.name) + " >";
    var b := a + Concat(PrintChannel, d.channels) + Concat(PrintDeviceAttr, d.attrs)
             + Concat(PrintBufferAttr, d.bufferAttrs) + Concat(PrintDebugAttr, d.debugAttrs);
    assert PrintDevice(d) == b + "</device>";
    ReadDeviceOpened(ctx, d.id, d.name);
    hide Read, Concat, PrintName, ShownDevice, PrintDevice;
    ReadDeviceBody(ctx, d, a);
    ReadMore(Open(ctx, None, None), b, "</device>");
    ReadDeviceClosed(ctx, ShownDevice(d));
  }

  lemma DeviceTagged(d: Device)
    ensures PrintDevice(d) != "" && PrintDevice(d)[0] == '<'
  {
    var a := "<device id=\"" + d.id;
    assert a[0] == '<';
    hide PrintName, Concat;
  }

  lemma {:induction false} ReadDevices(ctx: Context, devices: seq<Device>)
    requires forall d :: d in devices ==> CleanDevice(d)
    ensures Read(Open(ctx, None, None), Concat(PrintDevice, devices))
         == Open(ctx.(devices := ctx.devices + Mapped(ShownDevice, devices)), None, None)
  {
    var st := Open(ctx, None, None);
    if devices == [] {
      ReadNothing(st);
      assert ctx.devices + [] == ctx.devices;
    } else {
      var n := |devices| - 1;
      assert devices[n] in devices && forall d :: d in devices[..n] ==> d in devices;
      hide Read, CleanDevice, PrintDevice, ShownDevice, Mapped;
      ReadDevices(ctx, devices[..n]);
      DeviceTagged(devices[n]);
      ReadMore(st, Concat(PrintDevice, devices[..n]), PrintDevice(devices[n]));
      ReadDevice(ctx.(devices := ctx.devices + Mapped(ShownDevice, devices[..n])), devices[n]);
      MappedMore(ShownDevice, devices);
      Regroup(ctx.devices, Mapped(ShownDevice, devices[..n]), ShownDevice(devices[n]));
    }
  }

  // the context

  lemma ReadContextOpened(name: string, description: Option<string>)
    requires Clean(name) && CleanOption(description)
    ensures Read(Start, "<context name=\"" + name + "\"" + PrintDescription(description) + " >")
         == Open(Context(name, description, [], []), None, None)
  {
    ContextTagText(name, description);
    CleanTagKeys();
    CleanMoreKeys();
    CleanEnds();
    assert description.Some? ==> Clean(description.value);
    hide Clean, Read, Split, PrintDescription;
    match description
    case None => ReadThree(Start, "context name=", name, " >");
    case Some(t) => ReadFive(Start, "context name=", name, " description=", t, " >");
  }

  lemma ContextAttrText(a: ContextAttr)
    ensures PrintContextAttr(a) == "<" + Five("context-attribute name=", a.name, " value=", a.value, " />")
    ensures PrintContextAttr(a) != "" && PrintContextAttr(a)[0] == '<'
  {
    FiveText("<context-attribute name=\"", "context-attribute name=", a.name, " value=\"", " value=", a.value,
             "\" />", " />");
  }

  lemma ReadContextAttr(ctx: Context, a: ContextAttr)
    requires Clean(a.name) && Clean(a.value) && ctx.devices == []
    ensures Read(Open(ctx, None, None), PrintContextAttr(a)) == Open(ctx.(attrs := ctx.attrs + [a]), None, None)
  {
    ContextAttrText(a);
    CleanContextKey();
    CleanKeys();
    CleanEnds();
    hide Clean, Read, Split, PrintContextAttr;
    ReadFive(Open(ctx, None, None), "context-attribute name=", a.name, " value=", a.value, " />");
    NoClosingTag(Five("context-attribute name=", a.name, " value=", a.value, " />"));
  }

  lemma {:induction false} ReadContextAttrs(ctx: Context, attrs: seq<ContextAttr>)
    requires (forall a :: a in attrs ==> Clean(a.name) && Clean(a.value)) && ctx.devices == []
    ensures Read(Open(ctx, None, None), Concat(PrintContextAttr, attrs))
         == Open(ctx.(attrs := ctx.attrs + attrs), None, None)
  {
    var st := Open(ctx, None, None);
    if attrs == [] {
      ReadNothing(st);
      assert ctx.attrs + [] == ctx.attrs;
    } else {
      var n := |attrs| - 1;
      assert attrs[n] in attrs && forall a :: a in attrs[..n] ==> a in attrs;
      hide Read, Clean, PrintContextAttr;
      ReadContextAttrs(ctx, attrs[..n]);
      ContextAttrText(attrs[n]);
      ReadMore(st, Concat(PrintContextAttr, attrs[..n]), PrintContextAttr(attrs[n]));
      ReadContextAttr(ctx.(attrs := ctx.attrs + attrs[..n]), attrs[n]);
      assert attrs == attrs[..n] + [attrs[n]];
      Regroup(ctx.attrs, attrs[..n], attrs[n]);
    }
  }

  lemma ContextListsTagged(c: Context)
    ensures Tagged(Concat(PrintContextAttr, c.attrs)) && Tagged(Concat(PrintDevice, c.devices))
  {
    hide PrintContextAttr, PrintDevice, Concat;
    forall a: ContextAttr ensures PrintContextAttr(a) != "" && PrintContextAttr(a)[0] == '<' {
      ContextAttrText(a);
    }
    forall d: Device ensures PrintDevice(d) != "" && PrintDevice(d)[0] == '<' {
      DeviceTagged(d);
    }
    ConcatTagged(PrintContextAttr, c.attrs);
    ConcatTagged(PrintDevice, c.devices);
  }

  /** Every value could be read. */
  predicate AllRead(c: Context) {
    forall d :: d in c.devices ==>
      && (forall ch :: ch in d.channels ==> forall a :: a in ch.attrs ==> a.value.Some?)
      && (forall a :: a in d.attrs ==> a.value.Some?) && (forall a :: a in d.bufferAttrs ==> a.value.Some?)
      && forall a :: a in d.debugAttrs ==> a.value.Some?
  }

  lemma MappedSame<T>(f: T -> T, xs: seq<T>)
    requires forall x :: x in xs ==> f(x) == x
    ensures Mapped(f, xs) == xs
  {
    forall i | 0 <= i < |xs| ensures Mapped(f, xs)[i] == xs[i] {
      assert xs[i] in xs;
    }
  }

  lemma ShownIsTree(c: Context)
    requires AllRead(c)
    ensures ShownContext(c) == c
  {
    hide Mapped;
    forall d | d in c.devices ensures ShownDevice(d) == d {
      forall ch | ch in d.channels ensures ShownChannel(ch) == ch {
        MappedSame(ShownChannelAttr, ch.attrs);
      }
      MappedSame(ShownChannel, d.channels);
      MappedSame(ShownAttr, d.attrs);
      MappedSame(ShownAttr, d.bufferAttrs);
      MappedSame(ShownAttr, d.debugAttrs);
    }
    MappedSame(ShownDevice, c.devices);
  }

  /** The tree is read back from its print, behind the header, when its strings hold no quotes and no angle
      brackets; a value that could not be read comes back as the text ERROR. */
  lemma PrintReadsBack(header: string, c: Context)
    requires CleanContext(c)
    ensures header <= PrintContext(header, c)
    ensures Read(Start, PrintContext(header, c)[|header|..]) == Done(ShownContext(c))
  {
    var a := "<context name=\"" + c.name + "\"" + PrintDescription(c.description) + " >";
    var b := a + Concat(PrintContextAttr, c.attrs);
    var e := b + Concat(PrintDevice, c.devices);
    var begun := Context(c.name, c.description, [], []);
    BehindHeader(header, c, e + "</context>");
    ContextListsTagged(c);
    ReadContextOpened(c.name, c.description);
    hide Read, PrintContext, PrintDescription, Concat, Mapped, CleanDevice, Clean, Tagged;
    assert [] + c.attrs == c.attrs && [] + Mapped(ShownDevice, c.devices) == Mapped(ShownDevice, c.devices);
    ReadMore(Start, a, Concat(PrintContextAttr, c.attrs));
    ReadContextAttrs(begun, c.attrs);
    ReadMore(Start, b, Concat(PrintDevice, c.devices));
    ReadDevices(begun.(attrs := c.attrs), c.devices);
    ReadMore(Start, e, "</context>") by {
      assert Tagged("</context>");
    }
    ReadContextClosed(ShownContext(c));
  }

  lemma ReadContextClosed(c: Context)
    ensures Read(Open(c, None, None), "</context>") == Done(c)
  {
    hide Read, Split;
    assert "</context>" == "<" + "/context>";
    ReadOne(Open(c, None, None), "/context>");
  }

  lemma BehindHeader(header: string, c: Context, body: string)
    requires body == "<context name=\"" + c.name + "\"" + PrintDescription(c.description) + " >"
                     + Concat(PrintContextAttr, c.attrs) + Concat(PrintDevice, c.devices) + "</context>"
    ensures header <= PrintContext(header, c) && PrintContext(header, c)[|header|..] == body
  {
    hide PrintDescription, Concat;
    assert PrintContext(header, c) == header + body;
  }

  /** What the printer returns for such a tree, when its strings are within their caps. */
  lemma ReturnedReadsBack(header: string, c: Context)
    requires CleanContext(c) && ContextFits(c)
    ensures var r := ContextResult(header, c);
            r.Some? && header <= r.value && Read(Start, r.value[|header|..]) == Done(ShownContext(c))
    ensures AllRead(c) ==> ShownContext(c) == c
  {
    ContextComplete(header, c);
    PrintReadsBack(header, c);
    hide *;
    if AllRead(c) {
      ShownIsTree(c);
    }
  }

  /** The print of an output channel without name and attributes, letter by letter. */
  lemma OutputChannelText(ch: Channel)
    requires ch == Channel("voltage0", None, true, None, [])
    ensures PrintChannel(ch) == "<channel id=\"voltage0\" type=\"output\" ></channel>"
  {
  }
}
