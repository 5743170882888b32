/** The attribute store: a tree of XML nodes, searched by `id`, `type` and `name`, whose `value`
    attributes are read and written. */
module XmlStore {
  import opened Basics

  datatype Prop = Prop(name: string, content: string)
  datatype Node = Node(name: string, props: seq<Prop>, children: seq<Node>)

  // ---- attributes of one node ------------------------------------------------------------------

  predicate Has(props: seq<Prop>, name: string, value: string) {
    Prop(name, value) in props
  }

  /** Every attribute of this name, if there is one, has this value. */
  predicate Agrees(props: seq<Prop>, name: string, value: string) {
    forall p :: p in props && p.name == name ==> p.content == value
  }

  /** `xmlGetProp`. */
  function Get(props: seq<Prop>, name: string): Option<string> {
    if props == [] then None
    else if props[0].name == name then Some(props[0].content)
    else Get(props[1..], name)
  }

  /** `xmlSetProp`. */
  function Set(props: seq<Prop>, name: string, value: string): seq<Prop> {
    if props == [] then [Prop(name, value)]
    else if props[0].name == name then [Prop(name, value)] + props[1..]
    else [props[0]] + Set(props[1..], name, value)
  }

  lemma {:induction false} SetThenGet(props: seq<Prop>, name: string, value: string)
    ensures Get(Set(props, name, value), name) == Some(value)
  {
    if props != [] && props[0].name != name {
      SetThenGet(props[1..], name, value);
    }
  }

  lemma {:induction false} SetKeepsOthers(props: seq<Prop>, name: string, value: string, p: Prop)
    requires p.name != name
    ensures p in Set(props, name, value) <==> p in props
  {
    if props != [] {
      assert p in props <==> p == props[0] || p in props[1..];
      if props[0].name != name {
        SetKeepsOthers(props[1..], name, value, p);
      }
    }
  }

  // ---- searches among the children of a node -----------------------------------------------------

  /** What a search looks for: One is `getNode`'s, Every is `getNodeNAttrs`'s. */
  datatype Test = One(tag: string, name: string, value: string)
                | Every(tag: string, names: seq<string>, values: seq<string>)

  predicate Passes(n: Node, t: Test) {
    && n.name == t.tag
    && match t
       case One(_, name, value) => Has(n.props, name, value)
       case Every(_, names, values) => AllAgree(n.props, names, values)
  }

  predicate AllAgree(props: seq<Prop>, names: seq<string>, values: seq<string>) {
    forall i :: 0 <= i < |names| && i < |values| ==> Agrees(props, names[i], values[i])
  }

  function First(nodes: seq<Node>, t: Test): (r: Option<nat>)
    ensures r.Some? ==> r.value < |nodes| && Passes(nodes[r.value], t)
    ensures forall j :: 0 <= j < |nodes| && (r.Some? ==> j < r.value) ==> !Passes(nodes[j], t)
  {
    if nodes == [] then None
    else
      var n := |nodes| - 1;
      match First(nodes[..n], t)
      case Some(k) => Some(k)
      case None => if Passes(nodes[n], t) then Some(n) else None
  }

  datatype Search<+T> = Found(at: T) | NotFound | NullDereference

  /** `getNodeNAttrs`: after a node that has the tag and disagrees, the next one is taken up
      without the test for the end of the list. */
  function FirstN(nodes: seq<Node>, t: Test): (r: Search<nat>)
    ensures r.Found? ==> r.at < |nodes| && Passes(nodes[r.at], t)
  {
    match First(nodes, t)
    case Some(k) => Found(k)
    case None => if nodes != [] && nodes[|nodes| - 1].name == t.tag then NullDereference else NotFound
  }

  /** `getNode`. */
  method GetNode(nodes: seq<Node>, tag: string, name: string, value: string) returns (r: Option<nat>)
    ensures r == First(nodes, One(tag, name, value))
  {
    for k := 0 to |nodes|
      invariant forall j :: 0 <= j < k ==> !Passes(nodes[j], One(tag, name, value))
    {
      if nodes[k].name == tag {
        var props := nodes[k].props;
        for a := 0 to |props|
          invariant forall b :: 0 <= b < a ==> props[b] != Prop(name, value)
        {
          if props[a].name == name {
            if props[a].content == value {
              return Some(k);
            }
          }
        }
      }
    }
    r := None;
  }

  /** `getNodeNAttrs`. */
  method GetNodeNAttrs(nodes: seq<Node>, tag: string, names: seq<string>, values: seq<string>) returns (r: Search<nat>)
    requires |names| == |values|
    ensures r == FirstN(nodes, Every(tag, names, values))
  {
    var k: nat := 0;
    while k < |nodes|
      invariant k <= |nodes| && forall j :: 0 <= j < k ==> !Passes(nodes[j], Every(tag, names, values))
      invariant 0 < k == |nodes| ==> nodes[k - 1].name != tag
    {
      if nodes[k].name == tag {
        var agrees := AgreesWithAll(nodes[k].props, names, values);
        if agrees {
          return Found(k);
        }
        if k + 1 == |nodes| {
          return NullDereference;
        }
      }
      k := k + 1;
    }
    r := NotFound;
  }

  /** The loops of `getNodeNAttrs` over the wanted attributes and those of the node. */
  method AgreesWithAll(props: seq<Prop>, names: seq<string>, values: seq<string>) returns (agrees: bool)
    requires |names| == |values|
    ensures agrees <==> AllAgree(props, names, values)
  {
    for i := 0 to |names|
      invariant forall j :: 0 <= j < i ==> Agrees(props, names[j], values[j])
    {
      for a := 0 to |props|
        invariant forall b :: 0 <= b < a && props[b].name == names[i] ==> props[b].content == values[i]
      {
        if props[a].name == names[i] {
          if props[a].content != values[i] {
            assert !Agrees(props, names[i], values[i]);
            return false;
          }
        }
      }
    }
    agrees := true;
  }

  // ---- addresses -----------------------------------------------------------------------------------

  datatype Kind = DeviceKind | DebugKind | BufferKind

  function TagOf(kind: Kind): string {
    match kind
    case DeviceKind => "attribute"
    case DebugKind => "debug-attribute"
    case BufferKind => "buffer-attribute"
  }

  function TypeOf(output: bool): string {
    if output then "output" else "input"
  }

  /** What a client names. */
  datatype Key = OfDevice(dev: string, kind: Kind, attr: string)
               | OfChannel(dev: string, chn: string, output: bool, attr: string)

  /** Where it is: child k of device i, or child k of channel j of device i. */
  datatype Path = InDevice(i: nat, k: nat) | InChannel(i: nat, j: nat, k: nat)

  function DeviceTest(dev: string): Test { One("device", "id", dev) }
  function ChannelTest(chn: string, output: bool): Test { Every("channel", ["id", "type"], [chn, TypeOf(output)]) }
  function AttrTest(tag: string, attr: string): Test { One(tag, "name", attr) }

  function Locate(root: Node, key: Key): Search<Path> {
    match First(root.children, DeviceTest(key.dev))
    case None => NotFound
    case Some(i) =>
      match key
      case OfDevice(_, kind, attr) => LocateInDevice(root.children[i], i, kind, attr)
      case OfChannel(_, chn, output, attr) => LocateInChannel(root.children[i], i, chn, output, attr)
  }

  function LocateInDevice(device: Node, i: nat, kind: Kind, attr: string): Search<Path> {
    match First(device.children, AttrTest(TagOf(kind), attr))
    case None => NotFound
    case Some(k) => Found(InDevice(i, k))
  }

  function LocateInChannel(device: Node, i: nat, chn: string, output: bool, attr: string): Search<Path> {
    match FirstN(device.children, ChannelTest(chn, output))
    case NullDereference => NullDereference
    case NotFound => NotFound
    case Found(j) =>
      match First(device.children[j].children, AttrTest("attribute", attr))
      case None => NotFound
      case Some(k) => Found(InChannel(i, j, k))
  }

  /** A search never runs past the end of the channels exactly when the channel is there or the last
      child of the device is not a channel. */
  lemma NullDereferenceExactly(root: Node, key: Key)
    ensures Locate(root, key).NullDereference? <==>
              && key.OfChannel? && First(root.children, DeviceTest(key.dev)).Some?
              && var device := root.children[First(root.children, DeviceTest(key.dev)).value];
                 && device.children != [] && device.children[|device.children| - 1].name == "channel"
                 && forall n :: n in device.children ==> !Passes(n, ChannelTest(key.chn, key.output))
  {
  }

  /** A device with one channel, which is its last child, and a request for another channel. */
  lemma AbsentChannelIsFollowedByNull(device: Node, root: Node, attr: string)
    requires device == Node("device", [Prop("id", "d")],
             [Node("channel", [Prop("id", "c"), Prop("type", "input")], [])])
    requires root == Node("context", [], [device])
    ensures Locate(root, OfChannel("d", "e", false, attr)) == NullDereference
  {
    assert root.children[0] == device && Prop("id", "d") in device.props;
    assert !Agrees(device.children[0].props, "id", "e") by {
      assert device.children[0].props[0].content != "e";
    }
    assert ChannelTest("e", false).names[0] == "id" && ChannelTest("e", false).values[0] == "e";
    assert First(root.children, DeviceTest("d")) == Some(0);
  }

  predicate InTree(root: Node, p: Path) {
    && p.i < |root.children|
    && match p
       case InDevice(i, k) => k < |root.children[i].children|
       case InChannel(i, j, k) => j < |root.children[i].children| && k < |root.children[i].children[j].children|
  }

  function NodeAt(root: Node, p: Path): Node
    requires InTree(root, p)
  {
    match p
    case InDevice(i, k) => root.children[i].children[k]
    case InChannel(i, j, k) => root.children[i].children[j].children[k]
  }

  lemma LocatedInTree(root: Node, key: Key)
    requires Locate(root, key).Found?
    ensures InTree(root, Locate(root, key).at)
  {
  }

  // ---- reading and writing values --------------------------------------------------------------------

  function WithChild(n: Node, k: nat, c: Node): Node
    requires k < |n.children|
  {
    n.(children := n.children[k := c])
  }

  function WithValue(n: Node, v: string): Node {
    n.(props := Set(n.props, "value", v))
  }

  function Update(root: Node, p: Path, v: string): Node
    requires InTree(root, p)
  {
    var device := root.children[p.i];
    match p
    case InDevice(i, k) => WithChild(root, i, WithChild(device, k, WithValue(device.children[k], v)))
    case InChannel(i, j, k) =>
      var channel := device.children[j];
      WithChild(root, i, WithChild(device, j, WithChild(channel, k, WithValue(channel.children[k], v))))
  }

  /** What a read gives; Crash when the search runs past its end or there is no value to copy. */
  datatype Reading = Value(text: string) | NoEntry | Crash

  function ReadAt(root: Node, key: Key): Reading {
    match Locate(root, key)
    case NullDereference => Crash
    case NotFound => NoEntry
    case Found(p) =>
      LocatedInTree(root, key);
      match Get(NodeAt(root, p).props, "value")
      case None => Crash
      case Some(v) => Value(v)
  }

  /** The tree after a write. */
  function WriteAt(root: Node, key: Key, v: string): Node {
    match Locate(root, key)
    case Found(p) =>
      LocatedInTree(root, key);
      Update(root, p, v)
    case _ => root
  }

  // ---- writes change no search -------------------------------------------------------------------------

  /** The nodes differ at most in their `value` and in their children. */
  ghost predicate Alike(a: Node, b: Node) {
    a.name == b.name && forall p: Prop :: p.name != "value" ==> (p in a.props <==> p in b.props)
  }

  ghost predicate AllAlike(a: seq<Node>, b: seq<Node>) {
    |a| == |b| && forall k :: 0 <= k < |a| ==> Alike(a[k], b[k])
  }

  predicate Sound(t: Test) {
    match t
    case One(_, name, _) => name != "value"
    case Every(_, names, _) => "value" !in names
  }

  lemma PassesAlike(a: Node, b: Node, t: Test)
    requires Alike(a, b) && Sound(t)
    ensures Passes(a, t) <==> Passes(b, t)
  {
    match t
    case One(_, name, value) => assert Prop(name, value) in a.props <==> Prop(name, value) in b.props;
    case Every(_, names, values) =>
      forall i | 0 <= i < |names| && i < |values|
        ensures Agrees(a.props, names[i], values[i]) <==> Agrees(b.props, names[i], values[i])
      {
        assert names[i] in names;
        assert forall p: Prop :: p.name == names[i] ==> (p in a.props <==> p in b.props);
      }
  }

  lemma FirstAlike(a: seq<Node>, b: seq<Node>, t: Test)
    requires AllAlike(a, b) && Sound(t)
    ensures First(a, t) == First(b, t) && FirstN(a, t) == FirstN(b, t)
  {
    hide Alike, Passes, Sound;
    forall k | 0 <= k < |a|
      ensures Passes(a[k], t) <==> Passes(b[k], t)
    {
      PassesAlike(a[k], b[k], t);
    }
    SamePasses(a, b, t);
    if a != [] {
      SameName(a[|a| - 1], b[|b| - 1]);
    }
  }

  lemma SameName(a: Node, b: Node)
    requires Alike(a, b)
    ensures a.name == b.name
  {
  }

  lemma SamePasses(a: seq<Node>, b: seq<Node>, t: Test)
    requires |a| == |b| && forall k :: 0 <= k < |a| ==> (Passes(a[k], t) <==> Passes(b[k], t))
    ensures First(a, t) == First(b, t)
  {
    hide Passes;
    var r, s := First(a, t), First(b, t);
    if r.Some? {
      assert s.Some? && !(s.value < r.value);
    }
  }

  /** Alike down to the attributes of the channels. */
  ghost predicate TreesAlike(a: Node, b: Node) {
    AllAlike(a.children, b.children) && forall i :: 0 <= i < |a.children| ==> DevicesAlike(a.children[i], b.children[i])
  }

  ghost predicate DevicesAlike(a: Node, b: Node) {
    && AllAlike(a.children, b.children)
    && forall j :: 0 <= j < |a.children| ==> AllAlike(a.children[j].children, b.children[j].children)
  }

  /** Searches depend on `id`, `type` and `name` only. */
  lemma LocateAlike(a: Node, b: Node, key: Key)
    requires TreesAlike(a, b)
    ensures Locate(a, key) == Locate(b, key)
  {
    hide Alike, Passes, First, FirstN;
    FirstAlike(a.children, b.children, DeviceTest(key.dev));
    var r := First(a.children, DeviceTest(key.dev));
    if r.Some? {
      var d, e := a.children[r.value], b.children[r.value];
      assert DevicesAlike(d, e);
      match key
      case OfDevice(_, kind, attr) => FirstAlike(d.children, e.children, AttrTest(TagOf(kind), attr));
      case OfChannel(_, chn, output, attr) =>
        var t := ChannelTest(chn, output);
        FirstAlike(d.children, e.children, t);
        var s := FirstN(d.children, t);
        if s.Found? {
          FirstAlike(d.children[s.at].children, e.children[s.at].children, AttrTest("attribute", attr));
        }
    }
  }

  lemma WithValueAlike(n: Node, v: string)
    ensures Alike(n, WithValue(n, v))
  {
    forall p: Prop | p.name != "value"
      ensures p in n.props <==> p in WithValue(n, v).props
    {
      SetKeepsOthers(n.props, "value", v, p);
    }
  }

  lemma UpdateAlike(root: Node, p: Path, v: string)
    requires InTree(root, p)
    ensures TreesAlike(root, Update(root, p, v))
  {
    WithValueAlike(NodeAt(root, p), v);
    hide WithValue;
  }

  // ---- the tree is a flat map ----------------------------------------------------------------------------

  lemma UpdateKeepsPlaces(root: Node, p: Path, v: string, q: Path)
    requires InTree(root, p) && InTree(root, q)
    ensures InTree(Update(root, p, v), q)
    ensures q != p ==> NodeAt(Update(root, p, v), q).props == NodeAt(root, q).props
    ensures q == p ==> NodeAt(Update(root, p, v), q) == WithValue(NodeAt(root, p), v)
  {
    hide WithValue;
    WithValueChildren(NodeAt(root, p), v);
  }

  lemma WithValueChildren(n: Node, v: string)
    ensures WithValue(n, v).children == n.children
  {
  }

  /** No tag has two attributes of one name (section 3.1 of XML 1.0), and every channel has the
      attributes that the document type requires. */
  ghost predicate WellFormed(root: Node) {
    forall i :: 0 <= i < |root.children| ==> DeviceWellFormed(root.children[i])
  }

  ghost predicate DeviceWellFormed(d: Node) {
    && UniqueAttributes(d.props)
    && (forall k :: 0 <= k < |d.children| ==> UniqueAttributes(d.children[k].props))
    && (forall j :: 0 <= j < |d.children| && d.children[j].name == "channel" ==> ChannelWellFormed(d.children[j]))
  }

  ghost predicate ChannelWellFormed(c: Node) {
    && (exists p :: p in c.props && p.name == "id")
    && (exists p :: p in c.props && p.name == "type")
    && forall k :: 0 <= k < |c.children| ==> UniqueAttributes(c.children[k].props)
  }

  ghost predicate UniqueAttributes(props: seq<Prop>) {
    forall a, b :: 0 <= a < b < |props| ==> props[a].name != props[b].name
  }

  /** The keys found at one place are one key. */
  lemma DistinctKeysNeverAlias(root: Node, a: Key, b: Key)
    requires WellFormed(root) && Locate(root, a).Found? && Locate(root, a) == Locate(root, b)
    ensures a == b
  {
    var p := Locate(root, a).at;
    FoundDevice(root, a);
    FoundDevice(root, b);
    var d := root.children[p.i];
    OneValue(d.props, "id", a.dev, b.dev);
    assert DeviceWellFormed(d);
    match p
    case InDevice(_, k) =>
      assert UniqueAttributes(d.children[k].props);
      OneValue(d.children[k].props, "name", a.attr, b.attr);
    case InChannel(_, j, k) =>
      var c := d.children[j];
      OneChannel(c, a.chn, a.output, b.chn, b.output);
      OneValue(c.children[k].props, "name", a.attr, b.attr);
  }

  /** What is known of the nodes on the way to the place of a key. */
  lemma FoundDevice(root: Node, key: Key)
    requires Locate(root, key).Found?
    ensures InTree(root, Locate(root, key).at)
    ensures var p := Locate(root, key).at;
            && Has(root.children[p.i].props, "id", key.dev)
            && (key.OfDevice? <==> p.InDevice?)
            && (key.OfDevice? ==>
                  && root.children[p.i].children[p.k].name == TagOf(key.kind)
                  && Has(root.children[p.i].children[p.k].props, "name", key.attr))
            && (key.OfChannel? ==>
                  && Passes(root.children[p.i].children[p.j], ChannelTest(key.chn, key.output))
                  && Has(root.children[p.i].children[p.j].children[p.k].props, "name", key.attr))
  {
  }

  lemma OneValue(props: seq<Prop>, name: string, v: string, w: string)
    requires UniqueAttributes(props) && Has(props, name, v) && Has(props, name, w)
    ensures v == w
  {
  }

  lemma OneChannel(c: Node, chn: string, output: bool, chn': string, output': bool)
    requires ChannelWellFormed(c) && Passes(c, ChannelTest(chn, output)) && Passes(c, ChannelTest(chn', output'))
    ensures chn == chn' && output == output'
  {
    ChannelAgrees(c, chn, output);
    ChannelAgrees(c, chn', output');
    assert |TypeOf(true)| != |TypeOf(false)|;
  }

  lemma ChannelAgrees(c: Node, chn: string, output: bool)
    requires Passes(c, ChannelTest(chn, output))
    ensures Agrees(c.props, "id", chn) && Agrees(c.props, "type", TypeOf(output))
  {
    assert Agrees(c.props, ["id", "type"][0], [chn, TypeOf(output)][0]);
    assert Agrees(c.props, ["id", "type"][1], [chn, TypeOf(output)][1]);
  }

  ghost predicate NeverAlias(root: Node) {
    forall a, b :: Locate(root, a).Found? && Locate(root, a) == Locate(root, b) ==> a == b
  }

  lemma WellFormedNeverAlias(root: Node)
    requires WellFormed(root)
    ensures NeverAlias(root)
  {
    hide Locate, WellFormed;
    forall a, b | Locate(root, a).Found? && Locate(root, a) == Locate(root, b)
      ensures a == b
    {
      DistinctKeysNeverAlias(root, a, b);
    }
  }

  /** A write changes no search. */
  lemma WriteKeepsSearches(root: Node, w: Key, v: string, key: Key)
    ensures Locate(WriteAt(root, w, v), key) == Locate(root, key)
  {
    hide Update, First, FirstN;
    if Locate(root, w).Found? {
      LocatedInTree(root, w);
      UpdateAlike(root, Locate(root, w).at, v);
      LocateAlike(root, WriteAt(root, w, v), key);
    }
  }

  /** A read after a write gives what was written; every other key reads as before. */
  lemma ReadAfterWrite(root: Node, w: Key, v: string, key: Key)
    requires NeverAlias(root)
    ensures ReadAt(WriteAt(root, w, v), key)
         == if key == w && Locate(root, w).Found? then Value(v) else ReadAt(root, key)
  {
    hide Locate, Update, NodeAt, InTree;
    WriteKeepsSearches(root, w, v, key);
    if Locate(root, w).Found? && Locate(root, key).Found? {
      var p, q := Locate(root, w).at, Locate(root, key).at;
      LocatedInTree(root, w);
      LocatedInTree(root, key);
      UpdateKeepsPlaces(root, p, v, q);
      if p == q {
        SetThenGet(NodeAt(root, p).props, "value", v);
      }
    }
  }

  // ---- runs of writes -----------------------------------------------------------------------------------------

  datatype Write = Write(key: Key, text: string)

  function AfterWrites(root: Node, ws: seq<Write>): Node {
    if ws == [] then root
    else
      var w := ws[|ws| - 1];
      WriteAt(AfterWrites(root, ws[..|ws| - 1]), w.key, w.text)
  }

  /** The flat map: the last text written under each key. */
  function LastTexts(ws: seq<Write>): map<Key, string> {
    if ws == [] then map[]
    else
      var w := ws[|ws| - 1];
      LastTexts(ws[..|ws| - 1])[w.key := w.text]
  }

  lemma {:induction false} WritesKeepSearches(root: Node, ws: seq<Write>, key: Key)
    ensures Locate(AfterWrites(root, ws), key) == Locate(root, key)
  {
    hide Locate;
    if ws != [] {
      var n := |ws| - 1;
      WritesKeepSearches(root, ws[..n], key);
      WriteKeepsSearches(AfterWrites(root, ws[..n]), ws[n].key, ws[n].text, key);
    }
  }

  lemma WritesNeverAlias(root: Node, ws: seq<Write>)
    requires NeverAlias(root)
    ensures NeverAlias(AfterWrites(root, ws))
  {
    hide Locate, AfterWrites;
    var now := AfterWrites(root, ws);
    forall a, b | Locate(now, a).Found? && Locate(now, a) == Locate(now, b)
      ensures a == b
    {
      WritesKeepSearches(root, ws, a);
      WritesKeepSearches(root, ws, b);
    }
  }

  /** After any run of writes the tree reads as a flat map laid over the original tree. */
  lemma {:induction false} TreeIsFlatMap(root: Node, ws: seq<Write>, key: Key)
    requires WellFormed(root)
    ensures ReadAt(AfterWrites(root, ws), key)
         == if Locate(root, key).Found? && key in LastTexts(ws) then Value(LastTexts(ws)[key]) else ReadAt(root, key)
  {
    hide Locate, ReadAt, WellFormed, NeverAlias;
    if ws != [] {
      var n := |ws| - 1;
      TreeIsFlatMap(root, ws[..n], key);
      WellFormedNeverAlias(root);
      WritesNeverAlias(root, ws[..n]);
      WritesKeepSearches(root, ws[..n], key);
      ReadAfterWrite(AfterWrites(root, ws[..n]), ws[n].key, ws[n].text, key);
    }
  }

  // ---- the operations ---------------------------------------------------------------------------------------------

  const NUL := '\0'

  /** q with the first n characters of v over its beginning; NUL follows v. */
  function Copied(q: seq<char>, v: string, n: nat): (r: seq<char>)
    requires n <= |q| && n <= |v| + 1
    ensures |r| == |q|
  {
    (v + [NUL])[..n] + q[n..]
  }

  /** NoSuchEntry is -ENOENT, Died a null pointer that is followed, and Overran a copy beyond the end
      of the caller's buffer, after which nothing more is said. */
  datatype Outcome = Count(n: nat) | NoSuchEntry | Died | Overran

  class Document {
    var root: Node

    constructor (r: Node)
      ensures root == r
    {
      root := r;
    }

    /** `getDeviceAttr`. */
    method GetDeviceAttr(dev: string, kind: Kind, attr: string) returns (r: Search<Path>)
      ensures r == Locate(root, OfDevice(dev, kind, attr))
    {
      var i := GetNode(root.children, "device", "id", dev);
      if i.None? {
        return NotFound;
      }
      var device := root.children[i.value];
      var k;
      match kind {
        case DeviceKind => k := GetNode(device.children, "attribute", "name", attr);
        case DebugKind => k := GetNode(device.children, "debug-attribute", "name", attr);
        case BufferKind => k := GetNode(device.children, "buffer-attribute", "name", attr);
      }
      r := if k.None? then NotFound else Found(InDevice(i.value, k.value));
    }

    /** `getChannelAttr`. */
    method GetChannelAttr(dev: string, chn: string, output: bool, attr: string) returns (r: Search<Path>)
      ensures r == Locate(root, OfChannel(dev, chn, output, attr))
    {
      var i := GetNode(root.children, "device", "id", dev);
      if i.None? {
        return NotFound;
      }
      var device := root.children[i.value];
      var j := GetNodeNAttrs(device.children, "channel", ["id", "type"], [chn, TypeOf(output)]);
      match j {
        case NullDereference => return NullDereference;
        case NotFound => return NotFound;
        case Found(_) =>
      }
      var k := GetNode(device.children[j.at].children, "attribute", "name", attr);
      r := if k.None? then NotFound else Found(InChannel(i.value, j.at, k.value));
    }

    method Find(key: Key) returns (r: Search<Path>)
      ensures r == Locate(root, key)
    {
      match key {
        case OfDevice(dev, kind, attr) => r := GetDeviceAttr(dev, kind, attr);
        case OfChannel(dev, chn, output, attr) => r := GetChannelAttr(dev, chn, output, attr);
      }
    }

    /** `read_device_attr` and `read_channel_attr`: the value goes to buf with its NUL, as far as
        len + 1 characters allow. A buffer of len characters is overrun by a value of that many. */
    method ReadAttr(key: Key, buf: array<char>, len: nat) returns (r: Outcome)
      modifies buf
      ensures r.Overran? <==> ReadAt(root, key).Value? && Min(|ReadAt(root, key).text|, len) >= buf.Length
      ensures buf.Length == len ==> (r.Overran? <==> ReadAt(root, key).Value? && |ReadAt(root, key).text| >= len)
      ensures match ReadAt(root, key) {
                case NoEntry => r == NoSuchEntry && buf[..] == old(buf[..])
                case Crash => r == Died && buf[..] == old(buf[..])
                case Value(v) =>
                  var n := Min(|v|, len) + 1;
                  n <= buf.Length ==>
                    && r == Count(n) && buf[..] == Copied(old(buf[..]), v, n)
                    && forall k :: 0 <= k < buf.Length ==>
                         buf[k] == if n <= k then old(buf[..])[k] else if k < |v| then v[k] else NUL
              }
    {
      hide Copied, Locate;
      var p := Find(key);
      match p {
        case NullDereference => return Died;
        case NotFound => return NoSuchEntry;
        case Found(_) =>
      }
      LocatedInTree(root, key);
      var value := Get(NodeAt(root, p.at).props, "value");
      if value.None? {
        return Died;
      }
      var n := Min(|value.value|, len) + 1;
      if n > buf.Length {
        return Overran;
      }
      CopyText(buf, value.value, n);
      CopiedAt(old(buf[..]), value.value, n);
      r := Count(n);
    }

    /** `write_dev_attr` and `write_channel_attr` of the text s. */
    method WriteAttr(key: Key, s: string, len: nat) returns (r: Outcome)
      modifies this
      ensures root == WriteAt(old(root), key, s)
      ensures r == match Locate(old(root), key) {
                     case NullDereference => Died
                     case NotFound => NoSuchEntry
                     case Found(_) => Count(Min(|s|, len) + 1)
                   }
    {
      var p := Find(key);
      match p {
        case NullDereference => return Died;
        case NotFound => return NoSuchEntry;
        case Found(_) =>
      }
      LocatedInTree(root, key);
      root := Update(root, p.at, s);
      r := Count(Min(|s|, len) + 1);
    }
  }

  method CopyText(buf: array<char>, v: string, n: nat)
    requires n <= buf.Length && n <= |v| + 1
    modifies buf
    ensures buf[..] == Copied(old(buf[..]), v, n)
  {
    ghost var q := buf[..];
    for i := 0 to n
      invariant buf[..] == Copied(q, v, i)
    {
      CopiedMore(q, v, i);
      buf[i] := if i < |v| then v[i] else NUL;
    }
  }

  lemma CopiedAt(q: seq<char>, v: string, n: nat)
    requires n <= |q| && n <= |v| + 1
    ensures var r := Copied(q, v, n);
            forall k :: 0 <= k < |q| ==> r[k] == if n <= k then q[k] else if k < |v| then v[k] else NUL
  {
  }

  lemma CopiedMore(q: seq<char>, v: string, i: nat)
    requires i < |q| && i <= |v|
    ensures Copied(q, v, i)[i := (v + [NUL])[i]] == Copied(q, v, i + 1)
  {
  }

  /** The C string at the beginning of buf, if there is one. */
  function Text(buf: seq<char>): Option<string> {
    if buf == [] then None
    else if buf[0] == NUL then Some("")
    else match Text(buf[1..]) case None => None case Some(t) => Some([buf[0]] + t)
  }

  /** A value of up to len characters comes back whole; of a longer one a prefix is copied, and no
      NUL after it. */
  lemma ReadsBackIfItFits(q: seq<char>, v: string, len: nat)
    requires NUL !in v && Min(|v|, len) < |q|
    ensures |v| <= len ==> Text(Copied(q, v, Min(|v|, len) + 1)) == Some(v)
    ensures NUL in Copied(q, v, Min(|v|, len) + 1)[..Min(|v|, len) + 1] <==> |v| <= len
  {
    var b := Copied(q, v, Min(|v|, len) + 1);
    if |v| <= len {
      assert b[..|v|] == v && b[|v|] == NUL;
      TextUpToNul(b, |v|);
    } else {
      assert b[..len + 1] == v[..len + 1];
    }
  }

  lemma {:induction false} TextUpToNul(b: seq<char>, n: nat)
    requires n < |b| && b[n] == NUL && NUL !in b[..n]
    ensures Text(b) == Some(b[..n])
  {
    if n > 0 {
      assert b[0] == b[..n][0] && b[1..][..n - 1] == b[..n][1..];
      TextUpToNul(b[1..], n - 1);
      assert [b[0]] + b[1..][..n - 1] == b[..n];
    }
  }
}
