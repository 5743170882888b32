/** Which node of a document a client's key addresses, and which text is read from it and written to it. */
module XmlAddresses {
  import opened Basics
  import opened XmlStore

  predicate IsDevice(n: Node, id: string) {
    n.name == "device" && Prop("id", id) in n.props
  }

  predicate IsChannel(n: Node, id: string, output: bool) {
    n.name == "channel" && Prop("id", id) in n.props && Prop("type", if output then "output" else "input") in n.props
  }

  predicate IsAttribute(n: Node, tag: string, name: string) {
    n.name == tag && Prop("name", name) in n.props
  }

  predicate IsDeviceAttribute(n: Node, kind: Kind, name: string) {
    match kind
    case DeviceKind => IsAttribute(n, "attribute", name)
    case DebugKind => IsAttribute(n, "debug-attribute", name)
    case BufferKind => IsAttribute(n, "buffer-attribute", name)
  }

  /** The node at p is the one that the key names. */
  predicate IsAt(root: Node, key: Key, p: Path) {
    && InTree(root, p) && IsDevice(root.children[p.i], key.dev)
    && match key
       case OfDevice(_, kind, attr) =>
         p.InDevice? && IsDeviceAttribute(root.children[p.i].children[p.k], kind, attr)
       case OfChannel(_, chn, output, attr) =>
         p.InChannel? && var c := root.children[p.i].children[p.j];
                         IsChannel(c, chn, output) && IsAttribute(c.children[p.k], "attribute", attr)
  }

  /** No two devices share an id, no two channels of a device an id and a direction, and no two attributes of
      a device or a channel a tag and a name. */
  ghost predicate Distinct(root: Node) {
    && DistinctDevices(root.children)
    && forall i :: 0 <= i < |root.children| ==>
         && DistinctChannels(root.children[i].children) && DistinctAttributes(root.children[i].children)
         && forall j :: 0 <= j < |root.children[i].children| ==>
              DistinctAttributes(root.children[i].children[j].children)
  }

  ghost predicate DistinctDevices(nodes: seq<Node>) {
    forall i, j, id ::
      0 <= i < |nodes| && 0 <= j < |nodes| && IsDevice(nodes[i], id) && IsDevice(nodes[j], id) ==> i == j
  }

  ghost predicate DistinctChannels(nodes: seq<Node>) {
    forall i, j, id, output ::
      0 <= i < |nodes| && 0 <= j < |nodes| && IsChannel(nodes[i], id, output) && IsChannel(nodes[j], id, output)
      ==> i == j
  }

  ghost predicate DistinctAttributes(nodes: seq<Node>) {
    forall i, j, tag, name ::
      0 <= i < |nodes| && 0 <= j < |nodes| && IsAttribute(nodes[i], tag, name) && IsAttribute(nodes[j], tag, name)
      ==> i == j
  }

  // ---- the searches -------------------------------------------------------------------------------

  lemma DeviceFirst(nodes: seq<Node>, id: string, k: nat)
    requires DistinctDevices(nodes)
    ensures First(nodes, DeviceTest(id)) == Some(k) <==> k < |nodes| && IsDevice(nodes[k], id)
  {
    var r := First(nodes, DeviceTest(id));
    assert forall j :: 0 <= j < |nodes| ==> (Passes(nodes[j], DeviceTest(id)) <==> IsDevice(nodes[j], id));
    hide First, Passes, IsDevice;
  }

  lemma AttributeFirst(nodes: seq<Node>, tag: string, name: string, k: nat)
    requires DistinctAttributes(nodes)
    ensures First(nodes, AttrTest(tag, name)) == Some(k) <==> k < |nodes| && IsAttribute(nodes[k], tag, name)
  {
    var r := First(nodes, AttrTest(tag, name));
    assert forall j :: 0 <= j < |nodes| ==>
             (Passes(nodes[j], AttrTest(tag, name)) <==> IsAttribute(nodes[j], tag, name));
    hide First, Passes, IsAttribute;
  }

  lemma ChannelPasses(c: Node, id: string, output: bool)
    requires UniqueAttributes(c.props) && (c.name == "channel" ==> ChannelWellFormed(c))
    ensures Passes(c, ChannelTest(id, output)) <==> IsChannel(c, id, output)
  {
    if Passes(c, ChannelTest(id, output)) {
      ChannelAgrees(c, id, output);
    } else if IsChannel(c, id, output) {
      assert AllAgree(c.props, ["id", "type"], [id, TypeOf(output)]);
    }
  }

  lemma ChannelFirst(nodes: seq<Node>, id: string, output: bool, k: nat)
    requires DistinctChannels(nodes)
    requires forall j :: 0 <= j < |nodes| ==>
               UniqueAttributes(nodes[j].props) && (nodes[j].name == "channel" ==> ChannelWellFormed(nodes[j]))
    ensures First(nodes, ChannelTest(id, output)) == Some(k) <==> k < |nodes| && IsChannel(nodes[k], id, output)
  {
    var r := First(nodes, ChannelTest(id, output));
    forall j | 0 <= j < |nodes| ensures Passes(nodes[j], ChannelTest(id, output)) <==> IsChannel(nodes[j], id, output) {
      ChannelPasses(nodes[j], id, output);
    }
    hide First, Passes, IsChannel;
  }

  lemma DeviceKeyFound(root: Node, dev: string, kind: Kind, attr: string, p: Path)
    requires Distinct(root)
    ensures Locate(root, OfDevice(dev, kind, attr)) == Found(p) <==> IsAt(root, OfDevice(dev, kind, attr), p)
  {
    DeviceFirst(root.children, dev, p.i);
    var r := First(root.children, DeviceTest(dev));
    hide Distinct, First, IsDevice, DeviceTest, AttrTest, IsAttribute;
    if r == Some(p.i) {
      DistinctInside(root, p.i);
      var n := if p.InDevice? then p.k else 0;
      AttributeFirst(root.children[p.i].children, TagOf(kind), attr, n);
    }
  }

  lemma DistinctInside(root: Node, i: nat)
    requires Distinct(root) && i < |root.children|
    ensures var nodes := root.children[i].children;
            && DistinctChannels(nodes) && DistinctAttributes(nodes)
            && forall j :: 0 <= j < |nodes| ==> DistinctAttributes(nodes[j].children)
  {
  }

  lemma ChannelsInside(root: Node, i: nat, id: string, output: bool, j: nat)
    requires WellFormed(root) && Distinct(root) && i < |root.children|
    ensures var nodes := root.children[i].children;
            First(nodes, ChannelTest(id, output)) == Some(j) <==> j < |nodes| && IsChannel(nodes[j], id, output)
  {
    assert DeviceWellFormed(root.children[i]);
    DistinctInside(root, i);
    hide First, IsChannel, Distinct;
    ChannelFirst(root.children[i].children, id, output, j);
  }

  lemma ChannelKeyFound(root: Node, dev: string, chn: string, output: bool, attr: string, p: Path)
    requires WellFormed(root) && Distinct(root)
    ensures Locate(root, OfChannel(dev, chn, output, attr)) == Found(p)
            <==> IsAt(root, OfChannel(dev, chn, output, attr), p)
  {
    DeviceFirst(root.children, dev, p.i);
    var r := First(root.children, DeviceTest(dev));
    hide Distinct, WellFormed, First, IsDevice, IsChannel, DeviceTest, ChannelTest, AttrTest, IsAttribute;
    if r == Some(p.i) && p.InChannel? {
      var nodes := root.children[p.i].children;
      ChannelsInside(root, p.i, chn, output, p.j);
      if First(nodes, ChannelTest(chn, output)) == Some(p.j) {
        DistinctInside(root, p.i);
        AttributeFirst(nodes[p.j].children, "attribute", attr, p.k);
      }
    }
  }

  /** A key is found exactly at the node that it names. */
  lemma FoundExactly(root: Node, key: Key, p: Path)
    requires WellFormed(root) && Distinct(root)
    ensures Locate(root, key) == Found(p) <==> IsAt(root, key, p)
  {
    hide *;
    match key
    case OfDevice(dev, kind, attr) => DeviceKeyFound(root, dev, kind, attr, p);
    case OfChannel(dev, chn, output, attr) => ChannelKeyFound(root, dev, chn, output, attr, p);
  }

  /** It is not found exactly when no node is the one. */
  lemma NotFoundExactly(root: Node, key: Key)
    requires WellFormed(root) && Distinct(root)
    ensures Locate(root, key).Found? <==> exists p :: IsAt(root, key, p)
  {
    hide Locate, IsAt, WellFormed, Distinct;
    if Locate(root, key).Found? {
      FoundExactly(root, key, Locate(root, key).at);
    } else {
      forall p ensures !IsAt(root, key, p) {
        FoundExactly(root, key, p);
      }
    }
  }

  /** Past the end: the device has no such channel and ends with one. */
  predicate EndsInVain(nodes: seq<Node>, chn: string, output: bool) {
    && nodes != [] && nodes[|nodes| - 1].name == "channel"
    && forall j :: 0 <= j < |nodes| ==> !IsChannel(nodes[j], chn, output)
  }

  lemma ChannelSearchInVain(root: Node, i: nat, chn: string, output: bool)
    requires WellFormed(root) && Distinct(root) && i < |root.children|
    ensures FirstN(root.children[i].children, ChannelTest(chn, output)).NullDereference?
            <==> EndsInVain(root.children[i].children, chn, output)
  {
    var nodes, t := root.children[i].children, ChannelTest(chn, output);
    assert t.tag == "channel" && (First(nodes, t).Some? ==> First(nodes, t).value < |nodes|);
    hide Distinct, WellFormed, First, IsChannel, ChannelTest;
    forall j | 0 <= j < |nodes|
      ensures First(nodes, t) == Some(j) <==> IsChannel(nodes[j], chn, output)
    {
      ChannelsInside(root, i, chn, output, j);
    }
  }

  /** The search follows a null pointer exactly when it runs past the end of the device's children. */
  lemma NullFollowedExactly(root: Node, dev: string, chn: string, output: bool, attr: string)
    requires WellFormed(root) && Distinct(root)
    ensures Locate(root, OfChannel(dev, chn, output, attr)).NullDereference? <==>
              exists i :: 0 <= i < |root.children| && IsDevice(root.children[i], dev)
                          && EndsInVain(root.children[i].children, chn, output)
  {
    var r := First(root.children, DeviceTest(dev));
    assert DistinctDevices(root.children) && (r.Some? ==> r.value < |root.children|);
    hide Distinct, WellFormed, First, FirstN, IsDevice, EndsInVain, DeviceTest, ChannelTest, AttrTest;
    forall i | 0 <= i < |root.children|
      ensures r == Some(i) <==> IsDevice(root.children[i], dev)
    {
      DeviceFirst(root.children, dev, i);
    }
    if r.Some? {
      ChannelSearchInVain(root, r.value, chn, output);
    }
  }

  // ---- the values ---------------------------------------------------------------------------------

  lemma {:induction false} GetIsThere(props: seq<Prop>, name: string, v: string)
    requires UniqueAttributes(props)
    ensures Get(props, name) == Some(v) <==> Prop(name, v) in props
  {
    if props != [] {
      assert Prop(name, v) in props <==> props[0] == Prop(name, v) || Prop(name, v) in props[1..];
      GetIsThere(props[1..], name, v);
    }
  }

  lemma {:induction false} SetIsThere(props: seq<Prop>, name: string, v: string, w: string)
    requires UniqueAttributes(props)
    ensures Prop(name, w) in Set(props, name, v) <==> w == v
  {
    if props != [] {
      if props[0].name != name {
        SetIsThere(props[1..], name, v, w);
      } else {
        assert forall k :: 0 < k < |props| ==> props[k].name != name;
      }
    }
  }

  lemma NamedOnce(root: Node, key: Key, p: Path)
    requires WellFormed(root) && IsAt(root, key, p)
    ensures UniqueAttributes(NodeAt(root, p).props)
  {
    var d := root.children[p.i];
    assert DeviceWellFormed(d);
    if p.InChannel? {
      assert ChannelWellFormed(d.children[p.j]);
    }
  }

  /** What is read under a key is the `value` of the node that it names. */
  lemma ReadsTheValue(root: Node, key: Key, p: Path, v: string)
    requires WellFormed(root) && Distinct(root) && IsAt(root, key, p)
    ensures InTree(root, p)
    ensures ReadAt(root, key) == Value(v) <==> Prop("value", v) in NodeAt(root, p).props
  {
    FoundExactly(root, key, p);
    NamedOnce(root, key, p);
    hide Locate, WellFormed, Distinct, NodeAt;
    GetIsThere(NodeAt(root, p).props, "value", v);
  }

  /** A write gives this node that `value` and keeps its other attributes and those of all other nodes. */
  lemma WritesTheValue(root: Node, key: Key, p: Path, v: string, q: Path, a: Prop)
    requires WellFormed(root) && Distinct(root) && IsAt(root, key, p) && InTree(root, q)
    ensures var root' := WriteAt(root, key, v);
            && InTree(root', q)
            && if p == q && a.name == "value" then a in NodeAt(root', q).props <==> a.content == v
               else a in NodeAt(root', q).props <==> a in NodeAt(root, q).props
  {
    FoundExactly(root, key, p);
    NamedOnce(root, key, p);
    hide Locate, WellFormed, Distinct, IsAt, NodeAt, InTree, Update, UniqueAttributes;
    UpdateKeepsPlaces(root, p, v, q);
    var props := NodeAt(root, p).props;
    if a.name == "value" {
      SetIsThere(props, "value", v, a.content);
    } else {
      SetKeepsOthers(props, "value", v, a);
    }
  }
}
