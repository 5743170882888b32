/** What `getXml` does to the document that it sends to a client: the current values are stripped
    from the tree, and line breaks and repeated spaces from its text. */
module XmlExport {
  import opened XmlStore

  // ---- stripping the values ----------------------------------------------------------------------

  /** props without the first `value`. */
  function StripProps(props: seq<Prop>): seq<Prop> {
    if props == [] then []
    else if props[0].name == "value" then props[1..]
    else [props[0]] + StripProps(props[1..])
  }

  function Strip(n: Node): Node
    decreases n
  {
    Node(n.name, if n.name != "context-attribute" then StripProps(n.props) else n.props, StripAll(n.children))
  }

  function StripAll(nodes: seq<Node>): (r: seq<Node>)
    decreases nodes
  {
    if nodes == [] then [] else [Strip(nodes[0])] + StripAll(nodes[1..])
  }

  /** `removeValueAttribute` of the first of these siblings: its children, its later siblings, and
      then the node itself. */
  method RemoveValueAttribute(nodes: seq<Node>) returns (r: seq<Node>)
    ensures r == StripAll(nodes)
    decreases nodes
  {
    if nodes == [] {
      return [];
    }
    var node := nodes[0];
    var children := RemoveValueAttribute(node.children);
    var next := RemoveValueAttribute(nodes[1..]);
    var props := node.props;
    if node.name != "context-attribute" {
      props := RemoveFirstValue(props);
    }
    r := [Node(node.name, props, children)] + next;
  }

  method RemoveFirstValue(props: seq<Prop>) returns (r: seq<Prop>)
    ensures r == StripProps(props)
  {
    for a := 0 to |props|
      invariant StripProps(props) == props[..a] + StripProps(props[a..])
    {
      assert props[a..][0] == props[a] && props[a..][1..] == props[a + 1..];
      if props[a].name == "value" {
        return props[..a] + props[a + 1..];
      }
      assert props[..a] + [props[a]] == props[..a + 1];
    }
    assert props[..|props|] == props && props[|props|..] == [];
    r := props;
  }

  /** props without every `value`. */
  function WithoutValue(props: seq<Prop>): seq<Prop> {
    if props == [] then []
    else if props[0].name == "value" then WithoutValue(props[1..])
    else [props[0]] + WithoutValue(props[1..])
  }

  ghost predicate TagsUnique(n: Node)
    decreases n
  {
    UniqueAttributes(n.props) && forall k :: 0 <= k < |n.children| ==> TagsUnique(n.children[k])
  }

  /** b is a but for the values, which are gone everywhere except on context attributes. */
  ghost predicate OnlyValuesGone(a: Node, b: Node)
    decreases a
  {
    && b.name == a.name
    && b.props == (if a.name == "context-attribute" then a.props else WithoutValue(a.props))
    && |b.children| == |a.children|
    && forall k :: 0 <= k < |a.children| ==> OnlyValuesGone(a.children[k], b.children[k])
  }

  lemma {:induction false} StripAllAt(nodes: seq<Node>)
    ensures |StripAll(nodes)| == |nodes| && forall k :: 0 <= k < |nodes| ==> StripAll(nodes)[k] == Strip(nodes[k])
  {
    if nodes != [] {
      StripAllAt(nodes[1..]);
    }
  }

  lemma {:induction false} NothingToRemove(props: seq<Prop>)
    requires forall p :: p in props ==> p.name != "value"
    ensures StripProps(props) == props && WithoutValue(props) == props
  {
    if props != [] {
      assert props[0] in props;
      assert forall p :: p in props[1..] ==> p in props;
      NothingToRemove(props[1..]);
    }
  }

  lemma {:induction false} StripPropsIsAll(props: seq<Prop>)
    requires UniqueAttributes(props)
    ensures StripProps(props) == WithoutValue(props)
  {
    if props != [] {
      var rest := props[1..];
      assert forall k :: 0 <= k < |rest| ==> rest[k] == props[k + 1];
      if props[0].name == "value" {
        NothingToRemove(rest);
      } else {
        StripPropsIsAll(rest);
      }
    }
  }

  /** Stripping takes every value but those of context attributes, and nothing else. */
  lemma {:induction false} StripIsExact(n: Node)
    requires TagsUnique(n)
    ensures OnlyValuesGone(n, Strip(n))
    decreases n
  {
    StripPropsIsAll(n.props);
    StripAllAt(n.children);
    hide StripProps, WithoutValue, StripAll;
    forall k | 0 <= k < |n.children|
      ensures OnlyValuesGone(n.children[k], Strip(n).children[k])
    {
      StripIsExact(n.children[k]);
    }
  }

  lemma {:induction false} WithoutValueKeeps(props: seq<Prop>, p: Prop)
    ensures p in WithoutValue(props) <==> p in props && p.name != "value"
  {
    if props != [] {
      assert p in props <==> p == props[0] || p in props[1..];
      WithoutValueKeeps(props[1..], p);
    }
  }

  lemma GoneAlike(a: Node, b: Node)
    requires OnlyValuesGone(a, b)
    ensures Alike(a, b)
  {
    forall p: Prop | p.name != "value"
      ensures p in a.props <==> p in b.props
    {
      WithoutValueKeeps(a.props, p);
    }
  }

  lemma ChildrenGoneAlike(a: Node, b: Node)
    requires OnlyValuesGone(a, b)
    ensures AllAlike(a.children, b.children)
  {
    hide Alike;
    forall k | 0 <= k < |a.children|
      ensures Alike(a.children[k], b.children[k])
    {
      GoneAlike(a.children[k], b.children[k]);
    }
  }

  /** Whatever a client finds in the stripped document is at the same place in the document that
      keeps the values. */
  lemma StripKeepsSearches(root: Node, key: Key)
    requires TagsUnique(root)
    ensures Locate(Strip(root), key) == Locate(root, key)
  {
    StripIsExact(root);
    var b := Strip(root);
    ChildrenGoneAlike(root, b);
    hide AllAlike, Strip;
    forall i | 0 <= i < |root.children|
      ensures DevicesAlike(root.children[i], b.children[i])
    {
      ChildrenGoneAlike(root.children[i], b.children[i]);
      forall j | 0 <= j < |root.children[i].children|
        ensures AllAlike(root.children[i].children[j].children, b.children[i].children[j].children)
      {
        ChildrenGoneAlike(root.children[i].children[j], b.children[i].children[j]);
      }
    }
    LocateAlike(root, b, key);
  }

  // ---- the text -----------------------------------------------------------------------------------

  function WithoutNewlines(s: string): string {
    if s == "" then ""
    else
      var n := |s| - 1;
      WithoutNewlines(s[..n]) + (if s[n] == '\n' then "" else [s[n]])
  }

  /** A space is dropped when the last character kept so far is a space too. */
  function Squeezed(s: string): (r: string)
    ensures s == "" <==> r == ""
  {
    if |s| <= 1 then s
    else
      var n := |s| - 1;
      var t := Squeezed(s[..n]);
      if s[n] == ' ' && t[|t| - 1] == ' ' then t else t + [s[n]]
  }

  function Normalised(s: string): string {
    Squeezed(WithoutNewlines(s))
  }

  /** The text pass of `getXml`: `std::remove` and then `std::unique` for spaces. */
  method NormaliseText(s: string) returns (r: string)
    ensures r == Normalised(s)
  {
    var t := "";
    for k := 0 to |s|
      invariant t == WithoutNewlines(s[..k])
    {
      assert s[..k + 1][..k] == s[..k];
      if s[k] != '\n' {
        t := t + [s[k]];
      }
    }
    assert s[..|s|] == s;
    r := "";
    for k := 0 to |t|
      invariant r == Squeezed(t[..k])
    {
      assert t[..k + 1][..k] == t[..k];
      if r == "" || !(r[|r| - 1] == t[k] && r[|r| - 1] == ' ') {
        r := r + [t[k]];
      }
    }
    assert t[..|t|] == t;
  }

  predicate Repeats(s: string, k: nat)
    requires k < |s|
  {
    k > 0 && s[k] == ' ' && s[k - 1] == ' '
  }

  /** The characters of s that are not a space after a space. */
  function Kept(s: string, n: nat): string
    requires n <= |s|
  {
    if n == 0 then "" else Kept(s, n - 1) + (if Repeats(s, n - 1) then "" else [s[n - 1]])
  }

  lemma {:induction false} KeptOfPrefix(s: string, m: nat, n: nat)
    requires n <= m <= |s|
    ensures Kept(s[..m], n) == Kept(s, n)
  {
    if n > 0 {
      KeptOfPrefix(s, m, n - 1);
    }
  }

  /** Comparing with the last character kept drops the same spaces as comparing with the character
      before. */
  lemma {:induction false} SqueezedIsKept(s: string)
    ensures Squeezed(s) == Kept(s, |s|)
    ensures s != "" ==> Squeezed(s)[|Squeezed(s)| - 1] == s[|s| - 1]
  {
    if |s| == 1 {
      assert Kept(s, 1) == Kept(s, 0) + [s[0]];
    } else if |s| > 1 {
      var n := |s| - 1;
      SqueezedIsKept(s[..n]);
      KeptOfPrefix(s, n, n);
      assert Kept(s, n + 1) == Kept(s, n) + if Repeats(s, n) then "" else [s[n]];
      hide Kept;
      var t := Squeezed(s[..n]);
      assert Squeezed(s) == if s[n] == ' ' && t[|t| - 1] == ' ' then t else t + [s[n]];
      hide Squeezed;
      assert t[|t| - 1] == s[..n][n - 1] == s[n - 1];
    }
  }

  lemma {:induction false} WithoutNewlinesConcat(s: string, t: string)
    ensures WithoutNewlines(s + t) == WithoutNewlines(s) + WithoutNewlines(t)
  {
    if t == "" {
      assert s + t == s;
    } else {
      var n := |t| - 1;
      WithoutNewlinesConcat(s, t[..n]);
      assert (s + t)[..|s| + n] == s + t[..n];
    }
  }

  lemma LoneLineBreak(s: string)
    requires |s| == 1 && s[0] == '\n'
    ensures WithoutNewlines(s) == ""
  {
    assert s[..0] == "";
  }

  /** A line break goes and leaves nothing in its place; the line in front of it stays as it is. */
  lemma LineBreakGoes(line: string, rest: string)
    requires '\n' !in line
    ensures WithoutNewlines(line + "\n" + rest) == line + WithoutNewlines(rest)
  {
    hide WithoutNewlines;
    NoNewlinesLeft(line);
    var br := "\n";
    LoneLineBreak(br);
    assert WithoutNewlines(line + br) == line by {
      WithoutNewlinesConcat(line, br);
      assert line + "" == line;
    }
    WithoutNewlinesConcat(line + br, rest);
  }

  /** Every other character, a space included, stays as often as it was. */
  lemma {:induction false} OnlyNewlinesGo(s: string, c: char)
    requires c != '\n'
    ensures multiset(WithoutNewlines(s))[c] == multiset(s)[c]
  {
    if s != "" {
      var n := |s| - 1;
      OnlyNewlinesGo(s[..n], c);
      assert s == s[..n] + [s[n]];
    }
  }

  lemma {:induction false} NoNewlinesLeft(s: string)
    ensures '\n' !in WithoutNewlines(s)
    ensures '\n' !in s ==> WithoutNewlines(s) == s
  {
    if s != "" {
      var n := |s| - 1;
      NoNewlinesLeft(s[..n]);
      assert s == s[..n] + [s[n]];
    }
  }

  predicate NoRepeats(s: string) {
    forall k :: 0 <= k < |s| ==> !Repeats(s, k)
  }

  predicate IsNormal(s: string) {
    '\n' !in s && NoRepeats(s)
  }

  lemma NoRepeatsMore(t: string, c: char)
    requires NoRepeats(t) && (t == "" || !(c == ' ' && t[|t| - 1] == ' '))
    ensures NoRepeats(t + [c])
  {
    forall k | 0 <= k <= |t|
      ensures !Repeats(t + [c], k)
    {
      assert k < |t| ==> Repeats(t + [c], k) == Repeats(t, k);
    }
  }

  lemma {:induction false} NoRepeatsLeft(s: string)
    ensures NoRepeats(Squeezed(s))
  {
    if |s| > 1 {
      hide NoRepeats;
      var n := |s| - 1;
      NoRepeatsLeft(s[..n]);
      var t := Squeezed(s[..n]);
      if !(s[n] == ' ' && t[|t| - 1] == ' ') {
        NoRepeatsMore(t, s[n]);
      }
    }
  }

  lemma {:induction false} NothingToSqueeze(s: string)
    requires NoRepeats(s)
    ensures Squeezed(s) == s
  {
    if |s| > 1 {
      var n := |s| - 1;
      forall k | 0 <= k < n
        ensures !Repeats(s[..n], k)
      {
        assert Repeats(s[..n], k) == Repeats(s, k);
      }
      NothingToSqueeze(s[..n]);
      assert !Repeats(s, n) && s[..n][n - 1] == s[n - 1];
      assert s == s[..n] + [s[n]];
    }
  }

  lemma {:induction false} SqueezedFrom(s: string, c: char)
    requires c in Squeezed(s)
    ensures c in s
  {
    if |s| > 1 {
      var n := |s| - 1;
      if c in Squeezed(s[..n]) {
        SqueezedFrom(s[..n], c);
      }
      assert s == s[..n] + [s[n]];
    }
  }

  /** The text pass gives a text without line breaks and repeated spaces, and changes exactly the
      texts that are not like this already; so doing it twice is doing it once. */
  lemma NormalisedIsNormal(s: string)
    ensures IsNormal(Normalised(s))
    ensures Normalised(s) == s <==> IsNormal(s)
    ensures Normalised(Normalised(s)) == Normalised(s)
  {
    NoNewlinesLeft(s);
    NoRepeatsLeft(WithoutNewlines(s));
    if '\n' in Normalised(s) {
      SqueezedFrom(WithoutNewlines(s), '\n');
    }
    hide Squeezed, WithoutNewlines;
    if IsNormal(s) {
      IsNormalUnchanged(s);
    }
    IsNormalUnchanged(Normalised(s));
  }

  lemma IsNormalUnchanged(s: string)
    requires IsNormal(s)
    ensures Normalised(s) == s
  {
    NoNewlinesLeft(s);
    NothingToSqueeze(s);
  }

  /** The characters other than spaces and line breaks. */
  function Visible(s: string): string {
    if s == "" then ""
    else
      var n := |s| - 1;
      Visible(s[..n]) + (if s[n] == ' ' || s[n] == '\n' then "" else [s[n]])
  }

  /** Every other character stays, in order. */
  lemma NormalisedKeepsTheRest(s: string)
    ensures Visible(Normalised(s)) == Visible(s)
  {
    VisibleWithoutNewlines(s);
    VisibleSqueezed(WithoutNewlines(s));
  }

  lemma {:induction false} VisibleWithoutNewlines(s: string)
    ensures Visible(WithoutNewlines(s)) == Visible(s)
  {
    if s != "" {
      var n := |s| - 1;
      VisibleWithoutNewlines(s[..n]);
      VisibleMore(WithoutNewlines(s[..n]), s[n]);
      VisibleMore(s[..n], s[n]);
      assert s == s[..n] + [s[n]];
      assert s[n] == '\n' ==> WithoutNewlines(s) == WithoutNewlines(s[..n]);
    }
  }

  lemma VisibleMore(s: string, c: char)
    ensures Visible(s + [c]) == Visible(s) + (if c == ' ' || c == '\n' then "" else [c])
  {
    assert (s + [c])[..|s|] == s;
  }

  lemma {:induction false} VisibleSqueezed(s: string)
    ensures Visible(Squeezed(s)) == Visible(s)
  {
    if |s| <= 1 {
      assert Squeezed(s) == s;
    } else {
      var n := |s| - 1;
      VisibleSqueezed(s[..n]);
      VisibleMore(Squeezed(s[..n]), s[n]);
      assert s[n] == ' ' ==> Visible(s) == Visible(s[..n]);
    }
  }
}
