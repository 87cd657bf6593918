/** ChildNodePart: a range of sibling nodes between two marker comments, and groups of such parts
    under one parent. */
module Parts {

  class Node {
    const text: string

    constructor (text: string)
      ensures this.text == text
    {
      this.text := text;
    }
  }

  type Nodes = seq<Node>

  /** A primitive and what `String` makes of it; `kind` tells 1 from "1". */
  datatype Primitive = Primitive(kind: nat, text: string)

  /** Values that can be set, as far as `===` tells them apart: arrays by reference. */
  datatype Value = Null | Undefined | One(item: Primitive) | Many(id: nat, items: seq<Primitive>)

  /** A value, or the fragment with a copy of the initial content. */
  datatype Content = Initial | Given(value: Value)

  /** The texts of the nodes that show a value. */
  function Rendering(v: Value): seq<string> {
    match v
    case Null => []
    case Undefined => []
    case One(item) => [item.text]
    case Many(_, items) => Texts(items)
  }

  function Texts(items: seq<Primitive>): seq<string> {
    if items == [] then [] else Texts(items[..|items| - 1]) + [items[|items| - 1].text]
  }

  /** Text nodes with these texts. */
  ghost predicate Shows(nodes: Nodes, texts: seq<string>) {
    |nodes| == |texts| && forall i :: 0 <= i < |nodes| ==> nodes[i].text == texts[i]
  }

  /** Nothing for null and undefined, one text node for a primitive, and one for each item of an array, in
      the order of the items. */
  ghost predicate ShowsValue(nodes: Nodes, v: Value) {
    && (v.Null? || v.Undefined? ==> nodes == [])
    && (v.One? ==> |nodes| == 1 && nodes[0].text == v.item.text)
    && (v.Many? ==> |nodes| == |v.items| && forall i :: 0 <= i < |nodes| ==> nodes[i].text == v.items[i].text)
  }

  lemma {:induction false} TextsAre(items: seq<Primitive>)
    ensures |Texts(items)| == |items| && forall i :: 0 <= i < |items| ==> Texts(items)[i] == items[i].text
  {
    if items != [] { TextsAre(items[..|items| - 1]); }
  }

  lemma RenderingIs(nodes: Nodes, v: Value)
    ensures Shows(nodes, Rendering(v)) <==> ShowsValue(nodes, v)
  {
    if v.Many? { TextsAre(v.items); }
  }

  ghost function IndexOf(c: Nodes, n: Node): (k: nat)
    requires n in c
    ensures k < |c| && c[k] == n
  {
    var k :| 0 <= k < |c| && c[k] == n; k
  }

  /** No node is there twice. */
  ghost predicate Distinct(c: Nodes) {
    forall k :: 0 <= k < |c| ==> IndexOf(c, c[k]) == k
  }

  lemma IndexIs(c: Nodes, k: nat)
    requires Distinct(c) && k < |c|
    ensures IndexOf(c, c[k]) == k
  {
  }

  /** Both markers are there, in order. */
  ghost predicate Marked(c: Nodes, s: Node, e: Node) {
    s in c && e in c && IndexOf(c, s) < IndexOf(c, e)
  }

  /** What lies between the markers. */
  ghost function Between(c: Nodes, s: Node, e: Node): Nodes
    requires Marked(c, s, e)
  {
    c[IndexOf(c, s) + 1..IndexOf(c, e)]
  }

  /** The list with other nodes between the markers. */
  ghost function Splice(c: Nodes, s: Node, e: Node, nodes: Nodes): Nodes
    requires Marked(c, s, e)
  {
    c[..IndexOf(c, s) + 1] + nodes + c[IndexOf(c, e)..]
  }

  /** One range ends before the other begins. */
  ghost predicate Apart(c: Nodes, s: Node, e: Node, s': Node, e': Node) {
    && Marked(c, s, e) && Marked(c, s', e')
    && (IndexOf(c, e) < IndexOf(c, s') || IndexOf(c, e') < IndexOf(c, s))
  }

  ghost predicate NoneIn(nodes: Nodes, c: Nodes) {
    forall i :: 0 <= i < |nodes| ==> nodes[i] !in c
  }

  /** Where a node outside the range is afterwards. */
  ghost function Shifted(c: Nodes, s: Node, e: Node, nodes: Nodes, k: nat): int
    requires Marked(c, s, e)
  {
    if k <= IndexOf(c, s) then k else k + |nodes| + 1 - (IndexOf(c, e) - IndexOf(c, s))
  }

  lemma SpliceDistinct(c: Nodes, s: Node, e: Node, nodes: Nodes)
    requires Distinct(c) && Marked(c, s, e) && Distinct(nodes) && NoneIn(nodes, c)
    ensures Distinct(Splice(c, s, e, nodes))
  {
    var a, b := c[..IndexOf(c, s) + 1], c[IndexOf(c, e)..];
    assert forall i :: 0 <= i < |b| ==> b[i] == c[IndexOf(c, e) + i];
  }

  lemma SpliceMoves(c: Nodes, s: Node, e: Node, nodes: Nodes, n: Node)
    requires Distinct(c) && Marked(c, s, e) && Distinct(nodes) && NoneIn(nodes, c)
    requires n in c && (IndexOf(c, n) <= IndexOf(c, s) || IndexOf(c, e) <= IndexOf(c, n))
    ensures n in Splice(c, s, e, nodes)
    ensures IndexOf(Splice(c, s, e, nodes), n) == Shifted(c, s, e, nodes, IndexOf(c, n))
  {
    var c', k := Splice(c, s, e, nodes), Shifted(c, s, e, nodes, IndexOf(c, n));
    assert c'[k] == n;
    SpliceDistinct(c, s, e, nodes);
    IndexIs(c', k);
  }

  /** The range itself holds the new nodes. */
  lemma SpliceShows(c: Nodes, s: Node, e: Node, nodes: Nodes)
    requires Distinct(c) && Marked(c, s, e) && Distinct(nodes) && NoneIn(nodes, c)
    ensures Marked(Splice(c, s, e, nodes), s, e) && Between(Splice(c, s, e, nodes), s, e) == nodes
  {
    SpliceMoves(c, s, e, nodes, s);
    SpliceMoves(c, s, e, nodes, e);
  }

  lemma BetweenKept(c: Nodes, i: nat, j: nat, nodes: Nodes, a: nat, b: nat)
    requires i < j < |c| && a < b < |c| && (b < i || j < a)
    ensures var c', d := c[..i + 1] + nodes + c[j..], if b < i then 0 else |nodes| + 1 - (j - i);
            0 <= a + d < b + d < |c'| && c'[a + d + 1..b + d] == c[a + 1..b]
  {
  }

  lemma Cleared(c: Nodes, s: Node, e: Node)
    requires Distinct(c) && Marked(c, s, e)
    ensures var c1 := Splice(c, s, e, []); Distinct(c1) && e in c1 && IndexOf(c1, e) == IndexOf(c, s) + 1
  {
    SpliceDistinct(c, s, e, []);
    SpliceMoves(c, s, e, [], e);
  }

  lemma Refilled(c: Nodes, c1: Nodes, c2: Nodes, s: Node, e: Node, nodes: Nodes, v: Value)
    requires Distinct(c) && Marked(c, s, e) && Distinct(nodes) && NoneIn(nodes, c) && Shows(nodes, Rendering(v))
    requires c1 == Splice(c, s, e, []) && e in c1 && c2 == c1[..IndexOf(c1, e)] + nodes + c1[IndexOf(c1, e)..]
    ensures c2 == Splice(c, s, e, nodes) && InPlace(c2, s, e, Given(v))
  {
    Cleared(c, s, e);
    SpliceTwice(c, s, e, nodes);
    SpliceDistinct(c, s, e, nodes);
    SpliceShows(c, s, e, nodes);
  }

  lemma SpliceTwice(c: Nodes, s: Node, e: Node, nodes: Nodes)
    requires Marked(c, s, e)
    ensures var c1, k := Splice(c, s, e, []), IndexOf(c, s) + 1; c1[..k] + nodes + c1[k..] == Splice(c, s, e, nodes)
  {
  }

  lemma SpliceKeepsOrder(c: Nodes, s: Node, e: Node, nodes: Nodes, s': Node, e': Node)
    requires Distinct(c) && Distinct(nodes) && NoneIn(nodes, c) && Apart(c, s, e, s', e')
    ensures Apart(Splice(c, s, e, nodes), s, e, s', e')
  {
    SpliceMoves(c, s, e, nodes, s);
    SpliceMoves(c, s, e, nodes, e);
    SpliceMoves(c, s, e, nodes, s');
    SpliceMoves(c, s, e, nodes, e');
  }

  lemma SpliceKeepsContent(c: Nodes, s: Node, e: Node, nodes: Nodes, s': Node, e': Node)
    requires Distinct(c) && Distinct(nodes) && NoneIn(nodes, c) && Apart(c, s, e, s', e')
    ensures var c' := Splice(c, s, e, nodes); Marked(c', s', e') && Between(c', s', e') == Between(c, s', e')
  {
    SpliceMoves(c, s, e, nodes, s');
    SpliceMoves(c, s, e, nodes, e');
    BetweenKept(c, IndexOf(c, s), IndexOf(c, e), nodes, IndexOf(c, s'), IndexOf(c, e'));
  }

  /** Another range keeps its markers in order and its content. */
  lemma SpliceKeeps(c: Nodes, s: Node, e: Node, nodes: Nodes, s': Node, e': Node)
    requires Distinct(c) && Distinct(nodes) && NoneIn(nodes, c) && Apart(c, s, e, s', e')
    ensures var c' := Splice(c, s, e, nodes);
            Apart(c', s, e, s', e') && Marked(c', s', e') && Between(c', s', e') == Between(c, s', e')
  {
    SpliceKeepsOrder(c, s, e, nodes, s', e');
    SpliceKeepsContent(c, s, e, nodes, s', e');
  }

  /** Two other ranges stay apart. */
  lemma SpliceKeepsApart(c: Nodes, s: Node, e: Node, nodes: Nodes, s1: Node, e1: Node, s2: Node, e2: Node)
    requires Distinct(c) && Marked(c, s, e) && Distinct(nodes) && NoneIn(nodes, c)
    requires Marked(c, s1, e1) && Apart(c, s, e, s1, e1) && Marked(c, s2, e2) && Apart(c, s, e, s2, e2)
    requires Apart(c, s1, e1, s2, e2)
    ensures var c' := Splice(c, s, e, nodes);
            Marked(c', s1, e1) && Marked(c', s2, e2) && Apart(c', s1, e1, s2, e2)
  {
    SpliceMoves(c, s, e, nodes, s1);
    SpliceMoves(c, s, e, nodes, e1);
    SpliceMoves(c, s, e, nodes, s2);
    SpliceMoves(c, s, e, nodes, e2);
  }

  /** The members of `keep`, in the order of the list. */
  ghost function Filter(c: Nodes, keep: set<Node>): Nodes {
    if c == [] then [] else (if c[0] in keep then [c[0]] else []) + Filter(c[1..], keep)
  }

  lemma {:induction false} FilterConcat(a: Nodes, b: Nodes, keep: set<Node>)
    ensures Filter(a + b, keep) == Filter(a, keep) + Filter(b, keep)
  {
    if a == [] {
      assert a + b == b;
    } else {
      var n, rest := a[0], a[1..];
      assert (a + b)[0] == n && (a + b)[1..] == rest + b;
      FilterConcat(rest, b, keep);
      var kept := if n in keep then [n] else [];
      assert kept + (Filter(rest, keep) + Filter(b, keep)) == (kept + Filter(rest, keep)) + Filter(b, keep);
    }
  }

  /** A list of nodes to keep stays whole. */
  lemma {:induction false} FilterAll(c: Nodes, keep: set<Node>)
    requires forall n :: n in c ==> n in keep
    ensures Filter(c, keep) == c
  {
    if c != [] { FilterAll(c[1..], keep); }
  }

  lemma {:induction false} FilterNone(a: Nodes, keep: set<Node>)
    requires forall n :: n in a ==> n !in keep
    ensures Filter(a, keep) == []
  {
    if a != [] { FilterNone(a[1..], keep); }
  }

  /** Nodes outside the range stay, in their order. */
  lemma SpliceFilters(c: Nodes, s: Node, e: Node, nodes: Nodes, keep: set<Node>)
    requires Marked(c, s, e)
    requires forall n :: n in Between(c, s, e) ==> n !in keep
    requires forall n :: n in nodes ==> n !in keep
    ensures Filter(Splice(c, s, e, nodes), keep) == Filter(c, keep)
  {
    var a, m, b := c[..IndexOf(c, s) + 1], Between(c, s, e), c[IndexOf(c, e)..];
    assert c == a + m + b;
    FilterConcat(a + m, b, keep);
    FilterConcat(a, m, keep);
    FilterConcat(a + nodes, b, keep);
    FilterConcat(a, nodes, keep);
    FilterNone(m, keep);
    FilterNone(nodes, keep);
  }

  ghost function Gap(c: Nodes, next: Node?): (k: nat)
    requires next != null ==> next in c
    ensures k <= |c|
  {
    if next != null then IndexOf(c, next) else |c|
  }

  ghost function Inserted(c: Nodes, k: nat, node: Node): Nodes
    requires k <= |c|
  {
    c[..k] + [node] + c[k..]
  }

  /** Where the constructor puts the start marker. */
  ghost function StartGap(c: Nodes, previousSibling: Node?, nextSibling: Node?): (k: nat)
    requires (previousSibling != null ==> previousSibling in c) && (nextSibling != null ==> nextSibling in c)
    ensures k <= |c|
  {
    if previousSibling != null then IndexOf(c, previousSibling) + 1 else Gap(c, nextSibling)
  }

  lemma InsertedDistinct(c: Nodes, k: nat, n: Node)
    requires Distinct(c) && k <= |c| && n !in c
    ensures Distinct(Inserted(c, k, n)) && Inserted(c, k, n)[k] == n && IndexOf(Inserted(c, k, n), n) == k
    ensures forall x :: x in Inserted(c, k, n) <==> x == n || x in c
  {
    assert Inserted(c, k, n)[k] == n;
  }

  lemma InsertedMoves(c: Nodes, k: nat, n: Node, x: Node)
    requires Distinct(c) && k <= |c| && n !in c && x in c
    ensures x in Inserted(c, k, n)
    ensures IndexOf(Inserted(c, k, n), x) == IndexOf(c, x) + if IndexOf(c, x) < k then 0 else 1
  {
    var c', i := Inserted(c, k, n), IndexOf(c, x);
    InsertedDistinct(c, k, n);
    assert c'[if i < k then i else i + 1] == x;
    IndexIs(c', if i < k then i else i + 1);
  }

  lemma TwoInserted(c: Nodes, a: nat, b: nat, s: Node, e: Node)
    requires a <= b <= |c|
    ensures Inserted(Inserted(c, a, s), b + 1, e) == c[..a] + [s] + c[a..b] + [e] + c[b..]
  {
  }

  lemma GapMoves(c: Nodes, a: nat, s: Node, next: Node?)
    requires Distinct(c) && a <= |c| && s !in c && (next != null ==> next in c)
    ensures next != null ==> next in Inserted(c, a, s)
    ensures Gap(Inserted(c, a, s), next) == Gap(c, next) + if Gap(c, next) < a then 0 else 1
  {
    if next != null { InsertedMoves(c, a, s, next); }
  }

  lemma MarksInserted(c: Nodes, a: nat, g: nat, s: Node, e: Node)
    requires Distinct(c) && a < |c| && c[a] == s && g <= |c| && e !in c
    ensures Distinct(Inserted(c, g, e)) && (Marked(Inserted(c, g, e), s, e) <==> a < g)
  {
    InsertedDistinct(c, g, e);
    InsertedMoves(c, g, e, s);
  }

  lemma SecondInserted(c: Nodes, a: nat, g: nat, s: Node, e: Node)
    requires Distinct(c) && s !in c && e !in c && s != e && a <= |c| && g <= |c| + 1
    ensures var c1 := Inserted(c, a, s);
            && Distinct(c1) && e !in c1
            && Distinct(Inserted(c1, g, e)) && (Marked(Inserted(c1, g, e), s, e) <==> a < g)
  {
    InsertedDistinct(c, a, s);
    MarksInserted(Inserted(c, a, s), a, g, s, e);
  }

  lemma BothMarked(c: Nodes, a: nat, s: Node, e: Node, next: Node?)
    requires Distinct(c) && s !in c && e !in c && s != e && a <= |c| && (next != null ==> next in c)
    ensures var c1 := Inserted(c, a, s);
            && Distinct(c1) && e !in c1 && (next != null ==> next in c1)
            && Distinct(Inserted(c1, Gap(c1, next), e))
            && (Marked(Inserted(c1, Gap(c1, next), e), s, e) <==> a <= Gap(c, next))
  {
    GapMoves(c, a, s, next);
    SecondInserted(c, a, Gap(Inserted(c, a, s), next), s, e);
  }

  lemma BothInserted(c: Nodes, a: nat, s: Node, e: Node, next: Node?)
    requires Distinct(c) && s !in c && e !in c && s != e && a <= |c| && (next != null ==> next in c)
    ensures var c1, b := Inserted(c, a, s), Gap(c, next);
            && (next != null ==> next in c1)
            && (a <= b ==> Inserted(c1, Gap(c1, next), e) == c[..a] + [s] + c[a..b] + [e] + c[b..])
  {
    GapMoves(c, a, s, next);
    if a <= Gap(c, next) { TwoInserted(c, a, Gap(c, next), s, e); }
  }

  /** The markers enclose what lies between the siblings; with a sibling missing, they come right after the
      one, right before the other, or at the end. */
  ghost predicate Encloses(c: Nodes, previousSibling: Node?, nextSibling: Node?, c': Nodes, s: Node, e: Node) {
    && (previousSibling == null && nextSibling == null ==> c' == c + [s, e])
    && (forall k :: 0 <= k < |c| && previousSibling == null && nextSibling == c[k] ==> c' == c[..k] + [s, e] + c[k..])
    && (forall k :: 0 <= k < |c| && previousSibling == c[k] && nextSibling == null ==>
          c' == c[..k + 1] + [s] + c[k + 1..] + [e])
    && (forall k, n :: 0 <= k < n < |c| && previousSibling == c[k] && nextSibling == c[n] ==>
          c' == c[..k + 1] + [s] + c[k + 1..n] + [e] + c[n..])
  }

  lemma GapsEnclose(c: Nodes, previousSibling: Node?, nextSibling: Node?, c': Nodes, s: Node, e: Node)
    requires Distinct(c)
    requires (previousSibling != null ==> previousSibling in c) && (nextSibling != null ==> nextSibling in c)
    requires var a, b := StartGap(c, previousSibling, nextSibling), Gap(c, nextSibling);
             a <= b ==> c' == c[..a] + [s] + c[a..b] + [e] + c[b..]
    ensures Encloses(c, previousSibling, nextSibling, c', s, e)
  {
    if previousSibling == null {
      SideBySide(c, Gap(c, nextSibling), s, e);
      if nextSibling == null { assert c[..|c|] == c && c[|c|..] == []; }
    } else {
      assert c[|c|..] == [];
    }
  }

  lemma SideBySide(c: Nodes, k: nat, s: Node, e: Node)
    requires k <= |c|
    ensures c[..k] + [s] + c[k..k] + [e] + c[k..] == c[..k] + [s, e] + c[k..]
  {
  }

  /** The parent's child list, with the operations of the DOM that the parts use. */
  class Parent {
    var children: Nodes

    constructor (children: Nodes)
      ensures this.children == children
    {
      this.children := children;
    }

    method Find(node: Node) returns (k: nat)
      requires node in children && Distinct(children)
      ensures k == IndexOf(children, node)
    {
      k := 0;
      while children[k] != node
        invariant k <= IndexOf(children, node)
        decreases IndexOf(children, node) - k
      {
        k := k + 1;
      }
      IndexIs(children, k);
    }

    /** Before `next`, or at the end if that is null. */
    method InsertBefore(node: Node, next: Node?)
      requires Distinct(children) && (next != null ==> next in children) && node !in children
      modifies this
      ensures children == Inserted(old(children), Gap(old(children), next), node)
    {
      var k := |children|;
      if next != null { k := Find(next); }
      children := children[..k] + [node] + children[k..];
    }

    method AppendChild(node: Node)
      modifies this
      ensures children == old(children) + [node]
    {
      children := children + [node];
    }

    method RemoveChild(node: Node)
      requires Distinct(children) && node in children
      modifies this
      ensures children == old(children)[..IndexOf(old(children), node)] +
                old(children)[IndexOf(old(children), node) + 1..]
    {
      var k := Find(node);
      children := children[..k] + children[k + 1..];
    }

    /** `node.nextSibling` */
    method NextSibling(node: Node) returns (next: Node?)
      requires Distinct(children) && node in children
      ensures next == After(children, IndexOf(children, node))
    {
      var k := Find(node);
      next := if k + 1 < |children| then children[k + 1] else null;
    }
  }

  function After(c: Nodes, k: nat): Node? {
    if k + 1 < |c| then c[k + 1] else null
  }

  method PlaceStart(parent: Parent, marker: Node, previousSibling: Node?, nextSibling: Node?)
    requires Distinct(parent.children) && marker !in parent.children
    requires previousSibling != null ==> previousSibling in parent.children
    requires nextSibling != null ==> nextSibling in parent.children
    modifies parent
    ensures var c := old(parent.children);
            parent.children == Inserted(c, StartGap(c, previousSibling, nextSibling), marker)
  {
    if previousSibling != null {
      NextGap(parent.children, IndexOf(parent.children, previousSibling));
      var next := parent.NextSibling(previousSibling);
      parent.InsertBefore(marker, next);
    } else if nextSibling != null {
      parent.InsertBefore(marker, nextSibling);
    } else {
      parent.AppendChild(marker);
    }
  }

  method PlaceMarkers(parent: Parent, s: Node, e: Node, previousSibling: Node?, nextSibling: Node?)
    requires Distinct(parent.children) && s !in parent.children && e !in parent.children && s != e
    requires previousSibling != null ==> previousSibling in parent.children
    requires nextSibling != null ==> nextSibling in parent.children
    modifies parent
    ensures Distinct(parent.children)
    ensures var c := old(parent.children);
            var a, b := StartGap(c, previousSibling, nextSibling), Gap(c, nextSibling);
            && (Marked(parent.children, s, e) <==> a <= b)
            && (a <= b ==> parent.children == c[..a] + [s] + c[a..b] + [e] + c[b..])
  {
    ghost var c := parent.children;
    BothMarked(c, StartGap(c, previousSibling, nextSibling), s, e, nextSibling);
    BothInserted(c, StartGap(c, previousSibling, nextSibling), s, e, nextSibling);
    PlaceStart(parent, s, previousSibling, nextSibling);
    parent.InsertBefore(e, nextSibling);
  }

  class ChildNodePart {
    const parent: Parent
    const startMarker: Node
    const endMarker: Node
    var value: Content
    var committed: Content

    /** The markers are in place and what is between them shows the committed value. */
    ghost predicate Valid()
      reads this, parent
    {
      InPlace(parent.children, startMarker, endMarker, committed) && (value.Initial? ==> committed.Initial?)
    }

    /** If a value was set, it is what lies between the markers. */
    ghost predicate ShowsItsValue()
      reads this, parent
    {
      Marked(parent.children, startMarker, endMarker) &&
      (value.Given? ==> ShowsValue(Between(parent.children, startMarker, endMarker), value.value))
    }

    /** The markers enclose what lies between the given siblings. They come out of order exactly if the
        siblings do, or are not in order as siblings of each other. */
    constructor (parent: Parent, previousSibling: Node?, nextSibling: Node?)
      requires Distinct(parent.children)
      requires previousSibling != null ==> previousSibling in parent.children
      requires nextSibling != null ==> nextSibling in parent.children
      modifies parent
      ensures this.parent == parent && value == committed == Initial && fresh(startMarker) && fresh(endMarker)
      ensures var c := old(parent.children);
              var a, b := StartGap(c, previousSibling, nextSibling), Gap(c, nextSibling);
              && (Valid() <==> a <= b)
              && (a <= b ==> parent.children == c[..a] + [startMarker] + c[a..b] + [endMarker] + c[b..])
      ensures Encloses(old(parent.children), previousSibling, nextSibling, parent.children, startMarker, endMarker)
    {
      this.parent := parent;
      startMarker := new Node("");
      endMarker := new Node("");
      value, committed := Initial, Initial;
      new;
      ghost var c := parent.children;
      PlaceMarkers(parent, startMarker, endMarker, previousSibling, nextSibling);
      GapsEnclose(c, previousSibling, nextSibling, parent.children, startMarker, endMarker);
    }

    /** `clearContent` */
    method ClearContent()
      requires Distinct(parent.children) && Marked(parent.children, startMarker, endMarker)
      modifies parent
      ensures parent.children == Splice(old(parent.children), startMarker, endMarker, [])
    {
      ghost var c := parent.children;
      ghost var i, j := IndexOf(c, startMarker), IndexOf(c, endMarker);
      ghost var k := i + 1;
      var node := parent.NextSibling(startMarker);
      assert Cut(c, i, k) == c;
      while node != null && node != endMarker
        invariant i < k <= j && parent.children == Cut(c, i, k) && node == c[k]
        decreases j - k
      {
        node := RemoveOne(node, c, i, k);
        k := k + 1;
      }
      IndexIs(c, k);
      CutAll(c, startMarker, endMarker);
    }

    /** The loop's body. */
    method RemoveOne(node: Node, ghost c: Nodes, ghost i: nat, ghost k: nat) returns (next: Node?)
      requires Distinct(c) && i < k < |c| && node == c[k] && parent.children == Cut(c, i, k)
      modifies parent
      ensures parent.children == Cut(c, i, k + 1) && next == After(c, k)
    {
      CutStep(c, i, k);
      next := parent.NextSibling(node);
      parent.RemoveChild(node);
    }

    method InsertTexts(items: seq<Primitive>) returns (ghost nodes: Nodes)
      requires Distinct(parent.children) && endMarker in parent.children
      modifies parent
      ensures fresh(nodes) && Distinct(nodes) && Shows(nodes, Texts(items))
      ensures var k := IndexOf(old(parent.children), endMarker);
              parent.children == old(parent.children)[..k] + nodes + old(parent.children)[k..]
    {
      ghost var c, k := parent.children, IndexOf(parent.children, endMarker);
      nodes := [];
      assert c[..k] + [] + c[k..] == c;
      for i := 0 to |items|
        invariant fresh(nodes) && Distinct(nodes) && NoneIn(nodes, c) && Shows(nodes, Texts(items[..i]))
        invariant parent.children == c[..k] + nodes + c[k..]
      {
        assert items[..i + 1][..i] == items[..i];
        var node := InsertText(items[i].text, c, k, nodes);
        nodes := nodes + [node];
      }
      assert items[..|items|] == items;
    }

    method InsertText(text: string, ghost c: Nodes, ghost k: nat, ghost nodes: Nodes) returns (node: Node)
      requires Distinct(c) && k < |c| && c[k] == endMarker && Distinct(nodes) && NoneIn(nodes, c)
      requires parent.children == c[..k] + nodes + c[k..]
      modifies parent
      ensures fresh(node) && node.text == text && Distinct(nodes + [node]) && NoneIn(nodes + [node], c)
      ensures parent.children == c[..k] + (nodes + [node]) + c[k..]
    {
      InsertedBefore(c, k, nodes);
      node := new Node(text);
      assert node !in parent.children && node !in c && node !in nodes by { InsertedMembers(c, k, nodes); }
      parent.InsertBefore(node, endMarker);
      InsertedDistinct(nodes, |nodes|, node);
      assert Inserted(nodes, |nodes|, node) == nodes + [node];
    }

    /** The nodes for a value, before the end marker. */
    method Render(v: Value) returns (ghost nodes: Nodes)
      requires Distinct(parent.children) && endMarker in parent.children
      modifies parent
      ensures fresh(nodes) && Distinct(nodes) && Shows(nodes, Rendering(v))
      ensures var k := IndexOf(old(parent.children), endMarker);
              parent.children == old(parent.children)[..k] + nodes + old(parent.children)[k..]
    {
      nodes := [];
      match v {
        case Null =>
        case Undefined =>
        case One(item) =>
          nodes := InsertTexts([item]);
          assert Texts([item]) == [item.text];
        case Many(_, items) => nodes := InsertTexts(items);
      }
    }

    /** `commit` */
    method Commit() returns (ghost nodes: Nodes)
      requires Valid()
      modifies parent, this`committed
      ensures Valid() && committed == value && fresh(nodes) && Distinct(nodes) && NoneIn(nodes, old(parent.children))
      ensures parent.children == if value == old(committed) then old(parent.children)
                                 else Splice(old(parent.children), startMarker, endMarker, nodes)
      ensures value != old(committed) ==> value.Given? && ShowsValue(nodes, value.value)
      ensures value.Given? ==> ShowsValue(Between(parent.children, startMarker, endMarker), value.value)
    {
      nodes := [];
      if value != committed {
        nodes := Replace();
        RenderingIs(nodes, value.value);
      }
      if value.Given? { RenderingIs(Between(parent.children, startMarker, endMarker), value.value); }
    }

    method Replace() returns (ghost nodes: Nodes)
      requires Valid() && value.Given?
      modifies parent, this`committed
      ensures Valid() && committed == value && fresh(nodes) && Distinct(nodes) && NoneIn(nodes, old(parent.children))
      ensures parent.children == Splice(old(parent.children), startMarker, endMarker, nodes)
      ensures Shows(nodes, Rendering(value.value))
    {
      ghost var c := parent.children;
      ClearContent();
      Cleared(c, startMarker, endMarker);
      ghost var c1 := parent.children;
      nodes := Render(value.value);
      Refilled(c, c1, parent.children, startMarker, endMarker, nodes, value.value);
      committed := value;
    }

    method SetValue(v: Value)
      requires Valid()
      modifies this`value
      ensures Valid() && value == Given(v)
    {
      value := Given(v);
    }
  }

  lemma NextGap(c: Nodes, k: nat)
    requires Distinct(c) && k < |c|
    ensures Gap(c, After(c, k)) == k + 1
  {
    if k + 1 < |c| { IndexIs(c, k + 1); }
  }

  /** The list without what lies strictly between `i` and `k`. */
  ghost function Cut(c: Nodes, i: nat, k: nat): Nodes
    requires i < k <= |c|
  {
    c[..i + 1] + c[k..]
  }

  lemma CutAll(c: Nodes, s: Node, e: Node)
    requires Marked(c, s, e)
    ensures Cut(c, IndexOf(c, s), IndexOf(c, e)) == Splice(c, s, e, [])
  {
  }

  lemma CutStep(c: Nodes, i: nat, k: nat)
    requires Distinct(c) && i < k < |c|
    ensures var c' := Cut(c, i, k);
            && Distinct(c') && c[k] in c' && IndexOf(c', c[k]) == i + 1 && After(c', i + 1) == After(c, k)
            && c'[..i + 1] + c'[i + 2..] == Cut(c, i, k + 1)
  {
    var c' := Cut(c, i, k);
    assert Distinct(c');
    assert c'[i + 1] == c[k];
    IndexIs(c', i + 1);
  }

  lemma InsertedBefore(c: Nodes, k: nat, nodes: Nodes)
    requires Distinct(c) && k < |c| && Distinct(nodes) && NoneIn(nodes, c)
    ensures var c' := c[..k] + nodes + c[k..]; Distinct(c') && c[k] in c' && IndexOf(c', c[k]) == k + |nodes|
  {
    var c' := c[..k] + nodes + c[k..];
    assert c'[k + |nodes|] == c[k];
    assert Distinct(c');
  }

  lemma InsertedMembers(c: Nodes, k: nat, nodes: Nodes)
    requires k < |c|
    ensures forall n :: n in c[..k] + nodes + c[k..] <==> n in c || n in nodes
  {
    assert c == c[..k] + c[k..];
  }

  /** The parts under this parent have ranges apart from each other; none of the nodes to keep lies in a
      range. */
  ghost predicate Arranged(parent: Parent, parts: seq<ChildNodePart>, keep: set<Node>)
    reads parent, set p | p in parts && p.parent == parent
  {
    && (forall p :: p in parts && p.parent == parent ==>
          (p.value.Initial? ==> p.committed.Initial?) &&
          KeptInPlace(parent.children, p.startMarker, p.endMarker, p.committed, keep))
    && PairsApart(parent, parent.children, parts)
  }

  ghost predicate PairsApart(parent: Parent, c: Nodes, parts: seq<ChildNodePart>) {
    forall p, q :: p in parts && q in parts && p != q && p.parent == q.parent == parent ==>
      Apart(c, p.startMarker, p.endMarker, q.startMarker, q.endMarker)
  }

  /** So are the parts under every parent. */
  ghost predicate AllArranged(parts: seq<ChildNodePart>, keep: set<Node>)
    reads parts, set p | p in parts :: p.parent
  {
    forall p :: p in parts ==> Arranged(p.parent, parts, keep)
  }

  lemma PairsStayApart(c: Nodes, p: ChildNodePart, parts: seq<ChildNodePart>, nodes: Nodes)
    requires Distinct(c) && Distinct(nodes) && NoneIn(nodes, c) && Marked(c, p.startMarker, p.endMarker)
    requires PairsApart(p.parent, c, parts) && p in parts
    ensures PairsApart(p.parent, Splice(c, p.startMarker, p.endMarker, nodes), parts)
  {
    var s, e := p.startMarker, p.endMarker;
    var c' := Splice(c, s, e, nodes);
    forall q, r | q in parts && r in parts && q != r && q.parent == r.parent == p.parent
      ensures Apart(c', q.startMarker, q.endMarker, r.startMarker, r.endMarker)
    {
      if q == p {
        SpliceKeeps(c, s, e, nodes, r.startMarker, r.endMarker);
      } else if r == p {
        SpliceKeeps(c, s, e, nodes, q.startMarker, q.endMarker);
      } else {
        SpliceKeepsApart(c, s, e, nodes, q.startMarker, q.endMarker, r.startMarker, r.endMarker);
      }
    }
  }

  ghost predicate Free(c: Nodes, s: Node, e: Node, keep: set<Node>) {
    Marked(c, s, e) ==> forall n :: n in Between(c, s, e) ==> n !in keep
  }

  /** A range in order that shows what was committed, if anything was. */
  ghost predicate InPlace(c: Nodes, s: Node, e: Node, content: Content) {
    Distinct(c) && Marked(c, s, e) && (content.Given? ==> Shows(Between(c, s, e), Rendering(content.value)))
  }

  ghost predicate KeptInPlace(c: Nodes, s: Node, e: Node, content: Content, keep: set<Node>) {
    InPlace(c, s, e, content) && Free(c, s, e, keep)
  }

  lemma OthersInPlace(c: Nodes, s: Node, e: Node, nodes: Nodes, s': Node, e': Node, content: Content, keep: set<Node>)
    requires KeptInPlace(c, s', e', content, keep)
    requires Marked(c, s, e) && Distinct(nodes) && NoneIn(nodes, c) && Apart(c, s, e, s', e')
    ensures var c' := Splice(c, s, e, nodes);
            && KeptInPlace(c', s', e', content, keep)
            && Marked(c', s, e) && Apart(c', s, e, s', e')
  {
    SpliceDistinct(c, s, e, nodes);
    SpliceKeeps(c, s, e, nodes, s', e');
  }

  lemma OwnFree(c: Nodes, s: Node, e: Node, nodes: Nodes, keep: set<Node>)
    requires Distinct(c) && Marked(c, s, e) && Distinct(nodes) && NoneIn(nodes, c) && Free(c, s, e, keep)
    requires forall n :: n in nodes ==> n !in keep
    ensures Free(Splice(c, s, e, nodes), s, e, keep) && Filter(Splice(c, s, e, nodes), keep) == Filter(c, keep)
  {
    SpliceFilters(c, s, e, nodes, keep);
    SpliceShows(c, s, e, nodes);
  }

  class PartGroup {
    var parts: seq<ChildNodePart>

    constructor (parts: seq<ChildNodePart>)
      ensures this.parts == parts
    {
      this.parts := parts;
    }

    method CommitOne(p: ChildNodePart, ghost keep: set<Node>)
      requires AllArranged(parts, keep) && p in parts
      modifies p.parent, p`committed
      ensures AllArranged(parts, keep) && p.committed == p.value
      ensures forall q :: q in parts && q != p ==> q.committed == old(q.committed)
      ensures forall q :: q in parts ==> q.value == old(q.value)
      ensures forall q :: q in parts ==> Filter(q.parent.children, keep) == Filter(old(q.parent.children), keep)
    {
      ghost var c := p.parent.children;
      assert Arranged(p.parent, parts, keep);
      ghost var nodes := p.Commit();
      OwnFree(c, p.startMarker, p.endMarker, nodes, keep);
      StillArranged(c, p, nodes, keep);
      forall q | q in parts && q.parent != p.parent ensures Arranged(q.parent, parts, keep) {
        assert old(Arranged(q.parent, parts, keep));
      }
    }

    /** The arrangement after a commit of `p`, from that of the list `c` before it. */
    lemma StillArranged(c: Nodes, p: ChildNodePart, nodes: Nodes, keep: set<Node>)
      requires Distinct(c) && Distinct(nodes) && NoneIn(nodes, c) && p in parts && Marked(c, p.startMarker, p.endMarker)
      requires forall q :: q in parts && q != p && q.parent == p.parent ==>
                 && (q.value.Initial? ==> q.committed.Initial?)
                 && KeptInPlace(c, q.startMarker, q.endMarker, q.committed, keep)
      requires PairsApart(p.parent, c, parts)
      requires p.Valid() && Free(p.parent.children, p.startMarker, p.endMarker, keep)
      requires p.parent.children == c || p.parent.children == Splice(c, p.startMarker, p.endMarker, nodes)
      ensures Arranged(p.parent, parts, keep)
    {
      if p.parent.children != c {
        PairsStayApart(c, p, parts, nodes);
        forall q | q in parts && q != p && q.parent == p.parent
          ensures KeptInPlace(p.parent.children, q.startMarker, q.endMarker, q.committed, keep)
        {
          OthersInPlace(c, p.startMarker, p.endMarker, nodes, q.startMarker, q.endMarker, q.committed, keep);
        }
      }
    }

    /** `commit` of all parts in order: afterwards every part shows its value, and under every parent the
        nodes outside all ranges are the same, in the same order. */
    method Commit(ghost keep: set<Node>)
      requires AllArranged(parts, keep)
      modifies parts, set p | p in parts :: p.parent
      ensures parts == old(parts) && AllArranged(parts, keep)
      ensures forall p :: p in parts ==> p.value == old(p.value) && p.committed == p.value && p.ShowsItsValue()
      ensures forall p :: p in parts ==> Filter(p.parent.children, keep) == Filter(old(p.parent.children), keep)
    {
      for i := 0 to |parts|
        invariant parts == old(parts) && AllArranged(parts, keep)
        invariant forall p :: p in parts ==> p.value == old(p.value)
        invariant AllCommitted(i)
        invariant forall p :: p in parts ==> Filter(p.parent.children, keep) == Filter(old(p.parent.children), keep)
      {
        CommitNext(parts[i], i, keep);
      }
      AllAreCommitted();
      AllShow(keep);
    }

    ghost predicate AllCommitted(i: nat)
      reads this, parts
    {
      i <= |parts| && forall k :: 0 <= k < i ==> parts[k].committed == parts[k].value
    }

    lemma AllAreCommitted()
      requires AllCommitted(|parts|)
      ensures forall p :: p in parts ==> p.committed == p.value
    {
    }

    lemma AllShow(keep: set<Node>)
      requires AllArranged(parts, keep) && forall p :: p in parts ==> p.committed == p.value
      ensures forall p :: p in parts ==> p.ShowsItsValue()
    {
      forall p | p in parts ensures p.ShowsItsValue() {
        assert Arranged(p.parent, parts, keep);
        assert KeptInPlace(p.parent.children, p.startMarker, p.endMarker, p.committed, keep);
        if p.value.Given? {
          RenderingIs(Between(p.parent.children, p.startMarker, p.endMarker), p.value.value);
        }
      }
    }

    /** One turn of the loop. */
    method CommitNext(p: ChildNodePart, ghost i: nat, ghost keep: set<Node>)
      requires AllArranged(parts, keep) && AllCommitted(i) && i < |parts| && p == parts[i]
      modifies p.parent, p`committed
      ensures AllArranged(parts, keep) && AllCommitted(i + 1)
      ensures forall q :: q in parts ==> q.value == old(q.value)
      ensures forall q :: q in parts ==> Filter(q.parent.children, keep) == Filter(old(q.parent.children), keep)
    {
      CommitOne(p, keep);
      forall k | 0 <= k < i + 1 ensures parts[k].committed == parts[k].value {
        if parts[k] != p {
          assert parts[k].committed == old(parts[k].committed) && parts[k].value == old(parts[k].value);
        }
      }
    }

    method Add(part: ChildNodePart)
      modifies this
      ensures parts == old(parts) + [part]
    {
      parts := parts + [part];
    }

    /** Removes the first occurrence. */
    method Remove(part: ChildNodePart) returns (found: bool)
      modifies this
      ensures found <==> part in old(parts)
      ensures !found ==> parts == old(parts)
      ensures found ==> exists k :: 0 <= k < |old(parts)| && old(parts)[k] == part && part !in old(parts)[..k] &&
                                    parts == old(parts)[..k] + old(parts)[k + 1..]
    {
      var k := 0;
      while k < |parts| && parts[k] != part
        invariant k <= |parts| && part !in parts[..k]
      {
        k := k + 1;
      }
      found := k < |parts|;
      if found {
        parts := parts[..k] + parts[k + 1..];
      } else {
        assert parts[..k] == parts;
      }
    }
  }
}
