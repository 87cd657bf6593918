/** Compiling the tree of nested routes into a flat list with full patterns. */
module RouteCompile {
  import opened Text
  import opened RoutePaths
  import opened RouteMatch

  /** Nothing is open at the end of `s`: the next character begins a segment. */
  predicate AtBoundary(s: string) {
    s == "" || EndsWithSlash(s)
  }

  lemma SegmentsNext(q: string, c: char)
    ensures Segments(q + [c]) ==
            if c == SLASH then Segments(q)
            else if AtBoundary(q) then Segments(q) + [[c]]
            else Extend(Segments(q), c, SLASH)
    ensures !AtBoundary(q) ==> Segments(q) != []
  {
    if c == SLASH {
      SegmentsSlash(q);
      if !AtBoundary(q) { SegmentsLastPiece(q); }
    } else if AtBoundary(q) {
      SegmentsBegin(q, c);
    } else {
      SegmentsExtend(q, c);
    }
  }

  /** Appending text affects two paths with the same segments and the same end alike. */
  lemma {:induction false} AppendAlike(x: string, y: string, b: string)
    requires Segments(x) == Segments(y) && AtBoundary(x) == AtBoundary(y)
    ensures Segments(x + b) == Segments(y + b)
  {
    if b == "" {
      assert x + b == x && y + b == y;
    } else {
      var b0, c := b[..|b| - 1], b[|b| - 1];
      AppendAlike(x, y, b0);
      assert x + b == (x + b0) + [c] && y + b == (y + b0) + [c];
      assert AtBoundary(x + b0) == AtBoundary(y + b0);
      SegmentsNext(x + b0, c);
      SegmentsNext(y + b0, c);
    }
  }

  /** An unrooted text is glued to an open end, and begins a segment of its own at a boundary. */
  lemma {:induction false} CountAppend(x: string, t: string)
    requires t != "" && !StartsWithSlash(t)
    ensures Segments(t) != []
    ensures |Segments(x + t)| == |Segments(x)| + |Segments(t)| - if AtBoundary(x) then 0 else 1
    ensures AtBoundary(x + t) == AtBoundary(t)
  {
    var t0, c := t[..|t| - 1], t[|t| - 1];
    assert t == t0 + [c] && x + t == (x + t0) + [c];
    SegmentsNext(x + t0, c);
    SegmentsNext(t0, c);
    if t0 == "" {
      assert x + t0 == x;
      SegmentsEmpty();
      SegmentsNext(x, c);
    } else {
      CountAppend(x, t0);
    }
  }

  /** If only one of them ends with a slash, the other one's last segment swallows the beginning. */
  lemma AppendMerges(x: string, y: string, b: string)
    requires Segments(x) == Segments(y) && !AtBoundary(x) && AtBoundary(y)
    requires b != "" && !StartsWithSlash(b)
    ensures |Segments(y + b)| == |Segments(x + b)| + 1
  {
    CountAppend(x, b);
    CountAppend(y, b);
  }

  /** Normalizing a prefix before appending `b` changes nothing: `b` is empty or rooted, or the
      prefix is open at its end, or consists of slashes only. */
  predicate SafeToAppend(a: string, b: string) {
    b == "" || StartsWithSlash(b) || (a != "" && (!EndsWithSlash(a) || Segments(a) == []))
  }

  lemma LeadOfAppend(a: string, b: string)
    requires a != ""
    ensures LeadOrRoot(a + b) == Lead(a)
  {
  }

  lemma NormalizedEnd(a: string)
    ensures EndsWithSlash(Normalize(a)) <==> Segments(a) == []
  {
    NormalizeForm(a);
    SegmentsProper(a);
    JoinEnd(Segments(a));
    if Segments(a) == [] {
      if a != "" && !StartsWithSlash(a) { RelativeHasSegment(a); }
    }
  }

  lemma SegmentsOfAppend(a: string, b: string)
    ensures Segments(Normalize(a) + b) == Segments(a + b) <==>
            b == "" || StartsWithSlash(b) || !EndsWithSlash(a) || Segments(a) == []
  {
    var n := Normalize(a);
    NormalizeKeepsSegments(a);
    NormalizedLead(a);
    NormalizedEnd(a);
    if b == "" {
      assert n + b == n && a + b == a;
    } else if StartsWithSlash(b) {
      SegmentsOfRootedAppend(n, b);
      SegmentsOfRootedAppend(a, b);
    } else if EndsWithSlash(a) && Segments(a) != [] {
      AppendMerges(n, a, b);
    } else {
      SegmentsEmpty();
      if !AtBoundary(a) { SegmentsLastPiece(a); }
      AppendAlike(n, a, b);
    }
  }

  lemma SegmentsOfRootedAppend(x: string, b: string)
    requires StartsWithSlash(b)
    ensures Segments(x + b) == Segments(x) + Segments(b[1..])
  {
    assert x + b == x + [SLASH] + b[1..];
    SegmentsAtSlash(x, b[1..]);
  }

  lemma LeadsOfAppend(a: string, b: string)
    ensures LeadOrRoot(Normalize(a) + b) == LeadOrRoot(a + b) <==> a != "" || b == "" || StartsWithSlash(b)
  {
    NormalizedLead(a);
    LeadOfAppend(Normalize(a), b);
    if a != "" {
      LeadOfAppend(a, b);
    } else {
      assert a + b == b;
    }
  }

  /** The exact condition for the compiler's stepwise normalization to agree with normalizing the
      whole concatenation. */
  lemma StepwiseNormalization(a: string, b: string)
    ensures Normalize(Normalize(a) + b) == Normalize(a + b) <==> SafeToAppend(a, b)
  {
    NormalizeEqual(Normalize(a) + b, a + b);
    SegmentsOfAppend(a, b);
    LeadsOfAppend(a, b);
  }

  // ----- Chains of appends -----

  /** The whole chain, concatenated. */
  function Concat(base: string, texts: seq<string>): string {
    if texts == [] then base else Concat(base, texts[..|texts| - 1]) + texts[|texts| - 1]
  }

  /** What the compiler computes: the prefix is normalized after every append. */
  function Stepwise(base: string, texts: seq<string>): string {
    if texts == [] then base else Normalize(Stepwise(base, texts[..|texts| - 1]) + texts[|texts| - 1])
  }

  /** Every append but the first is safe. */
  predicate AllSafe(base: string, texts: seq<string>) {
    forall k :: 1 <= k < |texts| ==> SafeToAppend(Concat(base, texts[..k]), texts[k])
  }

  /** The stepwise prefix `x` has fallen behind the chain `a`: it lacks a segment, or is absolute where
      the chain is not. */
  ghost predicate Behind(x: string, a: string) {
    || (Segments(x) != [] && !AtBoundary(x) && |Segments(x)| < |Segments(a)|)
    || (x != "" && a != "" && Lead(x) != Lead(a))
  }

  lemma BehindDiffers(x: string, a: string)
    requires Behind(x, a)
    ensures x != Normalize(a)
  {
    NormalizeKeepsSegments(a);
    NormalizedLead(a);
  }

  lemma NormalizedOpen(a: string)
    requires Segments(a) != []
    ensures !AtBoundary(Normalize(a)) && Segments(Normalize(a)) == Segments(a)
  {
    NormalizedLead(a);
    NormalizedEnd(a);
    NormalizeKeepsSegments(a);
  }

  /** It never catches up. */
  lemma StaysBehind(x: string, a: string, t: string)
    requires Behind(x, a)
    ensures Behind(Normalize(x + t), a + t)
  {
    if x != "" && a != "" && Lead(x) != Lead(a) {
      NormalizedLead(x + t);
      LeadOfAppend(x, t);
      LeadOfAppend(a, t);
    } else {
      FewerSegments(x, a, t);
      NormalizedOpen(x + t);
    }
  }

  lemma FewerSegments(x: string, a: string, t: string)
    requires Segments(x) != [] && !AtBoundary(x) && |Segments(x)| < |Segments(a)|
    ensures Segments(x + t) != [] && |Segments(x + t)| < |Segments(a + t)|
  {
    if t == "" {
      assert x + t == x && a + t == a;
    } else if StartsWithSlash(t) {
      SegmentsOfRootedAppend(x, t);
      SegmentsOfRootedAppend(a, t);
    } else {
      CountAppend(x, t);
      CountAppend(a, t);
    }
  }

  /** An unsafe append to a normalized chain falls behind. */
  lemma UnsafeFallsBehind(a: string, t: string)
    requires !SafeToAppend(a, t)
    ensures Behind(Normalize(Normalize(a) + t), a + t)
  {
    var x := Normalize(a) + t;
    NormalizedLead(a);
    NormalizedLead(x);
    if a == "" {
      LeadOfAppend(Normalize(a), t);
      assert a + t == t;
    } else {
      NormalizedOpen(a);
      CountAppend(Normalize(a), t);
      CountAppend(a, t);
      NormalizedOpen(x);
    }
  }

  /** After the first append, the stepwise prefix is that of the whole chain as long as all appends were
      safe, and behind it ever after. */
  lemma {:induction false} StepwiseOrBehind(base: string, texts: seq<string>)
    requires texts != []
    ensures AllSafe(base, texts) ==> Stepwise(base, texts) == Normalize(Concat(base, texts))
    ensures !AllSafe(base, texts) ==> Behind(Stepwise(base, texts), Concat(base, texts))
  {
    var front, t := texts[..|texts| - 1], texts[|texts| - 1];
    if front == [] {
      assert Stepwise(base, front) == base && Concat(base, front) == base;
    } else {
      StepwiseOrBehind(base, front);
      AllSafeSnoc(base, front, t);
      assert texts == front + [t];
      if !AllSafe(base, front) {
        StaysBehind(Stepwise(base, front), Concat(base, front), t);
      } else if !SafeToAppend(Concat(base, front), t) {
        UnsafeFallsBehind(Concat(base, front), t);
      } else {
        StepwiseNormalization(Concat(base, front), t);
      }
    }
  }

  lemma AllSafeSnoc(base: string, front: seq<string>, t: string)
    requires front != []
    ensures AllSafe(base, front + [t]) <==> AllSafe(base, front) && SafeToAppend(Concat(base, front), t)
  {
    var texts := front + [t];
    forall k | 1 <= k <= |front| ensures texts[..k] == front[..k] {}
    assert front[..|front|] == front;
    if AllSafe(base, texts) {
      assert SafeToAppend(Concat(base, texts[..|front|]), texts[|front|]);
      forall k | 1 <= k < |front| ensures SafeToAppend(Concat(base, front[..k]), front[k]) {
        assert SafeToAppend(Concat(base, texts[..k]), texts[k]);
      }
    }
  }

  /** The exact condition for a pattern to be that of the whole chain. */
  lemma PatternOfWholeChain(base: string, texts: seq<string>)
    requires texts != []
    ensures Stepwise(base, texts) == Normalize(Concat(base, texts)) <==> AllSafe(base, texts)
  {
    StepwiseOrBehind(base, texts);
    if !AllSafe(base, texts) { BehindDiffers(Stepwise(base, texts), Concat(base, texts)); }
  }

  datatype Kind = PageKind | GetKind | PostKind

  /** The routes as the application writes them. */
  datatype RouteNode =
    | Page(path: string, component: string, title: string, meta: seq<(string, string)>)
    | Layout(segment: string, children: seq<RouteNode>, layout: string)
    | Get(path: string, handler: string)
    | Post(path: string, handler: string)

  datatype Compiled = Compiled(
    route: Route, component: string, layouts: seq<string>, kind: Kind, title: string, meta: seq<(string, string)>)

  /** A leaf of the tree with the segments of its layouts and its own path, from the root down. */
  datatype Leaf = Leaf(
    texts: seq<string>, component: string, layouts: seq<string>, kind: Kind, title: string, meta: seq<(string, string)>)

  /** The leaves in preorder; only a page inherits its layouts. */
  function Leaves(nodes: seq<RouteNode>, texts: seq<string>, layouts: seq<string>): seq<Leaf>
    decreases nodes, |nodes| + 1
  {
    LeavesUpTo(nodes, |nodes|, texts, layouts)
  }

  function LeavesUpTo(nodes: seq<RouteNode>, n: nat, texts: seq<string>, layouts: seq<string>): seq<Leaf>
    requires n <= |nodes|
    decreases nodes, n
  {
    if n == 0 then []
    else LeavesUpTo(nodes, n - 1, texts, layouts) + NodeLeaves(nodes[n - 1], texts, layouts)
  }

  function NodeLeaves(node: RouteNode, texts: seq<string>, layouts: seq<string>): seq<Leaf> {
    match node
    case Page(path, component, title, meta) => [Leaf(texts + [path], component, layouts, PageKind, title, meta)]
    case Get(path, handler) => [Leaf(texts + [path], handler, [], GetKind, "", [])]
    case Post(path, handler) => [Leaf(texts + [path], handler, [], PostKind, "", [])]
    case Layout(segment, children, layout) => Leaves(children, texts + [segment], layouts + [layout])
  }

  function CompiledLeaf(base: string, leaf: Leaf): Compiled {
    Compiled(RouteFor(Stepwise(base, leaf.texts)), leaf.component, leaf.layouts, leaf.kind, leaf.title, leaf.meta)
  }

  function CompiledLeaves(base: string, leaves: seq<Leaf>): (compiled: seq<Compiled>)
    ensures |compiled| == |leaves|
  {
    if leaves == [] then []
    else CompiledLeaves(base, leaves[..|leaves| - 1]) + [CompiledLeaf(base, leaves[|leaves| - 1])]
  }

  lemma {:induction false} CompiledAt(base: string, leaves: seq<Leaf>, k: nat)
    requires k < |leaves|
    ensures CompiledLeaves(base, leaves)[k] == CompiledLeaf(base, leaves[k])
  {
    if k < |leaves| - 1 { CompiledAt(base, leaves[..|leaves| - 1], k); }
  }

  lemma {:induction false} CompiledConcat(base: string, a: seq<Leaf>, b: seq<Leaf>)
    ensures CompiledLeaves(base, a + b) == CompiledLeaves(base, a) + CompiledLeaves(base, b)
  {
    if b == [] {
      assert a + b == a;
    } else {
      var front, last := b[..|b| - 1], b[|b| - 1];
      assert (a + b)[..|a + b| - 1] == a + front && (a + b)[|a + b| - 1] == last;
      CompiledConcat(base, a, front);
    }
  }

  /** The pattern of a leaf with what the matcher needs to know of it. */
  method CompileRoute(path: string) returns (route: Route)
    ensures route == RouteFor(Normalize(path))
  {
    var fullPath := NormalizePath(path);
    var names := ExtractParamNames(fullPath);
    var catchAll := ExtractCatchAll(fullPath);
    route := Route(fullPath, names, catchAll);
  }

  lemma StepwiseSnoc(base: string, texts: seq<string>, t: string)
    ensures Stepwise(base, texts + [t]) == Normalize(Stepwise(base, texts) + t)
  {
    assert (texts + [t])[..|texts|] == texts;
  }

  /** One leaf. */
  method CompileLeaf(path: string, prefix: string, ghost base: string, ghost texts: seq<string>, component: string,
                     layouts: seq<string>, kind: Kind, title: string, meta: seq<(string, string)>,
                     result: seq<Compiled>)
    returns (result': seq<Compiled>)
    requires prefix == Stepwise(base, texts)
    ensures result' == result + CompiledLeaves(base, [Leaf(texts + [path], component, layouts, kind, title, meta)])
  {
    StepwiseSnoc(base, texts, path);
    var route := CompileRoute(prefix + path);
    ghost var leaf := Leaf(texts + [path], component, layouts, kind, title, meta);
    CompiledAt(base, [leaf], 0);
    assert CompiledLeaves(base, [leaf]) == [CompiledLeaf(base, leaf)];
    result' := result + [Compiled(route, component, layouts, kind, title, meta)];
  }

  /** `compile_inner`: the leaves of the nodes in preorder, with stepwise normalized patterns. */
  method CompileInner(nodes: seq<RouteNode>, prefix: string, ghost base: string, ghost texts: seq<string>,
                      layouts: seq<string>, result: seq<Compiled>)
    returns (result': seq<Compiled>)
    requires prefix == Stepwise(base, texts)
    ensures result' == result + CompiledLeaves(base, Leaves(nodes, texts, layouts))
    decreases nodes
  {
    result' := result;
    assert result + CompiledLeaves(base, []) == result;
    for i := 0 to |nodes|
      invariant result' == result + CompiledLeaves(base, LeavesUpTo(nodes, i, texts, layouts))
    {
      ghost var before, more := LeavesUpTo(nodes, i, texts, layouts), NodeLeaves(nodes[i], texts, layouts);
      result' := CompileNode(nodes[i], prefix, base, texts, layouts, result');
      CompiledConcat(base, before, more);
      Regroup(result, CompiledLeaves(base, before), CompiledLeaves(base, more));
      assert LeavesUpTo(nodes, i + 1, texts, layouts) == before + more;
    }
  }

  lemma Regroup<T>(a: seq<T>, b: seq<T>, c: seq<T>)
    ensures (a + b) + c == a + (b + c)
  {
  }

  method CompileNode(node: RouteNode, prefix: string, ghost base: string, ghost texts: seq<string>,
                     layouts: seq<string>, result: seq<Compiled>)
    returns (result': seq<Compiled>)
    requires prefix == Stepwise(base, texts)
    ensures result' == result + CompiledLeaves(base, NodeLeaves(node, texts, layouts))
    decreases node
  {
    match node {
      case Page(path, component, title, meta) =>
        result' := CompileLeaf(path, prefix, base, texts, component, layouts, PageKind, title, meta, result);
      case Get(path, handler) =>
        result' := CompileLeaf(path, prefix, base, texts, handler, [], GetKind, "", [], result);
      case Post(path, handler) =>
        result' := CompileLeaf(path, prefix, base, texts, handler, [], PostKind, "", [], result);
      case Layout(segment, children, layout) =>
        StepwiseSnoc(base, texts, segment);
        var newPrefix := NormalizePath(prefix + segment);
        result' := CompileInner(children, newPrefix, base, texts + [segment], layouts + [layout], result);
    }
  }

  // ----- Positions in the tree -----

  /** The indices of the children on the way from the root to a node. */
  type Position = seq<nat>

  predicate IsNode(nodes: seq<RouteNode>, pos: Position)
    decreases |pos|
  {
    pos != [] && pos[0] < |nodes| &&
    (|pos| > 1 ==> nodes[pos[0]].Layout? && IsNode(nodes[pos[0]].children, pos[1..]))
  }

  function NodeAt(nodes: seq<RouteNode>, pos: Position): RouteNode
    requires IsNode(nodes, pos)
    decreases |pos|
  {
    if |pos| == 1 then nodes[pos[0]] else NodeAt(nodes[pos[0]].children, pos[1..])
  }

  /** The order of positions: by the first index in which they differ. */
  ghost predicate Before(p: Position, q: Position) {
    exists k :: 0 <= k < |p| && k < |q| && p[..k] == q[..k] && p[k] < q[k]
  }

  ghost predicate Rising(places: seq<Position>) {
    forall i, j :: 0 <= i < j < |places| ==> Before(places[i], places[j])
  }

  /** These are the positions of all leaves, in order. */
  ghost predicate Enumerates(nodes: seq<RouteNode>, places: seq<Position>) {
    && Rising(places)
    && (forall pos :: IsNode(nodes, pos) && !NodeAt(nodes, pos).Layout? <==> pos in places)
  }

  /** The `k`-th layout on the way to `pos`, from the root. */
  lemma {:induction false} AncestorIsLayout(nodes: seq<RouteNode>, pos: Position, k: nat)
    requires IsNode(nodes, pos) && k < |pos| - 1
    ensures IsNode(nodes, pos[..k + 1]) && NodeAt(nodes, pos[..k + 1]).Layout?
    ensures LayoutsTo(nodes, pos)[k] == NodeAt(nodes, pos[..k + 1])
    decreases k
  {
    if k > 0 {
      AncestorIsLayout(nodes[pos[0]].children, pos[1..], k - 1);
      assert pos[..k + 1][1..] == pos[1..][..k];
    }
  }

  function LayoutsTo(nodes: seq<RouteNode>, pos: Position): (layouts: seq<RouteNode>)
    requires IsNode(nodes, pos)
    ensures |layouts| == |pos| - 1 && forall k :: 0 <= k < |layouts| ==> layouts[k].Layout?
    decreases |pos|
  {
    if |pos| == 1 then [] else [nodes[pos[0]]] + LayoutsTo(nodes[pos[0]].children, pos[1..])
  }

  /** The compiled route is that of the node at `pos`, which is a leaf. A page keeps its component, title and
      meta and is wrapped in the layouts on the way to it, outermost first; a handler has no layouts. The
      pattern is normalized after every segment on the way and after the leaf's own path. */
  ghost predicate RouteOf(nodes: seq<RouteNode>, pos: Position, base: string, c: Compiled) {
    IsNode(nodes, pos) &&
    match NodeAt(nodes, pos)
    case Page(path, component, title, meta) =>
      && c.kind == PageKind && c.component == component && c.title == title && c.meta == meta
      && WrappedIn(nodes, pos, c.layouts) && PatternOf(nodes, pos, base, path, c)
    case Get(path, handler) =>
      && c.kind == GetKind && c.component == handler && c.layouts == [] && c.title == "" && c.meta == []
      && PatternOf(nodes, pos, base, path, c)
    case Post(path, handler) =>
      && c.kind == PostKind && c.component == handler && c.layouts == [] && c.title == "" && c.meta == []
      && PatternOf(nodes, pos, base, path, c)
    case Layout(_, _, _) => false
  }

  /** The names of the layouts on the way to `pos`, outermost first. */
  ghost predicate WrappedIn(nodes: seq<RouteNode>, pos: Position, names: seq<string>)
    requires pos != []
  {
    && |names| == |pos| - 1
    && forall k :: 0 <= k < |pos| - 1 ==> InLayout(nodes, pos[..k + 1], names[k])
  }

  /** There is a layout at `pos`, of this name. */
  ghost predicate InLayout(nodes: seq<RouteNode>, pos: Position, name: string) {
    IsNode(nodes, pos) && NodeAt(nodes, pos).Layout? && NodeAt(nodes, pos).layout == name
  }

  ghost predicate PatternOf(nodes: seq<RouteNode>, pos: Position, base: string, path: string, c: Compiled)
    requires pos != []
  {
    IsCompiled(c.route) &&
    exists texts :: ChainTo(nodes, pos, path, texts) && ExactPattern(base, texts, c.route.pattern)
  }

  /** The segments on the way to `pos`, and the path of the leaf there. */
  ghost predicate ChainTo(nodes: seq<RouteNode>, pos: Position, path: string, texts: seq<string>)
    requires pos != []
  {
    && |texts| == |pos| && texts[|pos| - 1] == path
    && forall k :: 0 <= k < |pos| - 1 ==> InSegment(nodes, pos[..k + 1], texts[k])
  }

  /** There is a layout at `pos`, with this segment. */
  ghost predicate InSegment(nodes: seq<RouteNode>, pos: Position, segment: string) {
    IsNode(nodes, pos) && NodeAt(nodes, pos).Layout? && NodeAt(nodes, pos).segment == segment
  }

  /** The pattern is normalized after every append, and is the normalization of the whole chain if and only
      if every append but the first was safe. */
  ghost predicate ExactPattern(base: string, texts: seq<string>, pattern: string) {
    pattern == Stepwise(base, texts) && (pattern == Normalize(Concat(base, texts)) <==> AllSafe(base, texts))
  }

  /** The positions of the leaves among the first `n` nodes. */
  ghost function Places(nodes: seq<RouteNode>, n: nat): seq<Position>
    requires n <= |nodes|
    decreases nodes, n
  {
    if n == 0 then [] else Places(nodes, n - 1) + Under(nodes[n - 1], n - 1)
  }

  ghost function Under(node: RouteNode, i: nat): (places: seq<Position>)
    ensures forall k :: 0 <= k < |places| ==> places[k] != [] && places[k][0] == i
  {
    if node.Layout? then Prefixed(i, Places(node.children, |node.children|)) else [[i]]
  }

  ghost function Prefixed(i: nat, places: seq<Position>): (r: seq<Position>)
    ensures |r| == |places| && forall k :: 0 <= k < |r| ==> r[k] == [i] + places[k]
  {
    seq(|places|, k requires 0 <= k < |places| => [i] + places[k])
  }

  /** The leaf's chain and layouts continue those given. */
  ghost predicate LeafAt(nodes: seq<RouteNode>, pos: Position, texts: seq<string>, layouts: seq<string>, leaf: Leaf) {
    IsNode(nodes, pos) && IsLeafOf(NodeAt(nodes, pos), texts + SegmentsOf(LayoutsTo(nodes, pos)),
                                   layouts + NamesOf(LayoutsTo(nodes, pos)), leaf)
  }

  ghost predicate IsLeafOf(node: RouteNode, texts: seq<string>, layouts: seq<string>, leaf: Leaf) {
    match node
    case Page(path, component, title, meta) => leaf == Leaf(texts + [path], component, layouts, PageKind, title, meta)
    case Get(path, handler) => leaf == Leaf(texts + [path], handler, [], GetKind, "", [])
    case Post(path, handler) => leaf == Leaf(texts + [path], handler, [], PostKind, "", [])
    case Layout(_, _, _) => false
  }

  ghost function SegmentsOf(layouts: seq<RouteNode>): seq<string>
    requires forall k :: 0 <= k < |layouts| ==> layouts[k].Layout?
  {
    seq(|layouts|, k requires 0 <= k < |layouts| => layouts[k].segment)
  }

  ghost function NamesOf(layouts: seq<RouteNode>): seq<string>
    requires forall k :: 0 <= k < |layouts| ==> layouts[k].Layout?
  {
    seq(|layouts|, k requires 0 <= k < |layouts| => layouts[k].layout)
  }

  lemma LeafBelow(nodes: seq<RouteNode>, i: nat, p: Position, texts: seq<string>, layouts: seq<string>, leaf: Leaf)
    requires i < |nodes| && nodes[i].Layout?
    requires LeafAt(nodes[i].children, p, texts + [nodes[i].segment], layouts + [nodes[i].layout], leaf)
    ensures LeafAt(nodes, [i] + p, texts, layouts, leaf)
  {
    var pos, below := [i] + p, LayoutsTo(nodes[i].children, p);
    assert pos[1..] == p;
    assert LayoutsTo(nodes, pos) == [nodes[i]] + below;
    assert SegmentsOf([nodes[i]] + below) == [nodes[i].segment] + SegmentsOf(below);
    assert NamesOf([nodes[i]] + below) == [nodes[i].layout] + NamesOf(below);
    Regroup(texts, [nodes[i].segment], SegmentsOf(below));
    Regroup(layouts, [nodes[i].layout], NamesOf(below));
  }

  /** The leaves are those at the places, each with the chain and the layouts on the way to it. */
  lemma {:induction false} LeavesAtPlaces(nodes: seq<RouteNode>, n: nat, texts: seq<string>, layouts: seq<string>)
    requires n <= |nodes|
    ensures var leaves, places := LeavesUpTo(nodes, n, texts, layouts), Places(nodes, n);
            && |leaves| == |places|
            && forall k :: 0 <= k < |places| ==> LeafAt(nodes, places[k], texts, layouts, leaves[k])
    decreases nodes, n
  {
    if n > 0 {
      LeavesAtPlaces(nodes, n - 1, texts, layouts);
      NodeAtPlaces(nodes, n - 1, texts, layouts);
    }
  }

  lemma {:induction false} NodeAtPlaces(nodes: seq<RouteNode>, i: nat, texts: seq<string>, layouts: seq<string>)
    requires i < |nodes|
    ensures var leaves, places := NodeLeaves(nodes[i], texts, layouts), Under(nodes[i], i);
            && |leaves| == |places|
            && forall k :: 0 <= k < |places| ==> LeafAt(nodes, places[k], texts, layouts, leaves[k])
    decreases nodes, i
  {
    var node, leaves, places := nodes[i], NodeLeaves(nodes[i], texts, layouts), Under(nodes[i], i);
    if node.Layout? {
      LeavesAtPlaces(node.children, |node.children|, texts + [node.segment], layouts + [node.layout]);
      assert NodeLeaves(node, texts, layouts) ==
             Leaves(node.children, texts + [node.segment], layouts + [node.layout]);
      forall k | 0 <= k < |places| ensures LeafAt(nodes, places[k], texts, layouts, leaves[k]) {
        LeafBelow(nodes, i, Places(node.children, |node.children|)[k], texts, layouts, leaves[k]);
      }
    } else {
      assert NodeAt(nodes, [i]) == node;
      assert texts + SegmentsOf([]) == texts && layouts + NamesOf([]) == layouts;
    }
  }

  lemma BeforeBelow(i: nat, p: Position, q: Position)
    requires Before(p, q)
    ensures Before([i] + p, [i] + q)
  {
    var k :| 0 <= k < |p| && k < |q| && p[..k] == q[..k] && p[k] < q[k];
    assert ([i] + p)[..k + 1] == [i] + p[..k] && ([i] + q)[..k + 1] == [i] + q[..k];
    assert ([i] + p)[k + 1] < ([i] + q)[k + 1];
  }

  lemma {:induction false} PlacesBelow(nodes: seq<RouteNode>, n: nat)
    requires n <= |nodes|
    ensures forall p :: p in Places(nodes, n) ==> p != [] && p[0] < n
  {
    if n > 0 { PlacesBelow(nodes, n - 1); }
  }

  lemma {:induction false} PlacesRise(nodes: seq<RouteNode>, n: nat)
    requires n <= |nodes|
    ensures Rising(Places(nodes, n))
    decreases nodes, n
  {
    if n > 0 {
      PlacesRise(nodes, n - 1);
      PlacesBelow(nodes, n - 1);
      if nodes[n - 1].Layout? {
        PlacesRise(nodes[n - 1].children, |nodes[n - 1].children|);
        PrefixedRises(n - 1, Places(nodes[n - 1].children, |nodes[n - 1].children|));
      }
      RisesOn(Places(nodes, n - 1), Under(nodes[n - 1], n - 1), n - 1);
    }
  }

  lemma PrefixedRises(i: nat, places: seq<Position>)
    requires Rising(places)
    ensures Rising(Prefixed(i, places))
  {
    forall j, k | 0 <= j < k < |places| ensures Before(Prefixed(i, places)[j], Prefixed(i, places)[k]) {
      BeforeBelow(i, places[j], places[k]);
    }
  }

  lemma RisesOn(before: seq<Position>, more: seq<Position>, n: nat)
    requires Rising(before) && Rising(more)
    requires forall p :: p in before ==> p != [] && p[0] < n
    requires forall p :: p in more ==> p != [] && p[0] == n
    ensures Rising(before + more)
  {
    var all := before + more;
    forall i, j | 0 <= i < j < |all| ensures Before(all[i], all[j]) {
      if i < |before| <= j {
        assert all[i] in before && all[j] in more && all[i][..0] == all[j][..0];
      } else if i >= |before| {
        assert Before(more[i - |before|], more[j - |before|]);
      }
    }
  }

  lemma {:induction false} PlacesComplete(nodes: seq<RouteNode>, n: nat, pos: Position)
    requires n <= |nodes| && IsNode(nodes, pos) && !NodeAt(nodes, pos).Layout? && pos[0] < n
    ensures pos in Places(nodes, n)
    decreases |pos|, n
  {
    var node, under := nodes[n - 1], Under(nodes[n - 1], n - 1);
    if pos[0] < n - 1 {
      PlacesComplete(nodes, n - 1, pos);
    } else if |pos| == 1 {
      assert under == [[n - 1]] && pos == [n - 1];
    } else {
      var below := Places(node.children, |node.children|);
      PlacesComplete(node.children, |node.children|, pos[1..]);
      var k :| 0 <= k < |below| && below[k] == pos[1..];
      assert under[k] == [n - 1] + pos[1..] == pos;
    }
  }

  lemma PlacesEnumerate(nodes: seq<RouteNode>)
    ensures Enumerates(nodes, Places(nodes, |nodes|))
  {
    var places := Places(nodes, |nodes|);
    PlacesRise(nodes, |nodes|);
    LeavesAtPlaces(nodes, |nodes|, [], []);
    forall pos ensures IsNode(nodes, pos) && !NodeAt(nodes, pos).Layout? <==> pos in places {
      if IsNode(nodes, pos) && !NodeAt(nodes, pos).Layout? { PlacesComplete(nodes, |nodes|, pos); }
      if pos in places {
        var k :| 0 <= k < |places| && places[k] == pos;
        assert LeafAt(nodes, places[k], [], [], Leaves(nodes, [], [])[k]);
      }
    }
  }

  lemma LeafPattern(nodes: seq<RouteNode>, pos: Position, base: string, path: string, texts: seq<string>, c: Compiled)
    requires IsNode(nodes, pos) && texts == SegmentsOf(LayoutsTo(nodes, pos)) + [path]
    requires c.route == RouteFor(Stepwise(base, texts))
    ensures PatternOf(nodes, pos, base, path, c)
  {
    PatternOfWholeChain(base, texts);
    ChainIs(nodes, pos, path, texts);
    assert ExactPattern(base, texts, c.route.pattern);
  }

  lemma ChainIs(nodes: seq<RouteNode>, pos: Position, path: string, texts: seq<string>)
    requires IsNode(nodes, pos) && texts == SegmentsOf(LayoutsTo(nodes, pos)) + [path]
    ensures ChainTo(nodes, pos, path, texts)
  {
    forall k | 0 <= k < |pos| - 1 ensures InSegment(nodes, pos[..k + 1], texts[k]) {
      AncestorIsLayout(nodes, pos, k);
    }
  }

  lemma LayoutsAre(nodes: seq<RouteNode>, pos: Position, names: seq<string>)
    requires IsNode(nodes, pos) && names == NamesOf(LayoutsTo(nodes, pos))
    ensures WrappedIn(nodes, pos, names)
  {
    forall k | 0 <= k < |pos| - 1 ensures InLayout(nodes, pos[..k + 1], names[k]) {
      AncestorIsLayout(nodes, pos, k);
    }
  }

  lemma LeafRoute(nodes: seq<RouteNode>, pos: Position, base: string, leaf: Leaf)
    requires LeafAt(nodes, pos, [], [], leaf)
    ensures RouteOf(nodes, pos, base, CompiledLeaf(base, leaf))
  {
    var layouts := LayoutsTo(nodes, pos);
    var chain, names := SegmentsOf(layouts), NamesOf(layouts);
    assert [] + chain == chain && [] + names == names;
    LayoutsAre(nodes, pos, names);
    LeafPattern(nodes, pos, base, NodeAt(nodes, pos).path, leaf.texts, CompiledLeaf(base, leaf));
  }

  /** `compile`: one route for each leaf of the tree, in the order of their positions. */
  method Compile(nodes: seq<RouteNode>, base: string) returns (result: seq<Compiled>, ghost places: seq<Position>)
    ensures result == CompiledLeaves(base, Leaves(nodes, [], []))
    ensures Enumerates(nodes, places) && |places| == |result|
    ensures forall k :: 0 <= k < |result| ==> RouteOf(nodes, places[k], base, result[k])
  {
    result := CompileInner(nodes, base, base, [], [], []);
    assert [] + CompiledLeaves(base, Leaves(nodes, [], [])) == CompiledLeaves(base, Leaves(nodes, [], []));
    ghost var leaves := Leaves(nodes, [], []);
    places := Places(nodes, |nodes|);
    PlacesEnumerate(nodes);
    LeavesAtPlaces(nodes, |nodes|, [], []);
    forall k | 0 <= k < |result| ensures RouteOf(nodes, places[k], base, result[k]) {
      CompiledAt(base, leaves, k);
      LeafRoute(nodes, places[k], base, leaves[k]);
    }
  }

  /** In particular the pattern is that of the whole chain where every segment on the way, and the path, is
      empty or begins with a slash. */
  lemma RootedPatterns(base: string, texts: seq<string>, pattern: string)
    requires ExactPattern(base, texts, pattern)
    requires forall k :: 0 <= k < |texts| ==> texts[k] == "" || texts[k][0] == '/'
    ensures pattern == Normalize(Concat(base, texts))
  {
    assert AllSafe(base, texts);
  }
}
