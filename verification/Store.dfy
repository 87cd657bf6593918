/** createStore of js/luna: a nested object that is mutated in place, and a cache holding one
    signal per property path that has been read. A write refreshes the signals at and below the
    written path only; ancestors are deliberately not notified. */
module Store {
  import opened ObjectHeap
  import opened Text

  const DOT := '.'

  /** A cache agrees with the object if each signal holds what its path leads to now. */
  ghost predicate Coherent(h: Heap, root: Value, signals: map<string, Value>) {
    forall key :: key in signals ==> signals[key] == Resolve(h, root, Split(key, DOT))
  }

  /** The keys refreshed by a write to `path`. */
  predicate Affected(key: string, path: Path) {
    key == Join(path, DOT) || StartsWith(key, Join(path, DOT) + [DOT])
  }

  function Refresh(h: Heap, root: Value, path: Path, signals: map<string, Value>): map<string, Value> {
    map key | key in signals :: if Affected(key, path) then Resolve(h, root, Split(key, DOT)) else signals[key]
  }

  /** The length of the shortest strict prefix of `path`, longer than `m`, that leads to null or
      undefined; the whole length if there is none. */
  ghost function FirstMissing(h: Heap, root: Value, path: Path, m: nat): (j: nat)
    requires m < |path|
    ensures m < j <= |path|
    ensures forall k :: m < k < j ==> !Resolve(h, root, path[..k]).Nullish()
    ensures j < |path| ==> Resolve(h, root, path[..j]).Nullish()
    decreases |path| - m
  {
    if m + 1 == |path| || Resolve(h, root, path[..m + 1]).Nullish() then m + 1
    else FirstMissing(h, root, path, m + 1)
  }

  /** A strict prefix of the path holds a primitive, so the assignment throws. */
  ghost predicate Blocked(h: Heap, root: Value, path: Path) {
    exists m :: 0 < m < |path| && Resolve(h, root, path[..m]).Prim?
  }

  /** Everything an assignment at `path` changes, intermediate objects included: with `j` the first
      missing prefix, paths not through it are unchanged; the missing prefixes now hold new
      objects with nothing else in them; at and below `path` there is the new value. */
  ghost predicate Updated(h: Heap, h': Heap, root: Value, path: Path, w: Value)
    requires |path| > 0
  {
    var j := FirstMissing(h, root, path, 0);
    && (forall q: Path :: !(path[..j] <= q) ==> Resolve(h', root, q) == Resolve(h, root, q))
    && (forall m :: j <= m < |path| ==> Resolve(h', root, path[..m]).Ref? && !InHeap(h, Resolve(h', root, path[..m])))
    && (forall q: Path :: path[..j] <= q && !(q <= path) && !(path <= q) ==> Resolve(h', root, q) == Undefined)
    && (forall q: Path :: path <= q ==> Resolve(h', root, q) == Resolve(h, w, q[|path|..]))
  }

  /** The value can be linked at `path` without giving any object a second path. */
  ghost predicate Linkable(h: Heap, root: Value, path: Path, w: Value) {
    InHeap(h, w) && TreeShaped(h, w) && Separate(h, root, path, w)
  }

  ghost predicate WellFormed(h: Heap, root: Value) {
    Closed(h) && InHeap(h, root) && TreeShaped(h, root)
  }

  /** Set, then get. */
  lemma SetThenGet(h: Heap, h': Heap, root: Value, path: Path, w: Value)
    requires |path| > 0 && Updated(h, h', root, path, w)
    ensures Resolve(h', root, path) == w
  {
    assert path[|path|..] == [];
  }

  /** Paths that are neither above nor below the written one keep their value, also when
      intermediate objects had to be created. */
  lemma IncomparableUnchanged(h: Heap, h': Heap, root: Value, path: Path, w: Value, q: Path)
    requires |path| > 0 && Updated(h, h', root, path, w)
    requires !(path <= q) && !(q <= path)
    ensures Resolve(h', root, q) == Resolve(h, root, q)
  {
    var j := FirstMissing(h, root, path, 0);
    if path[..j] <= q {
      assert j < |path| && path[..j] < q;
      NothingBelow(h, root, path[..j], q);
    }
  }

  /** Ancestors keep the identical object, unless there was none. */
  lemma AncestorUnchanged(h: Heap, h': Heap, root: Value, path: Path, w: Value, m: nat)
    requires |path| > 0 && Updated(h, h', root, path, w) && m < |path|
    ensures Resolve(h', root, path[..m]) == Resolve(h, root, path[..m]) <==> m < FirstMissing(h, root, path, 0)
    ensures m >= FirstMissing(h, root, path, 0) ==> Resolve(h, root, path[..m]).Nullish()
  {
    var j := FirstMissing(h, root, path, 0);
    if m < j {
      assert !(path[..j] <= path[..m]);
    } else if m > j {
      NothingBelow(h, root, path[..j], path[..m]);
    }
  }

  /** No cached signal sits on a strict prefix of the path that leads nowhere yet. */
  predicate NoStaleAncestor(h: Heap, root: Value, path: Path, signals: map<string, Value>) {
    forall m :: 0 < m < |path| && Resolve(h, root, path[..m]).Nullish() ==> Join(path[..m], DOT) !in signals
  }

  /** The central property of the store. Refreshing only the written path and what lies below it
      keeps every cached signal right, ancestors included, exactly when no ancestor that had to be
      created was cached. */
  lemma RefreshIsEnough(h: Heap, h': Heap, root: Value, path: Path, w: Value, signals: map<string, Value>)
    requires |path| > 0 && AllFree(path, DOT) && Updated(h, h', root, path, w)
    requires Coherent(h, root, signals)
    ensures Coherent(h', root, Refresh(h', root, path, signals)) <==> NoStaleAncestor(h, root, path, signals)
  {
    var after := Refresh(h', root, path, signals);
    if NoStaleAncestor(h, root, path, signals) {
      forall key | key in after ensures after[key] == Resolve(h', root, Split(key, DOT)) {
        UnaffectedKeyRight(h, h', root, path, w, signals, key);
      }
    } else {
      var m :| 0 < m < |path| && Resolve(h, root, path[..m]).Nullish() && Join(path[..m], DOT) in signals;
      StaleAncestor(h, h', root, path, w, signals, m);
    }
  }

  lemma UnaffectedKeyRight(h: Heap, h': Heap, root: Value, path: Path, w: Value, signals: map<string, Value>,
                           key: string)
    requires |path| > 0 && AllFree(path, DOT) && Updated(h, h', root, path, w)
    requires Coherent(h, root, signals) && NoStaleAncestor(h, root, path, signals) && key in signals
    ensures Refresh(h', root, path, signals)[key] == Resolve(h', root, Split(key, DOT))
  {
    var q := Split(key, DOT);
    KeyBelowPath(path, key, DOT);
    if !Affected(key, path) {
      if q < path {
        JoinSplit(key, DOT);
        assert q == path[..|q|];
        AncestorUnchanged(h, h', root, path, w, |q|);
      } else {
        IncomparableUnchanged(h, h', root, path, w, q);
      }
    }
  }

  lemma StaleAncestor(h: Heap, h': Heap, root: Value, path: Path, w: Value, signals: map<string, Value>, m: nat)
    requires |path| > 0 && AllFree(path, DOT) && Updated(h, h', root, path, w)
    requires Coherent(h, root, signals)
    requires 0 < m < |path| && Resolve(h, root, path[..m]).Nullish() && Join(path[..m], DOT) in signals
    ensures !Coherent(h', root, Refresh(h', root, path, signals))
  {
    var key := Join(path[..m], DOT);
    SplitJoin(path[..m], DOT);
    KeyBelowPath(path, key, DOT);
    AncestorUnchanged(h, h', root, path, w, m);
    assert m >= FirstMissing(h, root, path, 0);
    assert Refresh(h', root, path, signals)[key] == signals[key];
  }

  /** Objects were created for the prefixes of lengths `j` to `i`, the last of them still empty. */
  ghost predicate Chain(h0: Heap, h: Heap, root: Value, path: Path, j: nat, i: nat)
    requires i < |path| && j <= i
  {
    && (forall q: Path :: !(path[..j] <= q) ==> Resolve(h, root, q) == Resolve(h0, root, q))
    && (forall m :: j <= m <= i ==> Resolve(h, root, path[..m]).Ref? && !InHeap(h0, Resolve(h, root, path[..m])))
    && (forall q: Path :: path[..j] <= q && !(q <= path[..i]) ==> Resolve(h, root, q) == Undefined)
  }

  /** The state of the assignment loop after `i` steps: untouched as long as no prefix was missing;
      then a chain of new objects. */
  ghost predicate Progress(h0: Heap, h: Heap, root: Value, path: Path, w: Value, i: nat)
    requires i < |path|
  {
    var j := FirstMissing(h0, root, path, 0);
    && WellFormed(h, root) && Linkable(h, root, path, w)
    && Resolve(h, root, path[..i]).Ref?
    && SameWalks(h0, h, w)
    && h0.Keys <= h.Keys
    && if i < j then h == h0 else Chain(h0, h, root, path, j, i)
  }

  /** Once an object had to be created, it is empty. */
  lemma EmptyAfterCreation(h0: Heap, h: Heap, root: Value, path: Path, w: Value, i: nat)
    requires i < |path| && Progress(h0, h, root, path, w, i)
    ensures i >= FirstMissing(h0, root, path, 0) ==> Resolve(h, root, path[..i + 1]) == Undefined
  {
    var j := FirstMissing(h0, root, path, 0);
    if i >= j {
      assert path[..j] <= path[..i + 1] && !(path[..i + 1] <= path[..i]);
    }
  }

  /** `current = current[key]` where there is an object already. */
  lemma DescendExisting(h0: Heap, h: Heap, root: Value, path: Path, w: Value, i: nat)
    requires i + 1 < |path| && Progress(h0, h, root, path, w, i)
    requires Resolve(h, root, path[..i + 1]).Ref?
    ensures Progress(h0, h, root, path, w, i + 1)
  {
    EmptyAfterCreation(h0, h, root, path, w, i);
  }

  /** A primitive in the way was there from the start. */
  lemma BlockedFromStart(h0: Heap, h: Heap, root: Value, path: Path, w: Value, i: nat)
    requires i + 1 < |path| && Progress(h0, h, root, path, w, i)
    requires Resolve(h, root, path[..i + 1]).Prim?
    ensures h == h0 && Blocked(h0, root, path)
  {
    EmptyAfterCreation(h0, h, root, path, w, i);
  }

  /** `current[key] = {}` and on into the new object. */
  lemma CreateMissing(h0: Heap, h: Heap, root: Value, path: Path, w: Value, i: nat, n: nat, id: nat, node: Node)
    requires i + 1 < |path| && Progress(h0, h, root, path, w, i)
    requires Resolve(h, root, path[..i]) == Ref(n) && n in h
    requires Resolve(h, root, path[..i + 1]).Nullish()
    requires id !in h && node.fields == map[]
    ensures Progress(h0, Write(h[id := node], n, path[i], Ref(id)), root, path, w, i + 1)
    ensures CreatedAt(h, Write(h[id := node], n, path[i], Ref(id)), root, path[..i + 1], id)
  {
    var h2, j := Write(h[id := node], n, path[i], Ref(id)), FirstMissing(h0, root, path, 0);
    assert path[..i] + [path[i]] == path[..i + 1];
    CreateAt(h, root, path, w, path[..i], path[i], n, id, node);
    if i + 1 == j {
      ChainStarts(h, h2, root, path, i + 1, id);
    } else {
      assert j <= i;
      ChainGrows(h0, h, h2, root, path, j, i, id);
    }
  }

  /** A new empty object at `slot`. */
  ghost predicate CreatedAt(h: Heap, h2: Heap, root: Value, slot: Path, id: nat) {
    && id !in h && Resolve(h2, root, slot) == Ref(id)
    && (forall q: Path :: !(slot <= q) ==> Resolve(h2, root, q) == Resolve(h, root, q))
    && (forall q: Path :: slot < q ==> Resolve(h2, root, q) == Undefined)
  }

  lemma CreateAt(h: Heap, root: Value, path: Path, w: Value, parent: Path, key: string, n: nat, id: nat, node: Node)
    requires WellFormed(h, root) && Linkable(h, root, path, w)
    requires Resolve(h, root, parent) == Ref(n) && n in h && !(path <= parent)
    requires id !in h && node.fields == map[]
    ensures var h2 := Write(h[id := node], n, key, Ref(id));
            && CreatedAt(h, h2, root, parent + [key], id)
            && WellFormed(h2, root) && Linkable(h2, root, path, w) && SameWalks(h, h2, w)
  {
    var h1, obj, slot := h[id := node], Ref(id), parent + [key];
    AllocateKeepsShape(h, id, node, root, path, w);
    FreshIsLinkable(h, id, node, root, slot);
    AssignSlot(h1, root, parent, n, key, obj);
    var h2 := Write(h1, n, key, obj);
    assert slot[|slot|..] == [];
    forall q: Path | slot < q ensures Resolve(h2, root, q) == Undefined {
      NothingInFresh(h1, id, q[|slot|..]);
    }
    assert CreatedAt(h, h2, root, slot, id);
    UnreachedUnchanged(h1, n, key, obj, w);
    SameWalksSameShape(h, h2, w);
    CreatedStillSeparate(h, h2, root, path, w, slot, id);
  }

  lemma ChainStarts(h: Heap, h2: Heap, root: Value, path: Path, j: nat, id: nat)
    requires j < |path| && CreatedAt(h, h2, root, path[..j], id)
    ensures Chain(h, h2, root, path, j, j)
  {
  }

  lemma ChainGrows(h0: Heap, h: Heap, h2: Heap, root: Value, path: Path, j: nat, i: nat, id: nat)
    requires j <= i && i + 1 < |path| && Chain(h0, h, root, path, j, i)
    requires CreatedAt(h, h2, root, path[..i + 1], id) && h0.Keys <= h.Keys
    ensures Chain(h0, h2, root, path, j, i + 1)
  {
    var slot := path[..i + 1];
    forall q: Path | !(path[..j] <= q) ensures Resolve(h2, root, q) == Resolve(h0, root, q) {
      assert !(slot <= q);
    }
    forall m | j <= m <= i + 1
      ensures Resolve(h2, root, path[..m]).Ref? && !InHeap(h0, Resolve(h2, root, path[..m]))
    {
      if m <= i { assert !(slot <= path[..m]); }
    }
    forall q: Path | path[..j] <= q && !(q <= slot) ensures Resolve(h2, root, q) == Undefined {
      if !(slot <= q) { assert !(q <= path[..i]); }
    }
  }

  lemma CreatedStillSeparate(h: Heap, h2: Heap, root: Value, path: Path, w: Value, slot: Path, id: nat)
    requires Closed(h) && InHeap(h, w) && Separate(h, root, path, w)
    requires CreatedAt(h, h2, root, slot, id) && SameWalks(h, h2, w)
    ensures Separate(h2, root, path, w)
  {
    forall q: Path, r: Path | Resolve(h2, root, q).Ref? && Resolve(h2, root, q) == Resolve(h2, w, r)
      ensures path <= q
    {
      ResolveInHeap(h, w, r);
      assert Resolve(h, w, r) == Resolve(h2, w, r);
      assert q != slot && !(slot < q);
      assert Resolve(h, root, q) == Resolve(h2, root, q);
    }
  }

  lemma AllocateKeepsShape(h: Heap, id: nat, node: Node, root: Value, path: Path, w: Value)
    requires WellFormed(h, root) && Linkable(h, root, path, w) && id !in h && node.fields == map[]
    ensures WellFormed(h[id := node], root) && Linkable(h[id := node], root, path, w)
    ensures SameWalks(h, h[id := node], root) && SameWalks(h, h[id := node], w)
  {
    var h1 := h[id := node];
    AllocateSameWalks(h, id, node, root);
    AllocateSameWalks(h, id, node, w);
    SameWalksSameShape(h, h1, root);
    SameWalksSameShape(h, h1, w);
    forall q: Path, r: Path | Resolve(h1, root, q).Ref? && Resolve(h1, root, q) == Resolve(h1, w, r)
      ensures path <= q
    {
      assert Resolve(h, root, q) == Resolve(h, w, r);
    }
  }

  lemma FreshIsLinkable(h: Heap, id: nat, node: Node, root: Value, slot: Path)
    requires WellFormed(h, root) && id !in h && node.fields == map[]
    ensures Linkable(h[id := node], root, slot, Ref(id))
  {
    var h1 := h[id := node];
    forall q: Path ensures Resolve(h1, root, q) != Ref(id) {
      AllocateUnseen(h, id, node, root, q);
      ResolveInHeap(h, root, q);
    }
    forall r: Path | r != [] ensures Resolve(h1, Ref(id), r) == Undefined {
      NothingInFresh(h1, id, r);
    }
    assert forall r: Path :: Resolve(h1, Ref(id), r).Ref? ==> r == [];
  }

  lemma ObjectsAbove(h: Heap, v: Value, q: Path, p: Path)
    requires Resolve(h, v, q).Ref? && p <= q
    ensures Resolve(h, v, p).Ref?
  {
    if |p| == |q| {
      assert p == q;
    } else if !Resolve(h, v, p).Ref? {
      NothingBelow(h, v, p, q);
    }
  }

  lemma NotBlocked(h0: Heap, h: Heap, root: Value, path: Path, w: Value)
    requires |path| > 0 && Progress(h0, h, root, path, w, |path| - 1)
    ensures !Blocked(h0, root, path)
  {
    var j := FirstMissing(h0, root, path, 0);
    forall m | 0 < m < |path| ensures !Resolve(h0, root, path[..m]).Prim? {
      if m < j {
        ObjectsAbove(h, root, path[..|path| - 1], path[..m]);
        assert !(path[..j] <= path[..m]);
      } else if m > j {
        NothingBelow(h0, root, path[..j], path[..m]);
      }
    }
  }

  /** `current[last] = value`, when all but the last key have been walked. */
  lemma FinishAssignment(h0: Heap, h: Heap, root: Value, path: Path, w: Value, n: nat)
    requires |path| > 0 && Progress(h0, h, root, path, w, |path| - 1)
    requires Resolve(h, root, path[..|path| - 1]) == Ref(n) && n in h
    ensures WellFormed(Write(h, n, path[|path| - 1], w), root)
    ensures AssignedAt(h, Write(h, n, path[|path| - 1], w), root, path, w)
    ensures Updated(h0, Write(h, n, path[|path| - 1], w), root, path, w)
  {
    assert path[..|path| - 1] + [path[|path| - 1]] == path;
    AssignSlot(h, root, path[..|path| - 1], n, path[|path| - 1], w);
    AssignedUpdates(h0, h, Write(h, n, path[|path| - 1], w), root, path, w);
  }

  lemma Finish(h0: Heap, h: Heap, root: Value, path: Path, w: Value, n: nat)
    requires |path| > 0 && Progress(h0, h, root, path, w, |path| - 1)
    requires Resolve(h, root, path[..|path| - 1]) == Ref(n) && n in h
    ensures !Blocked(h0, root, path) && WellFormed(Write(h, n, path[|path| - 1], w), root)
    ensures Updated(h0, Write(h, n, path[|path| - 1], w), root, path, w)
    ensures AssignedAt(h, Write(h, n, path[|path| - 1], w), root, path, w)
  {
    NotBlocked(h0, h, root, path, w);
    FinishAssignment(h0, h, root, path, w, n);
  }

  lemma AssignedUpdates(h0: Heap, h: Heap, h': Heap, root: Value, path: Path, w: Value)
    requires |path| > 0 && AssignedAt(h, h', root, path, w) && SameWalks(h0, h, w)
    requires var j := FirstMissing(h0, root, path, 0);
             if j == |path| then h == h0 else Chain(h0, h, root, path, j, |path| - 1)
    ensures Updated(h0, h', root, path, w)
  {
    var j := FirstMissing(h0, root, path, 0);
    if j < |path| {
      ChainFinished(h0, h, h', root, path, w, j);
    } else {
      assert path[..j] == path;
    }
  }

  lemma ChainFinished(h0: Heap, h: Heap, h': Heap, root: Value, path: Path, w: Value, j: nat)
    requires 0 < j < |path| && Chain(h0, h, root, path, j, |path| - 1)
    requires AssignedAt(h, h', root, path, w)
    ensures forall q: Path :: !(path[..j] <= q) ==> Resolve(h', root, q) == Resolve(h0, root, q)
    ensures forall m :: j <= m < |path| ==>
              Resolve(h', root, path[..m]).Ref? && !InHeap(h0, Resolve(h', root, path[..m]))
    ensures forall q: Path :: path[..j] <= q && !(q <= path) && !(path <= q) ==> Resolve(h', root, q) == Undefined
  {
    forall q: Path | !(path[..j] <= q) ensures Resolve(h', root, q) == Resolve(h0, root, q) {
      assert !(path <= q);
    }
    forall m | j <= m < |path|
      ensures Resolve(h', root, path[..m]).Ref? && !InHeap(h0, Resolve(h', root, path[..m]))
    {
      assert !(path <= path[..m]);
    }
    forall q: Path | path[..j] <= q && !(q <= path) && !(path <= q) ensures Resolve(h', root, q) == Undefined {
      assert !(q <= path[..|path| - 1]);
    }
  }

  /** `/^\d+$/` */
  predicate IsDigits(s: string) {
    s != "" && forall i :: 0 <= i < |s| ==> '0' <= s[i] <= '9'
  }

  /** The object `{ ...a, ...b }`. */
  function Spread(h: Heap, a: nat, b: nat): Node
    requires a in h && b in h
  {
    Node(false, h[a].fields + h[b].fields)
  }

  /** No object of `v` is reachable from the root. */
  ghost predicate Apart(h: Heap, root: Value, v: Value) {
    forall q: Path, r: Path :: Resolve(h, root, q).Ref? ==> Resolve(h, root, q) != Resolve(h, v, r)
  }

  /** Below a spread object there is what was below the later operand, else below the earlier. */
  lemma {:induction false} SpreadResolves(h: Heap, a: nat, b: nat, id: nat, q: Path)
    requires Closed(h) && a in h && b in h && id !in h && q != []
    ensures Resolve(h[id := Spread(h, a, b)], Ref(id), q) ==
            Resolve(h, Ref(if q[0] in h[b].fields then b else a), q)
  {
    var h1, src, q0 := h[id := Spread(h, a, b)], Ref(if q[0] in h[b].fields then b else a), q[..|q| - 1];
    if q0 != [] {
      SpreadResolves(h, a, b, id, q0);
      ResolveInHeap(h, src, q0);
    } else {
      assert Resolve(h1, Ref(id), q0) == Ref(id) && Resolve(h, src, q0) == src;
    }
  }

  /** Merging into the object at `path` yields a value that can be linked there. */
  lemma SpreadLinkable(h: Heap, root: Value, path: Path, a: nat, b: nat, id: nat)
    requires WellFormed(h, root) && Resolve(h, root, path) == Ref(a) && a in h && b in h && id !in h
    requires TreeShaped(h, Ref(b)) && Apart(h, root, Ref(b))
    ensures var h1 := h[id := Spread(h, a, b)];
            WellFormed(h1, root) && Linkable(h1, root, path, Ref(id))
  {
    var h1, m := h[id := Spread(h, a, b)], Ref(id);
    forall q: Path ensures Resolve(h1, root, q) == Resolve(h, root, q) != m {
      AllocateUnseen(h, id, Spread(h, a, b), root, q);
      ResolveInHeap(h, root, q);
    }
    SameWalksSameShape(h, h1, root);
    forall r: Path | r != []
      ensures Resolve(h1, m, r) == if r[0] in h[b].fields then Resolve(h, Ref(b), r) else Resolve(h, root, path + r)
      ensures Resolve(h1, m, r) != m
    {
      SpreadResolves(h, a, b, id, r);
      ResolveConcat(h, root, path, r);
      ResolveInHeap(h, Ref(b), r);
      ResolveInHeap(h, root, path + r);
    }
    forall p: Path, q: Path | Resolve(h1, m, p).Ref? && Resolve(h1, m, p) == Resolve(h1, m, q) ensures p == q {
      if p != [] && q != [] {
        SpreadInjective(h, root, path, b, h1, m, p, q);
      }
    }
    forall q: Path, r: Path | Resolve(h1, root, q).Ref? && Resolve(h1, root, q) == Resolve(h1, m, r)
      ensures path <= q
    {
      assert r != [];
      assert r[0] !in h[b].fields;
      assert q == path + r;
    }
  }

  lemma SpreadInjective(h: Heap, root: Value, path: Path, b: nat, h1: Heap, m: Value, p: Path, q: Path)
    requires TreeShaped(h, root) && b in h && TreeShaped(h, Ref(b)) && Apart(h, root, Ref(b))
    requires p != [] && q != []
    requires Resolve(h1, m, p) == if p[0] in h[b].fields then Resolve(h, Ref(b), p) else Resolve(h, root, path + p)
    requires Resolve(h1, m, q) == if q[0] in h[b].fields then Resolve(h, Ref(b), q) else Resolve(h, root, path + q)
    requires Resolve(h1, m, p).Ref? && Resolve(h1, m, p) == Resolve(h1, m, q)
    ensures p == q
  {
    assert (p[0] in h[b].fields) == (q[0] in h[b].fields);
    if p[0] !in h[b].fields {
      assert path + p == path + q;
      assert p == (path + p)[|path|..] && q == (path + q)[|path|..];
    }
  }

  /** The last argument of `setState`. Objects an updater allocates are in the heap beforehand. */
  datatype Arg = Plain(v: Value) | Updater(f: Value -> Value)

  /** Objects merge into objects; arrays, updaters and primitives replace. */
  predicate Merges(h: Heap, current: Value, arg: Arg) {
    && arg.Plain? && arg.v.Ref? && arg.v.id in h && !h[arg.v.id].isArray
    && current.Ref? && current.id in h && !h[current.id].isArray
  }

  /** What the caller owes to keep the object graph a tree: new data, or data from below the path. */
  ghost predicate ArgOk(h: Heap, root: Value, path: Path, arg: Arg) {
    var current := Resolve(h, root, path);
    if Merges(h, current, arg) then TreeShaped(h, arg.v) && Apart(h, root, arg.v)
    else Linkable(h, root, path, if arg.Plain? then arg.v else arg.f(current))
  }

  lemma MergeNotBlocked(h: Heap, root: Value, path: Path)
    requires Resolve(h, root, path).Ref?
    ensures !Blocked(h, root, path)
  {
    forall m | 0 < m < |path| ensures !Resolve(h, root, path[..m]).Prim? {
      ObjectsAbove(h, root, path, path[..m]);
    }
  }

  lemma SameWalksSameCache(h: Heap, h1: Heap, root: Value, path: Path, signals: map<string, Value>)
    requires SameWalks(h, h1, root)
    ensures Coherent(h, root, signals) ==> Coherent(h1, root, signals)
    ensures NoStaleAncestor(h1, root, path, signals) <==> NoStaleAncestor(h, root, path, signals)
  {
  }

  lemma SameWalksSameBlocked(h: Heap, h1: Heap, root: Value, path: Path)
    requires SameWalks(h, h1, root)
    ensures Blocked(h1, root, path) <==> Blocked(h, root, path)
  {
    if Blocked(h, root, path) {
      var m :| 0 < m < |path| && Resolve(h, root, path[..m]).Prim?;
      assert Resolve(h1, root, path[..m]).Prim?;
    }
  }

  /** `Object.assign(root, b)` */
  function MergeInto(h: Heap, a: nat, b: nat): Heap
    requires a in h && b in h
  {
    h[a := h[a].(fields := h[a].fields + h[b].fields)]
  }

  lemma {:induction false} MergeResolves(h: Heap, a: nat, b: nat, q: Path)
    requires TreeShaped(h, Ref(a)) && Apart(h, Ref(a), Ref(b)) && a in h && b in h && q != []
    ensures Resolve(MergeInto(h, a, b), Ref(a), q) ==
            Resolve(h, Ref(if q[0] in h[b].fields then b else a), q)
  {
    var h', src, q0 := MergeInto(h, a, b), Ref(if q[0] in h[b].fields then b else a), q[..|q| - 1];
    assert Resolve(h, Ref(a), []) == Ref(a);
    if q0 != [] {
      MergeResolves(h, a, b, q0);
      assert Resolve(h, src, q0) != Ref(a);
    } else {
      assert Resolve(h', Ref(a), q0) == Ref(a) && Resolve(h, src, q0) == src;
    }
  }

  lemma MergeKeepsTree(h: Heap, a: nat, b: nat)
    requires WellFormed(h, Ref(a)) && b in h && TreeShaped(h, Ref(b)) && Apart(h, Ref(a), Ref(b))
    ensures WellFormed(MergeInto(h, a, b), Ref(a))
  {
    var h', root := MergeInto(h, a, b), Ref(a);
    assert Resolve(h, root, []) == root;
    forall q: Path | q != []
      ensures Resolve(h', root, q) == if q[0] in h[b].fields then Resolve(h, Ref(b), q) else Resolve(h, root, q)
      ensures Resolve(h', root, q) != root
    {
      MergeResolves(h, a, b, q);
    }
    forall p: Path, q: Path | Resolve(h', root, p).Ref? && Resolve(h', root, p) == Resolve(h', root, q) ensures p == q {
      if p != [] && q != [] {
        assert [] + p == p && [] + q == q;
        SpreadInjective(h, root, [], b, h', root, p, q);
      }
    }
  }

  /** The cached keys at or below `at` that a refresh of `slot` leaves out hold what `w` has there. */
  ghost predicate UnrefreshedAgree(h: Heap, slot: Path, at: Path, w: Value, signals: map<string, Value>) {
    forall key :: key in signals && !Affected(key, slot) && at <= Split(key, DOT) ==>
      signals[key] == Resolve(h, w, Split(key, DOT)[|at|..])
  }

  /** After an assignment at `at`, refreshing at and below `slot` is enough exactly if the cached keys it
      leaves out hold the new values already. */
  lemma AssignThenRefresh(h: Heap, h': Heap, root: Value, slot: Path, at: Path, w: Value, signals: map<string, Value>)
    requires AssignedAt(h, h', root, at, w) && Coherent(h, root, signals)
    ensures Coherent(h', root, Refresh(h', root, slot, signals)) <==> UnrefreshedAgree(h, slot, at, w, signals)
  {
    var after := Refresh(h', root, slot, signals);
    forall key | key in signals
      ensures after[key] == Resolve(h', root, Split(key, DOT)) <==>
              (!Affected(key, slot) && at <= Split(key, DOT) ==> signals[key] == Resolve(h, w, Split(key, DOT)[|at|..]))
    {
      var q := Split(key, DOT);
      if !(at <= q) { assert Resolve(h', root, q) == Resolve(h, root, q); }
    }
  }

  /** In particular it is enough where the refreshed slot is the assigned one. */
  lemma SlotAgrees(h: Heap, slot: Path, w: Value, signals: map<string, Value>)
    requires |slot| > 0 && AllFree(slot, DOT)
    ensures UnrefreshedAgree(h, slot, slot, w, signals)
  {
    forall key | key in signals ensures Affected(key, slot) <==> slot <= Split(key, DOT) {
      KeyBelowPath(slot, key, DOT);
    }
  }

  /** What the caller owes: wherever the proxied object hangs now, the value can be linked below it. */
  ghost predicate ProxySetOk(h: Heap, root: Value, obj: nat, prop: string, value: Value) {
    obj in h && InHeap(h, value) &&
    forall q: Path :: Resolve(h, root, q) == Ref(obj) ==> Linkable(h, root, q + [prop], value)
  }

  /** The notification reaches what changes: the object is detached, or at the proxy's own path, or no
      other cached key below it changes its value. */
  ghost predicate ProxyHeard(h: Heap, root: Value, path: Path, obj: nat, prop: string, value: Value,
                             signals: map<string, Value>)
  {
    forall q: Path :: Resolve(h, root, q) == Ref(obj) ==>
      q == path || UnrefreshedAgree(h, path + [prop], q + [prop], value, signals)
  }

  /** Assigning through a proxy keeps the tree; the cache is right afterwards exactly if the
      notification reaches what changes. */
  lemma ProxyWrite(h: Heap, root: Value, path: Path, obj: nat, prop: string, value: Value, signals: map<string, Value>)
    requires WellFormed(h, root) && ProxySetOk(h, root, obj, prop, value)
    ensures var h', slot := Write(h, obj, prop, value), path + [prop];
            && WellFormed(h', root)
            && (forall q: Path :: Resolve(h, root, q) == Ref(obj) ==> AssignedAt(h, h', root, q + [prop], value))
            && (Coherent(h, root, signals) && AllFree(slot, DOT) ==>
                  (Coherent(h', root, Refresh(h', root, slot, signals)) <==>
                      ProxyHeard(h, root, path, obj, prop, value, signals)))
  {
    var h', slot := Write(h, obj, prop, value), path + [prop];
    if q: Path :| Resolve(h, root, q) == Ref(obj) {
      AssignSlot(h, root, q, obj, prop, value);
      if Coherent(h, root, signals) && AllFree(slot, DOT) {
        AssignThenRefresh(h, h', root, slot, q + [prop], value, signals);
        SlotAgrees(h, slot, value, signals);
        assert ProxyHeard(h, root, path, obj, prop, value, signals) <==>
               q == path || UnrefreshedAgree(h, slot, q + [prop], value, signals);
      }
    } else {
      UnreachedUnchanged(h, obj, prop, value, root);
      SameWalksSameShape(h, h', root);
    }
  }

  /** The tree shape is needed: with one object at two paths, a changing write through the first
      leaves a signal cached through the second stale. */
  lemma AliasGoesStale(h: Heap, root: Value, p: Path, alias: Path, n: nat, key: string, w: Value,
                       signals: map<string, Value>)
    requires n in h && Resolve(h, root, p) == Resolve(h, root, alias) == Ref(n)
    requires AllFree(p + [key], DOT) && AllFree(alias + [key], DOT) && !(p + [key] <= alias + [key])
    requires Resolve(Write(h, n, key, w), root, alias) == Ref(n)
    requires Coherent(h, root, signals) && Join(alias + [key], DOT) in signals
    requires Lookup(h, Ref(n), key) != w
    ensures !Coherent(Write(h, n, key, w), root, Refresh(Write(h, n, key, w), root, p + [key], signals))
  {
    var h', q, cached := Write(h, n, key, w), alias + [key], Join(alias + [key], DOT);
    SplitJoin(q, DOT);
    KeyBelowPath(p + [key], cached, DOT);
    assert q[..|q| - 1] == alias;
    assert Resolve(h', root, q) == w && Resolve(h, root, q) != w;
    assert Refresh(h', root, p + [key], signals)[cached] == signals[cached];
  }

  /** The value that `setState` assigns, and the heap with it. */
  ghost predicate ValueFor(h: Heap, root: nat, path: Path, arg: Arg, before: Heap, w: Value) {
    var current := Resolve(h, Ref(root), path);
    if Merges(h, current, arg)
    then w.Ref? && w.id !in h && before == h[w.id := Spread(h, current.id, arg.v.id)]
    else before == h && w == if arg.Plain? then arg.v else arg.f(current)
  }

  // ----- What an assignment creates -----

  /** No object is lost or changes between array and plain object. */
  ghost predicate SameKinds(h: Heap, h': Heap) {
    forall id :: id in h ==> id in h' && h'[id].isArray == h[id].isArray
  }

  /** Where one of the strict prefixes up to length `i` led nowhere before, there is an object now: an array
      exactly if the key that follows consists of one or more decimal digits. */
  ghost predicate CreatedKinds(h0: Heap, h: Heap, root: Value, path: Path, i: nat)
    requires i < |path|
  {
    forall m :: 0 < m <= i && Resolve(h0, root, path[..m]).Nullish() ==>
      KindFor(h, Resolve(h, root, path[..m]), path[m])
  }

  ghost predicate KindFor(h: Heap, v: Value, next: string) {
    && v.Ref? && v.id in h
    && (h[v.id].isArray <==> |next| >= 1 && forall k :: 0 <= k < |next| ==> '0' <= next[k] && next[k] <= '9')
  }

  lemma KindsOnCreation(h0: Heap, h: Heap, root: Value, path: Path, i: nat, n: nat, id: nat)
    requires i + 1 < |path| && CreatedKinds(h0, h, root, path, i) && n in h && id !in h
    requires var h2 := Write(h[id := Node(IsDigits(path[i + 1]), map[])], n, path[i], Ref(id));
             CreatedAt(h, h2, root, path[..i + 1], id)
    ensures CreatedKinds(h0, Write(h[id := Node(IsDigits(path[i + 1]), map[])], n, path[i], Ref(id)), root, path, i + 1)
  {
    var h2 := Write(h[id := Node(IsDigits(path[i + 1]), map[])], n, path[i], Ref(id));
    forall m | 0 < m <= i + 1 && Resolve(h0, root, path[..m]).Nullish()
      ensures KindFor(h2, Resolve(h2, root, path[..m]), path[m])
    {
      if m <= i { assert !(path[..i + 1] <= path[..m]); }
    }
  }

  lemma KindsOnDescent(h0: Heap, h: Heap, root: Value, path: Path, w: Value, i: nat)
    requires i + 1 < |path| && Progress(h0, h, root, path, w, i) && CreatedKinds(h0, h, root, path, i)
    requires Resolve(h, root, path[..i + 1]).Ref?
    ensures CreatedKinds(h0, h, root, path, i + 1)
  {
    EmptyAfterCreation(h0, h, root, path, w, i);
  }

  lemma KindsOnAssignment(h0: Heap, h: Heap, h': Heap, root: Value, path: Path, w: Value)
    requires |path| > 0 && CreatedKinds(h0, h, root, path, |path| - 1)
    requires AssignedAt(h, h', root, path, w) && SameKinds(h, h')
    ensures CreatedKinds(h0, h', root, path, |path| - 1)
  {
    forall m | 0 < m <= |path| - 1 && Resolve(h0, root, path[..m]).Nullish()
      ensures KindFor(h', Resolve(h', root, path[..m]), path[m])
    {
      assert !(path <= path[..m]);
    }
  }

  /** The state of the assignment loop, with the kinds of what it has created. */
  ghost predicate Walked(h0: Heap, h: Heap, root: Value, path: Path, w: Value, i: nat)
    requires i < |path|
  {
    Progress(h0, h, root, path, w, i) && SameKinds(h0, h) && CreatedKinds(h0, h, root, path, i)
  }

  /** One step of the walk where there is an object already. */
  lemma WalkOn(h0: Heap, h: Heap, root: Value, path: Path, w: Value, i: nat)
    requires i + 1 < |path| && Walked(h0, h, root, path, w, i) && Resolve(h, root, path[..i + 1]).Ref?
    ensures Walked(h0, h, root, path, w, i + 1) && Resolve(h, root, path[..i + 1]).id in h
  {
    DescendExisting(h0, h, root, path, w, i);
    KindsOnDescent(h0, h, root, path, w, i);
    ResolveInHeap(h, root, path[..i + 1]);
  }

  /** One step of the walk that creates an object. */
  lemma WalkInto(h0: Heap, h: Heap, root: Value, path: Path, w: Value, i: nat, n: nat, id: nat)
    requires i + 1 < |path| && Walked(h0, h, root, path, w, i)
    requires Resolve(h, root, path[..i]) == Ref(n) && n in h && id !in h
    requires Resolve(h, root, path[..i + 1]).Nullish()
    ensures var h2 := Write(h[id := Node(IsDigits(path[i + 1]), map[])], n, path[i], Ref(id));
            Walked(h0, h2, root, path, w, i + 1) && Resolve(h2, root, path[..i + 1]) == Ref(id)
  {
    CreateMissing(h0, h, root, path, w, i, n, id, Node(IsDigits(path[i + 1]), map[]));
    KindsOnCreation(h0, h, root, path, i, n, id);
  }

  /** The assignment at the end of the walk. */
  lemma WalkEnds(h0: Heap, h: Heap, root: Value, path: Path, w: Value, n: nat)
    requires |path| > 0 && Walked(h0, h, root, path, w, |path| - 1)
    requires Resolve(h, root, path[..|path| - 1]) == Ref(n) && n in h
    ensures var h' := Write(h, n, path[|path| - 1], w);
            && !Blocked(h0, root, path) && WellFormed(h', root) && Updated(h0, h', root, path, w)
            && SameKinds(h0, h') && CreatedKinds(h0, h', root, path, |path| - 1)
  {
    Finish(h0, h, root, path, w, n);
    KindsOnAssignment(h0, h, Write(h, n, path[|path| - 1], w), root, path, w);
  }

  /** What `setState` leaves at and below the path. An object that is no array merges into one: there is a
      new object, whose keys lead where the argument's lead and, for the keys it lacks, where those of the
      old one led. In every other case there is exactly the argument, or what the updater returned. */
  ghost predicate MergedOrReplaced(h: Heap, h': Heap, root: Value, path: Path, arg: Arg) {
    var was, now := Resolve(h, root, path), Resolve(h', root, path);
    if && arg.Plain? && arg.v.Ref? && arg.v.id in h && h[arg.v.id].isArray == false
       && was.Ref? && was.id in h && h[was.id].isArray == false
    then
      && now.Ref? && now.id !in h && now.id in h' && h'[now.id].isArray == false
      && forall q: Path :: path < q ==>
           Resolve(h', root, q) == if q[|path|] in h[arg.v.id].fields then Resolve(h, arg.v, q[|path|..])
                                   else Resolve(h, root, q)
    else
      && now == (if arg.Plain? then arg.v else arg.f(was))
      && forall q: Path :: path <= q ==> Resolve(h', root, q) == Resolve(h, now, q[|path|..])
  }

  lemma MergedBelow(h: Heap, h': Heap, root: Value, path: Path, a: nat, b: nat, id: nat, q: Path)
    requires Closed(h) && a in h && b in h && id !in h && Resolve(h, root, path) == Ref(a)
    requires |path| > 0 && Updated(h[id := Spread(h, a, b)], h', root, path, Ref(id)) && path < q
    ensures Resolve(h', root, q) == if q[|path|] in h[b].fields then Resolve(h, Ref(b), q[|path|..])
                                    else Resolve(h, root, q)
  {
    SpreadResolves(h, a, b, id, q[|path|..]);
    assert q == path + q[|path|..];
    ResolveConcat(h, root, path, q[|path|..]);
  }

  lemma Merged(h: Heap, h': Heap, root: Value, path: Path, arg: Arg, a: nat, id: nat)
    requires WellFormed(h, root) && a in h && id !in h && Resolve(h, root, path) == Ref(a) && Merges(h, Ref(a), arg)
    requires var before := h[id := Spread(h, a, arg.v.id)];
             |path| > 0 && Updated(before, h', root, path, Ref(id)) && SameKinds(before, h')
    ensures MergedOrReplaced(h, h', root, path, arg)
  {
    SetThenGet(h[id := Spread(h, a, arg.v.id)], h', root, path, Ref(id));
    forall q: Path | path < q
      ensures Resolve(h', root, q) == if q[|path|] in h[arg.v.id].fields then Resolve(h, arg.v, q[|path|..])
                                      else Resolve(h, root, q)
    {
      MergedBelow(h, h', root, path, a, arg.v.id, id, q);
    }
  }

  lemma Replaced(h: Heap, h': Heap, root: Value, path: Path, arg: Arg)
    requires WellFormed(h, root) && !Merges(h, Resolve(h, root, path), arg) && |path| > 0
    requires Updated(h, h', root, path, if arg.Plain? then arg.v else arg.f(Resolve(h, root, path)))
    ensures MergedOrReplaced(h, h', root, path, arg)
  {
    SetThenGet(h, h', root, path, if arg.Plain? then arg.v else arg.f(Resolve(h, root, path)));
  }

  lemma SetLeaves(h: Heap, before: Heap, h': Heap, root: Value, path: Path, arg: Arg, w: Value)
    requires WellFormed(h, root) && |path| > 0 && Updated(before, h', root, path, w) && SameKinds(before, h')
    requires root.Ref? && ValueFor(h, root.id, path, arg, before, w)
    requires CreatedKinds(before, h', root, path, |path| - 1)
    ensures MergedOrReplaced(h, h', root, path, arg) && CreatedKinds(h, h', root, path, |path| - 1)
  {
    var current := Resolve(h, root, path);
    if Merges(h, current, arg) {
      Merged(h, h', root, path, arg, current.id, w.id);
      AllocateSameWalks(h, w.id, before[w.id], root);
    } else {
      Replaced(h, h', root, path, arg);
    }
  }

  // ----- Runs -----

  datatype State = State(heap: Heap, signals: map<string, Value>)

  /** One use of the store: a read or an assignment through a proxy, or a call of `setState` with a path,
      with an object, or with an updater function alone. */
  datatype Command =
    | Read(path: Path)
    | SetAt(path: Path, arg: Arg)
    | MergeRoot(id: nat)
    | UpdateRoot
    | Assign(path: Path, obj: nat, prop: string, value: Value)

  /** Paths of dot-free keys, and values that keep the objects a tree. */
  ghost predicate Enabled(s: State, root: nat, cmd: Command) {
    match cmd
    case Read(path) => |path| > 0 && AllFree(path, DOT)
    case SetAt(path, arg) => |path| > 0 && AllFree(path, DOT) && ArgOk(s.heap, Ref(root), path, arg)
    case MergeRoot(b) => b in s.heap && TreeShaped(s.heap, Ref(b)) && Apart(s.heap, Ref(root), Ref(b))
    case UpdateRoot => true
    case Assign(path, obj, prop, value) =>
        AllFree(path + [prop], DOT) && ProxySetOk(s.heap, Ref(root), obj, prop, value)
  }

  /** What `setState` with a path does: the value is computed, perhaps as a new object, and assigned; at
      a primitive on the way the call throws. */
  ghost predicate SetStep(s: State, root: nat, path: Path, arg: Arg, s': State, before: Heap, w: Value)
    requires |path| > 0
  {
    && ValueFor(s.heap, root, path, arg, before, w)
    && if Blocked(s.heap, Ref(root), path) then s' == s
       else Updated(before, s'.heap, Ref(root), path, w) && s'.signals == Refresh(s'.heap, Ref(root), path, s.signals)
  }

  ghost predicate Step(s: State, root: nat, cmd: Command, s': State) {
    WellFormed(s'.heap, Ref(root)) &&
    match cmd
    case Read(path) =>
      var key := Join(path, DOT);
      s' == if key in s.signals then s else s.(signals := s.signals[key := Resolve(s.heap, Ref(root), path)])
    case SetAt(path, arg) =>
      |path| > 0 && exists before, w :: SetStep(s, root, path, arg, s', before, w)
    case MergeRoot(b) =>
      && root in s.heap && b in s.heap && s'.heap == MergeInto(s.heap, root, b)
      && s'.signals.Keys == s.signals.Keys && Coherent(s'.heap, Ref(root), s'.signals)
    case UpdateRoot => s' == s.(signals := Refresh(s.heap, Ref(root), [], s.signals))
    case Assign(path, obj, prop, value) =>
      && obj in s.heap && s'.heap == Write(s.heap, obj, prop, value)
      && s'.signals == Refresh(s'.heap, Ref(root), path + [prop], s.signals)
  }

  /** The notification reaches everything that changes. */
  ghost predicate Heard(s: State, root: nat, cmd: Command) {
    match cmd
    case SetAt(path, arg) =>
      Blocked(s.heap, Ref(root), path) || NoStaleAncestor(s.heap, Ref(root), path, s.signals)
    case Assign(path, obj, prop, value) => ProxyHeard(s.heap, Ref(root), path, obj, prop, value, s.signals)
    case _ => true
  }

  ghost predicate Right(s: State, root: nat) {
    Coherent(s.heap, Ref(root), s.signals)
  }

  lemma SetStepRight(s: State, root: nat, path: Path, arg: Arg, s': State, before: Heap, w: Value)
    requires WellFormed(s.heap, Ref(root)) && Right(s, root) && |path| > 0 && AllFree(path, DOT)
    requires SetStep(s, root, path, arg, s', before, w)
    ensures Right(s', root) <==> Heard(s, root, SetAt(path, arg))
  {
    var current := Resolve(s.heap, Ref(root), path);
    if Merges(s.heap, current, arg) {
      AllocateSameWalks(s.heap, w.id, Spread(s.heap, current.id, arg.v.id), Ref(root));
    }
    SameWalksSameCache(s.heap, before, Ref(root), path, s.signals);
    if !Blocked(s.heap, Ref(root), path) {
      RefreshIsEnough(before, s'.heap, Ref(root), path, w, s.signals);
    }
  }

  /** What the new value, the assignment and the notification come to. */
  lemma SetDone(s: State, root: nat, path: Path, arg: Arg, s': State, before: Heap, w: Value, ok: bool)
    requires WellFormed(s.heap, Ref(root)) && |path| > 0
    requires ValueFor(s.heap, root, path, arg, before, w)
    requires ok <==> !Blocked(before, Ref(root), path)
    requires SameKinds(before, s'.heap) && if ok then
                 && Updated(before, s'.heap, Ref(root), path, w)
                 && CreatedKinds(before, s'.heap, Ref(root), path, |path| - 1)
                 && s'.signals == Refresh(s'.heap, Ref(root), path, s.signals)
               else s'.heap == before && s'.signals == s.signals
    ensures ok <==> !Blocked(s.heap, Ref(root), path)
    ensures SetStep(s, root, path, arg, s', before, w) && SameKinds(s.heap, s'.heap)
    ensures ok ==> MergedOrReplaced(s.heap, s'.heap, Ref(root), path, arg)
    ensures ok ==> CreatedKinds(s.heap, s'.heap, Ref(root), path, |path| - 1)
    ensures Right(s, root) && AllFree(path, DOT) ==>
              (Right(s', root) <==> !ok || NoStaleAncestor(s.heap, Ref(root), path, s.signals))
  {
    var current := Resolve(s.heap, Ref(root), path);
    if Merges(s.heap, current, arg) {
      AllocateSameWalks(s.heap, w.id, before[w.id], Ref(root));
      SameWalksSameBlocked(s.heap, before, Ref(root), path);
      MergeNotBlocked(s.heap, Ref(root), path);
    }
    if ok { SetLeaves(s.heap, before, s'.heap, Ref(root), path, arg, w); }
    if Right(s, root) && AllFree(path, DOT) { SetStepRight(s, root, path, arg, s', before, w); }
  }

  /** From a right cache, a command leads to a right one exactly if its notification reaches everything
      that changes. */
  lemma StepRight(s: State, root: nat, cmd: Command, s': State)
    requires WellFormed(s.heap, Ref(root)) && Right(s, root) && Enabled(s, root, cmd) && Step(s, root, cmd, s')
    ensures Right(s', root) <==> Heard(s, root, cmd)
  {
    match cmd
    case Read(path) => SplitJoin(path, DOT);
    case SetAt(path, arg) =>
      var before, w :| SetStep(s, root, path, arg, s', before, w);
      SetStepRight(s, root, path, arg, s', before, w);
    case MergeRoot(_) =>
    case UpdateRoot =>
    case Assign(path, obj, prop, value) => ProxyWrite(s.heap, Ref(root), path, obj, prop, value, s.signals);
  }

  /** A run of a new store over a tree. */
  ghost predicate IsRun(states: seq<State>, root: nat, cmds: seq<Command>) {
    && |states| == |cmds| + 1 && WellFormed(states[0].heap, Ref(root)) && states[0].signals == map[]
    && forall k :: 0 <= k < |cmds| ==> Turn(states[k], root, cmds[k], states[k + 1])
  }

  ghost predicate Turn(s: State, root: nat, cmd: Command, s': State) {
    Enabled(s, root, cmd) && Step(s, root, cmd, s')
  }

  lemma RunShaped(states: seq<State>, root: nat, cmds: seq<Command>, n: nat)
    requires IsRun(states, root, cmds) && n <= |cmds|
    ensures WellFormed(states[n].heap, Ref(root))
  {
    if n > 0 { assert Turn(states[n - 1], root, cmds[n - 1], states[n]); }
  }

  lemma TurnRight(s: State, root: nat, cmd: Command, s': State)
    requires WellFormed(s.heap, Ref(root)) && Turn(s, root, cmd, s')
    ensures Right(s, root) ==> (Right(s', root) <==> Heard(s, root, cmd))
  {
    if Right(s, root) { StepRight(s, root, cmd, s'); }
  }

  ghost predicate RightUpTo(states: seq<State>, root: nat, n: nat)
    requires n < |states|
  {
    forall k :: 0 <= k <= n ==> Right(states[k], root)
  }

  ghost predicate HeardUpTo(states: seq<State>, root: nat, cmds: seq<Command>, n: nat)
    requires n <= |states| && n <= |cmds|
  {
    forall k :: 0 <= k < n ==> Heard(states[k], root, cmds[k])
  }

  /** Every cached signal is right at every point of a run if and only if every command's notification
      reached everything that it changed. */
  lemma {:induction false} RunRight(states: seq<State>, root: nat, cmds: seq<Command>, n: nat)
    requires IsRun(states, root, cmds) && n <= |cmds|
    ensures RightUpTo(states, root, n) <==> HeardUpTo(states, root, cmds, n)
  {
    if n == 0 {
      assert Right(states[0], root);
    } else {
      RunRight(states, root, cmds, n - 1);
      RunShaped(states, root, cmds, n - 1);
      assert Turn(states[n - 1], root, cmds[n - 1], states[n]);
      TurnRight(states[n - 1], root, cmds[n - 1], states[n]);
      assert RightUpTo(states, root, n) <==> RightUpTo(states, root, n - 1) && Right(states[n], root);
      assert HeardUpTo(states, root, cmds, n) <==>
          HeardUpTo(states, root, cmds, n - 1) && Heard(states[n - 1], root, cmds[n - 1]);
    }
  }

  /** A root merge at the end repairs whatever was wrong before. */
  lemma MergeRepairs(states: seq<State>, root: nat, cmds: seq<Command>)
    requires IsRun(states, root, cmds) && cmds != [] && cmds[|cmds| - 1].MergeRoot?
    ensures Right(states[|cmds|], root)
  {
    assert Turn(states[|cmds| - 1], root, cmds[|cmds| - 1], states[|cmds|]);
  }

  class Store {
    var heap: Heap
    const root: nat
    var signals: map<string, Value>
    var nextId: nat

    /** The object graph is a tree hanging from the root. */
    ghost predicate Shape()
      reads this
    {
      WellFormed(heap, Ref(root)) && forall id :: id in heap ==> id < nextId
    }

    ghost predicate Valid()
      reads this
    {
      Shape() && Coherent(heap, Ref(root), signals)
    }

    ghost function St(): State
      reads this
    {
      State(heap, signals)
    }

    /** The store over its own clone of the initial object. */
    constructor (heap: Heap, root: nat, nextId: nat)
      requires WellFormed(heap, Ref(root)) && forall id :: id in heap ==> id < nextId
      ensures Valid() && this.heap == heap && this.root == root && signals == map[]
    {
      this.heap, this.root, this.nextId, signals := heap, root, nextId, map[];
    }

    method GetValueAtPath(path: Path) returns (v: Value)
      ensures v == Resolve(heap, Ref(root), path)
    {
      v := Ref(root);
      for i := 0 to |path|
        invariant v == Resolve(heap, Ref(root), path[..i])
      {
        if v.Nullish() {
          assert path[..i] < path;
          NothingBelow(heap, Ref(root), path[..i], path);
          return Undefined;
        }
        assert path[..i + 1][..i] == path[..i];
        v := Lookup(heap, v, path[i]);
      }
      assert path[..|path|] == path;
    }

    /** Reading a property through the proxy: the first read of a path creates its signal. */
    method GetSignal(path: Path) returns (v: Value)
      requires |path| > 0
      modifies this`signals
      ensures Join(path, '.') in signals && v == signals[Join(path, '.')]
      ensures signals == if Join(path, DOT) in old(signals) then old(signals)
                         else old(signals)[Join(path, DOT) := Resolve(heap, Ref(root), path)]
      ensures old(Valid()) && AllFree(path, DOT) ==> Valid() && v == Resolve(heap, Ref(root), path)
      ensures Shape() ==> Step(old(St()), root, Read(path), St())
    {
      var key := Join(path, DOT);
      if key !in signals {
        var value := GetValueAtPath(path);
        signals := signals[key := value];
      }
      v := signals[key];
      if AllFree(path, DOT) { SplitJoin(path, DOT); }
    }

    /** Re-reads every signal at or below the path. */
    method NotifyPath(path: Path)
      modifies this`signals
      ensures signals == Refresh(heap, Ref(root), path, old(signals))
    {
      ghost var before, after := signals, Refresh(heap, Ref(root), path, signals);
      var todo := signals.Keys;
      while todo != {}
        invariant todo <= before.Keys == signals.Keys == after.Keys
        invariant forall key :: key in signals ==> signals[key] == if key in todo then before[key] else after[key]
        decreases todo
      {
        var key :| key in todo;
        if Affected(key, path) {
          var newValue := GetValueAtPath(Split(key, DOT));
          signals := signals[key := newValue];
        }
        todo := todo - {key};
      }
    }

    /** Re-reads every signal. */
    method NotifyAll()
      modifies this`signals
      ensures signals.Keys == old(signals.Keys) && Coherent(heap, Ref(root), signals)
    {
      var todo := signals.Keys;
      while todo != {}
        invariant todo <= signals.Keys == old(signals.Keys)
        invariant forall key :: key in signals && key !in todo ==>
                    signals[key] == Resolve(heap, Ref(root), Split(key, DOT))
        decreases todo
      {
        var key :| key in todo;
        todo := todo - {key};
        var newValue := GetValueAtPath(Split(key, DOT));
        signals := signals[key := newValue];
      }
    }

    /** `current[key] = {}` or `[]` */
    method Attach(current: nat, key: string, node: Node) returns (next: Value)
      requires current in heap && forall id :: id in heap ==> id < nextId
      modifies this`heap, this`nextId
      ensures next == Ref(old(nextId)) && forall id :: id in heap ==> id < nextId
      ensures heap == Write(old(heap)[old(nextId) := node], current, key, next)
    {
      next := Ref(nextId);
      heap := Write(heap[nextId := node], current, key, next);
      nextId := nextId + 1;
    }

    /** One step of the walk: the object under the next key, created if missing. */
    method Descend(ghost h0: Heap, path: Path, ghost value: Value, i: nat, current: nat) returns (next: Value)
      requires i + 1 < |path| && Shape() && Walked(h0, heap, Ref(root), path, value, i)
      requires Resolve(heap, Ref(root), path[..i]) == Ref(current) && current in heap
      modifies this`heap, this`nextId
      ensures Shape()
      ensures next.Prim? || next.Ref?
      ensures next.Prim? ==> heap == h0 && Blocked(h0, Ref(root), path)
      ensures next.Ref? ==> Walked(h0, heap, Ref(root), path, value, i + 1) && next.id in heap &&
                            next == Resolve(heap, Ref(root), path[..i + 1])
    {
      assert path[..i + 1][..i] == path[..i];
      next := Lookup(heap, Ref(current), path[i]);
      assert next == Resolve(heap, Ref(root), path[..i + 1]);
      if next.Prim? {
        BlockedFromStart(h0, heap, Ref(root), path, value, i);
      } else if next.Nullish() {
        WalkInto(h0, heap, Ref(root), path, value, i, current, nextId);
        next := Attach(current, path[i], Node(IsDigits(path[i + 1]), map[]));
      } else {
        WalkOn(h0, heap, Ref(root), path, value, i);
      }
    }

    /** Walks to the parent of the path, creating missing objects, and assigns. A primitive on the
        way makes the assignment throw; nothing has been changed by then. */
    method SetValueAtPath(path: Path, value: Value) returns (ok: bool)
      requires Shape() && |path| > 0 && Linkable(heap, Ref(root), path, value)
      modifies this`heap, this`nextId
      ensures Shape() && (ok <==> !Blocked(old(heap), Ref(root), path))
      ensures !ok ==> heap == old(heap)
      ensures ok ==> Updated(old(heap), heap, Ref(root), path, value)
      ensures SameKinds(old(heap), heap) && (ok ==> CreatedKinds(old(heap), heap, Ref(root), path, |path| - 1))
    {
      ghost var h0 := heap;
      var current := root;
      assert path[..0] == [];
      for i := 0 to |path| - 1
        invariant Shape() && Walked(h0, heap, Ref(root), path, value, i)
        invariant Resolve(heap, Ref(root), path[..i]) == Ref(current) && current in heap
      {
        var next := Descend(h0, path, value, i, current);
        if next.Prim? {
          return false;
        }
        current := next.id;
      }
      WalkEnds(h0, heap, Ref(root), path, value, current);
      heap := Write(heap, current, path[|path| - 1], value);
      ok := true;
    }

    /** The value `setState` assigns. */
    method NewValue(path: Path, arg: Arg) returns (w: Value)
      requires Shape() && |path| > 0 && ArgOk(heap, Ref(root), path, arg)
      modifies this`heap, this`nextId
      ensures Shape() && Linkable(heap, Ref(root), path, w)
      ensures ValueFor(old(heap), root, path, arg, heap, w)
    {
      var currentValue := GetValueAtPath(path);
      if Merges(heap, currentValue, arg) {
        SpreadLinkable(heap, Ref(root), path, currentValue.id, arg.v.id, nextId);
        w := Ref(nextId);
        heap := heap[nextId := Spread(heap, currentValue.id, arg.v.id)];
        nextId := nextId + 1;
      } else {
        w := if arg.Plain? then arg.v else arg.f(currentValue);
      }
    }

    /** `setState(...path, arg)` */
    method SetState(path: Path, arg: Arg) returns (ok: bool, ghost before: Heap, ghost w: Value)
      requires Shape() && |path| > 0 && ArgOk(heap, Ref(root), path, arg)
      modifies this
      ensures Shape() && (ok <==> !Blocked(old(heap), Ref(root), path))
      ensures ValueFor(old(heap), root, path, arg, before, w)
      ensures !ok ==> heap == old(heap) && signals == old(signals)
      ensures ok ==> Updated(before, heap, Ref(root), path, w)
      ensures ok ==> MergedOrReplaced(old(heap), heap, Ref(root), path, arg)
      ensures SameKinds(old(heap), heap) && (ok ==> CreatedKinds(old(heap), heap, Ref(root), path, |path| - 1))
      ensures ok ==> signals == Refresh(heap, Ref(root), path, old(signals))
      ensures old(Valid()) && AllFree(path, DOT) ==>
                (Valid() <==> !ok || NoStaleAncestor(old(heap), Ref(root), path, old(signals)))
      ensures Step(old(St()), root, SetAt(path, arg), St())
    {
      var value := NewValue(path, arg);
      w, before := value, heap;
      ok := SetValueAtPath(path, value);
      if ok { NotifyPath(path); }
      SetDone(old(St()), root, path, arg, St(), before, w, ok);
    }

    /** `setState(object)`: merge at the root and re-read every signal. Whatever was stale is
        repaired. */
    method SetRoot(b: nat)
      requires Shape() && b in heap && TreeShaped(heap, Ref(b)) && Apart(heap, Ref(root), Ref(b))
      modifies this`heap, this`signals
      ensures Valid() && heap == MergeInto(old(heap), root, b) && signals.Keys == old(signals.Keys)
      ensures SameKinds(old(heap), heap)
      ensures forall q: Path :: q != [] ==>
                Resolve(heap, Ref(root), q) ==
                if q[0] in old(heap)[b].fields then Resolve(old(heap), Ref(b), q) else Resolve(old(heap), Ref(root), q)
      ensures Step(old(St()), root, MergeRoot(b), St())
    {
      MergeKeepsTree(heap, root, b);
      forall q: Path | q != []
        ensures Resolve(MergeInto(heap, root, b), Ref(root), q) ==
                if q[0] in heap[b].fields then Resolve(heap, Ref(b), q) else Resolve(heap, Ref(root), q)
      {
        MergeResolves(heap, root, b, q);
      }
      heap := MergeInto(heap, root, b);
      NotifyAll();
    }

    /** `setState(f)` or `setState(primitive)` without a path: the assignment at an empty path does
        nothing, so the update is lost; only keys that are empty or begin with a dot are re-read. */
    method SetRootIgnored()
      modifies this`signals
      ensures old(Valid()) ==> Valid()
      ensures signals == Refresh(heap, Ref(root), [], old(signals))
      ensures forall key :: key in signals && key != "" && key[0] != DOT ==> signals[key] == old(signals)[key]
      ensures Shape() ==> Step(old(St()), root, UpdateRoot, St())
    {
      NotifyPath([]);
    }

    /** Direct assignment on a proxy that was made for `path`. The proxied object may meanwhile have been
        replaced, and then no longer hangs in the store, or moved to another path. */
    method ProxySet(path: Path, obj: nat, prop: string, value: Value)
      requires Shape() && ProxySetOk(heap, Ref(root), obj, prop, value)
      modifies this`heap, this`signals
      ensures Shape() && heap == Write(old(heap), obj, prop, value) && SameKinds(old(heap), heap)
      ensures forall q: Path :: Resolve(old(heap), Ref(root), q) == Ref(obj) ==>
                AssignedAt(old(heap), heap, Ref(root), q + [prop], value)
      ensures signals == Refresh(heap, Ref(root), path + [prop], old(signals))
      ensures old(Valid()) && AllFree(path + [prop], DOT) ==>
                (Valid() <==> ProxyHeard(old(heap), Ref(root), path, obj, prop, value, old(signals)))
      ensures Step(old(St()), root, Assign(path, obj, prop, value), St())
    {
      ghost var h0, r := heap, Ref(root);
      ProxyWrite(h0, r, path, obj, prop, value, signals);
      heap := Write(heap, obj, prop, value);
      NotifyPath(path + [prop]);
    }

    /** Any command: the machine's step. */
    method Perform(cmd: Command)
      requires Shape() && Enabled(St(), root, cmd)
      modifies this
      ensures Shape() && Step(old(St()), root, cmd, St())
    {
      match cmd {
        case Read(path) => var _ := GetSignal(path);
        case SetAt(path, arg) => var _, _, _ := SetState(path, arg);
        case MergeRoot(b) => SetRoot(b);
        case UpdateRoot => SetRootIgnored();
        case Assign(path, obj, prop, value) => ProxySet(path, obj, prop, value);
      }
    }
  }

  // ----- A proxy whose object moved -----

  /** `{ l: [{ d: 0 }, { d: 0 }] }` with the members at `i` and `j`, and a new array with them swapped. */
  function Swappable(l: string, i: string, j: string, d: string): Heap {
    map[0 := Node(false, map[l := Ref(1)]),
        1 := Node(true, map[i := Ref(2), j := Ref(3)]),
        2 := Node(false, map[d := Prim(0)]),
        3 := Node(false, map[d := Prim(0)]),
        4 := Node(true, map[i := Ref(3), j := Ref(2)])]
  }

  /** What matters of it: the swapped array can be put at `l`, and has at `j` what was at `i`. */
  ghost predicate CanSwap(h: Heap, l: string, j: string, d: string) {
    && WellFormed(h, Ref(0)) && (forall id :: id in h ==> id < 5) && Linkable(h, Ref(0), [l], Ref(4))
    && Resolve(h, Ref(4), [j]) == Ref(2) && Resolve(h, Ref(4), [j, d]) == Prim(0)
  }

  lemma SwappableSlots(l: string, i: string, j: string, d: string)
    requires i != j
    ensures Closed(Swappable(l, i, j, d))
    ensures OneSlotEach(Swappable(l, i, j, d), 0, {0, 1, 2, 3})
    ensures OneSlotEach(Swappable(l, i, j, d), 4, {2, 3, 4})
  {
    var h := Swappable(l, i, j, d);
    forall n, key, n', key' | SameObject(h, {0, 1, 2, 3}, n, key, n', key') ensures n == n' && key == key' {}
    forall n, key, n', key' | SameObject(h, {2, 3, 4}, n, key, n', key') ensures n == n' && key == key' {}
  }

  lemma SwappableCan(l: string, i: string, j: string, d: string)
    requires i != j
    ensures CanSwap(Swappable(l, i, j, d), l, j, d)
  {
    var h := Swappable(l, i, j, d);
    SwappableSlots(l, i, j, d);
    OneSlotIsTree(h, 0, {0, 1, 2, 3});
    OneSlotIsTree(h, 4, {2, 3, 4});
    forall q: Path, r: Path | Resolve(h, Ref(0), q).Ref? && Resolve(h, Ref(0), q) == Resolve(h, Ref(4), r)
      ensures [l] <= q
    {
      ReachesOnly(h, 4, {2, 3, 4}, r);
      assert q != [];
      ObjectsAbove(h, Ref(0), q, q[..1]);
      assert q[..1][..0] == [];
    }
    assert [j][..0] == [] && [j, d][..1] == [j];
  }

  lemma PrimitiveLinkable(h: Heap, root: Value, path: Path, n: int)
    ensures Linkable(h, root, path, Prim(n))
  {
    forall r: Path ensures !Resolve(h, Prim(n), r).Ref? {
      if r != [] { NothingBelow(h, Prim(n), [], r); }
    }
  }

  /** The item is at `l.j`, where its property is cached; the proxy was made at `l.i`. */
  lemma MovedItem(h: Heap, signals: map<string, Value>, l: string, i: string, j: string, d: string)
    requires WellFormed(h, Ref(0)) && Coherent(h, Ref(0), signals) && Join([l, j, d], DOT) in signals
    requires AllFree([l, i, d], DOT) && AllFree([l, j, d], DOT) && i != j
    requires Resolve(h, Ref(0), [l, j]) == Ref(2) && Resolve(h, Ref(0), [l, j, d]) == Prim(0)
    ensures signals[Join([l, j, d], DOT)] == Prim(0) && !Affected(Join([l, j, d], DOT), [l, i] + [d])
    ensures ProxySetOk(h, Ref(0), 2, d, Prim(1)) && !ProxyHeard(h, Ref(0), [l, i], 2, d, Prim(1), signals)
    ensures Resolve(Write(h, 2, d, Prim(1)), Ref(0), [l, j, d]) == Prim(1)
  {
    var at, key := [l, j, d], Join([l, j, d], DOT);
    SplitJoin(at, DOT);
    assert [l, i] + [d] == [l, i, d] && [l, j] + [d] == at && at[|at|..] == [];
    KeyBelowPath([l, i, d], key, DOT);
    assert at[1] != [l, i, d][1];
    ResolveInHeap(h, Ref(0), [l, j]);
    forall q: Path ensures Linkable(h, Ref(0), q + [d], Prim(1)) {
      PrimitiveLinkable(h, Ref(0), q + [d], 1);
    }
    assert !UnrefreshedAgree(h, [l, i, d], at, Prim(1), signals);
    AssignSlot(h, Ref(0), [l, j], 2, d, Prim(1));
  }

  /** What the reordering leaves. */
  lemma Reordered(h: Heap, h': Heap, l: string, j: string, d: string)
    requires CanSwap(h, l, j, d) && Updated(h, h', Ref(0), [l], Ref(4))
    ensures Resolve(h', Ref(0), [l, j]) == Ref(2) && Resolve(h', Ref(0), [l, j, d]) == Prim(0)
  {
    assert [l, j][1..] == [j] && [l, j, d][1..] == [j, d];
  }

  /** `l.j.d` is read, and then the members are swapped: `setState(l, a => [a[j], a[i]])`. */
  method CacheAndSwap(h: Heap, l: string, j: string, d: string) returns (store: Store)
    requires CanSwap(h, l, j, d) && AllFree([l, j, d], DOT)
    ensures fresh(store) && store.Valid() && store.root == 0 && Join([l, j, d], DOT) in store.signals
    ensures Resolve(store.heap, Ref(0), [l, j]) == Ref(2) && Resolve(store.heap, Ref(0), [l, j, d]) == Prim(0)
  {
    assert [l, j, d][0] == l;
    store := new Store(h, 0, 5);
    var _ := store.GetSignal([l, j, d]);
    assert !Blocked(h, Ref(0), [l]) && NoStaleAncestor(h, Ref(0), [l], store.signals);
    var ok, before, w := store.SetState([l], Updater(_ => Ref(4)));
    Reordered(h, store.heap, l, j, d);
  }

  /** With `const item = store.l[i]` taken beforehand, `item.d = 1` now notifies `l.i.d`, but the object is
      at `l.j`, and the cached `l.j.d` is wrong. */
  method MovedProxyGoesStale(l: string, i: string, j: string, d: string) returns (store: Store)
    requires AllFree([l, i, d], DOT) && AllFree([l, j, d], DOT) && i != j
    ensures fresh(store) && store.Shape() && store.root == 0 && !store.Valid()
    ensures Join([l, j, d], DOT) in store.signals && store.signals[Join([l, j, d], DOT)] == Prim(0)
    ensures Resolve(store.heap, Ref(0), [l, j, d]) == Prim(1)
  {
    SwappableCan(l, i, j, d);
    store := CacheAndSwap(Swappable(l, i, j, d), l, j, d);
    MovedItem(store.heap, store.signals, l, i, j, d);
    assert [l, i] + [d] == [l, i, d];
    store.ProxySet([l, i], 2, d, Prim(1));
  }
}
