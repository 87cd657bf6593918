/** A heap of JavaScript objects, the walk along a property path, and what one assignment changes.
    Objects have identity: two paths may lead to the same object, and an object is changed in
    place. Strings and other primitives are opaque and have no properties. */
module ObjectHeap {

  type Path = seq<string>

  datatype Value = Undefined | Null | Prim(n: int) | Ref(id: nat) {
    /** `v == null` */
    predicate Nullish() { Undefined? || Null? }
  }

  datatype Node = Node(isArray: bool, fields: map<string, Value>)

  type Heap = map<nat, Node>

  ghost predicate InHeap(h: Heap, v: Value) {
    v.Ref? ==> v.id in h
  }

  /** Every reference stored in the heap leads to an object. */
  ghost predicate Closed(h: Heap) {
    forall id, key :: id in h && key in h[id].fields ==> InHeap(h, h[id].fields[key])
  }

  /** `v[key]`, undefined where JavaScript says so or would throw. */
  function Lookup(h: Heap, v: Value, key: string): Value {
    if v.Ref? && v.id in h && key in h[v.id].fields then h[v.id].fields[key] else Undefined
  }

  /** The value a path leads to, starting from `v`. */
  function Resolve(h: Heap, v: Value, path: Path): Value {
    if path == [] then v
    else Lookup(h, Resolve(h, v, path[..|path| - 1]), path[|path| - 1])
  }

  /** `h[n].key = w` */
  function Write(h: Heap, n: nat, key: string, w: Value): Heap
    requires n in h
  {
    h[n := h[n].(fields := h[n].fields[key := w])]
  }

  /** No object is reachable along two paths. */
  ghost predicate TreeShaped(h: Heap, v: Value) {
    forall p: Path, q: Path :: Resolve(h, v, p).Ref? && Resolve(h, v, p) == Resolve(h, v, q) ==> p == q
  }

  /** The objects of `w` are reachable from `root` only below `path`, if at all. */
  ghost predicate Separate(h: Heap, root: Value, path: Path, w: Value) {
    forall q: Path, r: Path :: Resolve(h, root, q).Ref? && Resolve(h, root, q) == Resolve(h, w, r) ==> path <= q
  }

  lemma {:induction false} ResolveInHeap(h: Heap, v: Value, path: Path)
    requires Closed(h) && InHeap(h, v)
    ensures InHeap(h, Resolve(h, v, path))
  {
    if path != [] {
      ResolveInHeap(h, v, path[..|path| - 1]);
    }
  }

  lemma {:induction false} ResolveConcat(h: Heap, v: Value, p: Path, r: Path)
    ensures Resolve(h, v, p + r) == Resolve(h, Resolve(h, v, p), r)
  {
    if r == [] {
      assert p + r == p;
    } else {
      ResolveConcat(h, v, p, r[..|r| - 1]);
      assert (p + r)[..|p + r| - 1] == p + r[..|r| - 1];
    }
  }

  /** Nothing lies below a value that is not an object. */
  lemma {:induction false} NothingBelow(h: Heap, v: Value, p: Path, q: Path)
    requires !Resolve(h, v, p).Ref? && p < q
    ensures Resolve(h, v, q) == Undefined
  {
    var q0 := q[..|q| - 1];
    if p != q0 {
      NothingBelow(h, v, p, q0);
    }
  }

  /** A walk that does not use the written slot is not affected. */
  lemma {:induction false} WriteOffPath(h: Heap, n: nat, key: string, w: Value, v: Value, q: Path)
    requires n in h
    requires forall m :: 0 <= m < |q| && Resolve(h, v, q[..m]) == Ref(n) ==> q[m] != key
    ensures Resolve(Write(h, n, key, w), v, q) == Resolve(h, v, q)
  {
    if q != [] {
      var q0 := q[..|q| - 1];
      forall m | 0 <= m < |q0| && Resolve(h, v, q0[..m]) == Ref(n) ensures q0[m] != key {
        assert q0[..m] == q[..m];
      }
      WriteOffPath(h, n, key, w, v, q0);
    }
  }

  /** In a tree, a write to slot `key` of the object at `parent` leaves every other path alone. */
  lemma WriteElsewhere(h: Heap, root: Value, parent: Path, n: nat, key: string, w: Value, q: Path)
    requires n in h && forall p: Path :: Resolve(h, root, p) == Ref(n) ==> p == parent
    requires !(parent + [key] <= q)
    ensures Resolve(Write(h, n, key, w), root, q) == Resolve(h, root, q)
  {
    forall m | 0 <= m < |q| && Resolve(h, root, q[..m]) == Ref(n) ensures q[m] != key {
      assert q[..m] == parent;
      assert q[..m + 1] == q[..m] + [q[m]];
    }
    WriteOffPath(h, n, key, w, root, q);
  }

  /** `h'` is `h` with `w` at `slot`: paths below the slot walk the new value, others are unchanged. */
  ghost predicate AssignedAt(h: Heap, h': Heap, root: Value, slot: Path, w: Value) {
    && (forall q: Path :: !(slot <= q) ==> Resolve(h', root, q) == Resolve(h, root, q))
    && (forall q: Path :: slot <= q ==> Resolve(h', root, q) == Resolve(h, w, q[|slot|..]))
  }

  ghost predicate SameWalks(h: Heap, h': Heap, v: Value) {
    forall q: Path :: Resolve(h', v, q) == Resolve(h, v, q)
  }

  /** What one assignment does to a tree. */
  lemma AssignSlot(h: Heap, root: Value, parent: Path, n: nat, key: string, w: Value)
    requires TreeShaped(h, root) && TreeShaped(h, w)
    requires Resolve(h, root, parent) == Ref(n) && n in h
    requires Separate(h, root, parent + [key], w)
    ensures AssignedAt(h, Write(h, n, key, w), root, parent + [key], w)
    ensures SameWalks(h, Write(h, n, key, w), w)
    ensures TreeShaped(Write(h, n, key, w), root)
  {
    var h', slot := Write(h, n, key, w), parent + [key];
    forall q: Path | !(slot <= q) ensures Resolve(h', root, q) == Resolve(h, root, q) {
      WriteElsewhere(h, root, parent, n, key, w, q);
    }
    assert !(slot <= parent);
    UnreachedUnchanged(h, n, key, w, w);
    assert slot[..|slot| - 1] == parent;
    assert Resolve(h', root, slot) == w;
    forall q: Path | slot <= q ensures Resolve(h', root, q) == Resolve(h, w, q[|slot|..]) {
      assert q == slot + q[|slot|..];
      ResolveConcat(h', root, slot, q[|slot|..]);
    }
    AssignKeepsTree(h, h', root, slot, w);
  }

  lemma UnreachedUnchanged(h: Heap, n: nat, key: string, w: Value, v: Value)
    requires n in h && forall p: Path :: Resolve(h, v, p) != Ref(n)
    ensures SameWalks(h, Write(h, n, key, w), v)
  {
    forall q: Path ensures Resolve(Write(h, n, key, w), v, q) == Resolve(h, v, q) {
      WriteOffPath(h, n, key, w, v, q);
    }
  }

  lemma AssignKeepsTree(h: Heap, h': Heap, root: Value, slot: Path, w: Value)
    requires TreeShaped(h, root) && TreeShaped(h, w) && Separate(h, root, slot, w)
    requires AssignedAt(h, h', root, slot, w)
    ensures TreeShaped(h', root)
  {
    forall p: Path, q: Path | Resolve(h', root, p).Ref? && Resolve(h', root, p) == Resolve(h', root, q)
      ensures p == q
    {
      if slot <= p && slot <= q {
        assert p[|slot|..] == q[|slot|..];
        assert p == slot + p[|slot|..] && q == slot + q[|slot|..];
      }
    }
  }

  lemma SameWalksSameShape(h: Heap, h': Heap, v: Value)
    requires TreeShaped(h, v) && SameWalks(h, h', v)
    ensures TreeShaped(h', v)
  {
    forall p: Path, q: Path | Resolve(h', v, p).Ref? && Resolve(h', v, p) == Resolve(h', v, q)
      ensures p == q
    {
      assert Resolve(h, v, p) == Resolve(h, v, q);
    }
  }

  /** Allocating an object changes no walk. */
  lemma {:induction false} AllocateUnseen(h: Heap, id: nat, node: Node, v: Value, q: Path)
    requires Closed(h) && InHeap(h, v) && id !in h
    ensures Resolve(h[id := node], v, q) == Resolve(h, v, q)
  {
    if q != [] {
      AllocateUnseen(h, id, node, v, q[..|q| - 1]);
      ResolveInHeap(h, v, q[..|q| - 1]);
    }
  }

  lemma AllocateSameWalks(h: Heap, id: nat, node: Node, v: Value)
    requires Closed(h) && InHeap(h, v) && id !in h
    ensures SameWalks(h, h[id := node], v)
  {
    forall q: Path ensures Resolve(h[id := node], v, q) == Resolve(h, v, q) {
      AllocateUnseen(h, id, node, v, q);
    }
  }

  /** Nothing lies below a new empty object. */
  lemma NothingInFresh(h: Heap, id: nat, r: Path)
    requires id in h && h[id].fields == map[] && r != []
    ensures Resolve(h, Ref(id), r) == Undefined
  {
    assert r[..1][..0] == [];
    assert Resolve(h, Ref(id), r[..1]) == Undefined;
    if |r| > 1 { NothingBelow(h, Ref(id), r[..1], r); } else { assert r == r[..1]; }
  }

  /** Among these objects, every one but the root sits in exactly one slot, and no other object does. */
  ghost predicate OneSlotEach(h: Heap, root: nat, objects: set<nat>) {
    && root in objects && objects <= h.Keys
    && (forall n, key :: n in objects && key in h[n].fields && h[n].fields[key].Ref? ==>
          h[n].fields[key].id in objects && h[n].fields[key].id != root)
    && (forall n, key, n', key' :: SameObject(h, objects, n, key, n', key') ==> n == n' && key == key')
  }

  /** The two slots hold one object. */
  ghost predicate SameObject(h: Heap, objects: set<nat>, n: nat, key: string, n': nat, key': string) {
    && n in objects && n in h && key in h[n].fields && n' in objects && n' in h && key' in h[n'].fields
    && h[n].fields[key].Ref? && h[n].fields[key] == h[n'].fields[key']
  }

  lemma {:induction false} ReachesOnly(h: Heap, root: nat, objects: set<nat>, q: Path)
    requires OneSlotEach(h, root, objects)
    ensures Resolve(h, Ref(root), q).Ref? ==> Resolve(h, Ref(root), q).id in objects
    ensures Resolve(h, Ref(root), q) == Ref(root) ==> q == []
  {
    if q != [] { ReachesOnly(h, root, objects, q[..|q| - 1]); }
  }

  lemma {:induction false} SamePath(h: Heap, root: nat, objects: set<nat>, p: Path, q: Path)
    requires OneSlotEach(h, root, objects)
    requires Resolve(h, Ref(root), p).Ref? && Resolve(h, Ref(root), p) == Resolve(h, Ref(root), q)
    ensures p == q
    decreases |p|
  {
    ReachesOnly(h, root, objects, p);
    ReachesOnly(h, root, objects, q);
    if p != [] && q != [] {
      var p0, q0 := p[..|p| - 1], q[..|q| - 1];
      ReachesOnly(h, root, objects, p0);
      ReachesOnly(h, root, objects, q0);
      assert SameObject(h, objects, Resolve(h, Ref(root), p0).id, p[|p| - 1], Resolve(h, Ref(root), q0).id, q[|q| - 1]);
      SamePath(h, root, objects, p0, q0);
      assert p == p0 + [p[|p| - 1]] && q == q0 + [q[|q| - 1]];
    }
  }

  lemma OneSlotIsTree(h: Heap, root: nat, objects: set<nat>)
    requires OneSlotEach(h, root, objects)
    ensures TreeShaped(h, Ref(root))
  {
    forall p: Path, q: Path | Resolve(h, Ref(root), p).Ref? && Resolve(h, Ref(root), p) == Resolve(h, Ref(root), q)
      ensures p == q
    {
      SamePath(h, root, objects, p, q);
    }
  }
}
