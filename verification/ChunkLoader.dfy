/** Loading of chunks and segment manifests: requests for one name share a load in flight, and
    `clear` forgets loads without stopping them. */
module ChunkLoader {
  import opened Options

  type Name = string

  /** One of the loader's two tables: `loaded` and `loading` for chunks, `segments` and
      `segmentLoading` for manifests. Loads are numbered as they start. */
  datatype Table = Table(
    loaded: set<Name>,
    loading: map<Name, nat>,      // the promise handed to further requests
    inflight: map<nat, Name>,     // loads started and not yet settled
    next: nat,
    names: map<nat, Name>,        // what each load was for
    succeeded: set<nat>,          // loads that succeeded since the last clear
    clears: nat)

  datatype Event = Request(name: Name) | Succeed(id: nat) | Fail(id: nat) | Clear

  /** A request starts a load unless the name is loaded or being loaded. */
  function DoRequest(t: Table, name: Name): Table {
    if name in t.loaded || name in t.loading then t
    else t.(loading := t.loading[name := t.next], inflight := t.inflight[t.next := name],
            names := t.names[t.next := name], next := t.next + 1)
  }

  /** The load settles: whatever entry the name has in `loading` is deleted. */
  function DoSucceed(t: Table, id: nat): Table {
    if id !in t.inflight then t
    else
      var name := t.inflight[id];
      t.(loaded := t.loaded + {name}, loading := t.loading - {name}, inflight := t.inflight - {id},
         succeeded := t.succeeded + {id})
  }

  function DoFail(t: Table, id: nat): Table {
    if id !in t.inflight then t
    else t.(loading := t.loading - {t.inflight[id]}, inflight := t.inflight - {id})
  }

  function DoClear(t: Table): Table {
    t.(loaded := {}, loading := map[], succeeded := {}, clears := t.clears + 1)
  }

  function Next(t: Table, e: Event): Table {
    match e
    case Request(name) => DoRequest(t, name)
    case Succeed(id) => DoSucceed(t, id)
    case Fail(id) => DoFail(t, id)
    case Clear => DoClear(t)
  }

  function Run(t: Table, events: seq<Event>): Table {
    if events == [] then t else Next(Run(t, events[..|events| - 1]), events[|events| - 1])
  }

  /** The loads in flight for a name. */
  ghost function Loads(t: Table, name: Name): set<nat> {
    set id | id in t.inflight && t.inflight[id] == name
  }

  ghost predicate Consistent(t: Table) {
    && (forall id :: id in t.inflight ==> id < t.next && id in t.names && t.names[id] == t.inflight[id])
    && (forall name :: name in t.loading ==> t.loading[name] in t.inflight && t.inflight[t.loading[name]] == name)
    && t.loading.Keys !! t.loaded
    && (forall id :: id in t.succeeded ==> id in t.names && t.names[id] in t.loaded)
    && (forall id :: id in t.names ==> id < t.next)
  }

  /** Loads that no entry of `loading` stands for were orphaned by a clear. */
  ghost predicate Bounded(t: Table) {
    forall name :: |Loads(t, name)| <= t.clears + if name in t.loading then 1 else 0
  }

  ghost predicate Inv(t: Table) {
    Consistent(t) && Bounded(t)
  }

  function Empty(): Table {
    Table({}, map[], map[], 0, map[], {}, 0)
  }

  lemma RequestKeepsConsistent(t: Table, name: Name)
    requires Consistent(t)
    ensures Consistent(DoRequest(t, name))
  {
  }

  lemma RequestLoads(t: Table, name: Name, n: Name)
    requires t.next !in t.inflight && name !in t.loaded && name !in t.loading
    ensures |Loads(DoRequest(t, name), n)| == |Loads(t, n)| + if n == name then 1 else 0
  {
    var t' := DoRequest(t, name);
    if n == name {
      assert t.next !in Loads(t, n);
      assert Loads(t', n) == Loads(t, n) + {t.next};
    } else {
      assert Loads(t', n) == Loads(t, n);
    }
  }

  lemma RequestKeepsBounded(t: Table, name: Name)
    requires Bounded(t) && t.next !in t.inflight
    ensures Bounded(DoRequest(t, name))
  {
    var t' := DoRequest(t, name);
    if name !in t.loaded && name !in t.loading {
      forall n ensures |Loads(t', n)| <= t'.clears + if n in t'.loading then 1 else 0 {
        RequestLoads(t, name, n);
        assert |Loads(t, n)| <= t.clears + if n in t.loading then 1 else 0;
      }
    }
  }

  lemma RequestKeepsInv(t: Table, name: Name)
    requires Inv(t)
    ensures Inv(DoRequest(t, name))
  {
    RequestKeepsConsistent(t, name);
    RequestKeepsBounded(t, name);
  }

  lemma SettleLoads(t: Table, t': Table, id: nat)
    requires id in t.inflight && t'.inflight == t.inflight - {id} && t'.clears == t.clears
    requires t'.loading == t.loading - {t.inflight[id]} && Bounded(t)
    requires forall name :: name in t.loading ==> t.loading[name] in t.inflight && t.inflight[t.loading[name]] == name
    ensures Bounded(t')
  {
    var name := t.inflight[id];
    forall n ensures |Loads(t', n)| <= t'.clears + if n in t'.loading then 1 else 0 {
      assert |Loads(t, n)| <= t.clears + if n in t.loading then 1 else 0;
      if n == name {
        assert Loads(t', n) == Loads(t, n) - {id};
      } else {
        assert Loads(t', n) == Loads(t, n);
      }
    }
  }

  lemma SettleKeepsInv(t: Table, id: nat)
    requires Inv(t)
    ensures Inv(DoSucceed(t, id)) && Inv(DoFail(t, id))
  {
    if id in t.inflight {
      SettleLoads(t, DoSucceed(t, id), id);
      SettleLoads(t, DoFail(t, id), id);
    }
  }

  lemma ClearKeepsInv(t: Table)
    requires Inv(t)
    ensures Inv(DoClear(t))
  {
    var t' := DoClear(t);
    forall n ensures |Loads(t', n)| <= t'.clears {
      assert Loads(t', n) == Loads(t, n);
      assert |Loads(t, n)| <= t.clears + if n in t.loading then 1 else 0;
    }
  }

  lemma NextKeepsInv(t: Table, e: Event)
    requires Inv(t)
    ensures Inv(Next(t, e))
  {
    match e
    case Request(name) => RequestKeepsInv(t, name);
    case Succeed(id) => SettleKeepsInv(t, id);
    case Fail(id) => SettleKeepsInv(t, id);
    case Clear => ClearKeepsInv(t);
  }

  lemma {:induction false} RunKeepsInv(t: Table, events: seq<Event>)
    requires Inv(t)
    ensures Inv(Run(t, events))
  {
    if events != [] {
      RunKeepsInv(t, events[..|events| - 1]);
      NextKeepsInv(Run(t, events[..|events| - 1]), events[|events| - 1]);
    }
  }

  ghost function Clears(events: seq<Event>): nat {
    if events == [] then 0
    else Clears(events[..|events| - 1]) + if events[|events| - 1].Clear? then 1 else 0
  }

  lemma {:induction false} ClearsCounted(t: Table, events: seq<Event>)
    ensures Run(t, events).clears == t.clears + Clears(events)
  {
    if events != [] {
      ClearsCounted(t, events[..|events| - 1]);
    }
  }

  /** In every interleaving, the loads in flight for one name never exceed one plus the number of
      clears, and no name is both loaded and loading. */
  lemma LoadsBounded(events: seq<Event>, name: Name)
    ensures |Loads(Run(Empty(), events), name)| <= 1 + Clears(events)
    ensures Run(Empty(), events).loading.Keys !! Run(Empty(), events).loaded
  {
    EmptyInv();
    RunKeepsInv(Empty(), events);
    ClearsCounted(Empty(), events);
    assert |Loads(Run(Empty(), events), name)| <= Clears(events) + 1;
  }

  lemma EmptyInv()
    ensures Inv(Empty())
  {
    forall name ensures Loads(Empty(), name) == {} {}
  }

  /** Without a clear, a name is in flight exactly if it is in `loading`, and then once. */
  lemma WithoutClear(events: seq<Event>, name: Name)
    requires Clears(events) == 0
    ensures var t := Run(Empty(), events);
            Loads(t, name) == if name in t.loading then {t.loading[name]} else {}
  {
    EmptyInv();
    RunKeepsInv(Empty(), events);
    ClearsCounted(Empty(), events);
    var t := Run(Empty(), events);
    var loads := Loads(t, name);
    assert |loads| <= if name in t.loading then 1 else 0;
    if name in t.loading {
      assert t.loading[name] in loads;
      assert |loads - {t.loading[name]}| == 0;
    }
  }

  /** The bound is reached: a request, a clear and another request leave two loads in flight. */
  lemma ClearOrphansLoad(name: Name)
    ensures |Loads(Run(Empty(), [Request(name), Clear, Request(name)]), name)| == 2
  {
    var events := [Request(name), Clear, Request(name)];
    assert events[..2][..1] == [Request(name)] && events[..1][..0] == [] && events[..2] == [Request(name), Clear];
    var t1 := DoRequest(Empty(), name);
    assert [Request(name)][..0] == [];
    assert Run(Empty(), [Request(name)]) == t1;
    assert Run(Empty(), events[..2]) == DoClear(t1);
    assert Run(Empty(), events) == DoRequest(DoClear(t1), name);
    assert Loads(Run(Empty(), events), name) == {0, 1};
  }

  /** Requests made one after the other without waiting. */
  function RequestAll(t: Table, names: seq<Name>): Table {
    if names == [] then t else DoRequest(RequestAll(t, names[..|names| - 1]), names[|names| - 1])
  }

  /** `loadForPath` asks for what is not loaded. */
  function Missing(t: Table, chunks: seq<Name>): seq<Name> {
    if chunks == [] then []
    else Missing(t, chunks[..|chunks| - 1]) + if chunks[|chunks| - 1] in t.loaded then [] else [chunks[|chunks| - 1]]
  }

  lemma {:induction false} MissingAre(t: Table, chunks: seq<Name>)
    ensures forall c :: c in Missing(t, chunks) <==> c in chunks && c !in t.loaded
  {
    if chunks != [] {
      MissingAre(t, chunks[..|chunks| - 1]);
      assert chunks == chunks[..|chunks| - 1] + [chunks[|chunks| - 1]];
    }
  }

  lemma {:induction false} RequestedAll(t: Table, names: seq<Name>)
    requires Inv(t)
    ensures var t' := RequestAll(t, names);
            && Inv(t') && t'.loaded == t.loaded && t'.clears == t.clears
            && (forall c :: c in names ==> c in t'.loaded || c in t'.loading)
            && (forall c :: c in t.loading ==> c in t'.loading && t'.loading[c] == t.loading[c])
  {
    if names != [] {
      RequestedAll(t, names[..|names| - 1]);
      RequestKeepsInv(RequestAll(t, names[..|names| - 1]), names[|names| - 1]);
    }
  }

  lemma {:induction false} NothingElseRequested(t: Table, names: seq<Name>)
    ensures var t' := RequestAll(t, names);
            && t.next <= t'.next
            && forall c :: c in t'.loading && c !in t.loading ==> c in names && t'.loading[c] >= t.next
  {
    if names != [] {
      NothingElseRequested(t, names[..|names| - 1]);
      assert names == names[..|names| - 1] + [names[|names| - 1]];
    }
  }

  /** Without a clear, what is loaded stays loaded and a load's name is never forgotten. */
  lemma {:induction false} LoadedStays(t: Table, events: seq<Event>)
    requires Inv(t) && Clears(events) == 0
    ensures var t' := Run(t, events);
            t.loaded <= t'.loaded && forall id :: id in t.names ==> id in t'.names && t'.names[id] == t.names[id]
  {
    if events != [] {
      var front, last := events[..|events| - 1], events[|events| - 1];
      LoadedStays(t, front);
      RunKeepsInv(t, front);
    }
  }

  /** `loadForPath`: when every load it waits for has succeeded, and nothing was cleared meanwhile,
      every chunk of the path is loaded, whoever started those loads. */
  lemma LoadForPathLoads(t: Table, chunks: seq<Name>, events: seq<Event>)
    requires Inv(t) && Clears(events) == 0
    requires var t1 := RequestAll(t, Missing(t, chunks));
             forall c :: c in Missing(t, chunks) && c in t1.loading ==> t1.loading[c] in Run(t1, events).succeeded
    ensures forall c :: c in chunks ==> c in Run(RequestAll(t, Missing(t, chunks)), events).loaded
  {
    var missing := Missing(t, chunks);
    var t1 := RequestAll(t, missing);
    var t2 := Run(t1, events);
    MissingAre(t, chunks);
    RequestedAll(t, missing);
    LoadedStays(t1, events);
    RunKeepsInv(t1, events);
    forall c | c in chunks ensures c in t2.loaded {
      if c !in t.loaded {
        assert c in t1.loading;
        var id := t1.loading[c];
        assert id in t1.names && t1.names[id] == c;
        assert t2.names[id] == c;
      }
    }
  }

  /** The `k`-th event is the success of a load for the name. */
  ghost predicate SucceedsAt(t: Table, events: seq<Event>, k: nat, name: Name)
    requires k < |events|
  {
    && events[k].Succeed?
    && var before := Run(t, events[..k]);
       events[k].id in before.inflight && before.inflight[events[k].id] == name
  }

  /** A load for the name succeeded after the last clear, or it was loaded before and nothing was
      cleared. */
  ghost predicate LoadedBy(t: Table, events: seq<Event>, name: Name) {
    || (name in t.loaded && Clears(events) == 0)
    || exists k: nat :: k < |events| && LoadedAt(t, events, k, name)
  }

  lemma ClearsSnoc(events: seq<Event>, e: Event)
    ensures Clears(events + [e]) == Clears(events) + if e.Clear? then 1 else 0
  {
    assert (events + [e])[..|events|] == events;
  }

  /** The `k`-th event is a success for the name, and nothing was cleared after it. */
  ghost predicate LoadedAt(t: Table, events: seq<Event>, k: nat, name: Name)
    requires k < |events|
  {
    SucceedsAt(t, events, k, name) && Clears(events[k + 1..]) == 0
  }

  lemma LoadedAtNext(t: Table, events: seq<Event>, e: Event, k: nat, name: Name)
    requires k < |events|
    ensures LoadedAt(t, events + [e], k, name) <==> !e.Clear? && LoadedAt(t, events, k, name)
  {
    var all := events + [e];
    assert all[..k] == events[..k] && all[k + 1..] == events[k + 1..] + [e] && all[k] == events[k];
    ClearsSnoc(events[k + 1..], e);
  }

  lemma LoadedAtLast(t: Table, events: seq<Event>, e: Event, name: Name)
    ensures LoadedAt(t, events + [e], |events|, name) <==> SucceedsAt(t, events + [e], |events|, name)
  {
    assert (events + [e])[|events| + 1..] == [];
  }

  /** One more event. */
  lemma LoadedByNext(t: Table, events: seq<Event>, e: Event, name: Name)
    ensures LoadedBy(t, events + [e], name) <==>
            (!e.Clear? && LoadedBy(t, events, name)) || SucceedsAt(t, events + [e], |events|, name)
  {
    var all := events + [e];
    ClearsSnoc(events, e);
    LoadedAtLast(t, events, e, name);
    if k: nat :| k < |all| && LoadedAt(t, all, k, name) {
      if k < |events| { LoadedAtNext(t, events, e, k, name); }
    }
    if k: nat :| k < |events| && LoadedAt(t, events, k, name) {
      LoadedAtNext(t, events, e, k, name);
    }
  }

  /** The law for all runs, clears included: a name is loaded at the end exactly if one of its loads
      succeeded after the last clear, or it was loaded before and nothing was cleared. */
  lemma {:induction false} LoadedExactly(t: Table, events: seq<Event>, name: Name)
    ensures name in Run(t, events).loaded <==> LoadedBy(t, events, name)
  {
    if events != [] {
      var front, e := events[..|events| - 1], events[|events| - 1];
      assert events == front + [e];
      LoadedExactly(t, front, name);
      LoadedByNext(t, front, e, name);
    }
  }

  /** What `loadForPath` requested is loaded at the end under the same condition. */
  lemma PathLoadedExactly(t: Table, chunks: seq<Name>, events: seq<Event>, c: Name)
    requires Inv(t) && c in chunks
    ensures var t1 := RequestAll(t, Missing(t, chunks));
            && (c in t1.loaded || c in t1.loading)
            && (c in Run(t1, events).loaded <==> LoadedBy(t1, events, c))
  {
    MissingAre(t, chunks);
    RequestedAll(t, Missing(t, chunks));
    LoadedExactly(RequestAll(t, Missing(t, chunks)), events, c);
  }

  type Manifest = string

  /** The loader. The two tables are what the protocol above says of its fields and of the loads in
      flight; a method is one uninterrupted stretch of its code. */
  class Loader {
    var loaded: set<Name>
    var loading: map<Name, nat>
    var segments: map<Name, Manifest>
    var segmentLoading: map<Name, nat>
    var imports: nat                 // chunk loads started
    var fetches: nat                 // manifest loads started
    ghost var chunkTable: Table
    ghost var segmentTable: Table

    ghost predicate Valid()
      reads this
    {
      && Inv(chunkTable) && Inv(segmentTable)
      && loaded == chunkTable.loaded && loading == chunkTable.loading && imports == chunkTable.next
      && segments.Keys == segmentTable.loaded && segmentLoading == segmentTable.loading && fetches == segmentTable.next
    }

    constructor ()
      ensures Valid() && chunkTable == Empty() && segmentTable == Empty()
    {
      loaded, loading, segments, segmentLoading, imports, fetches := {}, map[], map[], map[], 0, 0;
      chunkTable, segmentTable := Empty(), Empty();
      EmptyInv();
    }

    /** `loadChunk` returns the load to wait for, if any. */
    method LoadChunk(name: Name) returns (pending: Option<nat>)
      requires Valid()
      modifies this`loading, this`imports, this`chunkTable
      ensures Valid() && chunkTable == DoRequest(old(chunkTable), name)
      ensures pending == if name in loaded then None else Some(loading[name])
      ensures if name in loaded || name in old(loading) then loading == old(loading) && imports == old(imports)
              else loading == old(loading)[name := old(imports)] && imports == old(imports) + 1
    {
      RequestKeepsInv(chunkTable, name);
      if name in loaded {
        return None;
      }
      if name in loading {
        return Some(loading[name]);
      }
      pending := Some(imports);
      loading := loading[name := imports];
      chunkTable := DoRequest(chunkTable, name);
      imports := imports + 1;
    }

    method OnChunkLoaded(id: nat, name: Name)
      requires Valid() && id in chunkTable.inflight && chunkTable.inflight[id] == name
      modifies this`loaded, this`loading, this`chunkTable
      ensures Valid() && chunkTable == DoSucceed(old(chunkTable), id)
      ensures loaded == old(loaded) + {name} && loading == old(loading) - {name} && id !in chunkTable.inflight
    {
      SettleKeepsInv(chunkTable, id);
      loaded := loaded + {name};
      loading := loading - {name};
      chunkTable := DoSucceed(chunkTable, id);
    }

    method OnChunkFailed(id: nat, name: Name)
      requires Valid() && id in chunkTable.inflight && chunkTable.inflight[id] == name
      modifies this`loading, this`chunkTable
      ensures Valid() && chunkTable == DoFail(old(chunkTable), id)
      ensures loading == old(loading) - {name} && id !in chunkTable.inflight
    {
      SettleKeepsInv(chunkTable, id);
      loading := loading - {name};
      chunkTable := DoFail(chunkTable, id);
    }

    /** `loadSegment` returns a cached manifest, or the load to wait for. */
    method LoadSegment(name: Name) returns (cached: Option<Manifest>, pending: Option<nat>)
      requires Valid()
      modifies this`segmentLoading, this`fetches, this`segmentTable
      ensures Valid() && segmentTable == DoRequest(old(segmentTable), name)
      ensures if name in segments then cached == Some(segments[name]) && pending == None
              else cached == None && pending == Some(segmentLoading[name])
      ensures if name in segments || name in old(segmentLoading)
              then segmentLoading == old(segmentLoading) && fetches == old(fetches)
              else segmentLoading == old(segmentLoading)[name := old(fetches)] && fetches == old(fetches) + 1
    {
      RequestKeepsInv(segmentTable, name);
      cached, pending := None, None;
      if name in segments {
        cached := Some(segments[name]);
      } else if name in segmentLoading {
        pending := Some(segmentLoading[name]);
      } else {
        pending := Some(fetches);
        segmentLoading := segmentLoading[name := fetches];
        segmentTable := DoRequest(segmentTable, name);
        fetches := fetches + 1;
      }
    }

    method OnSegmentLoaded(id: nat, name: Name, manifest: Manifest)
      requires Valid() && id in segmentTable.inflight && segmentTable.inflight[id] == name
      modifies this`segments, this`segmentLoading, this`segmentTable
      ensures Valid() && segmentTable == DoSucceed(old(segmentTable), id)
      ensures segments == old(segments)[name := manifest] && segmentLoading == old(segmentLoading) - {name}
      ensures id !in segmentTable.inflight
    {
      SettleKeepsInv(segmentTable, id);
      segments := segments[name := manifest];
      segmentLoading := segmentLoading - {name};
      segmentTable := DoSucceed(segmentTable, id);
    }

    method OnSegmentFailed(id: nat, name: Name)
      requires Valid() && id in segmentTable.inflight && segmentTable.inflight[id] == name
      modifies this`segmentLoading, this`segmentTable
      ensures Valid() && segmentTable == DoFail(old(segmentTable), id)
      ensures segmentLoading == old(segmentLoading) - {name} && id !in segmentTable.inflight
    {
      SettleKeepsInv(segmentTable, id);
      segmentLoading := segmentLoading - {name};
      segmentTable := DoFail(segmentTable, id);
    }

    method ClearAll()
      requires Valid()
      modifies this
      ensures Valid() && chunkTable == DoClear(old(chunkTable)) && segmentTable == DoClear(old(segmentTable))
      ensures loaded == {} && loading == map[] && segments == map[] && segmentLoading == map[]
      ensures chunkTable.inflight == old(chunkTable.inflight) && segmentTable.inflight == old(segmentTable.inflight)
      ensures imports == old(imports) && fetches == old(fetches)
    {
      ClearKeepsInv(chunkTable);
      ClearKeepsInv(segmentTable);
      loaded, loading, segments, segmentLoading := {}, map[], map[], map[];
      chunkTable, segmentTable := DoClear(chunkTable), DoClear(segmentTable);
    }

    method FindMissing(chunks: seq<Name>) returns (missing: seq<Name>)
      requires Valid()
      ensures missing == Missing(chunkTable, chunks)
      ensures forall c :: c in missing <==> c in chunks && c !in loaded
    {
      MissingAre(chunkTable, chunks);
      missing := [];
      for i := 0 to |chunks|
        invariant missing == Missing(chunkTable, chunks[..i])
      {
        assert chunks[..i + 1][..i] == chunks[..i];
        if chunks[i] !in loaded {
          missing := missing + [chunks[i]];
        }
      }
      assert chunks[..|chunks|] == chunks;
    }

    /** `loadForPath` up to its wait, for the chunks its path matched. */
    method BeginLoadForPath(chunks: seq<Name>) returns (missing: seq<Name>)
      requires Valid()
      modifies this`loading, this`imports, this`chunkTable
      ensures Valid() && missing == Missing(old(chunkTable), chunks)
      ensures chunkTable == RequestAll(old(chunkTable), missing)
      ensures forall c :: c in chunks ==> c in loaded || c in loading
      ensures forall c :: c in old(loading) ==> c in loading && loading[c] == old(loading)[c]
      ensures forall c :: c in loading ==> c in old(loading) || (c in chunks && loading[c] >= old(imports))
    {
      missing := FindMissing(chunks);
      for i := 0 to |missing|
        invariant Valid() && chunkTable == RequestAll(old(chunkTable), missing[..i])
      {
        assert missing[..i + 1][..i] == missing[..i];
        var _ := LoadChunk(missing[i]);
      }
      assert missing[..|missing|] == missing;
      RequestedAll(old(chunkTable), missing);
      NothingElseRequested(old(chunkTable), missing);
    }
  }
}
