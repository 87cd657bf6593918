/** Saved scroll positions: a bounded first-in, first-out map mirrored to session storage. */
module Scroll {
  import opened Options

  type Path = string

  datatype Position = Position(x: real, y: real)

  /** A stored text, as far as `loadFromStorage` reads it: a position, or anything else. */
  datatype Stored = Saved(position: Position) | Other(text: string)

  /** The `positions` Map, in insertion order. */
  datatype Positions = Positions(order: seq<Path>, at: map<Path, Position>)

  ghost predicate Ordered(p: Positions) {
    && (forall i, j :: 0 <= i < j < |p.order| ==> p.order[i] != p.order[j])
    && (forall path :: path in p.order <==> path in p.at)
  }

  /** `positions.set(path, position)`: a known path keeps its place. */
  function Put(p: Positions, path: Path, position: Position): Positions {
    Positions(if path in p.at then p.order else p.order + [path], p.at[path := position])
  }

  /** `positions.delete(path)` for the first path in order. */
  function DropFirst(p: Positions): Positions {
    if p.order == [] then p else Positions(p.order[1..], p.at - {p.order[0]})
  }

  /** `q` is `p` without its first `n` entries. */
  ghost predicate Without(p: Positions, n: nat, q: Positions) {
    && n <= |p.order| && Ordered(q) && q.order == p.order[n..]
    && forall path :: path in q.at ==> path in p.at && q.at[path] == p.at[path]
  }

  lemma DropOrdered(p: Positions)
    requires Ordered(p) && p.order != []
    ensures Ordered(DropFirst(p))
  {
    assert p.order == [p.order[0]] + p.order[1..];
  }

  lemma WithoutNext(p: Positions, n: nat, q: Positions)
    requires Without(p, n, q) && n < |p.order|
    ensures q.order[0] == p.order[n] && Without(p, n + 1, DropFirst(q))
  {
    DropOrdered(q);
    assert p.order[n..][1..] == p.order[n + 1..];
  }

  /** How many entries are too many. */
  function Excess(size: nat, keep: nat): nat {
    if size <= keep then 0 else size - keep
  }

  /** Where `slice(0, end)` of a list ends: a negative end counts from the back. */
  function SliceEnd(size: nat, end: int): (k: nat)
    ensures k <= size
  {
    if end < 0 then if size + end < 0 then 0 else size + end
    else if end > size then size
    else end
  }

  /** What `cleanup` leaves of an oversized map: the last `keep` entries. */
  ghost predicate Newest(p: Positions, keep: nat, q: Positions) {
    Without(p, Excess(|p.order|, keep), q)
  }

  /** The entries of the session storage under the prefix. */
  ghost predicate Mirrors(storage: map<string, Stored>, prefix: string, p: Positions) {
    forall path: Path ::
      if path in p.at then prefix + path in storage && storage[prefix + path] == Saved(p.at[path])
      else prefix + path !in storage
  }

  /** Nothing but the entries under the prefix was touched. */
  ghost predicate OthersKept(storage: map<string, Stored>, storage': map<string, Stored>, prefix: string) {
    forall key :: !(prefix <= key) ==>
      (key in storage <==> key in storage') && (key in storage ==> storage[key] == storage'[key])
  }

  lemma PrefixInjective(prefix: string, a: Path, b: Path)
    ensures prefix + a == prefix + b <==> a == b
    ensures prefix <= prefix + a
  {
    assert (prefix + a)[|prefix|..] == a && (prefix + b)[|prefix|..] == b;
  }

  lemma PutMirrors(storage: map<string, Stored>, prefix: string, p: Positions, path: Path, position: Position)
    requires Mirrors(storage, prefix, p)
    ensures Mirrors(storage[prefix + path := Saved(position)], prefix, Put(p, path, position))
    ensures OthersKept(storage, storage[prefix + path := Saved(position)], prefix)
  {
    forall q: Path ensures prefix + q == prefix + path <==> q == path { PrefixInjective(prefix, q, path); }
  }

  lemma DropMirrors(storage: map<string, Stored>, prefix: string, p: Positions)
    requires Mirrors(storage, prefix, p) && p.order != []
    ensures Mirrors(storage - {prefix + p.order[0]}, prefix, DropFirst(p))
    ensures OthersKept(storage, storage - {prefix + p.order[0]}, prefix)
  {
    forall q: Path ensures prefix + q == prefix + p.order[0] <==> q == p.order[0] {
      PrefixInjective(prefix, q, p.order[0]);
    }
  }

  /** What is loaded: the positions stored under the prefix. */
  ghost predicate Loaded(p: Positions, storage: map<string, Stored>, prefix: string) {
    && (forall path :: path in p.at <==> prefix + path in storage && storage[prefix + path].Saved?)
    && (forall path :: path in p.at ==> storage[prefix + path] == Saved(p.at[path]))
  }

  lemma PutOrdered(p: Positions, path: Path, position: Position)
    requires Ordered(p)
    ensures Ordered(Put(p, path, position))
  {
  }

  /** What a save leaves, spelled out: a known path keeps its place and a new one is last; of too many
      entries the first go; the path has the new position and the others have theirs. */
  ghost predicate SavedAs(p: Positions, path: Path, position: Position, keep: nat, q: Positions) {
    var all := if path in p.order then p.order else p.order + [path];
    && q.order == (if |all| <= keep then all else all[|all| - keep..])
    && forall x :: x in q.order ==>
         x in q.at && if x == path then q.at[x] == position else x in p.at && q.at[x] == p.at[x]
  }

  lemma NewestIsSaved(p: Positions, path: Path, position: Position, keep: nat, q: Positions)
    requires Ordered(p) && Newest(Put(p, path, position), keep, q)
    ensures SavedAs(p, path, position, keep, q)
  {
    var all := Put(p, path, position).order;
    assert all[0..] == all;
  }

  /** The loaded paths are in the order of the storage's keys. */
  ghost predicate InKeyOrder(order: seq<Path>, keys: seq<string>, prefix: string) {
    && (forall i :: 0 <= i < |order| ==> prefix + order[i] in keys)
    && (forall i, j :: 0 <= i < j < |order| ==> KeysPrecede(keys, prefix + order[i], prefix + order[j]))
  }

  ghost predicate KeysPrecede(keys: seq<string>, a: string, b: string) {
    exists i, j :: 0 <= i < j < |keys| && keys[i] == a && keys[j] == b
  }

  lemma KeysPrecedeNext(keys: seq<string>, key: string, a: string, b: string)
    requires KeysPrecede(keys, a, b) || (a in keys && b == key)
    ensures KeysPrecede(keys + [key], a, b)
  {
    var next := keys + [key];
    if i, j :| 0 <= i < j < |keys| && keys[i] == a && keys[j] == b {
      assert next[i] == a && next[j] == b;
    } else {
      var i :| 0 <= i < |keys| && keys[i] == a;
      assert next[i] == a && next[|keys|] == b;
    }
  }

  lemma KeyOrderNext(order: seq<Path>, keys: seq<string>, prefix: string, key: string)
    requires InKeyOrder(order, keys, prefix)
    ensures InKeyOrder(order, keys + [key], prefix)
    ensures prefix <= key ==> InKeyOrder(order + [key[|prefix|..]], keys + [key], prefix)
  {
    forall i, j | 0 <= i < j < |order| ensures KeysPrecede(keys + [key], prefix + order[i], prefix + order[j]) {
      KeysPrecedeNext(keys, key, prefix + order[i], prefix + order[j]);
    }
    if prefix <= key {
      assert prefix + key[|prefix|..] == key;
      forall i | 0 <= i < |order| ensures KeysPrecede(keys + [key], prefix + order[i], key) {
        KeysPrecedeNext(keys, key, prefix + order[i], key);
      }
    }
  }

  /** What has been loaded when these keys have been looked at. */
  ghost predicate LoadedSoFar(p: Positions, storage: map<string, Stored>, prefix: string, keys: seq<string>) {
    && Ordered(p) && InKeyOrder(p.order, keys, prefix)
    && (forall path :: path in p.at <==>
          prefix + path in keys && prefix + path in storage && storage[prefix + path].Saved?)
    && (forall path :: path in p.at ==> storage[prefix + path] == Saved(p.at[path]))
  }

  lemma LoadNext(p: Positions, storage: map<string, Stored>, prefix: string, keys: seq<string>, key: string)
    requires LoadedSoFar(p, storage, prefix, keys) && key in storage
    ensures var q := if prefix <= key && storage[key].Saved? then Put(p, key[|prefix|..], storage[key].position) else p;
            LoadedSoFar(q, storage, prefix, keys + [key])
  {
    KeyOrderNext(p.order, keys, prefix, key);
    forall q: Path ensures prefix + q == key <==> prefix <= key && q == key[|prefix|..] {
      if prefix <= key { assert key == prefix + key[|prefix|..]; }
      PrefixInjective(prefix, q, if prefix <= key then key[|prefix|..] else q);
    }
  }

  datatype Command = Save(path: Path, position: Position) | Clear

  ghost predicate Step(p: Positions, cmd: Command, maxEntries: nat, q: Positions) {
    match cmd
    case Save(path, position) => Newest(Put(p, path, position), maxEntries, q)
    case Clear => q == Positions([], map[])
  }

  /** The paths in the order of their insertion since the last `clear`: a save inserts a path that is not
      among the newest entries of the log. */
  function Log(cmds: seq<Command>, maxEntries: nat): seq<Path> {
    if cmds == [] then [] else Logged(Log(cmds[..|cmds| - 1], maxEntries), cmds[|cmds| - 1], maxEntries)
  }

  function Logged(log: seq<Path>, cmd: Command, maxEntries: nat): seq<Path> {
    match cmd
    case Save(path, _) => if path in Window(log, maxEntries) then log else log + [path]
    case Clear => []
  }

  /** The newest entries of a log. */
  function Window(log: seq<Path>, maxEntries: nat): seq<Path> {
    log[Excess(|log|, maxEntries)..]
  }

  /** Where the path was saved last. */
  function LastSaved(cmds: seq<Command>, path: Path): Option<Position> {
    if cmds == [] then None
    else
      match cmds[|cmds| - 1]
      case Save(p, position) => if p == path then Some(position) else LastSaved(cmds[..|cmds| - 1], path)
      case Clear => None
  }

  /** The map holds the newest entries of the log, in the order of their first insertion, each with the
      position saved last. */
  ghost predicate AsLogged(p: Positions, cmds: seq<Command>, maxEntries: nat) {
    && Ordered(p) && p.order == Window(Log(cmds, maxEntries), maxEntries)
    && forall path :: path in p.at ==> LastSaved(cmds, path) == Some(p.at[path])
  }

  lemma WindowNext(log: seq<Path>, path: Path, maxEntries: nat)
    ensures |Window(log, maxEntries)| <= maxEntries
    ensures var all := Window(log, maxEntries) + [path];
            all[Excess(|all|, maxEntries)..] == Window(log + [path], maxEntries)
  {
  }

  lemma OrderNext(p: Positions, log: seq<Path>, path: Path, position: Position, maxEntries: nat, q: Positions)
    requires Ordered(p) && p.order == Window(log, maxEntries) && Newest(Put(p, path, position), maxEntries, q)
    ensures q.order == Window(if path in Window(log, maxEntries) then log else log + [path], maxEntries)
  {
    WindowNext(log, path, maxEntries);
    if path in p.at { assert p.order[0..] == p.order; }
  }

  lemma SavedNext(p: Positions, cmds: seq<Command>, path: Path, position: Position, maxEntries: nat, q: Positions)
    requires forall x :: x in p.at ==> LastSaved(cmds, x) == Some(p.at[x])
    requires Newest(Put(p, path, position), maxEntries, q)
    ensures forall x :: x in q.at ==> LastSaved(cmds + [Save(path, position)], x) == Some(q.at[x])
  {
    forall x | x in q.at ensures LastSaved(cmds + [Save(path, position)], x) == Some(q.at[x]) {
      LastSavedNext(cmds, path, position, x);
    }
  }

  lemma LastSavedNext(cmds: seq<Command>, path: Path, position: Position, x: Path)
    ensures LastSaved(cmds + [Save(path, position)], x) == if x == path then Some(position) else LastSaved(cmds, x)
  {
    assert (cmds + [Save(path, position)])[..|cmds|] == cmds;
  }

  lemma LogNext(cmds: seq<Command>, cmd: Command, maxEntries: nat)
    ensures Log(cmds + [cmd], maxEntries) == Logged(Log(cmds, maxEntries), cmd, maxEntries)
  {
    assert (cmds + [cmd])[..|cmds|] == cmds;
  }

  /** A command changes the map as it changes the log. */
  lemma LoggedNext(p: Positions, cmds: seq<Command>, cmd: Command, maxEntries: nat, q: Positions)
    requires AsLogged(p, cmds, maxEntries) && Step(p, cmd, maxEntries, q)
    ensures AsLogged(q, cmds + [cmd], maxEntries)
  {
    LogNext(cmds, cmd, maxEntries);
    if cmd.Save? {
      OrderNext(p, Log(cmds, maxEntries), cmd.path, cmd.position, maxEntries, q);
      SavedNext(p, cmds, cmd.path, cmd.position, maxEntries, q);
    }
  }

  lemma LoggedBounded(p: Positions, cmds: seq<Command>, maxEntries: nat)
    requires AsLogged(p, cmds, maxEntries)
    ensures |p.order| <= maxEntries
  {
  }

  lemma OneMore(cmds: seq<Command>, k: nat)
    requires k <= |cmds|
    ensures if k < |cmds| then cmds[..k + 1] == cmds[..k] + [cmds[k]] else cmds[..k] == cmds
  {
  }

  lemma RunBegins(p: Positions, cmds: seq<Command>, maxEntries: nat)
    requires p == Positions([], map[])
    ensures AsLogged(p, cmds[..0], maxEntries)
  {
  }

  lemma OthersKeptOn(a: map<string, Stored>, b: map<string, Stored>, c: map<string, Stored>, prefix: string)
    requires OthersKept(a, b, prefix) && OthersKept(b, c, prefix)
    ensures OthersKept(a, c, prefix)
  {
    forall key | !(prefix <= key) ensures (key in a <==> key in c) && (key in a ==> a[key] == c[key]) {
      assert (key in a <==> key in b) && (key in b <==> key in c);
    }
  }

  class ScrollManager {
    const prefix: string
    const useStorage: bool
    const maxEntries: int
    var positions: Positions
    var storage: map<string, Stored>

    ghost predicate Valid()
      reads this
    {
      Ordered(positions)
    }

    /** The number of entries that `cleanup` lets be. */
    ghost function Keep(): nat {
      if maxEntries < 0 then 0 else maxEntries
    }

    ghost predicate Mirrored()
      reads this
    {
      useStorage ==> Mirrors(storage, prefix, positions)
    }

    constructor (prefix: string, useStorage: bool, maxEntries: int, storage: map<string, Stored>, keys: seq<string>)
      requires forall key :: key in keys <==> key in storage
      ensures Valid() && this.prefix == prefix && this.useStorage == useStorage && this.maxEntries == maxEntries
      ensures this.storage == storage
      ensures !useStorage ==> positions == Positions([], map[])
      ensures useStorage ==> Loaded(positions, storage, prefix)
    {
      this.prefix, this.useStorage, this.maxEntries, this.storage := prefix, useStorage, maxEntries, storage;
      positions := Positions([], map[]);
      new;
      if useStorage {
        LoadFromStorage(keys);
      }
    }

    /** `loadFromStorage`; what does not parse as a position is skipped and left in the storage. */
    method LoadFromStorage(keys: seq<string>)
      requires forall key :: key in keys <==> key in storage
      requires positions == Positions([], map[])
      modifies this`positions
      ensures Valid() && Loaded(positions, storage, prefix) && InKeyOrder(positions.order, keys, prefix)
    {
      for k := 0 to |keys|
        invariant LoadedSoFar(positions, storage, prefix, keys[..k])
      {
        var key := keys[k];
        assert keys[..k + 1] == keys[..k] + [key];
        LoadNext(positions, storage, prefix, keys[..k], key);
        if prefix <= key {
          match storage[key] {
            case Saved(position) => positions := Put(positions, key[|prefix|..], position);
            case Other(_) =>
          }
        }
      }
      assert keys[..|keys|] == keys;
    }

    /** `save`, at the window's current position. */
    method Save(path: Path, position: Position)
      requires Valid()
      modifies this`positions, this`storage
      ensures Valid() && Newest(Put(old(positions), path, position), Keep(), positions)
      ensures SavedAs(old(positions), path, position, Keep(), positions)
      ensures old(Mirrored()) ==> Mirrored()
      ensures OthersKept(old(storage), storage, prefix) && (!useStorage ==> storage == old(storage))
    {
      ghost var before := storage;
      PutOrdered(positions, path, position);
      if old(Mirrored()) && useStorage { PutMirrors(storage, prefix, positions, path, position); }
      positions := Put(positions, path, position);
      if useStorage {
        PrefixInjective(prefix, path, path);
        storage := storage[prefix + path := Saved(position)];
      }
      if |positions.order| > maxEntries {
        Cleanup();
      }
      NewestIsSaved(old(positions), path, position, Keep(), positions);
    }

    /** `cleanup`: removes as many of the entries inserted first as `slice(0, size - maxEntries)` yields. */
    method Cleanup()
      requires Valid()
      modifies this`positions, this`storage
      ensures Valid()
      ensures var size := |old(positions).order|; Without(old(positions), SliceEnd(size, size - maxEntries), positions)
      ensures |old(positions).order| > maxEntries ==> Newest(old(positions), Keep(), positions)
      ensures var size := |old(positions).order|;
              |positions.order| == if size > maxEntries then Keep()
                                   else if size == maxEntries || 2 * size <= maxEntries then size else maxEntries - size
      ensures old(Mirrored()) ==> Mirrored()
      ensures OthersKept(old(storage), storage, prefix) && (!useStorage ==> storage == old(storage))
    {
      var entries := positions.order;
      var toRemove := entries[..SliceEnd(|entries|, |entries| - maxEntries)];
      ghost var p := positions;
      for i := 0 to |toRemove|
        invariant Without(p, i, positions)
        invariant old(Mirrored()) ==> Mirrored()
        invariant OthersKept(old(storage), storage, prefix) && (!useStorage ==> storage == old(storage))
      {
        WithoutNext(p, i, positions);
        DropOldest(toRemove[i]);
      }
    }

    method DropOldest(path: Path)
      requires Valid() && positions.order != [] && path == positions.order[0]
      modifies this`positions, this`storage
      ensures positions == DropFirst(old(positions))
      ensures old(Mirrored()) ==> Mirrored()
      ensures OthersKept(old(storage), storage, prefix) && (!useStorage ==> storage == old(storage))
    {
      if Mirrored() && useStorage { DropMirrors(storage, prefix, positions); }
      PrefixInjective(prefix, path, path);
      positions := DropFirst(positions);
      if useStorage {
        storage := storage - {prefix + path};
      }
    }

    /** `clear` */
    method Clear()
      modifies this`positions, this`storage
      ensures Valid() && positions == Positions([], map[])
      ensures Mirrored()
      ensures OthersKept(old(storage), storage, prefix) && (!useStorage ==> storage == old(storage))
    {
      positions := Positions([], map[]);
      if useStorage {
        storage := map key | key in storage && !(prefix <= key) :: storage[key];
        forall path: Path ensures prefix + path !in storage { PrefixInjective(prefix, path, path); }
      }
    }

    method Take(cmd: Command)
      requires Valid()
      modifies this`positions, this`storage
      ensures Valid() && Step(old(positions), cmd, Keep(), positions)
      ensures old(Mirrored()) ==> Mirrored()
      ensures OthersKept(old(storage), storage, prefix)
    {
      match cmd {
        case Save(path, position) => Save(path, position);
        case Clear => Clear();
      }
    }

    /** Any run from an empty manager: the map holds exactly the newest entries, in the order of their first
        insertion, with the positions saved last; the storage mirrors it, and nothing else there changes. */
    method TakeAll(cmds: seq<Command>)
      requires positions == Positions([], map[]) && Mirrored()
      modifies this`positions, this`storage
      ensures AsLogged(positions, cmds, Keep()) && |positions.order| <= Keep()
      ensures Mirrored() && OthersKept(old(storage), storage, prefix)
    {
      ghost var storage0 := storage;
      RunBegins(positions, cmds, Keep());
      for k := 0 to |cmds|
        invariant InRun(cmds[..k], storage0)
      {
        TakeLogged(cmds[k], cmds[..k], storage0);
        OneMore(cmds, k);
      }
      OneMore(cmds, |cmds|);
      LoggedBounded(positions, cmds, Keep());
    }

    /** The state after these commands; what the storage held in the beginning. */
    ghost predicate InRun(done: seq<Command>, storage0: map<string, Stored>)
      reads this
    {
      AsLogged(positions, done, Keep()) && Mirrored() && OthersKept(storage0, storage, prefix)
    }

    /** One command of the run. */
    method TakeLogged(cmd: Command, ghost done: seq<Command>, ghost storage0: map<string, Stored>)
      requires InRun(done, storage0)
      modifies this`positions, this`storage
      ensures InRun(done + [cmd], storage0)
    {
      ghost var p, before := positions, storage;
      Take(cmd);
      LoggedNext(p, done, cmd, Keep(), positions);
      OthersKeptOn(storage0, before, storage, prefix);
    }
  }

  /** With nothing unreadable under the prefix, what was loaded mirrors the storage. */
  lemma LoadedMirrors(p: Positions, storage: map<string, Stored>, prefix: string)
    requires Loaded(p, storage, prefix)
    ensures Mirrors(storage, prefix, p) <==>
              forall path: Path :: prefix + path in storage ==> storage[prefix + path].Saved?
  {
  }

  /** One save restores the bound whatever was loaded, and evicts the entries inserted first. The
      path just saved is evicted with them exactly if it is an old entry of an oversized map. */
  lemma SaveBounds(p: Positions, path: Path, position: Position, maxEntries: nat, q: Positions)
    requires Step(p, Save(path, position), maxEntries, q)
    ensures Ordered(q) && |q.order| <= maxEntries
    ensures var all := Put(p, path, position).order;
            path in q.at <==> path in all[Excess(|all|, maxEntries)..]
    ensures path in q.at ==> q.at[path] == position
  {
  }

  /** Within the bound, the path just saved stays. */
  lemma JustSaved(p: Positions, path: Path, position: Position, maxEntries: nat, q: Positions)
    requires Ordered(p) && Step(p, Save(path, position), maxEntries, q)
    requires |p.order| <= maxEntries && maxEntries >= 1
    ensures path in q.at
  {
    var all := Put(p, path, position).order;
    if path in p.at {
      assert q.order == all[0..] == p.order;
    } else {
      assert q.order[|q.order| - 1] == all[|all| - 1] == path;
    }
  }

  /** A run from an empty manager. */
  ghost predicate IsRun(states: seq<Positions>, cmds: seq<Command>, maxEntries: nat) {
    && |states| == |cmds| + 1 && states[0] == Positions([], map[])
    && forall i :: 0 <= i < |cmds| ==> Step(states[i], cmds[i], maxEntries, states[i + 1])
  }

  /** In every run the bound holds, and a path just saved is there. */
  lemma {:induction false} RunBounded(states: seq<Positions>, cmds: seq<Command>, maxEntries: nat, n: nat)
    requires IsRun(states, cmds, maxEntries) && n < |states|
    ensures Ordered(states[n]) && |states[n].order| <= maxEntries
    ensures n > 0 && cmds[n - 1].Save? && maxEntries >= 1 ==>
              cmds[n - 1].path in states[n].at && states[n].at[cmds[n - 1].path] == cmds[n - 1].position
  {
    if n > 0 {
      RunBounded(states, cmds, maxEntries, n - 1);
      match cmds[n - 1]
      case Save(path, position) =>
        SaveBounds(states[n - 1], path, position, maxEntries, states[n]);
        if maxEntries >= 1 { JustSaved(states[n - 1], path, position, maxEntries, states[n]); }
      case Clear =>
    }
  }
}
