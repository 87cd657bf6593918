/** Fine-grained reactivity of js/wcr as a state machine: signals, effects that subscribe by reading,
    and the selective re-running of effects when a signal changes.

    An effect's function is a decision tree: it reads signals, branches on what it read, and ends
    with an output. Because a branch may read other signals than its sibling, the set of signals
    an effect depends on changes from run to run, while subscriptions are only ever added. */
module Reactivity {

  /** JavaScript values, as far as `===` can tell them apart: NaN is not equal to itself. */
  datatype Val = NaN | Plain(id: int)

  predicate StrictEquals(a: Val, b: Val) {
    a == b && a != NaN
  }

  /** What a run leaves behind: its output, and whether it returned a cleanup function. */
  datatype Outcome = Outcome(out: Val, cleanup: bool)

  /** A function over signals, named by their position in the reactor: `get` is Read, `peek` (or
      any read under `untrack`) is Peek. There is one branch for every value that can be read. */
  datatype Body =
    | Done(outcome: Outcome)
    | Read(sig: nat, branch: imap<Val, Body>)
    | Peek(sig: nat, branch: imap<Val, Body>)

  /** The body mentions only the first `n` signals and has a branch for every value. */
  ghost predicate Scoped(b: Body, n: nat) {
    match b
    case Done(_) => true
    case Read(s, branch) => s < n && forall v :: v in branch && Scoped(branch[v], n)
    case Peek(s, branch) => s < n && forall v :: v in branch && Scoped(branch[v], n)
  }

  ghost predicate PeekFree(b: Body, n: nat)
    requires Scoped(b, n)
  {
    match b
    case Done(_) => true
    case Read(s, branch) => forall v :: v in branch && PeekFree(branch[v], n)
    case Peek(_, _) => false
  }

  /** The outcome of the body when tracked reads see `now` and untracked reads see `seen`. */
  ghost function Eval(b: Body, now: seq<Val>, seen: seq<Val>): Outcome
    requires Scoped(b, |now|) && Scoped(b, |seen|)
  {
    match b
    case Done(o) => o
    case Read(s, branch) => Eval(branch[now[s]], now, seen)
    case Peek(s, branch) => Eval(branch[seen[s]], now, seen)
  }

  /** The signals the same evaluation reads with tracking. */
  ghost function Deps(b: Body, now: seq<Val>, seen: seq<Val>): set<nat>
    requires Scoped(b, |now|) && Scoped(b, |seen|)
  {
    match b
    case Done(_) => {}
    case Read(s, branch) => {s} + Deps(branch[now[s]], now, seen)
    case Peek(s, branch) => Deps(branch[seen[s]], now, seen)
  }

  /** Signals outside the current dependencies are irrelevant: changing them, or adding new ones,
      changes neither the outcome nor the dependencies, even though reads are conditional. */
  lemma {:induction false} OutsideDependenciesIrrelevant(b: Body, now: seq<Val>, now': seq<Val>, seen: seq<Val>)
    requires Scoped(b, |now|) && Scoped(b, |now'|) && Scoped(b, |seen|)
    requires forall s :: s in Deps(b, now, seen) && s < |now| && s < |now'| ==> now[s] == now'[s]
    ensures Eval(b, now', seen) == Eval(b, now, seen)
    ensures Deps(b, now', seen) == Deps(b, now, seen)
  {
    match b
    case Done(_) =>
    case Read(s, branch) =>
      assert s in Deps(b, now, seen);
      OutsideDependenciesIrrelevant(branch[now[s]], now, now', seen);
    case Peek(s, branch) =>
      OutsideDependenciesIrrelevant(branch[seen[s]], now, now', seen);
  }

  /** Without untracked reads the remembered values play no part. */
  lemma {:induction false} PeekFreeIgnoresSeen(b: Body, now: seq<Val>, seen: seq<Val>)
    requires Scoped(b, |now|) && Scoped(b, |seen|) && PeekFree(b, |now|)
    ensures Eval(b, now, seen) == Eval(b, now, now)
  {
    match b
    case Done(_) =>
    case Read(s, branch) =>
      PeekFreeIgnoresSeen(branch[now[s]], now, seen);
    case Peek(_, _) =>
  }

  lemma {:induction false} ScopedGrows(b: Body, n: nat, n': nat)
    requires Scoped(b, n) && n <= n'
    ensures Scoped(b, n')
  {
    match b
    case Done(_) =>
    case Read(s, branch) =>
      forall v ensures v in branch && Scoped(branch[v], n') { ScopedGrows(branch[v], n, n'); }
    case Peek(s, branch) =>
      forall v ensures v in branch && Scoped(branch[v], n') { ScopedGrows(branch[v], n, n'); }
  }

  lemma {:induction false} DepsInRange(b: Body, now: seq<Val>, seen: seq<Val>)
    requires Scoped(b, |now|) && Scoped(b, |seen|)
    ensures forall s :: s in Deps(b, now, seen) ==> s < |now|
  {
    match b
    case Done(_) =>
    case Read(s, branch) => DepsInRange(branch[now[s]], now, seen);
    case Peek(s, branch) => DepsInRange(branch[seen[s]], now, seen);
  }

  /** Signals beyond the scope of a body play no part. */
  lemma {:induction false} EvalPadded(b: Body, now: seq<Val>, seen: seq<Val>, x: seq<Val>, y: seq<Val>)
    requires Scoped(b, |now|) && Scoped(b, |seen|)
    ensures Scoped(b, |now + x|) && Scoped(b, |seen + y|)
    ensures Eval(b, now + x, seen + y) == Eval(b, now, seen) && Deps(b, now + x, seen + y) == Deps(b, now, seen)
  {
    ScopedGrows(b, |now|, |now + x|);
    ScopedGrows(b, |seen|, |seen + y|);
    match b
    case Done(_) =>
    case Read(s, branch) => EvalPadded(branch[now[s]], now, seen, x, y);
    case Peek(s, branch) => EvalPadded(branch[seen[s]], now, seen, x, y);
  }

  // ----- Subscriber lists -----

  /** A Set in insertion order: adding what is there changes nothing. */
  function Insert<T(==)>(subs: seq<T>, e: T): seq<T> {
    if e in subs then subs else subs + [e]
  }

  function Delete<T(==)>(subs: seq<T>, e: T): seq<T> {
    if subs == [] then []
    else if subs[0] == e then Delete(subs[1..], e)
    else [subs[0]] + Delete(subs[1..], e)
  }

  ghost predicate NoDuplicates<T>(s: seq<T>) {
    forall i, j :: 0 <= i < j < |s| ==> s[i] != s[j]
  }

  /** Who was there keeps its place, and `e` is there too, last if it is new. */
  ghost predicate JoinedAtEnd<T>(before: seq<T>, after: seq<T>, e: T) {
    && before <= after && e in after && |after| <= |before| + 1
    && (|after| == |before| + 1 ==> after[|before|] == e && e !in before)
  }

  lemma InsertJoinsAtEnd<T>(subs: seq<T>, e: T)
    ensures JoinedAtEnd(subs, Insert(subs, e), e)
  {
  }

  /** Everyone keeps its place in every list. */
  ghost predicate KeepPlaces<T>(before: seq<seq<T>>, after: seq<seq<T>>) {
    |before| == |after| && forall i :: 0 <= i < |before| ==> before[i] <= after[i]
  }

  /** Taken out of a list, the others keep their order. */
  ghost predicate TakenOut<T>(before: seq<T>, after: seq<T>, e: T) {
    if e in before then exists k :: 0 <= k < |before| && before[k] == e && after == before[..k] + before[k + 1..]
    else after == before
  }

  lemma {:induction false} DeleteAbsent<T>(subs: seq<T>, e: T)
    requires e !in subs
    ensures Delete(subs, e) == subs
  {
    if subs != [] {
      DeleteAbsent(subs[1..], e);
      assert [subs[0]] + subs[1..] == subs;
    }
  }

  lemma TakenOutBehind<T>(x: T, rest: seq<T>, after: seq<T>, e: T)
    requires x != e && TakenOut(rest, after, e)
    ensures TakenOut([x] + rest, [x] + after, e)
  {
    if e in rest {
      var k :| 0 <= k < |rest| && rest[k] == e && after == rest[..k] + rest[k + 1..];
      var all := [x] + rest;
      assert all[k + 1] == e && all[..k + 1] == [x] + rest[..k] && all[k + 2..] == rest[k + 1..];
      assert [x] + after == all[..k + 1] + all[k + 2..];
    }
  }

  lemma {:induction false} DeleteTakesOut<T>(subs: seq<T>, e: T)
    requires NoDuplicates(subs)
    ensures TakenOut(subs, Delete(subs, e), e)
  {
    if subs != [] {
      var x, rest := subs[0], subs[1..];
      assert subs == [x] + rest && NoDuplicates(rest);
      if x == e {
        DeleteAbsent(rest, e);
        assert subs[..0] + subs[0 + 1..] == rest;
      } else {
        DeleteTakesOut(rest, e);
        TakenOutBehind(x, rest, Delete(rest, e), e);
      }
    }
  }

  /** The members of `part` stand in the whole in the same order. */
  ghost predicate InOrder<T>(part: seq<T>, whole: seq<T>) {
    forall i, j :: 0 <= i < j < |part| ==> Earlier(whole, part[i], part[j])
  }

  ghost predicate Earlier<T>(whole: seq<T>, x: T, y: T) {
    exists p, q :: 0 <= p < q < |whole| && whole[p] == x && whole[q] == y
  }

  lemma {:induction false} DeleteKeepsDistinct<T>(subs: seq<T>, e: T)
    requires NoDuplicates(subs)
    ensures NoDuplicates(Delete(subs, e))
    ensures forall x :: x in Delete(subs, e) ==> x in subs && x != e
    ensures forall x :: x in subs && x != e ==> x in Delete(subs, e)
  {
    if subs != [] {
      assert NoDuplicates(subs[1..]);
      DeleteKeepsDistinct(subs[1..], e);
      assert subs[0] !in subs[1..];
      assert forall x :: x in subs <==> x == subs[0] || x in subs[1..];
    }
  }

  // ----- The state machine -----

  /** An effect's `run` closure with the variables it captures; or, when not tracked, a plain callback
      for `Signal.subscribe`. `seen` are the signal values at its last run; `installed` and `cleaned`
      count the cleanup functions returned and called so far. */
  datatype Closure = Closure(
    body: Body, tracked: bool, disposed: bool, output: Val, cleanup: bool, seen: seq<Val>, installed: nat, cleaned: nat)

  /** The signals' values and subscribers; all closures made so far, in order and by identity; and
      which of them ran, in order. */
  datatype Machine<T> = Machine(
    values: seq<Val>, subs: seq<seq<T>>, made: seq<T>, closures: map<T, Closure>, trace: seq<T>)

  function NewClosure(body: Body, tracked: bool, seen: seq<Val>): Closure {
    Closure(body, tracked, false, NaN, false, seen, 0, 0)
  }

  /** The subscriptions after a tracked evaluation, signal by signal as they are read. */
  ghost function Subscribed<T>(b: Body, now: seq<Val>, subs: seq<seq<T>>, e: T): seq<seq<T>>
    requires Scoped(b, |now|) && |subs| == |now|
  {
    match b
    case Done(_) => subs
    case Read(s, branch) => Subscribed(branch[now[s]], now, subs[s := Insert(subs[s], e)], e)
    case Peek(s, branch) => Subscribed(branch[now[s]], now, subs, e)
  }

  /** A closure after a run: only effects have cleanup functions. */
  ghost function AfterRun(c: Closure, now: seq<Val>): Closure
    requires Scoped(c.body, |now|)
  {
    var o := Eval(c.body, now, now);
    var cleanup := c.tracked && o.cleanup;
    c.(output := o.out, cleanup := cleanup, seen := now,
       cleaned := c.cleaned + (if c.cleanup then 1 else 0), installed := c.installed + if cleanup then 1 else 0)
  }

  /** The closure can run. */
  ghost predicate Runs<T>(m: Machine<T>, e: T) {
    e in m.closures && !m.closures[e].disposed && Scoped(m.closures[e].body, |m.values|) && |m.subs| == |m.values|
  }

  /** `run` */
  ghost function RunOne<T>(m: Machine<T>, e: T): Machine<T> {
    if !Runs(m, e) then m
    else
      var c := m.closures[e];
      m.(subs := if c.tracked then Subscribed(c.body, m.values, m.subs, e) else m.subs,
         closures := m.closures[e := AfterRun(c, m.values)],
         trace := m.trace + [e])
  }

  ghost function RunAll<T>(m: Machine<T>, es: seq<T>): Machine<T> {
    if es == [] then m else RunOne(RunAll(m, es[..|es| - 1]), es[|es| - 1])
  }

  /** `set`: nothing for a value `===` to the old one, otherwise store and run the subscribers. */
  ghost function SetTo<T>(m: Machine<T>, i: nat, v: Val): Machine<T> {
    if i >= |m.values| || i >= |m.subs| || StrictEquals(m.values[i], v) then m
    else RunAll(m.(values := m.values[i := v]), m.subs[i])
  }

  ghost function AddClosure<T>(m: Machine<T>, e: T, c: Closure): Machine<T> {
    m.(made := m.made + [e], closures := m.closures[e := c])
  }

  ghost function AddSignal<T>(m: Machine<T>, v: Val): Machine<T> {
    m.(values := m.values + [v], subs := m.subs + [[]])
  }

  ghost function DisposeOf<T>(m: Machine<T>, e: T): Machine<T> {
    if e !in m.closures then m
    else
      var c := m.closures[e];
      m.(closures := m.closures[e := c.(disposed := true, cleaned := c.cleaned + if c.cleanup then 1 else 0)])
  }

  ghost function SubscribeTo<T>(m: Machine<T>, i: nat, e: T): Machine<T> {
    if i >= |m.subs| then m else RunOne(m.(subs := m.subs[i := Insert(m.subs[i], e)]), e)
  }

  ghost function UnsubscribeFrom<T>(m: Machine<T>, i: nat, e: T): Machine<T> {
    if i >= |m.subs| then m else m.(subs := m.subs[i := Delete(m.subs[i], e)])
  }

  /** The lists agree on these signals. */
  ghost predicate AgreeOn(s: set<nat>, u: seq<Val>, w: seq<Val>) {
    forall i :: i in s ==> i < |u| && i < |w| && u[i] == w[i]
  }

  /** The last run still stands: nothing it read with tracking has changed, and every signal it read
      will notify the effect. */
  ghost predicate UpToDate<T>(c: Closure, now: seq<Val>, subs: seq<seq<T>>, e: T)
    requires Scoped(c.body, |c.seen|)
  {
    && c.output == Eval(c.body, c.seen, c.seen).out
    && AgreeOn(Deps(c.body, c.seen, c.seen), c.seen, now)
    && forall i :: i in Deps(c.body, c.seen, c.seen) ==> i < |subs| && e in subs[i]
  }

  /** The body fits the signals; every cleanup that was returned has been called, except the one held;
      only effects are disposed. */
  ghost predicate Sane(c: Closure, n: nat) {
    && Scoped(c.body, n) && Scoped(c.body, |c.seen|) && |c.seen| <= n
    && (!c.disposed ==> c.installed == c.cleaned + if c.cleanup then 1 else 0)
    && (!c.tracked ==> !c.disposed)
  }

  ghost predicate Fit<T>(m: Machine<T>, e: T)
    requires e in m.closures
  {
    var c := m.closures[e];
    Sane(c, |m.values|) && (c.tracked && !c.disposed ==> UpToDate(c, m.values, m.subs, e))
  }

  ghost predicate Subscribable<T>(m: Machine<T>) {
    && |m.subs| == |m.values|
    && (forall i :: 0 <= i < |m.subs| ==> NoDuplicates(m.subs[i]))
    && (forall i, e :: 0 <= i < |m.subs| && e in m.subs[i] ==> e in m.closures)
  }

  /** The invariant; in the middle of a notification, effects still to be run may be out of date. */
  ghost predicate GoodBut<T>(m: Machine<T>, pending: seq<T>) {
    && Subscribable(m)
    && (forall e :: e in m.closures ==> Sane(m.closures[e], |m.values|))
    && (forall e :: e in m.closures && e !in pending ==> Fit(m, e))
  }

  ghost predicate Good<T>(m: Machine<T>) {
    GoodBut(m, [])
  }

  /** A tracked evaluation subscribes to exactly what it reads. */
  lemma {:induction false} SubscribedIs<T>(b: Body, now: seq<Val>, subs: seq<seq<T>>, e: T)
    requires Scoped(b, |now|) && |subs| == |now|
    ensures |Subscribed(b, now, subs, e)| == |subs|
    ensures forall i :: 0 <= i < |subs| ==>
              if i in Deps(b, now, now) then JoinedAtEnd(subs[i], Subscribed(b, now, subs, e)[i], e)
              else Subscribed(b, now, subs, e)[i] == subs[i]
  {
    match b
    case Done(_) =>
    case Read(s, branch) => SubscribedIs(branch[now[s]], now, subs[s := Insert(subs[s], e)], e);
    case Peek(s, branch) => SubscribedIs(branch[now[s]], now, subs, e);
  }

  lemma RunSubs<T>(m: Machine<T>, e: T)
    requires Subscribable(m) && Runs(m, e)
    ensures Subscribable(RunOne(m, e))
    ensures forall i, x :: 0 <= i < |m.subs| && x in m.subs[i] ==> x in RunOne(m, e).subs[i]
    ensures KeepPlaces(m.subs, RunOne(m, e).subs)
    ensures m.closures[e].tracked ==>
              forall i :: i in Deps(m.closures[e].body, m.values, m.values) ==>
                  i < |m.subs| && e in RunOne(m, e).subs[i]
  {
    var c := m.closures[e];
    SubscribedIs(c.body, m.values, m.subs, e);
    DepsInRange(c.body, m.values, m.values);
  }

  /** A run brings its effect up to date and disturbs no other. */
  lemma RunOneGood<T>(m: Machine<T>, e: T, pending: seq<T>)
    requires GoodBut(m, [e] + pending) && e in m.closures
    ensures GoodBut(RunOne(m, e), pending)
  {
    if Runs(m, e) {
      var m' := RunOne(m, e);
      RunSubs(m, e);
      forall x | x in m'.closures ensures Sane(m'.closures[x], |m'.values|) && (x !in pending ==> Fit(m', x)) {
        if x != e && x !in pending {
          assert Fit(m, x);
        }
      }
    }
  }

  /** What a run leaves alone. */
  ghost predicate OnlyRan<T>(m: Machine<T>, m': Machine<T>) {
    && m'.values == m.values && m'.made == m.made && m'.closures.Keys == m.closures.Keys && |m'.subs| == |m.subs|
    && (forall e :: e in m.closures ==> SameBut(m.closures[e], m'.closures[e]))
  }

  ghost predicate SameBut(c: Closure, c': Closure) {
    c'.body == c.body && c'.tracked == c.tracked && c'.disposed == c.disposed
  }

  /** The members that can run, in order. */
  ghost function Live<T>(m: Machine<T>, es: seq<T>): seq<T> {
    if es == [] then []
    else Live(m, es[..|es| - 1]) + if Runs(m, es[|es| - 1]) then [es[|es| - 1]] else []
  }

  /** A notification runs the live ones among the subscribers it copied, in order and nobody else, and
      brings all of them up to date. */
  lemma {:induction false} RunAllGood<T>(m: Machine<T>, es: seq<T>, pending: seq<T>)
    requires GoodBut(m, es + pending) && forall e :: e in es ==> e in m.closures
    ensures GoodBut(RunAll(m, es), pending) && OnlyRan(m, RunAll(m, es)) && KeepPlaces(m.subs, RunAll(m, es).subs)
    ensures RunAll(m, es).trace == m.trace + Live(m, es)
  {
    if es != [] {
      var front, e := es[..|es| - 1], es[|es| - 1];
      assert es + pending == front + ([e] + pending);
      RunAllGood(m, front, [e] + pending);
      RunOneGood(RunAll(m, front), e, pending);
      RunOneTrace(m, RunAll(m, front), e);
      if Runs(RunAll(m, front), e) { RunSubs(RunAll(m, front), e); }
    }
  }

  lemma RunOneTrace<T>(m0: Machine<T>, m: Machine<T>, e: T)
    requires OnlyRan(m0, m) && |m.subs| == |m.values| && e in m.closures
    ensures OnlyRan(m0, RunOne(m, e)) && |RunOne(m, e).subs| == |m.subs|
    ensures RunOne(m, e).trace == m.trace + if Runs(m0, e) then [e] else []
  {
    if Runs(m, e) { SubscribedIs(m.closures[e].body, m.values, m.subs, e); }
  }

  /** A list without duplicates names each live closure once, in the order of the list. */
  lemma {:induction false} LiveOnce<T>(m: Machine<T>, es: seq<T>)
    requires NoDuplicates(es)
    ensures forall e :: e in Live(m, es) ==> e in es && Runs(m, e)
    ensures forall e :: e in es && Runs(m, e) ==> e in Live(m, es)
    ensures NoDuplicates(Live(m, es)) && InOrder(Live(m, es), es)
  {
    if es != [] {
      var front, last := es[..|es| - 1], es[|es| - 1];
      LiveOnce(m, front);
      assert es == front + [last];
      LiveOrderNext(Live(m, front), front, last);
    }
  }

  lemma LiveOrderNext<T>(part: seq<T>, front: seq<T>, last: T)
    requires InOrder(part, front) && forall x :: x in part ==> x in front
    ensures InOrder(part, front + [last]) && InOrder(part + [last], front + [last])
  {
    var whole := front + [last];
    forall i, j | 0 <= i < j < |part| ensures Earlier(whole, part[i], part[j]) {
      assert Earlier(front, part[i], part[j]);
      var p, q :| 0 <= p < q < |front| && front[p] == part[i] && front[q] == part[j];
      assert whole[p] == part[i] && whole[q] == part[j];
    }
    forall i | 0 <= i < |part| ensures Earlier(whole, part[i], last) {
      assert part[i] in front;
      var p :| 0 <= p < |front| && front[p] == part[i];
      assert whole[p] == part[i] && whole[|front|] == last;
    }
  }

  /** A signal that does not notify an effect can change without the effect having to run again. */
  lemma ChangeElsewhere<T>(c: Closure, now: seq<Val>, subs: seq<seq<T>>, e: T, i: nat, v: Val)
    requires Scoped(c.body, |c.seen|) && UpToDate(c, now, subs, e)
    requires i < |now| && i < |subs| && e !in subs[i]
    ensures UpToDate(c, now[i := v], subs, e)
  {
  }

  /** After the change and before the notification only the signal's subscribers are out of date. */
  lemma ChangedGood<T>(m: Machine<T>, i: nat, v: Val)
    requires Good(m) && i < |m.values|
    ensures GoodBut(m.(values := m.values[i := v]), m.subs[i])
  {
    var m1 := m.(values := m.values[i := v]);
    forall e | e in m.closures && e !in m.subs[i] ensures Fit(m1, e) {
      assert Fit(m, e);
    }
  }

  /** Setting a signal keeps every effect up to date, although only its subscribers run: each live one
      once, in order of subscription, and no one else. */
  lemma SetGood<T>(m: Machine<T>, i: nat, v: Val)
    requires Good(m) && i < |m.values|
    ensures Good(SetTo(m, i, v)) && SetTo(m, i, v).values == m.values[i := v]
    ensures OnlyRan(m.(values := m.values[i := v]), SetTo(m, i, v))
    ensures SetTo(m, i, v).trace == m.trace + if StrictEquals(m.values[i], v) then [] else Live(m, m.subs[i])
    ensures KeepPlaces(m.subs, SetTo(m, i, v).subs)
  {
    if StrictEquals(m.values[i], v) {
      assert m.values[i := v] == m.values;
      assert m.trace + [] == m.trace;
    } else {
      var m1 := m.(values := m.values[i := v]);
      ChangedGood(m, i, v);
      assert m.subs[i] + [] == m.subs[i];
      RunAllGood(m1, m.subs[i], []);
      LiveSame(m, m1, m.subs[i]);
    }
  }

  /** What ran is the subscribers that can run, each once, the earlier subscriber first. */
  ghost predicate RanInOrder<T>(m: Machine<T>, subs: seq<T>, ran: seq<T>) {
    && NoDuplicates(ran) && InOrder(ran, subs) && (forall e :: e in ran ==> e in subs && Runs(m, e))
    && (forall e :: e in subs && Runs(m, e) ==> e in ran)
  }

  /** A value that is not `===` to the old one runs them all; any other nobody. */
  lemma SetRuns<T>(m: Machine<T>, i: nat, v: Val)
    requires Good(m) && i < |m.values|
    ensures v == m.values[i] && v != NaN ==> SetTo(m, i, v) == m
    ensures v != m.values[i] || v == NaN ==>
              exists ran :: SetTo(m, i, v).trace == m.trace + ran && RanInOrder(m, m.subs[i], ran)
  {
    SetGood(m, i, v);
    LiveOnce(m, m.subs[i]);
    assert RanInOrder(m, m.subs[i], Live(m, m.subs[i]));
  }

  lemma {:induction false} LiveSame<T>(m: Machine<T>, m': Machine<T>, es: seq<T>)
    requires m'.closures == m.closures && |m'.values| == |m.values| && |m'.subs| == |m.subs|
    ensures Live(m', es) == Live(m, es)
  {
    if es != [] { LiveSame(m, m', es[..|es| - 1]); }
  }

  lemma AddSignalGood<T>(m: Machine<T>, v: Val)
    requires Good(m)
    ensures Good(AddSignal(m, v))
  {
    var m' := AddSignal(m, v);
    forall e | e in m.closures ensures Fit(m', e) {
      assert Fit(m, e);
      ScopedGrows(m.closures[e].body, |m.values|, |m'.values|);
    }
  }

  /** A closure before its first run. */
  lemma AddClosureGood<T>(m: Machine<T>, e: T, body: Body, tracked: bool)
    requires Good(m) && e !in m.closures && Scoped(body, |m.values|)
    ensures GoodBut(AddClosure(m, e, NewClosure(body, tracked, m.values)), [e])
    ensures !tracked ==> Good(AddClosure(m, e, NewClosure(body, tracked, m.values)))
  {
    var m' := AddClosure(m, e, NewClosure(body, tracked, m.values));
    forall x | x in m'.closures && x != e ensures Fit(m', x) {
      assert Fit(m, x);
    }
  }

  lemma DisposeGood<T>(m: Machine<T>, e: T)
    requires Good(m) && e in m.closures && m.closures[e].tracked
    ensures Good(DisposeOf(m, e))
    ensures var c, c' := m.closures[e], DisposeOf(m, e).closures[e];
            !c.disposed ==> c'.cleaned == c'.installed
  {
    var m' := DisposeOf(m, e);
    forall x | x in m'.closures ensures Fit(m', x) {
      assert Fit(m, x);
    }
  }

  lemma SubscribeGood<T>(m: Machine<T>, i: nat, e: T)
    requires Good(m) && i < |m.subs| && e in m.closures && !m.closures[e].tracked
    ensures Good(SubscribeTo(m, i, e)) && SubscribeTo(m, i, e).trace == m.trace + [e]
    ensures JoinedAtEnd(m.subs[i], SubscribeTo(m, i, e).subs[i], e)
    ensures forall k :: 0 <= k < |m.subs| && k != i ==> SubscribeTo(m, i, e).subs[k] == m.subs[k]
  {
    var m1 := m.(subs := m.subs[i := Insert(m.subs[i], e)]);
    forall x | x in m1.closures ensures Fit(m1, x) {
      assert Fit(m, x);
    }
    assert [e] + [] == [e];
    assert GoodBut(m1, [e] + []);
    RunOneGood(m1, e, []);
  }

  lemma UnsubscribeGood<T>(m: Machine<T>, i: nat, e: T)
    requires Good(m) && i < |m.subs| && e in m.closures && !m.closures[e].tracked
    ensures Good(UnsubscribeFrom(m, i, e)) && TakenOut(m.subs[i], UnsubscribeFrom(m, i, e).subs[i], e)
    ensures forall k :: 0 <= k < |m.subs| && k != i ==> UnsubscribeFrom(m, i, e).subs[k] == m.subs[k]
  {
    var m' := UnsubscribeFrom(m, i, e);
    DeleteKeepsDistinct(m.subs[i], e);
    DeleteTakesOut(m.subs[i], e);
    forall x | x in m'.closures ensures Fit(m', x) {
      assert Fit(m, x);
    }
  }

  // ----- Bodies whose output stays current -----

  /** The untracked reads do no harm: whenever two lists of values agree on what the body reads with
      tracking on the first, the output is the same on both. */
  ghost predicate Harmless(b: Body) {
    forall u: seq<Val>, w: seq<Val> :: SameOutput(b, u, w)
  }

  ghost predicate SameOutput(b: Body, u: seq<Val>, w: seq<Val>) {
    Scoped(b, |u|) && Scoped(b, |w|) && AgreeOn(Deps(b, u, u), u, w) ==> Eval(b, w, w).out == Eval(b, u, u).out
  }

  lemma PeekFreeHarmless(b: Body)
    requires forall n: nat :: Scoped(b, n) ==> PeekFree(b, n)
    ensures Harmless(b)
  {
    forall u: seq<Val>, w: seq<Val> ensures SameOutput(b, u, w) {
      if Scoped(b, |u|) && Scoped(b, |w|) && AgreeOn(Deps(b, u, u), u, w) {
        OutsideDependenciesIrrelevant(b, u, w, u);
        PeekFreeIgnoresSeen(b, w, u);
      }
    }
  }

  /** What the invariant means for an effect whose untracked reads do no harm: its last output is what
      running it now would produce. */
  lemma LiveIsCurrent<T>(m: Machine<T>, e: T)
    requires Good(m) && e in m.closures && m.closures[e].tracked && !m.closures[e].disposed
    requires Harmless(m.closures[e].body)
    ensures Scoped(m.closures[e].body, |m.values|)
    ensures m.closures[e].output == Eval(m.closures[e].body, m.values, m.values).out
  {
    assert Fit(m, e);
    assert SameOutput(m.closures[e].body, m.closures[e].seen, m.values);
  }

  // ----- Runs -----

  /** One use of the library. Signals and closures are named by their order of creation. */
  datatype Command =
    | MakeSignal(initial: Val)
    | MakeEffect(body: Body)
    | MakeCallback(body: Body)
    | SetSignal(i: nat, v: Val)
    | UpdateSignal(i: nat, f: Val -> Val)
    | DisposeEffect(j: nat)
    | Subscribe(i: nat, j: nat)
    | Unsubscribe(i: nat, j: nat)

  /** What a command list says about the closures, without running anything. */
  datatype Spec = Spec(body: Body, tracked: bool, disposed: bool)

  ghost function NextSpecs(cmd: Command, specs: seq<Spec>): seq<Spec> {
    match cmd
    case MakeEffect(b) => specs + [Spec(b, true, false)]
    case MakeCallback(b) => specs + [Spec(b, false, false)]
    case DisposeEffect(j) => if j < |specs| then specs[j := specs[j].(disposed := true)] else specs
    case _ => specs
  }

  ghost function NextValues(cmd: Command, values: seq<Val>): seq<Val> {
    match cmd
    case MakeSignal(v) => values + [v]
    case SetSignal(i, v) => if i < |values| then values[i := v] else values
    case UpdateSignal(i, f) => if i < |values| then values[i := f(values[i])] else values
    case _ => values
  }

  /** The closures and the signal values a command list makes. */
  ghost function Specs(cmds: seq<Command>): seq<Spec> {
    if cmds == [] then [] else NextSpecs(cmds[|cmds| - 1], Specs(cmds[..|cmds| - 1]))
  }

  ghost function FinalValues(cmds: seq<Command>): seq<Val> {
    if cmds == [] then [] else NextValues(cmds[|cmds| - 1], FinalValues(cmds[..|cmds| - 1]))
  }

  /** The command mentions only signals and closures that exist, of the right kind. */
  ghost predicate Enabled(cmd: Command, signals: nat, specs: seq<Spec>) {
    match cmd
    case MakeSignal(_) => true
    case MakeEffect(b) => Scoped(b, signals)
    case MakeCallback(b) => Scoped(b, signals)
    case SetSignal(i, _) => i < signals
    case UpdateSignal(i, _) => i < signals
    case DisposeEffect(j) => j < |specs| && specs[j].tracked
    case Subscribe(i, j) => i < signals && j < |specs| && !specs[j].tracked
    case Unsubscribe(i, j) => i < signals && j < |specs| && !specs[j].tracked
  }

  ghost predicate Runnable(cmds: seq<Command>) {
    cmds == [] ||
    var front := cmds[..|cmds| - 1];
    Runnable(front) && Enabled(cmds[|cmds| - 1], |FinalValues(front)|, Specs(front))
  }

  /** One command; a closure it makes gets the next of the given identities. */
  ghost function Step<T>(m: Machine<T>, cmd: Command, ids: seq<T>): Machine<T> {
    match cmd
    case MakeSignal(v) => AddSignal(m, v)
    case MakeEffect(b) =>
      if |m.made| >= |ids| then m
      else RunOne(AddClosure(m, ids[|m.made|], NewClosure(b, true, m.values)), ids[|m.made|])
    case MakeCallback(b) =>
      if |m.made| >= |ids| then m else AddClosure(m, ids[|m.made|], NewClosure(b, false, m.values))
    case SetSignal(i, v) => SetTo(m, i, v)
    case UpdateSignal(i, f) => if i < |m.values| then SetTo(m, i, f(m.values[i])) else m
    case DisposeEffect(j) => if j < |m.made| then DisposeOf(m, m.made[j]) else m
    case Subscribe(i, j) => if j < |m.made| then SubscribeTo(m, i, m.made[j]) else m
    case Unsubscribe(i, j) => if j < |m.made| then UnsubscribeFrom(m, i, m.made[j]) else m
  }

  function Init<T>(): Machine<T> {
    Machine([], [], [], map[], [])
  }

  /** The state after a command list, its closures having the given identities. */
  ghost function Final<T>(cmds: seq<Command>, ids: seq<T>): Machine<T> {
    if cmds == [] then Init() else Step(Final(cmds[..|cmds| - 1], ids), cmds[|cmds| - 1], ids)
  }

  /** The state has exactly the closures that the commands asked for. */
  ghost predicate Matches<T>(m: Machine<T>, specs: seq<Spec>, ids: seq<T>) {
    && |specs| <= |ids| && m.made == ids[..|specs|]
    && (forall e :: e in m.closures ==> e in m.made)
    && (forall j :: 0 <= j < |specs| ==> MatchesOne(m, specs[j], m.made[j]))
  }

  ghost predicate MatchesOne<T>(m: Machine<T>, spec: Spec, e: T) {
    && e in m.closures && m.closures[e].body == spec.body
    && m.closures[e].tracked == spec.tracked && m.closures[e].disposed == spec.disposed
  }

  /** Nothing but values, subscribers and what runs change. */
  lemma OnlyRanMatches<T>(m: Machine<T>, m': Machine<T>, specs: seq<Spec>, ids: seq<T>)
    requires Matches(m, specs, ids) && m'.made == m.made && m'.closures.Keys == m.closures.Keys
    requires forall e :: e in m.closures ==> SameBut(m.closures[e], m'.closures[e])
    ensures Matches(m', specs, ids)
  {
    forall j | 0 <= j < |specs| ensures MatchesOne(m', specs[j], m'.made[j]) {
      assert MatchesOne(m, specs[j], m.made[j]);
    }
  }

  lemma MakeMatches<T>(m: Machine<T>, specs: seq<Spec>, ids: seq<T>, body: Body, tracked: bool)
    requires Matches(m, specs, ids) && NoDuplicates(ids) && |specs| < |ids|
    ensures ids[|specs|] !in m.closures
    ensures var m' := AddClosure(m, ids[|specs|], NewClosure(body, tracked, m.values));
            Matches(m', specs + [Spec(body, tracked, false)], ids)
  {
    var e := ids[|specs|];
    var m', specs' := AddClosure(m, e, NewClosure(body, tracked, m.values)), specs + [Spec(body, tracked, false)];
    assert ids[..|specs'|] == ids[..|specs|] + [e];
    forall j | 0 <= j < |specs'| ensures MatchesOne(m', specs'[j], m'.made[j]) {
      if j < |specs| { assert MatchesOne(m, specs[j], m.made[j]); }
    }
  }

  lemma DisposeMatches<T>(m: Machine<T>, specs: seq<Spec>, ids: seq<T>, j: nat)
    requires Matches(m, specs, ids) && NoDuplicates(ids) && j < |specs|
    ensures Matches(DisposeOf(m, m.made[j]), specs[j := specs[j].(disposed := true)], ids)
  {
    var m', specs' := DisposeOf(m, m.made[j]), specs[j := specs[j].(disposed := true)];
    forall k | 0 <= k < |specs'| ensures MatchesOne(m', specs'[k], m'.made[k]) {
      assert MatchesOne(m, specs[k], m.made[k]);
    }
  }

  /** The state that a command list must lead to. */
  ghost predicate IsFinal<T>(m: Machine<T>, values: seq<Val>, specs: seq<Spec>, ids: seq<T>) {
    Good(m) && m.values == values && Matches(m, specs, ids)
  }

  lemma MakeStep<T>(m: Machine<T>, cmd: Command, values: seq<Val>, specs: seq<Spec>, ids: seq<T>)
    requires IsFinal(m, values, specs, ids) && Enabled(cmd, |values|, specs) && NoDuplicates(ids)
    requires (cmd.MakeEffect? || cmd.MakeCallback?) && |NextSpecs(cmd, specs)| <= |ids|
    ensures IsFinal(Step(m, cmd, ids), NextValues(cmd, values), NextSpecs(cmd, specs), ids)
  {
    var e := ids[|specs|];
    MakeMatches(m, specs, ids, cmd.body, cmd.MakeEffect?);
    AddClosureGood(m, e, cmd.body, cmd.MakeEffect?);
    if cmd.MakeEffect? {
      var m1 := AddClosure(m, e, NewClosure(cmd.body, true, m.values));
      assert [e] + [] == [e];
      RunOneGood(m1, e, []);
      RunOneTrace(m1, m1, e);
      OnlyRanMatches(m1, RunOne(m1, e), NextSpecs(cmd, specs), ids);
    }
  }

  lemma SetStep<T>(m: Machine<T>, i: nat, v: Val, values: seq<Val>, specs: seq<Spec>, ids: seq<T>)
    requires IsFinal(m, values, specs, ids) && i < |values|
    ensures IsFinal(SetTo(m, i, v), values[i := v], specs, ids)
  {
    SetGood(m, i, v);
    OnlyRanMatches(m, SetTo(m, i, v), specs, ids);
  }

  lemma SubscribeStep<T>(m: Machine<T>, i: nat, j: nat, values: seq<Val>, specs: seq<Spec>, ids: seq<T>)
    requires IsFinal(m, values, specs, ids) && i < |values| && j < |specs| && !specs[j].tracked
    ensures IsFinal(SubscribeTo(m, i, m.made[j]), values, specs, ids)
    ensures IsFinal(UnsubscribeFrom(m, i, m.made[j]), values, specs, ids)
  {
    var e := m.made[j];
    assert MatchesOne(m, specs[j], e);
    SubscribeGood(m, i, e);
    UnsubscribeGood(m, i, e);
    var m1 := m.(subs := m.subs[i := Insert(m.subs[i], e)]);
    RunOneTrace(m1, m1, e);
    OnlyRanMatches(m, SubscribeTo(m, i, e), specs, ids);
    OnlyRanMatches(m, UnsubscribeFrom(m, i, e), specs, ids);
  }

  /** Every command keeps the invariant, with the values and closures that it asks for. */
  lemma StepIsFinal<T>(m: Machine<T>, cmd: Command, values: seq<Val>, specs: seq<Spec>, ids: seq<T>)
    requires IsFinal(m, values, specs, ids) && Enabled(cmd, |values|, specs) && NoDuplicates(ids)
    requires |NextSpecs(cmd, specs)| <= |ids|
    ensures IsFinal(Step(m, cmd, ids), NextValues(cmd, values), NextSpecs(cmd, specs), ids)
  {
    match cmd
    case MakeSignal(v) =>
      AddSignalGood(m, v);
      OnlyRanMatches(m, AddSignal(m, v), specs, ids);
    case MakeEffect(_) => MakeStep(m, cmd, values, specs, ids);
    case MakeCallback(_) => MakeStep(m, cmd, values, specs, ids);
    case SetSignal(i, v) => SetStep(m, i, v, values, specs, ids);
    case UpdateSignal(i, f) => SetStep(m, i, f(values[i]), values, specs, ids);
    case DisposeEffect(j) =>
      assert MatchesOne(m, specs[j], m.made[j]);
      DisposeGood(m, m.made[j]);
      DisposeMatches(m, specs, ids, j);
    case Subscribe(i, j) => SubscribeStep(m, i, j, values, specs, ids);
    case Unsubscribe(i, j) => SubscribeStep(m, i, j, values, specs, ids);
  }

  /** The command can be given in this state. */
  ghost predicate Allowed<T>(m: Machine<T>, cmd: Command) {
    match cmd
    case MakeSignal(_) => true
    case MakeEffect(b) => Scoped(b, |m.values|)
    case MakeCallback(b) => Scoped(b, |m.values|)
    case SetSignal(i, _) => i < |m.values|
    case UpdateSignal(i, _) => i < |m.values|
    case DisposeEffect(j) => Made(m, j, true)
    case Subscribe(i, j) => i < |m.values| && Made(m, j, false)
    case Unsubscribe(i, j) => i < |m.values| && Made(m, j, false)
  }

  ghost predicate Made<T>(m: Machine<T>, j: nat, tracked: bool) {
    j < |m.made| && m.made[j] in m.closures && m.closures[m.made[j]].tracked == tracked
  }

  /** Only the creating commands add closures. */
  lemma StepKeys<T>(m: Machine<T>, cmd: Command, ids: seq<T>)
    requires Good(m) && Allowed(m, cmd) && !cmd.MakeEffect? && !cmd.MakeCallback?
    ensures Step(m, cmd, ids).closures.Keys == m.closures.Keys
  {
    match cmd
    case SetSignal(i, v) => SetGood(m, i, v);
    case UpdateSignal(i, f) => SetGood(m, i, f(m.values[i]));
    case _ =>
  }

  lemma EnabledAllowed<T>(m: Machine<T>, cmd: Command, values: seq<Val>, specs: seq<Spec>, ids: seq<T>)
    requires IsFinal(m, values, specs, ids) && Enabled(cmd, |values|, specs)
    ensures Allowed(m, cmd)
  {
    if cmd.DisposeEffect? || cmd.Subscribe? || cmd.Unsubscribe? { assert MatchesOne(m, specs[cmd.j], m.made[cmd.j]); }
  }

  /** Identities given beyond those needed play no part. */
  lemma {:induction false} MoreIds<T>(cmds: seq<Command>, ids: seq<T>, ids': seq<T>)
    requires Runnable(cmds) && NoDuplicates(ids') && |Specs(cmds)| <= |ids| && ids <= ids'
    ensures Final(cmds, ids') == Final(cmds, ids)
  {
    if cmds != [] {
      var front := cmds[..|cmds| - 1];
      SpecsGrow(cmds);
      MoreIds(front, ids, ids');
      RunIsFinal(front, ids');
    }
  }

  /** The state after the commands, with one identity for each closure. */
  ghost predicate Follows<T>(m: Machine<T>, cmds: seq<Command>, ids: seq<T>) {
    Runnable(cmds) && NoDuplicates(ids) && |ids| == |Specs(cmds)| && m.made == ids && m == Final(cmds, ids)
  }

  lemma FollowsAllows<T>(m: Machine<T>, cmds: seq<Command>, cmd: Command, ids: seq<T>)
    requires Follows(m, cmds, ids) && Runnable(cmds + [cmd])
    ensures Allowed(m, cmd)
  {
    assert (cmds + [cmd])[..|cmds|] == cmds;
    RunIsFinal(cmds, ids);
    EnabledAllowed(m, cmd, FinalValues(cmds), Specs(cmds), ids);
  }

  lemma MadeAreClosures<T>(m: Machine<T>, cmds: seq<Command>, ids: seq<T>)
    requires Follows(m, cmds, ids)
    ensures forall e :: e in ids ==> e in m.closures
  {
    RunIsFinal(cmds, ids);
    assert forall j :: 0 <= j < |ids| ==> MatchesOne(m, Specs(cmds)[j], ids[j]);
  }

  lemma FollowsNext<T>(m: Machine<T>, cmds: seq<Command>, cmd: Command, ids: seq<T>, ids': seq<T>, m': Machine<T>)
    requires Follows(m, cmds, ids) && Runnable(cmds + [cmd]) && m' == Step(m, cmd, ids')
    requires if cmd.MakeEffect? || cmd.MakeCallback?
             then |ids'| == |ids| + 1 && ids <= ids' && ids'[|ids|] !in m.closures
             else ids' == ids
    ensures Follows(m', cmds + [cmd], ids')
  {
    assert (cmds + [cmd])[..|cmds|] == cmds;
    MadeAreClosures(m, cmds, ids);
    MoreIds(cmds, ids, ids');
    RunIsFinal(cmds + [cmd], ids');
    assert ids'[..|ids'|] == ids';
  }

  lemma SpecsGrow(cmds: seq<Command>)
    requires cmds != []
    ensures |Specs(cmds[..|cmds| - 1])| <= |Specs(cmds)|
  {
  }

  /** After any run the invariant holds, and values and closures are those the commands asked for. */
  lemma {:induction false} RunIsFinal<T>(cmds: seq<Command>, ids: seq<T>)
    requires Runnable(cmds) && NoDuplicates(ids) && |Specs(cmds)| <= |ids|
    ensures IsFinal(Final(cmds, ids), FinalValues(cmds), Specs(cmds), ids)
  {
    if cmds != [] {
      var front := cmds[..|cmds| - 1];
      SpecsGrow(cmds);
      RunIsFinal(front, ids);
      StepIsFinal(Final(front, ids), cmds[|cmds| - 1], FinalValues(front), Specs(front), ids);
    }
  }

  /** After any run, every live effect whose untracked reads do no harm last produced what its body
      yields now: selective re-running is as good as re-running everything. */
  lemma RunsStayCurrent<T>(cmds: seq<Command>, ids: seq<T>, j: nat)
    requires Runnable(cmds) && NoDuplicates(ids) && |Specs(cmds)| <= |ids|
    requires j < |Specs(cmds)| && Specs(cmds)[j].tracked && !Specs(cmds)[j].disposed && Harmless(Specs(cmds)[j].body)
    ensures ids[j] in Final(cmds, ids).closures && Scoped(Specs(cmds)[j].body, |FinalValues(cmds)|)
    ensures Final(cmds, ids).closures[ids[j]].output ==
            Eval(Specs(cmds)[j].body, FinalValues(cmds), FinalValues(cmds)).out
  {
    RunIsFinal(cmds, ids);
    var m := Final(cmds, ids);
    assert m.made[j] == ids[j] && MatchesOne(m, Specs(cmds)[j], m.made[j]);
    LiveIsCurrent(m, ids[j]);
  }

  // ----- When an effect goes stale -----

  /** In this run, the `j`-th closure is live and its output is not what its body yields now. */
  ghost predicate GoesStale<T>(cmds: seq<Command>, ids: seq<T>, j: nat) {
    && Runnable(cmds) && |ids| == |Specs(cmds)| && NoDuplicates(ids)
    && j < |ids| && Specs(cmds)[j].tracked && !Specs(cmds)[j].disposed
    && Scoped(Specs(cmds)[j].body, |FinalValues(cmds)|)
    && ids[j] in Final(cmds, ids).closures
    && Final(cmds, ids).closures[ids[j]].output != Eval(Specs(cmds)[j].body, FinalValues(cmds), FinalValues(cmds)).out
  }

  /** Makes signals with these values. */
  function Creates(u: seq<Val>): seq<Command> {
    if u == [] then [] else Creates(u[..|u| - 1]) + [MakeSignal(u[|u| - 1])]
  }

  /** Sets the first `k` signals to these values, but for those in `deps`. */
  ghost function Sets(w: seq<Val>, deps: set<nat>, k: nat): seq<Command>
    requires k <= |w|
  {
    if k == 0 then []
    else Sets(w, deps, k - 1) + if k - 1 in deps then [] else [SetSignal(k - 1, w[k - 1])]
  }

  ghost function NoSubscribers<T>(n: nat): seq<seq<T>> {
    seq(n, _ => [])
  }

  /** Where a run stands. */
  ghost predicate Reached<T>(cmds: seq<Command>, ids: seq<T>, m: Machine<T>, specs: seq<Spec>) {
    Runnable(cmds) && FinalValues(cmds) == m.values && Specs(cmds) == specs && Final(cmds, ids) == m
  }

  lemma ReachedNext<T>(cmds: seq<Command>, ids: seq<T>, cmd: Command, m: Machine<T>, specs: seq<Spec>, m': Machine<T>)
    requires Reached(cmds, ids, m, specs) && Enabled(cmd, |m.values|, specs)
    requires m' == Step(m, cmd, ids) && m'.values == NextValues(cmd, m.values)
    ensures Reached(cmds + [cmd], ids, m', NextSpecs(cmd, specs))
  {
    assert (cmds + [cmd])[..|cmds|] == cmds;
  }

  /** Signals without subscribers and nothing else. */
  ghost function OnlySignals<T>(u: seq<Val>): Machine<T> {
    Machine(u, NoSubscribers(|u|), [], map[], [])
  }

  lemma {:induction false} CreatesRun<T>(u: seq<Val>, ids: seq<T>)
    ensures Reached(Creates(u), ids, OnlySignals(u), [])
  {
    if u == [] {
      assert NoSubscribers<T>(0) == [];
    } else {
      var front, v := u[..|u| - 1], u[|u| - 1];
      CreatesRun(front, ids);
      assert u == front + [v];
      assert NoSubscribers<T>(|front|) + [[]] == NoSubscribers(|u|);
      ReachedNext(Creates(front), ids, MakeSignal(v), OnlySignals(front), [], OnlySignals(u));
    }
  }

  /** The state with one effect, which has read `u`; meanwhile the values are `now`. */
  ghost predicate OnlyEffect<T>(m: Machine<T>, e: T, b: Body, u: seq<Val>, now: seq<Val>)
    requires Scoped(b, |u|)
  {
    && m.values == now && |m.subs| == |now| && e in m.closures
    && m.closures[e].output == Eval(b, u, u).out
    && forall i :: 0 <= i < |now| && i !in Deps(b, u, u) ==> m.subs[i] == []
  }

  lemma MakeOnly<T>(b: Body, u: seq<Val>, e: T) returns (m: Machine<T>)
    requires Scoped(b, |u|)
    ensures m == Step(OnlySignals(u), MakeEffect(b), [e]) && OnlyEffect(m, e, b, u, u)
  {
    var m0 := AddClosure(OnlySignals(u), e, NewClosure(b, true, u));
    m := RunOne(m0, e);
    SubscribedIs(b, u, NoSubscribers(|u|), e);
  }

  lemma EffectMade<T>(b: Body, u: seq<Val>, e: T) returns (m: Machine<T>)
    requires Scoped(b, |u|)
    ensures Reached(Creates(u) + [MakeEffect(b)], [e], m, [Spec(b, true, false)]) && OnlyEffect(m, e, b, u, u)
  {
    CreatesRun(u, [e]);
    m := MakeOnly(b, u, e);
    ReachedNext(Creates(u), [e], MakeEffect(b), OnlySignals(u), [], m);
    assert [] + [Spec(b, true, false)] == [Spec(b, true, false)];
  }

  lemma UnheardSet<T>(cmds: seq<Command>, m: Machine<T>, e: T, b: Body, u: seq<Val>, now: seq<Val>, i: nat, v: Val)
    returns (m': Machine<T>)
    requires Reached(cmds, [e], m, [Spec(b, true, false)])
    requires Scoped(b, |u|) && OnlyEffect(m, e, b, u, now) && i < |now| && i !in Deps(b, u, u)
    ensures Reached(cmds + [SetSignal(i, v)], [e], m', [Spec(b, true, false)]) && OnlyEffect(m', e, b, u, now[i := v])
  {
    assert m.subs[i] == [];
    if StrictEquals(m.values[i], v) { assert now[i := v] == now; }
    m' := SetTo(m, i, v);
    ReachedNext(cmds, [e], SetSignal(i, v), m, [Spec(b, true, false)], m');
  }

  /** The first `k` values of `w`, the others of `u`. */
  function Mixed(u: seq<Val>, w: seq<Val>, k: nat): seq<Val>
    requires k <= |u| == |w|
  {
    w[..k] + u[k..]
  }

  lemma MixedNext(u: seq<Val>, w: seq<Val>, k: nat)
    requires k < |u| == |w|
    ensures Mixed(u, w, k + 1) == Mixed(u, w, k)[k := w[k]]
    ensures u[k] == w[k] ==> Mixed(u, w, k + 1) == Mixed(u, w, k)
  {
  }

  /** Make the signals and the effect, then set the first `k` signals it did not read with tracking. */
  ghost function Unheard(b: Body, u: seq<Val>, w: seq<Val>, k: nat): seq<Command>
    requires Scoped(b, |u|) && k <= |w|
  {
    Creates(u) + [MakeEffect(b)] + Sets(w, Deps(b, u, u), k)
  }

  lemma UnheardNext(b: Body, u: seq<Val>, w: seq<Val>, k: nat)
    requires Scoped(b, |u|) && k < |w|
    ensures Unheard(b, u, w, 0) == Creates(u) + [MakeEffect(b)]
    ensures Unheard(b, u, w, k + 1) ==
            Unheard(b, u, w, k) + if k in Deps(b, u, u) then [] else [SetSignal(k, w[k])]
  {
  }

  lemma {:induction false} SetsRun<T>(b: Body, u: seq<Val>, w: seq<Val>, k: nat, e: T) returns (m: Machine<T>)
    requires Scoped(b, |u|) && |w| == |u| && AgreeOn(Deps(b, u, u), u, w) && k <= |u|
    ensures Reached(Unheard(b, u, w, k), [e], m, [Spec(b, true, false)]) && OnlyEffect(m, e, b, u, Mixed(u, w, k))
  {
    if k == 0 {
      m := EffectMade(b, u, e);
      assert Unheard(b, u, w, 0) == Creates(u) + [MakeEffect(b)] && Mixed(u, w, 0) == u;
    } else {
      m := SetsRun(b, u, w, k - 1, e);
      m := SetNext(Unheard(b, u, w, k - 1), b, u, w, k - 1, e, m);
      UnheardNext(b, u, w, k - 1);
    }
  }

  lemma SetNext<T>(cmds: seq<Command>, b: Body, u: seq<Val>, w: seq<Val>, i: nat, e: T, m: Machine<T>)
    returns (m': Machine<T>)
    requires Scoped(b, |u|) && |w| == |u| && AgreeOn(Deps(b, u, u), u, w) && i < |u|
    requires Reached(cmds, [e], m, [Spec(b, true, false)]) && OnlyEffect(m, e, b, u, Mixed(u, w, i))
    ensures Reached(cmds + if i in Deps(b, u, u) then [] else [SetSignal(i, w[i])], [e], m', [Spec(b, true, false)])
    ensures OnlyEffect(m', e, b, u, Mixed(u, w, i + 1))
  {
    MixedNext(u, w, i);
    if i in Deps(b, u, u) {
      m' := m;
      assert cmds + [] == cmds;
    } else {
      m' := UnheardSet(cmds, m, e, b, u, Mixed(u, w, i), i, w[i]);
    }
  }

  /** Whenever the untracked reads of a body can do harm, a run in which they do: make the signals and
      the effect, then set every signal that it did not read with tracking. */
  lemma HarmGoesStale<T>(b: Body, u: seq<Val>, w: seq<Val>, e: T) returns (cmds: seq<Command>)
    requires !SameOutput(b, u, w)
    ensures GoesStale(cmds, [e], 0) && Specs(cmds) == [Spec(b, true, false)]
  {
    var x, y := if |u| < |w| then w[|u|..] else [], if |w| < |u| then u[|w|..] else [];
    EvalPadded(b, u, u, x, x);
    EvalPadded(b, w, w, y, y);
    cmds := Unheard(b, u + x, w + y, |u + x|);
    var m := SetsRun(b, u + x, w + y, |u + x|, e);
    assert Mixed(u + x, w + y, |u + x|) == w + y;
  }

  /** The exact condition: effects with this body stay current in every run if and only if its
      untracked reads do no harm. */
  lemma StaysCurrent(b: Body)
    ensures Harmless(b) <==>
            forall cmds: seq<Command>, ids: seq<nat>, j: nat :: GoesStale(cmds, ids, j) ==> Specs(cmds)[j].body != b
  {
    if Harmless(b) {
      forall cmds: seq<Command>, ids: seq<nat>, j: nat | GoesStale(cmds, ids, j) ensures Specs(cmds)[j].body != b {
        if Specs(cmds)[j].body == b { RunsStayCurrent(cmds, ids, j); }
      }
    } else {
      var u: seq<Val>, w: seq<Val> :| !SameOutput(b, u, w);
      var cmds := HarmGoesStale<nat>(b, u, w, 0);
      assert GoesStale<nat>(cmds, [0], 0) && Specs(cmds)[0].body == b;
    }
  }

  /** For example an effect that does nothing but peek: create a signal, make the effect, set the
      signal, and the effect still shows the old value. */
  lemma PeekGoesStale<T>(e: T)
    ensures GoesStale([MakeSignal(Plain(0)), MakeEffect(Peeking()), SetSignal(0, Plain(1))], [e], 0)
  {
    var b, u, w := Peeking(), [Plain(0)], [Plain(1)];
    var m := SetsRun(b, u, w, 1, e);
    assert Deps(b, u, u) == {};
    assert Creates(u[..0]) == [];
    assert Sets(w, {}, 0) == [];
    assert Unheard(b, u, w, 1) == [MakeSignal(Plain(0)), MakeEffect(b), SetSignal(0, Plain(1))];
    assert Mixed(u, w, 1) == w;
    assert Eval(b, u, u).out == Plain(0) && Eval(b, w, w).out == Plain(1);
  }

  ghost function Peeking(): Body {
    Peek(0, imap v: Val :: Done(Outcome(v, false)))
  }
}
