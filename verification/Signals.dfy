/** The web-component runtime of js/wcr: signals, effects and the effect being tracked, as objects.
    Every method takes exactly the step of the state machine. */
module Signals {
  import opened Reactivity

  class Signal {
    var value: Val
    var subscribers: seq<Subscriber>  // a Set, in insertion order

    constructor (initial: Val)
      ensures value == initial && subscribers == []
    {
      value, subscribers := initial, [];
    }

    /** `get`: inside an effect, reading subscribes. */
    method Get(reactor: Reactor) returns (v: Val)
      modifies this`subscribers
      ensures v == value
      ensures if reactor.currentEffect == null then subscribers == old(subscribers)
              else JoinedAtEnd(old(subscribers), subscribers, reactor.currentEffect)
    {
      if reactor.currentEffect != null {
        subscribers := Insert(subscribers, reactor.currentEffect);
      }
      v := value;
    }
  }

  /** An effect's `run` closure or, when not tracked, a plain callback. */
  class Subscriber {
    const body: Body
    const tracked: bool
    var disposed: bool
    var cleanup: bool               // a cleanup function of the last run is held
    var output: Val                 // what the last run produced
    ghost var seen: seq<Val>        // the signal values at the last run
    ghost var installed: nat        // cleanup functions returned so far
    ghost var cleaned: nat          // cleanup functions called so far

    ghost function State(): Closure
      reads this
    {
      Closure(body, tracked, disposed, output, cleanup, seen, installed, cleaned)
    }

    constructor (body: Body, tracked: bool, ghost seen: seq<Val>)
      ensures this.body == body && this.tracked == tracked && State() == NewClosure(body, tracked, seen)
    {
      this.body, this.tracked := body, tracked;
      disposed, cleanup, output := false, false, NaN;
      this.seen, installed, cleaned := seen, 0, 0;
    }

    /** Calls the cleanup function that is held, if any. */
    method CallCleanup()
      modifies this`cleaned
      ensures cleaned == old(cleaned) + if cleanup then 1 else 0
    {
      if cleanup { cleaned := cleaned + 1; }
    }

    /** Keeps what a run returned; a plain callback returns nothing to keep. */
    method Keep(o: Outcome, ghost now: seq<Val>)
      modifies this`output, this`cleanup, this`seen, this`installed
      ensures output == o.out && cleanup == (tracked && o.cleanup) && seen == now
      ensures installed == old(installed) + if cleanup then 1 else 0
    {
      output, cleanup, seen := o.out, tracked && o.cleanup, now;
      if cleanup { installed := installed + 1; }
    }
  }

  /** The module's state: the effect being tracked and every signal made so far. `m` is the state of the
      machine, which the objects mirror. */
  class Reactor {
    var currentEffect: Subscriber?
    var signals: seq<Signal>
    ghost var m: Machine<Subscriber>

    ghost predicate SignalsMirrored()
      reads this`signals, this`m, signals
    {
      && NoDuplicates(signals) && |m.values| == |m.subs| == |signals|
      && (forall i :: 0 <= i < |signals| ==> signals[i].value == m.values[i])
      && (forall i :: 0 <= i < |signals| ==> signals[i].subscribers == m.subs[i])
    }

    ghost predicate ClosuresMirrored()
      reads this`m, m.closures.Keys
    {
      forall e :: e in m.closures ==> m.closures[e] == e.State()
    }

    ghost predicate Mirrored()
      reads this`signals, this`m, signals, m.closures.Keys
    {
      SignalsMirrored() && ClosuresMirrored()
    }

    /** Between operations no effect is being tracked and every live effect is up to date. */
    ghost predicate Valid()
      reads this, signals, m.closures.Keys
    {
      currentEffect == null && Mirrored() && Good(m)
    }

    constructor ()
      ensures Valid() && m == Init() && signals == []
    {
      currentEffect, signals, m := null, [], Init();
    }

    /** Reads one signal, with or without tracking. */
    method ReadSignal(i: nat, tracking: bool) returns (v: Val)
      requires i < |signals| && SignalsMirrored()
      modifies this`m, signals
      ensures SignalsMirrored() && v == m.values[i]
      ensures m == if !tracking || currentEffect == null then old(m)
                   else old(m).(subs := old(m).subs[i := Insert(old(m).subs[i], currentEffect)])
    {
      if tracking {
        v := signals[i].Get(this);
        if currentEffect != null { m := m.(subs := m.subs[i := Insert(m.subs[i], currentEffect)]); }
      } else {
        v := signals[i].value;
      }
    }

    /** The effect's function itself, from its first read to its outcome. */
    method Call(e: Subscriber) returns (o: Outcome)
      requires SignalsMirrored() && Scoped(e.body, |m.values|)
      requires currentEffect == if e.tracked then e else null
      modifies this`m, signals
      ensures SignalsMirrored() && o == Eval(e.body, m.values, m.values)
      ensures m == old(m).(subs := if e.tracked then Subscribed(e.body, m.values, old(m).subs, e) else old(m).subs)
    {
      ghost var m0 := m;
      var b := e.body;
      while !b.Done?
        invariant SignalsMirrored() && m == m0.(subs := m.subs) && Scoped(b, |m.values|)
        invariant Eval(b, m.values, m.values) == Eval(e.body, m.values, m.values)
        invariant if e.tracked then Subscribed(b, m.values, m.subs, e) == Subscribed(e.body, m.values, m0.subs, e)
                  else m.subs == m0.subs
        decreases b
      {
        var v := ReadSignal(b.sig, b.Read?);
        b := b.branch[v];
      }
      o := b.outcome;
    }

    /** The previous cleanup is called, then the function, with this effect being tracked. */
    method RunBody(e: Subscriber)
      requires SignalsMirrored() && currentEffect == null && Scoped(e.body, |m.values|)
      modifies this`currentEffect, this`m, signals, e`cleanup, e`output, e`seen, e`installed, e`cleaned
      ensures SignalsMirrored() && currentEffect == null && e.State() == AfterRun(old(e.State()), m.values)
      ensures m == old(m).(subs := if e.tracked then Subscribed(e.body, m.values, old(m).subs, e) else old(m).subs)
    {
      ghost var c := e.State();
      e.CallCleanup();
      var prevEffect := currentEffect;
      if e.tracked { currentEffect := e; }
      var o := Call(e);
      currentEffect := prevEffect;
      e.Keep(o, m.values);
      assert e.State() == AfterRun(c, m.values);
    }

    /** `run`: nothing when disposed. */
    method Run(e: Subscriber)
      requires Mirrored() && currentEffect == null && e in m.closures && (e.disposed || Runs(m, e))
      modifies this`currentEffect, this`m, signals, e`cleanup, e`output, e`seen, e`installed, e`cleaned
      ensures Mirrored() && currentEffect == null && m == RunOne(old(m), e)
    {
      if !e.disposed {
        RunBody(e);
        m := m.(closures := m.closures[e := e.State()], trace := m.trace + [e]);
      }
    }

    /** The subscriber list is copied, then every member of the copy is run. */
    method Notify(i: nat)
      requires Mirrored() && currentEffect == null && i < |signals| && GoodBut(m, m.subs[i])
      modifies this`currentEffect, this`m, signals, m.closures.Keys
      ensures Mirrored() && currentEffect == null && m == RunAll(old(m), old(m).subs[i])
    {
      var copy := signals[i].subscribers;
      ghost var m0 := m;
      for k := 0 to |copy|
        invariant Mirrored() && currentEffect == null
        invariant m == RunAll(m0, copy[..k]) && m.closures.Keys == m0.closures.Keys
      {
        NotifyStep(m0, copy, k);
        Run(copy[k]);
      }
      assert copy[..|copy|] == copy;
    }

    /** `set`: nothing for a value `===` to the old one, otherwise store and notify. */
    method Set(i: nat, v: Val)
      requires Valid() && i < |signals|
      modifies this`currentEffect, this`m, signals, m.closures.Keys
      ensures Valid() && m == SetTo(old(m), i, v) && m.values == old(m).values[i := v]
      ensures m.trace == old(m).trace + if StrictEquals(old(m).values[i], v) then [] else Live(old(m), old(m).subs[i])
      ensures OnlyRan(old(m).(values := m.values), m) && KeepPlaces(old(m).subs, m.subs)
      ensures v == old(m).values[i] && v != NaN ==> m == old(m)
      ensures v != old(m).values[i] || v == NaN ==>
                exists ran :: m.trace == old(m).trace + ran && RanInOrder(old(m), old(m).subs[i], ran)
    {
      SetGood(m, i, v);
      SetRuns(m, i, v);
      if !StrictEquals(signals[i].value, v) {
        ChangedGood(m, i, v);
        signals[i].value := v;
        m := m.(values := m.values[i := v]);
        Notify(i);
      }
    }

    /** `update`: set to a function of the current value. */
    method Update(i: nat, f: Val -> Val)
      requires Valid() && i < |signals|
      modifies this`currentEffect, this`m, signals, m.closures.Keys
      ensures Valid() && m == SetTo(old(m), i, f(old(m).values[i]))
      ensures m.values == old(m).values[i := f(old(m).values[i])] && OnlyRan(old(m).(values := m.values), m)
      ensures m.trace == old(m).trace +
                         if StrictEquals(old(m).values[i], f(old(m).values[i])) then []
                         else Live(old(m), old(m).subs[i])
      ensures KeepPlaces(old(m).subs, m.subs)
      ensures f(old(m).values[i]) != old(m).values[i] || f(old(m).values[i]) == NaN ==>
                exists ran :: m.trace == old(m).trace + ran && RanInOrder(old(m), old(m).subs[i], ran)
    {
      Set(i, f(signals[i].value));
    }

    method NewSignal(initial: Val) returns (i: nat)
      requires Valid()
      modifies this`signals, this`m
      ensures Valid() && i == |old(signals)| && m == AddSignal(old(m), initial)
      ensures old(signals) <= signals && |signals| == i + 1 && fresh(signals[i])
    {
      AddSignalGood(m, initial);
      i := |signals|;
      var s := new Signal(initial);
      signals, m := signals + [s], AddSignal(m, initial);
    }

    /** A closure that exists but has not run yet. */
    method Register(body: Body, tracked: bool) returns (e: Subscriber)
      requires Valid() && Scoped(body, |signals|)
      modifies this`m
      ensures fresh(e) && e.body == body && e.tracked == tracked && Mirrored()
      ensures e !in old(m).closures && m == AddClosure(old(m), e, NewClosure(body, tracked, old(m).values))
      ensures GoodBut(m, [e]) && (!tracked ==> Good(m))
    {
      e := new Subscriber(body, tracked, m.values);
      AddClosureGood(m, e, body, tracked);
      m := AddClosure(m, e, NewClosure(body, tracked, m.values));
    }

    /** `effect`: the body runs at once and subscribes to what it reads. */
    method NewEffect(body: Body) returns (e: Subscriber)
      requires Valid() && Scoped(body, |signals|)
      modifies this`currentEffect, this`m, signals
      ensures Valid() && fresh(e) && e.body == body && e.tracked
      ensures m == RunOne(AddClosure(old(m), e, NewClosure(body, true, old(m).values)), e)
      ensures e.output == Eval(body, m.values, m.values).out && m.trace == old(m).trace + [e]
    {
      e := Register(body, true);
      assert [e] + [] == [e];
      RunOneGood(m, e, []);
      ghost var m1 := m;
      assert Runs(m1, e);
      Run(e);
      assert m.closures[e] == AfterRun(m1.closures[e], m.values) && m.closures[e] == e.State();
    }

    /** A function that can be subscribed; one that is subscribed twice is the same member. */
    method NewCallback(body: Body) returns (e: Subscriber)
      requires Valid() && Scoped(body, |signals|)
      modifies this`m
      ensures Valid() && fresh(e) && e.body == body && !e.tracked
      ensures m == AddClosure(old(m), e, NewClosure(body, false, old(m).values))
    {
      e := Register(body, false);
    }

    /** `subscribe`: the callback joins the signal's subscribers, if it is not there, and runs at once,
        untracked. */
    method SubscribeCallback(i: nat, e: Subscriber)
      requires Valid() && i < |signals| && e in m.closures && !e.tracked
      modifies this`currentEffect, this`m, signals, e
      ensures Valid() && m == SubscribeTo(old(m), i, e)
      ensures JoinedAtEnd(old(m).subs[i], m.subs[i], e) && m.trace == old(m).trace + [e]
      ensures forall k :: 0 <= k < |m.subs| && k != i ==> m.subs[k] == old(m).subs[k]
    {
      SubscribeGood(m, i, e);
      signals[i].subscribers := Insert(signals[i].subscribers, e);
      m := m.(subs := m.subs[i := Insert(m.subs[i], e)]);
      Run(e);
    }

    /** The function returned by `subscribe`. */
    method UnsubscribeCallback(i: nat, e: Subscriber)
      requires Valid() && i < |signals| && e in m.closures && !e.tracked
      modifies this`m, signals
      ensures Valid() && m == UnsubscribeFrom(old(m), i, e)
      ensures e !in m.subs[i] && TakenOut(old(m).subs[i], m.subs[i], e)
    {
      UnsubscribeGood(m, i, e);
      DeleteKeepsDistinct(m.subs[i], e);
      signals[i].subscribers := Delete(signals[i].subscribers, e);
      m := UnsubscribeFrom(m, i, e);
    }

    /** The function returned by `effect`. The first call leaves every cleanup called exactly once;
        a second call would call a remaining cleanup again. */
    method Dispose(e: Subscriber)
      requires Valid() && e in m.closures && e.tracked
      modifies this`m, e`disposed, e`cleaned
      ensures Valid() && e.disposed && m == DisposeOf(old(m), e)
      ensures !old(e.disposed) ==> e.cleaned == e.installed
      ensures old(e.disposed) && e.cleanup ==> e.cleaned == old(e.cleaned) + 1
    {
      DisposeGood(m, e);
      assert m.closures[e] == e.State();
      m := DisposeOf(m, e);
      e.disposed := true;
      e.CallCleanup();
      assert m.closures[e] == e.State();
    }
  }

  /** The next of the copied subscribers can run, unless it was disposed. */
  lemma NotifyStep<T>(m0: Machine<T>, copy: seq<T>, k: nat)
    requires GoodBut(m0, copy) && k < |copy| && forall e :: e in copy ==> e in m0.closures
    ensures var m := RunAll(m0, copy[..k]);
            && m.closures.Keys == m0.closures.Keys
            && (m.closures[copy[k]].disposed || Runs(m, copy[k]))
            && RunAll(m0, copy[..k + 1]) == RunOne(m, copy[k])
  {
    assert copy[..k] + copy[k..] == copy && copy[..k + 1][..k] == copy[..k];
    RunAllGood(m0, copy[..k], copy[k..]);
    assert copy[k] in copy;
  }

  /** One more signal, on the objects. */
  method AddOne(r: Reactor, v: Val)
    requires r.Valid()
    modifies r
    ensures r.Valid() && r.m == AddSignal(old(r.m), v)
    ensures forall i :: 0 <= i < |r.signals| ==> r.signals[i] in old(r.signals) || fresh(r.signals[i])
  {
    var i := r.NewSignal(v);
    assert forall k :: 0 <= k < i ==> r.signals[k] == old(r.signals)[k];
  }

  /** A command that makes a closure, on the objects. */
  method Make(r: Reactor, cmd: Command) returns (e: Subscriber)
    requires r.Valid() && Allowed(r.m, cmd) && (cmd.MakeEffect? || cmd.MakeCallback?)
    modifies r, r.signals
    ensures r.Valid() && fresh(e) && e !in old(r.m.closures) && r.signals == old(r.signals)
    ensures r.m == Step(old(r.m), cmd, old(r.m.made) + [e]) && r.m.closures.Keys == old(r.m.closures.Keys) + {e}
  {
    if cmd.MakeEffect? {
      e := r.NewEffect(cmd.body);
    } else {
      e := r.NewCallback(cmd.body);
    }
  }

  /** A command that makes nothing, on the objects. */
  method Change(r: Reactor, closures: seq<Subscriber>, cmd: Command)
    requires r.Valid() && r.m.made == closures && Allowed(r.m, cmd)
    requires !cmd.MakeSignal? && !cmd.MakeEffect? && !cmd.MakeCallback?
    modifies r, r.signals, r.m.closures.Keys
    ensures r.Valid() && r.m == Step(old(r.m), cmd, closures) && r.signals == old(r.signals)
  {
    match cmd {
      case SetSignal(i, v) => r.Set(i, v);
      case UpdateSignal(i, f) => r.Update(i, f);
      case DisposeEffect(j) => r.Dispose(closures[j]);
      case Subscribe(i, j) => r.SubscribeCallback(i, closures[j]);
      case Unsubscribe(i, j) => r.UnsubscribeCallback(i, closures[j]);
    }
  }

  /** One command on the objects: the machine's step. */
  method Perform(r: Reactor, closures: seq<Subscriber>, cmd: Command) returns (closures': seq<Subscriber>)
    requires r.Valid() && r.m.made == closures && Allowed(r.m, cmd)
    modifies r, r.signals, r.m.closures.Keys
    ensures r.Valid() && r.m == Step(old(r.m), cmd, closures')
    ensures if cmd.MakeEffect? || cmd.MakeCallback?
            then |closures'| == |closures| + 1 && closures <= closures' && closures'[|closures|] !in old(r.m.closures)
            else closures' == closures
    ensures fresh(r.m.closures.Keys - old(r.m.closures.Keys))
    ensures forall i :: 0 <= i < |r.signals| ==> r.signals[i] in old(r.signals) || fresh(r.signals[i])
  {
    closures' := closures;
    match cmd {
      case MakeSignal(v) =>
        AddOne(r, v);
      case MakeEffect(_) =>
        var e := Make(r, cmd);
        closures' := closures + [e];
      case MakeCallback(_) =>
        var e := Make(r, cmd);
        closures' := closures + [e];
      case _ =>
        StepKeys(r.m, cmd, closures);
        Change(r, closures, cmd);
    }
  }

  /** Any run from an empty program takes exactly the machine's steps. */
  method RunAllOf(cmds: seq<Command>) returns (r: Reactor, closures: seq<Subscriber>)
    requires Runnable(cmds)
    ensures fresh(r) && r.Valid() && Follows(r.m, cmds, closures)
  {
    r := new Reactor();
    closures := [];
    for k := 0 to |cmds|
      invariant fresh(r) && fresh(r.signals) && fresh(r.m.closures.Keys)
      invariant r.Valid() && Follows(r.m, cmds[..k], closures)
    {
      RunnableUpTo(cmds, k + 1);
      assert cmds[..k + 1] == cmds[..k] + [cmds[k]];
      ghost var m, before := r.m, closures;
      FollowsAllows(m, cmds[..k], cmds[k], closures);
      closures := Perform(r, closures, cmds[k]);
      FollowsNext(m, cmds[..k], cmds[k], before, closures, r.m);
    }
    assert cmds[..|cmds|] == cmds;
  }

  /** The run ends with the signals and closures that the commands asked for, and every live effect whose
      untracked reads do no harm has the output that re-running everything would give. */
  method Execute(cmds: seq<Command>) returns (r: Reactor, closures: seq<Subscriber>)
    requires Runnable(cmds)
    ensures fresh(r) && r.Valid() && NoDuplicates(closures) && |closures| == |Specs(cmds)|
    ensures r.m == Final(cmds, closures) && r.m.values == FinalValues(cmds)
    ensures forall j :: 0 <= j < |closures| ==> HasSpec(closures[j], Specs(cmds)[j])
    ensures forall j :: 0 <= j < |closures| && StaysLive(Specs(cmds)[j]) ==>
              Scoped(Specs(cmds)[j].body, |FinalValues(cmds)|) &&
              closures[j].output == Eval(Specs(cmds)[j].body, FinalValues(cmds), FinalValues(cmds)).out
  {
    r, closures := RunAllOf(cmds);
    RunIsFinal(cmds, closures);
    forall j | 0 <= j < |closures|
      ensures closures[j] in r.m.closures && HasSpec(closures[j], Specs(cmds)[j])
    {
      assert MatchesOne(r.m, Specs(cmds)[j], r.m.made[j]);
    }
    forall j | 0 <= j < |closures| && StaysLive(Specs(cmds)[j])
      ensures Scoped(Specs(cmds)[j].body, |FinalValues(cmds)|)
      ensures closures[j].output == Eval(Specs(cmds)[j].body, FinalValues(cmds), FinalValues(cmds)).out
    {
      RunsStayCurrent(cmds, closures, j);
    }
  }

  /** An effect that was not disposed and whose untracked reads do no harm. */
  ghost predicate StaysLive(spec: Spec) {
    spec.tracked && !spec.disposed && Harmless(spec.body)
  }

  ghost predicate HasSpec(e: Subscriber, spec: Spec)
    reads e
  {
    e.body == spec.body && e.tracked == spec.tracked && e.disposed == spec.disposed
  }

  lemma {:induction false} RunnableUpTo(cmds: seq<Command>, k: nat)
    requires Runnable(cmds) && k <= |cmds|
    ensures Runnable(cmds[..k])
  {
    if k == |cmds| {
      assert cmds[..k] == cmds;
    } else {
      RunnableUpTo(cmds[..|cmds| - 1], k);
      assert cmds[..|cmds| - 1][..k] == cmds[..k];
    }
  }
}
