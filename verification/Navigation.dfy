/** Client-side navigation of the Sol loader: stale-while-revalidate with a cache whose entries are
    removed by timers. Navigations, prefetches, responses and timers interleave freely between the
    points where the code waits. */
module Navigation {
  import opened Options

  type Url = string
  type Html = string

  /** Five minutes, in milliseconds. */
  const TTL: nat := 5 * 60 * 1000

  datatype HistoryOp = Push(url: Url) | Replace(url: Url)

  /** A pending `setTimeout(() => cache.delete(url), TTL)`. */
  datatype Timer = Timer(url: Url, due: nat)

  /** A navigation waiting for its response; `cached` is what it found in the cache. */
  datatype Nav = Nav(url: Url, replace: bool, cached: Option<Html>)

  /** How a navigation ended. */
  datatype Outcome = Succeeded(nav: Nav, html: Html) | Failed(nav: Nav)

  /** The cache with its timers. `storedAt` remembers when each entry was stored. */
  datatype CacheState = CacheState(now: nat, cache: map<Url, Html>, timers: multiset<Timer>, storedAt: map<Url, nat>)

  datatype State = State(
    c: CacheState,
    isNavigating: bool,
    waiting: multiset<Nav>,       // navigations whose fetch is in flight
    prefetches: multiset<Url>,    // prefetch requests in flight
    display: Option<Html>,        // what `updateDOM` was last given
    history: seq<HistoryOp>,
    location: Option<Url>,        // set by the fallback to a full page load
    log: seq<Outcome>)            // finished navigations

  datatype Event =
    | Navigate(url: Url, replace: bool)
    | Response(nav: Nav, html: Html, fragment: bool)
    | Failure(nav: Nav)
    | Prefetch(url: Url)
    | PrefetchResponse(url: Url, html: Html)
    | PrefetchFailure(url: Url)
    | Fire(timer: Timer)
    | Tick

  function Op(nav: Nav): HistoryOp {
    if nav.replace then Replace(nav.url) else Push(nav.url)
  }

  /** `if (cachedHtml)`: an entry that is there and not the empty string. */
  predicate ShownFromCache(nav: Nav) {
    nav.cached.Some? && nav.cached.value != ""
  }

  function CacheGet(cache: map<Url, Html>, url: Url): Option<Html> {
    if url in cache then Some(cache[url]) else None
  }

  /** `cache.set(url, html); setTimeout(...)` */
  function Store(c: CacheState, url: Url, html: Html): CacheState {
    c.(cache := c.cache[url := html],
       timers := c.timers + multiset{Timer(url, c.now + TTL)},
       storedAt := c.storedAt[url := c.now])
  }

  /** A due timer fires. */
  function Expire(c: CacheState, t: Timer): CacheState {
    c.(cache := c.cache - {t.url}, timers := c.timers - multiset{t})
  }

  /** `navigate` up to its fetch. */
  function StartNavigation(s: State, url: Url, replace: bool): State {
    if s.isNavigating then s
    else
      var nav := Nav(url, replace, CacheGet(s.c.cache, url));
      var s1 := s.(isNavigating := true, waiting := s.waiting + multiset{nav});
      if ShownFromCache(nav) then s1.(display := nav.cached, history := s1.history + [Op(nav)]) else s1
  }

  /** `navigate` from the response on. */
  function FinishNavigation(s: State, nav: Nav, html: Html, fragment: bool): State {
    if nav !in s.waiting then s
    else
      var s1 := if fragment then s.(c := Store(s.c, nav.url, html)) else s;
      var s2 :=
        if ShownFromCache(nav) then
          if html != nav.cached.value then s1.(display := Some(html)) else s1
        else s1.(display := Some(html), history := s1.history + [Op(nav)]);
      s2.(isNavigating := false, waiting := s2.waiting - multiset{nav}, log := s2.log + [Succeeded(nav, html)])
  }

  /** The response is kept first, and then shown. */
  lemma FinishInSteps(s: State, nav: Nav, html: Html, fragment: bool)
    requires nav in s.waiting
    ensures FinishNavigation(s, nav, html, fragment) ==
            FinishNavigation(KeptFragment(s, nav, html, fragment), nav, html, false)
  {
  }

  function KeptFragment(s: State, nav: Nav, html: Html, fragment: bool): State {
    if fragment then s.(c := Store(s.c, nav.url, html)) else s
  }

  /** The `catch` branch: leave the page. */
  function FailNavigation(s: State, nav: Nav): State {
    if nav !in s.waiting then s
    else s.(location := Some(nav.url), isNavigating := false, waiting := s.waiting - multiset{nav},
            log := s.log + [Failed(nav)])
  }

  /** `prefetch` up to its fetch. */
  function StartPrefetch(s: State, url: Url): State {
    if url in s.c.cache then s else s.(prefetches := s.prefetches + multiset{url})
  }

  /** `prefetch` from the response on. */
  function FinishPrefetch(s: State, url: Url, html: Html): State {
    if url !in s.prefetches then s
    else s.(prefetches := s.prefetches - multiset{url}, c := Store(s.c, url, html))
  }

  /** A failed prefetch is ignored. */
  function FailPrefetch(s: State, url: Url): State {
    if url !in s.prefetches then s else s.(prefetches := s.prefetches - multiset{url})
  }

  /** No timer is overdue when time passes: the event loop runs due timers first. */
  predicate MayTick(c: CacheState) {
    forall t :: t in c.timers ==> c.now < t.due
  }

  /** One event; events that cannot happen change nothing. */
  ghost function Next(s: State, e: Event): State {
    match e
    case Navigate(url, replace) => StartNavigation(s, url, replace)
    case Response(nav, html, fragment) => FinishNavigation(s, nav, html, fragment)
    case Failure(nav) => FailNavigation(s, nav)
    case Prefetch(url) => StartPrefetch(s, url)
    case PrefetchResponse(url, html) => FinishPrefetch(s, url, html)
    case PrefetchFailure(url) => FailPrefetch(s, url)
    case Fire(t) => if t in s.c.timers && t.due <= s.c.now then s.(c := Expire(s.c, t)) else s
    case Tick => if MayTick(s.c) then s.(c := s.c.(now := s.c.now + 1)) else s
  }

  ghost function Run(s: State, events: seq<Event>): State {
    if events == [] then s else Next(Run(s, events[..|events| - 1]), events[|events| - 1])
  }

  /** The history operations finished navigations account for: one for every success, and one for a
      failure that had already shown cached content. */
  ghost function OpsOf(log: seq<Outcome>): seq<HistoryOp> {
    if log == [] then []
    else OpsOf(log[..|log| - 1]) +
         var last := log[|log| - 1];
         if last.Succeeded? || ShownFromCache(last.nav) then [Op(last.nav)] else []
  }

  /** At most one navigation is in flight, and the flag says whether; the history is accounted for;
      cached content shown stays shown. */
  ghost predicate NavigationOk(s: State) {
    && |s.waiting| == (if s.isNavigating then 1 else 0)
    && (!s.isNavigating ==> s.history == OpsOf(s.log))
    && (forall nav :: nav in s.waiting ==> Accounted(s, nav))
  }

  ghost predicate Accounted(s: State, nav: Nav) {
    if ShownFromCache(nav) then s.history == OpsOf(s.log) + [Op(nav)] && s.display == nav.cached
    else s.history == OpsOf(s.log)
  }

  lemma OnlyOne(waiting: multiset<Nav>, nav: Nav)
    requires |waiting| == 1 && nav in waiting
    ensures waiting == multiset{nav}
  {
    assert |waiting - multiset{nav}| == 0;
  }

  /** Every cached entry has the timer of its last store, so it is gone when that is due. */
  ghost predicate CacheOk(c: CacheState) {
    && (forall t :: t in c.timers ==> c.now <= t.due <= c.now + TTL)
    && (forall url :: url in c.cache ==> HasTimer(c, url))
  }

  ghost predicate HasTimer(c: CacheState, url: Url) {
    url in c.storedAt && c.storedAt[url] <= c.now && Timer(url, c.storedAt[url] + TTL) in c.timers
  }

  ghost predicate Inv(s: State) {
    NavigationOk(s) && CacheOk(s.c)
  }

  function InitState(): State {
    State(CacheState(0, map[], multiset{}, map[]), false, multiset{}, multiset{}, None, [], None, [])
  }

  lemma StoreKeepsCacheOk(c: CacheState, url: Url, html: Html)
    requires CacheOk(c)
    ensures CacheOk(Store(c, url, html))
  {
    var c' := Store(c, url, html);
    forall u | u in c'.cache ensures HasTimer(c', u) {
      if u != url { assert HasTimer(c, u); }
    }
  }

  lemma ExpireKeepsCacheOk(c: CacheState, t: Timer)
    requires CacheOk(c)
    ensures CacheOk(Expire(c, t))
  {
    var c' := Expire(c, t);
    forall u | u in c'.cache ensures HasTimer(c', u) {
      assert u != t.url && HasTimer(c, u);
    }
  }

  lemma TickKeepsCacheOk(c: CacheState)
    requires CacheOk(c) && MayTick(c)
    ensures CacheOk(c.(now := c.now + 1))
  {
    var c' := c.(now := c.now + 1);
    forall u | u in c'.cache ensures HasTimer(c', u) {
      assert HasTimer(c, u);
    }
  }

  /** What an event does to the cache. */
  ghost function CacheNext(s: State, e: Event): CacheState {
    match e
    case Response(nav, html, fragment) => if nav in s.waiting && fragment then Store(s.c, nav.url, html) else s.c
    case PrefetchResponse(url, html) => if url in s.prefetches then Store(s.c, url, html) else s.c
    case Fire(t) => if t in s.c.timers && t.due <= s.c.now then Expire(s.c, t) else s.c
    case Tick => if MayTick(s.c) then s.c.(now := s.c.now + 1) else s.c
    case _ => s.c
  }

  lemma NextCache(s: State, e: Event)
    ensures Next(s, e).c == CacheNext(s, e)
  {
    match e
    case Navigate(_, _) =>
    case Response(nav, html, fragment) =>
    case Failure(_) =>
    case _ =>
  }

  lemma NextKeepsCacheOk(s: State, e: Event)
    requires CacheOk(s.c)
    ensures CacheOk(Next(s, e).c)
  {
    NextCache(s, e);
    CacheNextOk(s, e);
  }

  lemma CacheNextOk(s: State, e: Event)
    requires CacheOk(s.c)
    ensures CacheOk(CacheNext(s, e))
  {
    if e.Response? {
      StoreKeepsCacheOk(s.c, e.nav.url, e.html);
    } else if e.PrefetchResponse? {
      StoreKeepsCacheOk(s.c, e.url, e.html);
    } else {
      TimeKeepsCacheOk(s, e);
    }
  }

  lemma TimeKeepsCacheOk(s: State, e: Event)
    requires CacheOk(s.c) && !e.Response? && !e.PrefetchResponse?
    ensures CacheOk(CacheNext(s, e))
  {
    if e.Fire? {
      ExpireKeepsCacheOk(s.c, e.timer);
    } else if e.Tick? && MayTick(s.c) {
      TickKeepsCacheOk(s.c);
    }
  }

  lemma OpsSnoc(log: seq<Outcome>, o: Outcome)
    ensures OpsOf(log + [o]) == OpsOf(log) + if o.Succeeded? || ShownFromCache(o.nav) then [Op(o.nav)] else []
  {
    assert (log + [o])[..|log|] == log;
  }

  /** The parts of the state that belong to navigation. */
  ghost predicate SameNavigation(s: State, s': State) {
    && s'.isNavigating == s.isNavigating && s'.waiting == s.waiting && s'.history == s.history
    && s'.display == s.display && s'.log == s.log && s'.location == s.location
  }

  lemma StartKeepsOk(s: State, url: Url, replace: bool)
    requires NavigationOk(s)
    ensures NavigationOk(StartNavigation(s, url, replace))
  {
    if !s.isNavigating { assert s.waiting == multiset{}; }
  }

  lemma FinishKeepsOk(s: State, nav: Nav, html: Html, fragment: bool)
    requires NavigationOk(s)
    ensures NavigationOk(FinishNavigation(s, nav, html, fragment))
  {
    if nav in s.waiting {
      OnlyOne(s.waiting, nav);
      OpsSnoc(s.log, Succeeded(nav, html));
    }
  }

  lemma FailKeepsOk(s: State, nav: Nav)
    requires NavigationOk(s)
    ensures NavigationOk(FailNavigation(s, nav))
  {
    if nav in s.waiting {
      OnlyOne(s.waiting, nav);
      OpsSnoc(s.log, Failed(nav));
      assert OpsOf(s.log) + [] == OpsOf(s.log);
    }
  }

  lemma OthersKeepNavigation(s: State, e: Event)
    requires !e.Navigate? && !e.Response? && !e.Failure?
    ensures SameNavigation(s, Next(s, e))
  {
  }

  lemma SameKeepsOk(s: State, s': State)
    requires NavigationOk(s) && SameNavigation(s, s')
    ensures NavigationOk(s')
  {
    forall nav | nav in s'.waiting ensures Accounted(s', nav) { assert Accounted(s, nav); }
  }

  lemma NextKeepsNavigationOk(s: State, e: Event)
    requires NavigationOk(s)
    ensures NavigationOk(Next(s, e))
  {
    match e
    case Navigate(url, replace) => StartKeepsOk(s, url, replace);
    case Response(nav, html, fragment) => FinishKeepsOk(s, nav, html, fragment);
    case Failure(nav) => FailKeepsOk(s, nav);
    case _ =>
      OthersKeepNavigation(s, e);
      SameKeepsOk(s, Next(s, e));
  }

  lemma NextKeepsInv(s: State, e: Event)
    requires Inv(s)
    ensures Inv(Next(s, e))
  {
    NextKeepsNavigationOk(s, e);
    NextKeepsCacheOk(s, e);
  }

  /** Every interleaving keeps the invariant. */
  lemma {:induction false} RunKeepsInv(s: State, events: seq<Event>)
    requires Inv(s)
    ensures Inv(Run(s, events))
  {
    if events != [] {
      var front := events[..|events| - 1];
      RunKeepsInv(s, front);
      NextKeepsInv(Run(s, front), events[|events| - 1]);
    }
  }

  /** In every run at most one navigation is in flight. */
  lemma OneNavigation(events: seq<Event>)
    ensures |Run(InitState(), events).waiting| <= 1
  {
    assert Inv(InitState());
    RunKeepsInv(InitState(), events);
  }

  /** No cached entry outlives the five minutes after it was stored. */
  lemma NoEntryOutlivesTtl(events: seq<Event>, url: Url)
    requires url in Run(InitState(), events).c.cache
    ensures var c := Run(InitState(), events).c;
            url in c.storedAt && c.storedAt[url] <= c.now <= c.storedAt[url] + 300_000
  {
    assert Inv(InitState());
    RunKeepsInv(InitState(), events);
    assert HasTimer(Run(InitState(), events).c, url);
  }

  /** Events that neither complete nor fail this navigation. */
  predicate Elsewhere(e: Event, nav: Nav) {
    e.Response? || e.Failure? ==> e.nav != nav
  }

  lemma ElsewhereStep(s: State, e: Event, nav: Nav)
    requires s.isNavigating && s.waiting == multiset{nav} && Elsewhere(e, nav)
    ensures SameNavigation(s, Next(s, e))
  {
    match e
    case Response(other, _, _) => assert other !in s.waiting;
    case Failure(other) => assert other !in s.waiting;
    case _ =>
  }

  /** While a navigation waits, whatever else happens leaves it, the history and the display alone:
      other navigations are ignored, and prefetches and timers touch only the cache. */
  lemma {:induction false} WaitingUndisturbed(s: State, events: seq<Event>, nav: Nav)
    requires s.isNavigating && s.waiting == multiset{nav} && forall i :: 0 <= i < |events| ==> Elsewhere(events[i], nav)
    ensures SameNavigation(s, Run(s, events))
  {
    if events != [] {
      WaitingUndisturbed(s, events[..|events| - 1], nav);
      ElsewhereStep(Run(s, events[..|events| - 1]), events[|events| - 1], nav);
    }
  }

  /** The response is displayed, and recorded unless the visit was recorded when cached html was shown. It is
      stored, with a timer of five minutes, exactly if it is a fragment. */
  lemma FinishShows(s: State, nav: Nav, html: Html, fragment: bool)
    requires nav in s.waiting
    requires nav.cached.Some? && nav.cached.value != "" ==> s.display == nav.cached
    ensures var s' := FinishNavigation(s, nav, html, fragment);
            && s'.display == Some(html) && !s'.isNavigating && s'.log == s.log + [Succeeded(nav, html)]
            && s'.history == s.history + (if nav.cached.Some? && nav.cached.value != "" then []
                                          else if nav.replace then [Replace(nav.url)] else [Push(nav.url)])
            && s'.waiting == s.waiting - multiset{nav} && s'.prefetches == s.prefetches && s'.location == s.location
            && (if fragment then StoredAs(s.c, s'.c, nav.url, html) else s'.c == s.c)
  {
    assert s.history + [] == s.history;
  }

  /** The end of a navigation, field by field. */
  lemma EndIs(s: State, nav: Nav, html: Html)
    requires nav in s.waiting
    ensures FinishNavigation(s, nav, html, false) ==
            s.(display := if nav.cached == Some(html) && html != "" then s.display else Some(html),
               history := if nav.cached.Some? && nav.cached.value != "" then s.history
                          else s.history + [if nav.replace then Replace(nav.url) else Push(nav.url)],
               isNavigating := false, waiting := s.waiting - multiset{nav}, log := s.log + [Succeeded(nav, html)])
  {
  }

  /** The URL has this html in the cache, other URLs what they had, and there is one more timer, due in five
      minutes. */
  ghost predicate StoredAs(c: CacheState, c': CacheState, url: Url, html: Html) {
    && url in c'.cache && c'.cache[url] == html
    && (forall u :: u != url ==> (u in c'.cache <==> u in c.cache))
    && (forall u :: u != url && u in c.cache ==> c'.cache[u] == c.cache[u])
    && c'.now == c.now && c'.timers == c.timers + multiset{Timer(url, c.now + 300_000)}
    && c'.storedAt == c.storedAt[url := c.now]
  }

  /** The navigation that `navigate` begins in this state. */
  function NavFor(s: State, url: Url, replace: bool): Nav {
    Nav(url, replace, if url in s.c.cache then Some(s.c.cache[url]) else None)
  }

  /** If there is html for the URL in the cache, and not the empty text, it is displayed at once and the
      visit is recorded. Otherwise nothing is displayed or recorded before the response. While another
      navigation waits, nothing happens at all. */
  lemma Started(s: State, url: Url, replace: bool)
    ensures s.isNavigating ==> StartNavigation(s, url, replace) == s
    ensures !s.isNavigating ==>
              var s' := StartNavigation(s, url, replace);
              && s'.isNavigating && s'.waiting == s.waiting + multiset{NavFor(s, url, replace)} && s'.log == s.log
              && s'.c == s.c && s'.prefetches == s.prefetches && s'.location == s.location
              && (if url in s.c.cache && s.c.cache[url] != ""
                  then s'.display == Some(s.c.cache[url])
                       && s'.history == s.history + [if replace then Replace(url) else Push(url)]
                  else s'.display == s.display && s'.history == s.history)
  {
  }

  /** A navigation that gets its response ends showing that response's html, with exactly one history
      operation of its own, whether nothing, the same or other html was cached, and whatever
      happened meanwhile. */
  lemma WholeNavigation(s: State, url: Url, replace: bool, between: seq<Event>, html: Html, fragment: bool)
    requires NavigationOk(s) && !s.isNavigating
    requires forall i :: 0 <= i < |between| ==> Elsewhere(between[i], NavFor(s, url, replace))
    ensures var nav := NavFor(s, url, replace);
            var s2 := FinishNavigation(Run(StartNavigation(s, url, replace), between), nav, html, fragment);
            && s2.display == Some(html)
            && s2.history == s.history + [if replace then Replace(url) else Push(url)]
            && !s2.isNavigating && s2.waiting == multiset{}
            && s2.log == s.log + [Succeeded(nav, html)]
            && (fragment ==> url in s2.c.cache && s2.c.cache[url] == html)
            && (!fragment ==> s2.c == Run(StartNavigation(s, url, replace), between).c)
  {
    var nav, s0 := NavFor(s, url, replace), StartNavigation(s, url, replace);
    Started(s, url, replace);
    assert s.waiting == multiset{};
    WaitingUndisturbed(s0, between, nav);
    FinishShows(Run(s0, between), nav, html, fragment);
  }

  /** A navigation that fails leaves the page for its URL. It has displayed and recorded something only if
      there was html in the cache when it began. */
  lemma FailedNavigation(s: State, url: Url, replace: bool, between: seq<Event>)
    requires NavigationOk(s) && !s.isNavigating
    requires forall i :: 0 <= i < |between| ==> Elsewhere(between[i], NavFor(s, url, replace))
    ensures var nav := NavFor(s, url, replace);
            var s2 := FailNavigation(Run(StartNavigation(s, url, replace), between), nav);
            && s2.location == Some(url) && !s2.isNavigating && s2.waiting == multiset{}
            && (if url in s.c.cache && s.c.cache[url] != ""
                then s2.display == Some(s.c.cache[url])
                     && s2.history == s.history + [if replace then Replace(url) else Push(url)]
                else s2.display == s.display && s2.history == s.history)
  {
    Started(s, url, replace);
    assert s.waiting == multiset{};
    WaitingUndisturbed(StartNavigation(s, url, replace), between, NavFor(s, url, replace));
  }

  // ----- How long an entry lives -----

  /** The event does not store anything for the URL. */
  predicate QuietFor(e: Event, url: Url) {
    match e
    case Response(nav, _, fragment) => !fragment || nav.url != url
    case PrefetchResponse(u, _) => u != url
    case _ => true
  }

  predicate Quiet(events: seq<Event>, url: Url) {
    forall i :: 0 <= i < |events| ==> QuietFor(events[i], url)
  }

  /** An event that stores something for the URL now. */
  ghost predicate StoresFor(s: State, e: Event, url: Url) {
    match e
    case Response(nav, _, fragment) => nav in s.waiting && fragment && nav.url == url
    case PrefetchResponse(u, _) => u in s.prefetches && u == url
    case _ => false
  }

  /** Exactly then there is one more timer for the URL, of five minutes from now. */
  lemma StoresIff(s: State, e: Event, url: Url)
    ensures var t := Timer(url, s.c.now + 300_000);
            StoresFor(s, e, url) <==> Next(s, e).c.timers[t] > s.c.timers[t]
  {
    NextCache(s, e);
    CacheStoresIff(s, e, url);
  }

  lemma CacheStoresIff(s: State, e: Event, url: Url)
    ensures var t := Timer(url, s.c.now + 300_000);
            StoresFor(s, e, url) <==> CacheNext(s, e).timers[t] > s.c.timers[t]
  {
    if e.Response? {
      StoreTimers(s.c, e.nav.url, e.html, url);
    } else if e.PrefetchResponse? {
      StoreTimers(s.c, e.url, e.html, url);
    } else {
      OthersStartNoTimer(s, e, Timer(url, s.c.now + 300_000));
    }
  }

  lemma OthersStartNoTimer(s: State, e: Event, t: Timer)
    requires !e.Response? && !e.PrefetchResponse?
    ensures CacheNext(s, e).timers[t] <= s.c.timers[t]
  {
    if e.Fire? {
      assert (s.c.timers - multiset{e.timer})[t] <= s.c.timers[t];
    }
  }

  lemma StoreTimers(c: CacheState, u: Url, html: Html, url: Url)
    ensures var t := Timer(url, c.now + 300_000);
            Store(c, u, html).timers[t] == c.timers[t] + if u == url then 1 else 0
  {
  }

  /** Quiet events are those that store nothing for the URL in any state. */
  lemma QuietIff(e: Event, url: Url)
    ensures QuietFor(e, url) <==> forall s :: !StoresFor(s, e, url)
  {
    if !QuietFor(e, url) {
      var s := InitState();
      match e
      case Response(nav, _, _) => assert StoresFor(s.(waiting := multiset{nav}), e, url);
      case PrefetchResponse(u, _) => assert StoresFor(s.(prefetches := multiset{u}), e, url);
    }
  }

  /** Time does not go back; no timer for the URL is started, and only a due one removes its entry. */
  ghost predicate Quietly(c: CacheState, c': CacheState, url: Url) {
    && c.now <= c'.now
    && (forall t :: t in c'.timers && t.url == url ==> t in c.timers)
    && (url in c.storedAt ==> url in c'.storedAt && c'.storedAt[url] == c.storedAt[url])
    && (url in c.cache && url !in c'.cache ==> exists t :: t in c.timers && t.url == url && t.due <= c.now)
  }

  lemma QuietStep(s: State, e: Event, url: Url)
    requires QuietFor(e, url)
    ensures Quietly(s.c, Next(s, e).c, url)
  {
    NextCache(s, e);
    match e
    case Response(nav, html, _) => StoreQuiet(s.c, nav.url, html, url);
    case PrefetchResponse(u, html) => StoreQuiet(s.c, u, html, url);
    case Fire(t) => ExpireQuiet(s.c, t, url);
    case _ =>
  }

  lemma StoreQuiet(c: CacheState, u: Url, html: Html, url: Url)
    ensures u != url ==> Quietly(c, Store(c, u, html), url)
  {
  }

  lemma ExpireQuiet(c: CacheState, t: Timer, url: Url)
    ensures t in c.timers && t.due <= c.now ==> Quietly(c, Expire(c, t), url)
  {
  }

  /** Until then the entry is cached, whatever happens, as long as nothing is stored for the URL again. */
  ghost predicate LivesUntil(s: State, url: Url, end: nat) {
    forall events: seq<Event> :: Quiet(events, url) && Run(s, events).c.now < end ==> url in Run(s, events).c.cache
  }

  lemma {:induction false} LateTimersKeep(s: State, url: Url, end: nat, events: seq<Event>)
    requires url in s.c.cache && (forall t :: t in s.c.timers && t.url == url ==> t.due >= end) && Quiet(events, url)
    ensures forall t :: t in Run(s, events).c.timers && t.url == url ==> t.due >= end
    ensures Run(s, events).c.now < end ==> url in Run(s, events).c.cache
  {
    if events != [] {
      var front := events[..|events| - 1];
      LateTimersKeep(s, url, end, front);
      QuietStep(Run(s, front), events[|events| - 1], url);
    }
  }

  /** A pending timer for the URL fires when it is due: let time pass, other due timers first. */
  lemma DropAt(s: State, done: seq<Event>, c: CacheState, t: Timer) returns (events: seq<Event>)
    requires c == Run(s, done).c && t in c.timers && c.now <= t.due && Quiet(done, t.url)
    ensures Quiet(events, t.url) && Run(s, events).c.now == t.due && t.url !in Run(s, events).c.cache
    decreases t.due - c.now, |c.timers|
  {
    if t.due == c.now {
      FireSnoc(s, done, t, t.url);
      events := done + [Fire(t)];
    } else if u :| u in c.timers && u.due <= c.now {
      FireSnoc(s, done, u, t.url);
      events := DropAt(s, done + [Fire(u)], Expire(c, u), t);
    } else {
      TickSnoc(s, done, t.url);
      events := DropAt(s, done + [Tick], c.(now := c.now + 1), t);
    }
  }

  lemma RunSnoc(s: State, done: seq<Event>, s1: State, e: Event, url: Url)
    requires s1 == Run(s, done) && Quiet(done, url) && QuietFor(e, url)
    ensures Run(s, done + [e]) == Next(s1, e) && Quiet(done + [e], url)
  {
    assert (done + [e])[..|done|] == done;
  }

  lemma FireSnoc(s: State, done: seq<Event>, t: Timer, url: Url)
    requires t in Run(s, done).c.timers && t.due <= Run(s, done).c.now && Quiet(done, url)
    ensures Run(s, done + [Fire(t)]).c == Expire(Run(s, done).c, t) && Quiet(done + [Fire(t)], url)
  {
    var s1 := Run(s, done);
    RunSnoc(s, done, s1, Fire(t), url);
    NextCache(s1, Fire(t));
  }

  lemma TickSnoc(s: State, done: seq<Event>, url: Url)
    requires MayTick(Run(s, done).c) && Quiet(done, url)
    ensures var c := Run(s, done).c; Run(s, done + [Tick]).c == c.(now := c.now + 1)
    ensures Quiet(done + [Tick], url)
  {
    var s1 := Run(s, done);
    RunSnoc(s, done, s1, Tick, url);
    NextCache(s1, Tick);
  }

  /** No timer that is pending for the URL is due before then. */
  ghost predicate NoneEarlier(c: CacheState, url: Url, end: nat) {
    forall t :: t in c.timers && t.url == url ==> t.due >= end
  }

  lemma LivesUntilIff(s: State, url: Url, end: nat)
    requires url in s.c.cache && s.c.now < end && forall t :: t in s.c.timers ==> s.c.now <= t.due
    ensures LivesUntil(s, url, end) <==> NoneEarlier(s.c, url, end)
  {
    if NoneEarlier(s.c, url, end) {
      forall events: seq<Event> | Quiet(events, url) && Run(s, events).c.now < end
        ensures url in Run(s, events).c.cache
      {
        LateTimersKeep(s, url, end, events);
      }
    } else {
      var t :| t in s.c.timers && t.url == url && t.due < end;
      var events := DropAt(s, [], s.c, t);
      assert Quiet(events, url);
    }
  }

  ghost predicate Reachable(s: State) {
    exists events :: s == Run(InitState(), events)
  }

  lemma ReachableOk(s: State)
    requires Reachable(s)
    ensures Inv(s)
  {
    var events :| s == Run(InitState(), events);
    assert Inv(InitState());
    RunKeepsInv(InitState(), events);
  }

  /** An entry that is stored in any run lives for its full time, if and only if no timer that is pending
      for the URL when it is stored is due before the new one. */
  lemma FullLife(s: State, e: Event, url: Url)
    requires Reachable(s) && StoresFor(s, e, url)
    ensures LivesUntil(Next(s, e), url, s.c.now + 300_000) <==> NoneEarlier(s.c, url, s.c.now + 300_000)
  {
    ReachableOk(s);
    FullLifeAt(s, e, url);
  }

  lemma FullLifeAt(s: State, e: Event, url: Url)
    requires CacheOk(s.c) && StoresFor(s, e, url)
    ensures LivesUntil(Next(s, e), url, s.c.now + TTL) <==> NoneEarlier(s.c, url, s.c.now + TTL)
  {
    StoredNow(s, e, url);
    LivesUntilIff(Next(s, e), url, s.c.now + TTL);
  }

  lemma StoredNow(s: State, e: Event, url: Url)
    requires StoresFor(s, e, url)
    ensures var c := Next(s, e).c;
            && c.now == s.c.now && url in c.cache && url in c.storedAt && c.storedAt[url] == c.now
            && c.timers == s.c.timers + multiset{Timer(url, c.now + TTL)}
  {
    NextCache(s, e);
  }

  lemma {:induction false} StoredAtStays(s: State, url: Url, events: seq<Event>)
    requires url in s.c.storedAt && Quiet(events, url)
    ensures url in Run(s, events).c.storedAt && Run(s, events).c.storedAt[url] == s.c.storedAt[url]
  {
    if events != [] {
      StoredAtStays(s, url, events[..|events| - 1]);
      QuietStep(Run(s, events[..|events| - 1]), events[|events| - 1], url);
    }
  }

  /** A prefetched page is visited a moment later. */
  function Revisit(url: Url, html: Html): seq<Event> {
    [Prefetch(url), PrefetchResponse(url, html), Tick, Navigate(url, false)]
  }

  lemma RevisitRun(url: Url, html: Html)
    ensures var s := Run(InitState(), Revisit(url, html));
            && s.c.now == 1 && s.waiting == multiset{Nav(url, false, Some(html))}
            && s.c.timers == multiset{Timer(url, TTL)}
  {
    var es := Revisit(url, html);
    assert es[..3][..2] == es[..2] && es[..2][..1] == es[..1] && es[..1][..0] == [];
    var s0 := InitState();
    var s1 := s0.(prefetches := multiset{url});
    assert Run(s0, []) == s0 && Run(s0, es[..1]) == s1;
    var s2 := s0.(c := Store(s0.c, url, html));
    assert s1.prefetches - multiset{url} == multiset{};
    assert Run(s0, es[..2]) == s2;
    var s3 := s2.(c := s2.c.(now := 1));
    assert MayTick(s2.c);
    assert Run(s0, es[..3]) == s3;
    assert Run(s0, es) == StartNavigation(s3, url, false);
  }

  /** A run in which an entry is dropped early: the page is prefetched at time 0, fetched again by a
      navigation at time 1, and removed by the timer of the prefetch while the new entry still has
      time to live. */
  lemma RefreshedEntryDroppedEarly(url: Url, html: Html, html': Html) returns (events: seq<Event>)
    ensures var nav := Nav(url, false, Some(html));
            var s := Run(Next(Run(InitState(), Revisit(url, html)), Response(nav, html', true)), events);
            && Quiet(events, url) && url in s.c.storedAt && s.c.storedAt[url] == 1
            && s.c.now < 1 + 300_000 && url !in s.c.cache
  {
    var s, e := Run(InitState(), Revisit(url, html)), Response(Nav(url, false, Some(html)), html', true);
    RevisitRun(url, html);
    StoredNow(s, e, url);
    events := DropAt(Next(s, e), [], Next(s, e).c, Timer(url, TTL));
    StoredAtStays(Next(s, e), url, events);
  }

  /** The script's state. Each method is one uninterrupted stretch of its code, from an event to the
      next point where it waits. */
  class SolNav {
    var now: nat
    var isNavigating: bool
    var cache: map<Url, Html>
    var timers: multiset<Timer>
    var waiting: multiset<Nav>
    var prefetches: multiset<Url>
    var display: Option<Html>
    var history: seq<HistoryOp>
    var location: Option<Url>
    ghost var storedAt: map<Url, nat>
    ghost var log: seq<Outcome>

    ghost function St(): State
      reads this
    {
      State(CacheState(now, cache, timers, storedAt), isNavigating, waiting, prefetches, display, history,
            location, log)
    }

    constructor ()
      ensures St() == InitState() && Inv(St())
    {
      now, isNavigating, cache, timers, waiting, prefetches := 0, false, map[], multiset{}, multiset{}, multiset{};
      display, history, location, storedAt, log := None, [], None, map[], [];
    }

    method Record(op: HistoryOp)
      modifies this`history
      ensures history == old(history) + [op]
    {
      history := history + [op];
    }

    method CacheSet(url: Url, html: Html)
      modifies this`cache, this`timers, this`storedAt
      ensures St() == old(St()).(c := Store(old(St()).c, url, html))
      ensures StoredAs(old(St()).c, St().c, url, html)
    {
      cache := cache[url := html];
      timers := timers + multiset{Timer(url, now + TTL)};
      storedAt := storedAt[url := now];
    }

    /** `navigate` up to its request; ignored while another navigation runs. */
    method Begin(url: Url, replace: bool)
      modifies this
      ensures St() == StartNavigation(old(St()), url, replace)
      ensures !old(isNavigating) && url in cache && cache[url] != "" ==>
                display == Some(cache[url]) && history == old(history) + [if replace then Replace(url) else Push(url)]
      ensures old(isNavigating) || url !in cache || cache[url] == "" ==>
                display == old(display) && history == old(history)
      ensures waiting == old(waiting) + if old(isNavigating) then multiset{} else multiset{NavFor(St(), url, replace)}
      ensures isNavigating && cache == old(cache)
    {
      Started(St(), url, replace);
      if isNavigating {
        return;
      }
      isNavigating := true;
      var n := Nav(url, replace, CacheGet(cache, url));
      waiting := waiting + multiset{n};
      ShowCached(n);
    }

    method ShowCached(nav: Nav)
      modifies this`display, this`history
      ensures display == if ShownFromCache(nav) then nav.cached else old(display)
      ensures history == if ShownFromCache(nav) then old(history) + [Op(nav)] else old(history)
    {
      if ShownFromCache(nav) {
        display := nav.cached;
        Record(Op(nav));
      }
    }

    /** Shows what is new, and records the visit unless that was done. */
    method Show(nav: Nav, html: Html)
      modifies this`display, this`history
      ensures display == if nav.cached == Some(html) && html != "" then old(display) else Some(html)
      ensures history == if nav.cached.Some? && nav.cached.value != "" then old(history)
                         else old(history) + [if nav.replace then Replace(nav.url) else Push(nav.url)]
    {
      if ShownFromCache(nav) {
        if html != nav.cached.value {
          display := Some(html);
        }
      } else {
        display := Some(html);
        Record(Op(nav));
      }
    }

    /** From the response to the end of `navigate`. */
    method Finish(nav: Nav, html: Html, fragment: bool)
      modifies this
      ensures St() == FinishNavigation(old(St()), nav, html, fragment)
      ensures nav !in old(waiting) ==> St() == old(St())
      ensures nav in old(waiting) && (nav.cached.Some? && nav.cached.value != "" ==> old(display) == nav.cached) ==>
                && display == Some(html) && !isNavigating && waiting == old(waiting) - multiset{nav}
                && history == old(history) + (if nav.cached.Some? && nav.cached.value != "" then []
                                              else if nav.replace then [Replace(nav.url)] else [Push(nav.url)])
                && (if fragment then StoredAs(old(St()).c, St().c, nav.url, html) else St().c == old(St()).c)
    {
      if nav in waiting {
        if nav.cached.Some? && nav.cached.value != "" ==> display == nav.cached {
          FinishShows(St(), nav, html, fragment);
        }
        FinishInSteps(St(), nav, html, fragment);
        KeepFragment(nav, html, fragment);
        End(nav, html);
      }
    }

    method KeepFragment(nav: Nav, html: Html, fragment: bool)
      modifies this`cache, this`timers, this`storedAt
      ensures St() == KeptFragment(old(St()), nav, html, fragment)
    {
      if fragment {
        CacheSet(nav.url, html);
      }
    }

    /** The rest of it, when the fragment has been kept. */
    method End(nav: Nav, html: Html)
      requires nav in waiting
      modifies this`display, this`history, this`isNavigating, this`waiting, this`log
      ensures St() == FinishNavigation(old(St()), nav, html, false)
    {
      EndIs(St(), nav, html);
      Show(nav, html);
      isNavigating, waiting, log := false, waiting - multiset{nav}, log + [Succeeded(nav, html)];
    }

    /** The `catch` branch of `navigate`. */
    method Fail(nav: Nav)
      modifies this`location, this`log, this`isNavigating, this`waiting
      ensures St() == FailNavigation(old(St()), nav)
      ensures nav in old(waiting) ==>
                location == Some(nav.url) && !isNavigating && waiting == old(waiting) - multiset{nav}
      ensures nav !in old(waiting) ==> St() == old(St())
    {
      if nav in waiting {
        location := Some(nav.url);
        log := log + [Failed(nav)];
        isNavigating, waiting := false, waiting - multiset{nav};
      }
    }

    method BeginPrefetch(url: Url)
      modifies this`prefetches
      ensures St() == StartPrefetch(old(St()), url)
      ensures prefetches == old(prefetches) + if url in cache then multiset{} else multiset{url}
    {
      if url !in cache {
        prefetches := prefetches + multiset{url};
      }
    }

    method EndPrefetch(url: Url, html: Html)
      modifies this
      ensures St() == FinishPrefetch(old(St()), url, html)
      ensures url in old(prefetches) ==>
                StoredAs(old(St()).c, St().c, url, html) && prefetches == old(prefetches) - multiset{url}
                && display == old(display) && history == old(history) && waiting == old(waiting)
      ensures url !in old(prefetches) ==> St() == old(St())
    {
      if url in prefetches {
        prefetches := prefetches - multiset{url};
        CacheSet(url, html);
      }
    }

    method LosePrefetch(url: Url)
      modifies this`prefetches
      ensures St() == FailPrefetch(old(St()), url)
      ensures prefetches == old(prefetches) - multiset{url}
    {
      if url in prefetches {
        prefetches := prefetches - multiset{url};
      }
    }

    /** A due timer removes whatever its URL has in the cache then. */
    method FireTimer(t: Timer)
      requires t in timers && t.due <= now
      modifies this`cache, this`timers
      ensures St() == old(St()).(c := Expire(old(St()).c, t))
      ensures timers == old(timers) - multiset{t}
      ensures forall u :: u in cache <==> u in old(cache) && u != t.url
      ensures forall u :: u in cache ==> cache[u] == old(cache)[u]
    {
      cache := cache - {t.url};
      timers := timers - multiset{t};
    }

    /** A millisecond passes. */
    method Pass()
      modifies this`now
      ensures St() == old(St()).(c := old(St()).c.(now := old(now) + 1))
    {
      now := now + 1;
    }

    /** The step of the state machine for any event. */
    method Take(e: Event)
      modifies this
      ensures St() == Next(old(St()), e)
    {
      match e {
        case Navigate(url, replace) => Begin(url, replace);
        case Response(nav, html, fragment) => Finish(nav, html, fragment);
        case Failure(nav) => Fail(nav);
        case _ => TakeOther(e);
      }
    }

    /** An event of the prefetches or the clock. */
    method TakeOther(e: Event)
      requires !e.Navigate? && !e.Response? && !e.Failure?
      modifies this
      ensures St() == Next(old(St()), e)
    {
      match e {
        case Prefetch(url) => BeginPrefetch(url);
        case PrefetchResponse(url, html) => EndPrefetch(url, html);
        case PrefetchFailure(url) => LosePrefetch(url);
        case Fire(t) => if t in timers && t.due <= now { FireTimer(t); }
        case Tick => if forall t :: t in timers ==> now < t.due { Pass(); }
      }
    }

    /** Whatever happens, in whatever order, the object is in the state that the machine reaches. */
    method TakeAll(events: seq<Event>)
      modifies this
      ensures St() == Run(old(St()), events)
      ensures Inv(old(St())) ==> Inv(St())
    {
      ghost var s := St();
      for k := 0 to |events|
        invariant St() == Run(s, events[..k])
      {
        assert events[..k + 1][..k] == events[..k];
        Take(events[k]);
      }
      assert events[..|events|] == events;
      if Inv(s) { RunKeepsInv(s, events); }
    }
  }
}
