/** The crawl frontier of playwright-chaos: a queue of discovered URLs, the set of visited ones, and
    a page limit. */
module Crawler {

  type Url = string

  datatype Method = Initial | Extracted | Clicked

  datatype Entry = Entry(url: Url, sourceUrl: Url, how: Method)

  /** What the browser finds: the URLs a page's links lead to when clicked, those extracted from its
      markup, and which URLs the patterns exclude. */
  datatype Site = Site(clicks: Url -> seq<Url>, links: Url -> seq<Url>, excluded: Url -> bool)

  /** Everything a page refers to. */
  ghost predicate RefersTo(site: Site, u: Url, v: Url) {
    v in site.clicks(u) || v in site.links(u)
  }

  predicate Queued(queue: seq<Entry>, u: Url) {
    exists i :: 0 <= i < |queue| && queue[i].url == u
  }

  /** No URL twice in the queue, none that was visited. */
  ghost predicate Frontier(queue: seq<Entry>, visited: set<Url>) {
    && (forall i, j :: 0 <= i < j < |queue| ==> queue[i].url != queue[j].url)
    && (forall i :: 0 <= i < |queue| ==> queue[i].url !in visited)
  }

  /** Where an entry comes from: the base, or a page visited before that refers to it, one level
      above. */
  ghost predicate Sourced(site: Site, base: Url, earlier: seq<Entry>, depth: map<Url, nat>, e: Entry) {
    e.url in depth &&
    ((e.url == base && depth[e.url] == 0) ||
     (exists j :: 0 <= j < |earlier| && earlier[j].url == e.sourceUrl && RefersTo(site, e.sourceUrl, e.url) &&
                  e.sourceUrl in depth && depth[e.url] == depth[e.sourceUrl] + 1))
  }

  /** Every result has a source that precedes it, and no URL is crawled twice. */
  ghost predicate ResultsOk(site: Site, base: Url, results: seq<Entry>, visited: set<Url>, depth: map<Url, nat>) {
    SourcesOk(site, base, results, depth) && CrawledOnce(site, results, visited) && Listed(results, visited) &&
    |results| == |visited|
  }

  ghost predicate SourcesOk(site: Site, base: Url, results: seq<Entry>, depth: map<Url, nat>) {
    forall i :: 0 <= i < |results| ==> Sourced(site, base, results[..i], depth, results[i])
  }

  ghost predicate CrawledOnce(site: Site, results: seq<Entry>, visited: set<Url>) {
    && (forall i :: 0 <= i < |results| ==> results[i].url in visited && !site.excluded(results[i].url))
    && (forall i, j :: 0 <= i < j < |results| ==> results[i].url != results[j].url)
  }

  ghost predicate Listed(results: seq<Entry>, visited: set<Url>) {
    forall u :: u in visited ==> exists i :: 0 <= i < |results| && results[i].url == u
  }

  ghost predicate QueueOk(site: Site, base: Url, queue: seq<Entry>, results: seq<Entry>, visited: set<Url>,
                          depth: map<Url, nat>)
  {
    && Frontier(queue, visited)
    && forall i :: 0 <= i < |queue| ==> Sourced(site, base, results, depth, queue[i])
  }

  /** Depths along the queue rise from `level` by at most one; what is visited is not deeper. */
  ghost predicate Layered(queue: seq<Entry>, visited: set<Url>, depth: map<Url, nat>, level: nat) {
    && (forall u :: u in visited ==> u in depth && depth[u] <= level)
    && (forall i :: 0 <= i < |queue| ==> queue[i].url in depth && level <= depth[queue[i].url] <= level + 1)
    && (forall i, j :: 0 <= i < j < |queue| ==> depth[queue[i].url] <= depth[queue[j].url])
  }

  /** A target is dealt with: excluded, or known at a depth of at most `d`. */
  ghost predicate Known(site: Site, queue: seq<Entry>, visited: set<Url>, depth: map<Url, nat>, u: Url, d: nat) {
    site.excluded(u) || ((u in visited || Queued(queue, u)) && u in depth && depth[u] <= d)
  }

  /** Every target of a visited page, `but` possibly one page, is dealt with one level below it. */
  ghost predicate ClosedBut(site: Site, queue: seq<Entry>, visited: set<Url>, depth: map<Url, nat>, but: set<Url>) {
    forall u, v :: u in visited - but && u in depth && RefersTo(site, u, v) ==>
      Known(site, queue, visited, depth, v, depth[u] + 1)
  }

  /** A walk along references from the base, through pages that are not excluded. */
  ghost predicate IsWalk(site: Site, base: Url, walk: seq<Url>) {
    && |walk| >= 1 && walk[0] == base
    && (forall i :: 0 <= i < |walk| - 1 ==> RefersTo(site, walk[i], walk[i + 1]))
    && (forall i :: 0 <= i < |walk| ==> !site.excluded(walk[i]))
  }

  /** The sources recorded with the results lead from the base to every crawled page, in as many
      steps as its depth. */
  lemma {:induction false} SourceChain(site: Site, base: Url, results: seq<Entry>, visited: set<Url>,
                                       depth: map<Url, nat>, i: nat)
    returns (walk: seq<Url>)
    requires ResultsOk(site, base, results, visited, depth) && i < |results|
    ensures IsWalk(site, base, walk) && walk[|walk| - 1] == results[i].url
    ensures results[i].url in depth && |walk| == depth[results[i].url] + 1
    ensures forall k :: 0 <= k < |walk| ==> walk[k] in visited
    decreases i
  {
    var u := results[i].url;
    assert Sourced(site, base, results[..i], depth, results[i]);
    if u == base && depth[u] == 0 {
      walk := [base];
    } else {
      var j := SourceIndex(site, base, results, depth, i);
      var front := SourceChain(site, base, results, visited, depth, j);
      WalkOn(site, base, front, u);
      walk := front + [u];
    }
  }

  lemma SourceIndex(site: Site, base: Url, results: seq<Entry>, depth: map<Url, nat>, i: nat) returns (j: nat)
    requires i < |results| && Sourced(site, base, results[..i], depth, results[i])
    requires !(results[i].url == base && depth[results[i].url] == 0)
    ensures j < i && RefersTo(site, results[j].url, results[i].url)
    ensures results[j].url in depth && depth[results[i].url] == depth[results[j].url] + 1
  {
    var k :| 0 <= k < i && results[..i][k].url == results[i].sourceUrl;
    j := k;
  }

  lemma WalkOn(site: Site, base: Url, walk: seq<Url>, next: Url)
    requires IsWalk(site, base, walk) && RefersTo(site, walk[|walk| - 1], next) && !site.excluded(next)
    ensures IsWalk(site, base, walk + [next])
  {
  }

  /** No walk is shorter than the depth at which a page was crawled. */
  lemma DepthIsMinimal(site: Site, base: Url, queue: seq<Entry>, visited: set<Url>, depth: map<Url, nat>, level: nat,
                       walk: seq<Url>)
    requires Layered(queue, visited, depth, level) && ClosedBut(site, queue, visited, depth, {})
    requires Known(site, queue, visited, depth, base, 0)
    requires IsWalk(site, base, walk) && walk[|walk| - 1] in visited
    ensures depth[walk[|walk| - 1]] <= |walk| - 1
  {
    var i := 0;
    while i < |walk| - 1
      invariant 0 <= i <= |walk| - 1
      invariant Known(site, queue, visited, depth, walk[i], i)
    {
      if walk[i] !in visited {
        assert level <= depth[walk[i]] <= i;
        return;
      }
      assert RefersTo(site, walk[i], walk[i + 1]);
      i := i + 1;
    }
  }

  /** The logical state of a crawl. */
  datatype State = State(queue: seq<Entry>, visited: set<Url>, results: seq<Entry>, depth: map<Url, nat>, level: nat)

  /** The invariant; during the visit of a page its own targets may be open. */
  ghost predicate Good(site: Site, base: Url, s: State, open: set<Url>) {
    && QueueOk(site, base, s.queue, s.results, s.visited, s.depth)
    && ResultsOk(site, base, s.results, s.visited, s.depth)
    && Layered(s.queue, s.visited, s.depth, s.level)
    && Known(site, s.queue, s.visited, s.depth, base, 0)
    && ClosedBut(site, s.queue, s.visited, s.depth, open)
  }

  /** Appends an entry one level below the page being visited. */
  function Push(s: State, e: Entry): State {
    s.(queue := s.queue + [e], depth := s.depth[e.url := s.level + 1])
  }

  /** What is known stays known. */
  ghost predicate KeepsKnown(site: Site, s: State, s': State) {
    forall u, d :: Known(site, s.queue, s.visited, s.depth, u, d) ==> Known(site, s'.queue, s'.visited, s'.depth, u, d)
  }

  lemma PushKeepsKnown(site: Site, s: State, e: Entry)
    requires e.url !in s.visited && !Queued(s.queue, e.url)
    ensures KeepsKnown(site, s, Push(s, e))
    ensures Known(site, Push(s, e).queue, s.visited, Push(s, e).depth, e.url, s.level + 1)
  {
    var queue' := Push(s, e).queue;
    forall u | Queued(s.queue, u) ensures Queued(queue', u) {
      var i :| 0 <= i < |s.queue| && s.queue[i].url == u;
      assert queue'[i].url == u;
    }
    assert queue'[|s.queue|].url == e.url;
  }

  lemma SourcedStays(site: Site, base: Url, earlier: seq<Entry>, visited: set<Url>, depth: map<Url, nat>, x: Entry,
                     u: Url, d: nat)
    requires Sourced(site, base, earlier, depth, x) && x.url != u && u !in visited
    requires forall j :: 0 <= j < |earlier| ==> earlier[j].url in visited
    ensures Sourced(site, base, earlier, depth[u := d], x)
  {
  }

  lemma PushKeepsResults(site: Site, base: Url, s: State, e: Entry)
    requires ResultsOk(site, base, s.results, s.visited, s.depth) && e.url !in s.visited
    ensures ResultsOk(site, base, s.results, s.visited, Push(s, e).depth)
  {
    forall i | 0 <= i < |s.results| ensures Sourced(site, base, s.results[..i], Push(s, e).depth, s.results[i]) {
      SourcedStays(site, base, s.results[..i], s.visited, s.depth, s.results[i], e.url, s.level + 1);
    }
  }

  lemma PushKeepsFrontier(queue: seq<Entry>, visited: set<Url>, e: Entry)
    requires Frontier(queue, visited) && e.url !in visited && !Queued(queue, e.url)
    ensures Frontier(queue + [e], visited)
  {
  }

  lemma PushKeepsQueue(site: Site, base: Url, s: State, e: Entry)
    requires forall j :: 0 <= j < |s.results| ==> s.results[j].url in s.visited
    requires QueueOk(site, base, s.queue, s.results, s.visited, s.depth)
    requires e.url !in s.visited && !Queued(s.queue, e.url)
    requires Sourced(site, base, s.results, Push(s, e).depth, e)
    ensures QueueOk(site, base, Push(s, e).queue, s.results, s.visited, Push(s, e).depth)
  {
    PushKeepsFrontier(s.queue, s.visited, e);
    var queue', depth' := Push(s, e).queue, Push(s, e).depth;
    forall i | 0 <= i < |queue'| ensures Sourced(site, base, s.results, depth', queue'[i]) {
      if i < |s.queue| {
        assert Sourced(site, base, s.results, s.depth, s.queue[i]);
        SourcedStays(site, base, s.results, s.visited, s.depth, s.queue[i], e.url, s.level + 1);
      }
    }
  }

  lemma PushSourced(site: Site, base: Url, s: State, e: Entry)
    requires ResultsOk(site, base, s.results, s.visited, s.depth) && e.url !in s.visited
    requires e.sourceUrl in s.visited && e.sourceUrl in s.depth && s.depth[e.sourceUrl] == s.level
    requires RefersTo(site, e.sourceUrl, e.url)
    ensures Sourced(site, base, s.results, Push(s, e).depth, e)
  {
    var j :| 0 <= j < |s.results| && s.results[j].url == e.sourceUrl;
  }

  lemma PushKeepsLayers(s: State, e: Entry)
    requires Layered(s.queue, s.visited, s.depth, s.level) && e.url !in s.visited && !Queued(s.queue, e.url)
    ensures Layered(Push(s, e).queue, s.visited, Push(s, e).depth, s.level)
  {
  }

  lemma PushKeepsClosed(site: Site, s: State, e: Entry, open: set<Url>)
    requires ClosedBut(site, s.queue, s.visited, s.depth, open) && KeepsKnown(site, s, Push(s, e)) &&
               e.url !in s.visited
    ensures ClosedBut(site, Push(s, e).queue, s.visited, Push(s, e).depth, open)
  {
  }

  /** Recording a new target of the page being visited. */
  lemma PushGood(site: Site, base: Url, s: State, e: Entry, open: set<Url>)
    requires Good(site, base, s, open) && e.url !in s.visited && !Queued(s.queue, e.url)
    requires e.sourceUrl in s.visited && e.sourceUrl in s.depth && s.depth[e.sourceUrl] == s.level
    requires RefersTo(site, e.sourceUrl, e.url)
    ensures Good(site, base, Push(s, e), open) && KeepsKnown(site, s, Push(s, e))
    ensures Known(site, Push(s, e).queue, s.visited, Push(s, e).depth, e.url, s.level + 1)
  {
    PushKeepsKnown(site, s, e);
    PushKeepsResults(site, base, s, e);
    PushSourced(site, base, s, e);
    PushKeepsQueue(site, base, s, e);
    PushKeepsLayers(s, e);
    PushKeepsClosed(site, s, e, open);
  }

  lemma KnownByMembership(site: Site, base: Url, s: State, open: set<Url>, u: Url)
    requires Good(site, base, s, open) && (u in s.visited || Queued(s.queue, u))
    ensures Known(site, s.queue, s.visited, s.depth, u, s.level + 1)
  {
  }

  lemma KeepsKnownTransitive(site: Site, s: State, s': State, s'': State)
    requires KeepsKnown(site, s, s') && KeepsKnown(site, s', s'')
    ensures KeepsKnown(site, s, s'')
  {
    forall u, d | Known(site, s.queue, s.visited, s.depth, u, d)
      ensures Known(site, s''.queue, s''.visited, s''.depth, u, d)
    {
      assert Known(site, s'.queue, s'.visited, s'.depth, u, d);
    }
  }

  /** A target is added unless visited or queued already. */
  ghost function DiscoverOne(s: State, page: Url, link: Url, how: Method): State {
    if link in s.visited || Queued(s.queue, link) then s else Push(s, Entry(link, page, how))
  }

  ghost function Discover(s: State, page: Url, targets: seq<Url>, how: Method): State {
    if targets == [] then s
    else DiscoverOne(Discover(s, page, targets[..|targets| - 1], how), page, targets[|targets| - 1], how)
  }

  /** The page being visited, with its depth. */
  ghost predicate AtPage(s: State, page: Url) {
    page in s.visited && page in s.depth && s.depth[page] == s.level
  }

  /** From `s`, in the visit of the page, `s'` was reached, and these targets were dealt with. */
  ghost predicate Discovered(site: Site, base: Url, s: State, s': State, page: Url, targets: seq<Url>) {
    && Good(site, base, s', {page}) && AtPage(s', page) && KeepsKnown(site, s, s')
    && (forall v :: v in targets ==> Known(site, s'.queue, s'.visited, s'.depth, v, s'.level + 1))
    && s'.level == s.level && s'.visited == s.visited && s'.results == s.results
  }

  lemma DiscoverOneGood(site: Site, base: Url, s: State, page: Url, link: Url, how: Method)
    requires Good(site, base, s, {page}) && AtPage(s, page) && RefersTo(site, page, link)
    ensures Discovered(site, base, s, DiscoverOne(s, page, link, how), page, [link])
  {
    if link in s.visited || Queued(s.queue, link) {
      KnownByMembership(site, base, s, {page}, link);
    } else {
      PushGood(site, base, s, Entry(link, page, how), {page});
    }
  }

  lemma DiscoveredNext(site: Site, base: Url, s: State, s1: State, s2: State, page: Url, front: seq<Url>, last: Url)
    requires Discovered(site, base, s, s1, page, front) && Discovered(site, base, s1, s2, page, [last])
    ensures Discovered(site, base, s, s2, page, front + [last])
  {
    KeepsKnownTransitive(site, s, s1, s2);
    forall v | v in front + [last] ensures Known(site, s2.queue, s2.visited, s2.depth, v, s2.level + 1) {
      if v in front { assert Known(site, s1.queue, s1.visited, s1.depth, v, s1.level + 1); }
    }
  }

  lemma DiscoveredNone(site: Site, base: Url, s: State, page: Url)
    requires Good(site, base, s, {page}) && AtPage(s, page)
    ensures Discovered(site, base, s, s, page, [])
  {
  }

  lemma DiscoveredGood(site: Site, base: Url, s: State, s': State, page: Url, targets: seq<Url>)
    requires Discovered(site, base, s, s', page, targets)
    ensures Good(site, base, s', {page}) && AtPage(s', page) && s'.visited == s.visited
  {
  }

  lemma DiscoverStep(site: Site, base: Url, s: State, page: Url, targets: seq<Url>, how: Method)
    requires targets != [] && RefersTo(site, page, targets[|targets| - 1])
    requires var front := targets[..|targets| - 1];
             Discovered(site, base, s, Discover(s, page, front, how), page, front)
    ensures Discovered(site, base, s, Discover(s, page, targets, how), page, targets)
  {
    var front, last := targets[..|targets| - 1], targets[|targets| - 1];
    assert targets == front + [last];
    var s1 := Discover(s, page, front, how);
    DiscoveredGood(site, base, s, s1, page, front);
    DiscoverOneGood(site, base, s1, page, last, how);
    DiscoveredNext(site, base, s, s1, DiscoverOne(s1, page, last, how), page, front, last);
  }

  /** Discovering all targets of a page keeps the invariant and leaves each of them dealt with. */
  lemma {:induction false} DiscoverGood(site: Site, base: Url, s: State, page: Url, targets: seq<Url>, how: Method)
    requires Good(site, base, s, {page}) && AtPage(s, page)
    requires forall v :: v in targets ==> RefersTo(site, page, v)
    ensures Discovered(site, base, s, Discover(s, page, targets, how), page, targets)
  {
    if targets == [] {
      DiscoveredNone(site, base, s, page);
    } else {
      DiscoverGood(site, base, s, page, targets[..|targets| - 1], how);
      DiscoverStep(site, base, s, page, targets, how);
    }
  }

  /** Taking an excluded URL from the queue. */
  ghost function Drop(s: State): State
    requires |s.queue| > 0 && s.queue[0].url in s.depth
  {
    s.(queue := s.queue[1..], level := s.depth[s.queue[0].url])
  }

  /** Taking a URL from the queue and beginning its visit. */
  ghost function Visit(s: State): State
    requires |s.queue| > 0 && s.queue[0].url in s.depth
  {
    s.(queue := s.queue[1..], visited := s.visited + {s.queue[0].url}, results := s.results + [s.queue[0]],
       level := s.depth[s.queue[0].url])
  }

  lemma QueuedTail(queue: seq<Entry>, u: Url)
    requires |queue| > 0
    ensures Queued(queue, u) <==> queue[0].url == u || Queued(queue[1..], u)
  {
    if Queued(queue, u) && queue[0].url != u {
      var i :| 0 <= i < |queue| && queue[i].url == u;
      assert queue[1..][i - 1].url == u;
    }
    if Queued(queue[1..], u) {
      var i :| 0 <= i < |queue[1..]| && queue[1..][i].url == u;
      assert queue[i + 1].url == u;
    }
  }

  lemma TailLayered(s: State)
    requires Layered(s.queue, s.visited, s.depth, s.level) && |s.queue| > 0
    ensures Layered(s.queue[1..], s.visited, s.depth, s.depth[s.queue[0].url])
  {
  }

  lemma DropGood(site: Site, base: Url, s: State)
    requires Good(site, base, s, {}) && |s.queue| > 0 && site.excluded(s.queue[0].url)
    ensures Good(site, base, Drop(s), {})
  {
    TailLayered(s);
    var s' := Drop(s);
    forall u, d | Known(site, s.queue, s.visited, s.depth, u, d)
      ensures Known(site, s'.queue, s'.visited, s'.depth, u, d)
    {
      QueuedTail(s.queue, u);
    }
  }

  lemma VisitKeepsKnown(site: Site, s: State)
    requires |s.queue| > 0 && s.queue[0].url in s.depth
    ensures KeepsKnown(site, s, Visit(s))
  {
    var s' := Visit(s);
    forall u, d | Known(site, s.queue, s.visited, s.depth, u, d)
      ensures Known(site, s'.queue, s'.visited, s'.depth, u, d)
    {
      QueuedTail(s.queue, u);
    }
  }

  lemma VisitClosed(site: Site, s: State)
    requires |s.queue| > 0 && s.queue[0].url in s.depth && ClosedBut(site, s.queue, s.visited, s.depth, {})
    requires KeepsKnown(site, s, Visit(s))
    ensures ClosedBut(site, Visit(s).queue, Visit(s).visited, s.depth, {s.queue[0].url})
  {
  }

  lemma VisitGood(site: Site, base: Url, s: State)
    requires Good(site, base, s, {}) && |s.queue| > 0 && !site.excluded(s.queue[0].url)
    ensures Good(site, base, Visit(s), {s.queue[0].url}) && AtPage(Visit(s), s.queue[0].url)
  {
    TailLayered(s);
    VisitKeepsKnown(site, s);
    VisitClosed(site, s);
    ResultsSnoc(site, base, s.results, s.visited, s.depth, s.queue[0]);
    VisitQueue(site, base, s);
    VisitLayered(s);
  }

  lemma VisitLayered(s: State)
    requires Layered(s.queue, s.visited, s.depth, s.level) && |s.queue| > 0
    ensures Layered(Visit(s).queue, Visit(s).visited, s.depth, Visit(s).level)
  {
  }

  lemma ResultsSnoc(site: Site, base: Url, results: seq<Entry>, visited: set<Url>, depth: map<Url, nat>, e: Entry)
    requires ResultsOk(site, base, results, visited, depth)
    requires Sourced(site, base, results, depth, e) && e.url !in visited && !site.excluded(e.url)
    ensures ResultsOk(site, base, results + [e], visited + {e.url}, depth)
  {
    SourcedSnoc(site, base, results, depth, e);
    VisitedListed(results, visited, e);
    ResultsDistinct(site, results, visited, e);
  }

  lemma ResultsDistinct(site: Site, results: seq<Entry>, visited: set<Url>, e: Entry)
    requires CrawledOnce(site, results, visited) && e.url !in visited && !site.excluded(e.url)
    ensures CrawledOnce(site, results + [e], visited + {e.url})
  {
  }

  lemma SourcedSnoc(site: Site, base: Url, results: seq<Entry>, depth: map<Url, nat>, e: Entry)
    requires SourcesOk(site, base, results, depth) && Sourced(site, base, results, depth, e)
    ensures SourcesOk(site, base, results + [e], depth)
  {
    var results', n := results + [e], |results|;
    forall i | 0 <= i <= n ensures Sourced(site, base, results'[..i], depth, results'[i]) {
      assert results'[..i] == results[..i];
      if i == n {
        assert results[..n] == results;
      } else {
        assert Sourced(site, base, results[..i], depth, results[i]);
      }
    }
  }

  lemma VisitedListed(results: seq<Entry>, visited: set<Url>, e: Entry)
    requires Listed(results, visited)
    ensures Listed(results + [e], visited + {e.url})
  {
    forall u | u in visited + {e.url} ensures exists i :: 0 <= i < |results + [e]| && (results + [e])[i].url == u {
      if u == e.url {
        assert (results + [e])[|results|].url == u;
      } else {
        var i :| 0 <= i < |results| && results[i].url == u;
        assert (results + [e])[i].url == u;
      }
    }
  }

  lemma VisitQueue(site: Site, base: Url, s: State)
    requires QueueOk(site, base, s.queue, s.results, s.visited, s.depth)
    requires |s.queue| > 0 && s.queue[0].url in s.depth
    ensures QueueOk(site, base, Visit(s).queue, Visit(s).results, Visit(s).visited, s.depth)
  {
    var s' := Visit(s);
    forall i | 0 <= i < |s'.queue| ensures Sourced(site, base, s'.results, s.depth, s'.queue[i]) {
      assert s'.queue[i] == s.queue[i + 1];
      SourcedGrows(site, base, s.results, s.queue[0], s.depth, s.queue[i + 1]);
    }
  }

  lemma SourcedGrows(site: Site, base: Url, earlier: seq<Entry>, r: Entry, depth: map<Url, nat>, e: Entry)
    requires Sourced(site, base, earlier, depth, e)
    ensures Sourced(site, base, earlier + [r], depth, e)
  {
    if !(e.url == base && depth[e.url] == 0) {
      var j :| 0 <= j < |earlier| && earlier[j].url == e.sourceUrl;
      assert (earlier + [r])[j].url == e.sourceUrl;
    }
  }

  /** When all targets of the page are dealt with, nothing is open. */
  lemma VisitDone(site: Site, base: Url, s: State, page: Url)
    requires Good(site, base, s, {page}) && AtPage(s, page)
    requires forall v :: RefersTo(site, page, v) ==> Known(site, s.queue, s.visited, s.depth, v, s.level + 1)
    ensures Good(site, base, s, {})
  {
  }

  lemma BothDiscovered(site: Site, base: Url, s: State, s1: State, s2: State, page: Url)
    requires Discovered(site, base, s, s1, page, site.clicks(page))
    requires Discovered(site, base, s1, s2, page, site.links(page))
    ensures Good(site, base, s2, {}) && s2.visited == s.visited
  {
    forall v | RefersTo(site, page, v) ensures Known(site, s2.queue, s2.visited, s2.depth, v, s2.level + 1) {
      if v in site.clicks(page) { assert Known(site, s1.queue, s1.visited, s1.depth, v, s1.level + 1); }
    }
    VisitDone(site, base, s2, page);
  }

  lemma TargetsDiscovered(site: Site, base: Url, s: State, page: Url)
    requires Good(site, base, s, {page}) && AtPage(s, page)
    ensures var s' := Discover(Discover(s, page, site.clicks(page), Clicked), page, site.links(page), Extracted);
            Good(site, base, s', {}) && s'.visited == s.visited
  {
    var s1 := Discover(s, page, site.clicks(page), Clicked);
    DiscoverGood(site, base, s, page, site.clicks(page), Clicked);
    DiscoveredGood(site, base, s, s1, page, site.clicks(page));
    DiscoverGood(site, base, s1, page, site.links(page), Extracted);
    BothDiscovered(site, base, s, s1, Discover(s1, page, site.links(page), Extracted), page);
  }

  /** One page: its clicks, then its links. */
  ghost function CrawlPage(site: Site, s: State): State
    requires |s.queue| > 0 && s.queue[0].url in s.depth
  {
    var page := s.queue[0].url;
    Discover(Discover(Visit(s), page, site.clicks(page), Clicked), page, site.links(page), Extracted)
  }

  lemma PageGood(site: Site, base: Url, s: State)
    requires Good(site, base, s, {}) && |s.queue| > 0 && !site.excluded(s.queue[0].url)
    ensures Good(site, base, CrawlPage(site, s), {})
    ensures |CrawlPage(site, s).visited| == |s.visited| + 1
  {
    var page := s.queue[0].url;
    assert page !in s.visited;
    VisitGood(site, base, s);
    TargetsDiscovered(site, base, Visit(s), page);
  }

  /** One turn of the loop: the next URL is dropped if excluded, else its page is crawled. */
  ghost function Next(site: Site, s: State): State
    requires |s.queue| > 0 && s.queue[0].url in s.depth
  {
    if site.excluded(s.queue[0].url) then Drop(s) else CrawlPage(site, s)
  }

  lemma NextGood(site: Site, base: Url, s: State)
    requires Good(site, base, s, {}) && |s.queue| > 0
    ensures Good(site, base, Next(site, s), {})
    ensures (Next(site, s).visited == s.visited && |Next(site, s).queue| < |s.queue|) ||
              |Next(site, s).visited| == |s.visited| + 1
  {
    if site.excluded(s.queue[0].url) {
      DropGood(site, base, s);
      assert Next(site, s) == Drop(s);
    } else {
      PageGood(site, base, s);
      assert Next(site, s) == CrawlPage(site, s);
    }
  }

  // ----- How pages are found -----

  /** The queue keeps what it had and gains, under this page and method, targets that were neither visited
      nor queued; afterwards every target is one or the other. */
  ghost predicate Added(queue: seq<Entry>, queue': seq<Entry>, visited: set<Url>, page: Url, targets: seq<Url>,
                        how: Method)
  {
    && queue <= queue'
    && (forall k :: |queue| <= k < |queue'| ==> NewEntry(queue'[k], queue, visited, page, targets, how))
    && (forall t :: t in targets ==> t in visited || Queued(queue', t))
  }

  ghost predicate NewEntry(e: Entry, queue: seq<Entry>, visited: set<Url>, page: Url, targets: seq<Url>, how: Method) {
    && e.sourceUrl == page && e.how == how
    && e.url in targets && e.url !in visited && !Queued(queue, e.url)
  }

  lemma {:induction false} DiscoverAdds(s: State, page: Url, targets: seq<Url>, how: Method)
    ensures Added(s.queue, Discover(s, page, targets, how).queue, s.visited, page, targets, how)
    ensures Discover(s, page, targets, how).visited == s.visited && Discover(s, page, targets, how).results == s.results
  {
    if targets != [] {
      var front, link := targets[..|targets| - 1], targets[|targets| - 1];
      var s1 := Discover(s, page, front, how);
      DiscoverAdds(s, page, front, how);
      QueuedGrows(s.queue, s1.queue);
      AddedOne(s.queue, s1.queue, s.visited, page, front, link, how);
      assert targets == front + [link];
    }
  }

  lemma QueuedGrows(queue: seq<Entry>, queue': seq<Entry>)
    requires queue <= queue'
    ensures forall u :: Queued(queue, u) ==> Queued(queue', u)
  {
    forall u | Queued(queue, u) ensures Queued(queue', u) {
      var i :| 0 <= i < |queue| && queue[i].url == u;
      assert queue'[i].url == u;
    }
  }

  lemma AddedOne(queue: seq<Entry>, queue1: seq<Entry>, visited: set<Url>, page: Url, front: seq<Url>, link: Url,
                 how: Method)
    requires Added(queue, queue1, visited, page, front, how)
    ensures var queue2 := if link in visited || Queued(queue1, link) then queue1 else queue1 + [Entry(link, page, how)];
            Added(queue, queue2, visited, page, front + [link], how)
  {
    var queue2 := if link in visited || Queued(queue1, link) then queue1 else queue1 + [Entry(link, page, how)];
    QueuedGrows(queue, queue1);
    QueuedGrows(queue1, queue2);
    if queue2 != queue1 { assert queue2[|queue1|].url == link; }
  }

  /** A page was clicked, or only its link was there without being clicked, on the page it is reported under;
      or it is the base. */
  ghost predicate Found(site: Site, base: Url, e: Entry) {
    match e.how
    case Initial => e.url == base && e.sourceUrl == ""
    case Clicked => e.url in site.clicks(e.sourceUrl)
    case Extracted => e.url in site.links(e.sourceUrl) && e.url !in site.clicks(e.sourceUrl)
  }

  ghost predicate AllFound(site: Site, base: Url, entries: seq<Entry>) {
    forall i :: 0 <= i < |entries| ==> Found(site, base, entries[i])
  }

  /** The links of a page are looked at when its clicks have been dealt with. */
  lemma PageFound(site: Site, base: Url, s: State)
    requires |s.queue| > 0 && s.queue[0].url in s.depth && AllFound(site, base, s.queue)
    ensures AllFound(site, base, CrawlPage(site, s).queue)
    ensures CrawlPage(site, s).results == s.results + [s.queue[0]]
  {
    var page, s0 := s.queue[0].url, Visit(s);
    var s1 := Discover(s0, page, site.clicks(page), Clicked);
    DiscoverAdds(s0, page, site.clicks(page), Clicked);
    DiscoverAdds(s1, page, site.links(page), Extracted);
    var queue := CrawlPage(site, s).queue;
    forall i | 0 <= i < |queue| ensures Found(site, base, queue[i]) {
      if i < |s0.queue| {
        assert queue[i] == s.queue[i + 1];
      } else if i < |s1.queue| {
        assert NewEntry(s1.queue[i], s0.queue, s0.visited, page, site.clicks(page), Clicked);
      } else {
        assert NewEntry(queue[i], s1.queue, s0.visited, page, site.links(page), Extracted);
      }
    }
  }

  lemma NextFound(site: Site, base: Url, s: State)
    requires |s.queue| > 0 && s.queue[0].url in s.depth
    requires AllFound(site, base, s.queue) && AllFound(site, base, s.results)
    ensures AllFound(site, base, Next(site, s).queue) && AllFound(site, base, Next(site, s).results)
  {
    if !site.excluded(s.queue[0].url) { PageFound(site, base, s); }
  }

  /** The invariant between pages. */
  ghost predicate Sound(site: Site, base: Url, s: State) {
    Good(site, base, s, {}) && AllFound(site, base, s.queue) && AllFound(site, base, s.results)
  }

  lemma NextSound(site: Site, base: Url, s: State)
    requires Sound(site, base, s) && |s.queue| > 0
    ensures s.queue[0].url in s.depth && s.queue[0].url !in s.visited && Sound(site, base, Next(site, s))
    ensures (Next(site, s).visited == s.visited && |Next(site, s).queue| < |s.queue|) ||
              |Next(site, s).visited| == |s.visited| + 1
  {
    NextGood(site, base, s);
    NextFound(site, base, s);
  }

  /** How many of the entries were found this way. */
  ghost function Count(entries: seq<Entry>, how: Method): nat {
    if entries == [] then 0
    else Count(entries[..|entries| - 1], how) + if entries[|entries| - 1].how == how then 1 else 0
  }

  lemma {:induction false} CountFirst(entries: seq<Entry>, how: Method)
    requires entries != []
    ensures Count(entries, how) == Count(entries[1..], how) + if entries[0].how == how then 1 else 0
  {
    var front := entries[..|entries| - 1];
    if front != [] {
      CountFirst(front, how);
      assert front[1..] == entries[1..][..|entries| - 2];
    }
  }

  lemma CountSnoc(entries: seq<Entry>, e: Entry, how: Method)
    ensures Count(entries + [e], how) == Count(entries, how) + if e.how == how then 1 else 0
  {
    assert (entries + [e])[..|entries|] == entries;
  }

  /** The counters say how many of all the entries, still queued, crawled or dropped, were found by clicking
      and how many by extraction; the one other is the base. */
  ghost predicate CountedAs(queue: seq<Entry>, crawled: seq<Entry>, dropped: seq<Entry>, extracted: nat, clicked: nat) {
    && extracted == Count(queue, Extracted) + Count(crawled, Extracted) + Count(dropped, Extracted)
    && clicked == Count(queue, Clicked) + Count(crawled, Clicked) + Count(dropped, Clicked)
    && 1 + extracted + clicked == |queue| + |crawled| + |dropped|
  }

  lemma CountQueued(queue: seq<Entry>, crawled: seq<Entry>, dropped: seq<Entry>, extracted: nat, clicked: nat, e: Entry)
    requires CountedAs(queue, crawled, dropped, extracted, clicked) && e.how != Initial
    ensures e.how == Clicked ==> CountedAs(queue + [e], crawled, dropped, extracted, clicked + 1)
    ensures e.how == Extracted ==> CountedAs(queue + [e], crawled, dropped, extracted + 1, clicked)
  {
    CountSnoc(queue, e, Extracted);
    CountSnoc(queue, e, Clicked);
  }

  lemma CountTaken(queue: seq<Entry>, crawled: seq<Entry>, dropped: seq<Entry>, extracted: nat, clicked: nat)
    requires CountedAs(queue, crawled, dropped, extracted, clicked) && queue != []
    ensures CountedAs(queue[1..], crawled + [queue[0]], dropped, extracted, clicked)
    ensures CountedAs(queue[1..], crawled, dropped + [queue[0]], extracted, clicked)
  {
    forall how: Method | true
      ensures Count(queue, how) == Count(queue[1..], how) + if queue[0].how == how then 1 else 0
      ensures Count(crawled + [queue[0]], how) == Count(crawled, how) + if queue[0].how == how then 1 else 0
      ensures Count(dropped + [queue[0]], how) == Count(dropped, how) + if queue[0].how == how then 1 else 0
    {
      CountFirst(queue, how);
      CountSnoc(crawled, queue[0], how);
      CountSnoc(dropped, queue[0], how);
    }
  }

  ghost function InitState(base: Url): State {
    State([Entry(base, "", Initial)], {}, [], map[base := 0], 0)
  }

  lemma InitGood(site: Site, base: Url)
    ensures Good(site, base, InitState(base), {})
  {
    assert InitState(base).queue[0].url == base;
  }

  lemma InitSound(site: Site, base: Url)
    ensures Sound(site, base, InitState(base))
  {
    InitGood(site, base);
  }

  lemma SoundReaches(site: Site, base: Url, s: State)
    requires Sound(site, base, s)
    ensures |s.results| == |s.visited| && forall u :: u in s.visited ==> Reachable(site, base, u)
    ensures s.queue == [] ==> forall u :: Reachable(site, base, u) ==> u in s.visited
  {
    forall u | u in s.visited ensures Reachable(site, base, u) {
      VisitedIsReachable(site, base, s, u);
    }
    if s.queue == [] { CrawlIsComplete(site, base, s); }
  }

  class Crawler {
    const baseUrl: Url
    const maxPages: int
    var queue: seq<Entry>
    var visited: set<Url>
    var results: seq<Entry>
    var uniquePages: nat
    var extractedLinks: nat
    var clickedLinks: nat
    ghost var crawled: seq<Entry>   // the entries visited, in order
    ghost var depth: map<Url, nat>
    ghost var level: nat
    ghost var dropped: seq<Entry>   // entries taken from the queue because they are excluded

    ghost function St(): State
      reads this
    {
      State(queue, visited, crawled, depth, level)
    }

    /** Every entry ever queued is still there, was crawled, or was dropped; each counter counts its own. */
    ghost predicate Counted()
      reads this
    {
      CountedAs(queue, crawled, dropped, extractedLinks, clickedLinks) && uniquePages == |crawled|
    }

    constructor (baseUrl: Url, maxPages: int)
      ensures this.baseUrl == baseUrl && this.maxPages == maxPages
    {
      this.baseUrl, this.maxPages := baseUrl, maxPages;
      queue, visited, results, uniquePages, extractedLinks, clickedLinks := [], {}, [], 0, 0, 0;
      crawled, depth, level, dropped := [], map[], 0, [];
    }

    /** Queues what a page refers to, unless visited or queued already. */
    method Enqueue(page: Url, targets: seq<Url>, how: Method)
      requires Counted() && how != Initial
      modifies this`queue, this`depth, this`extractedLinks, this`clickedLinks
      ensures St() == Discover(old(St()), page, targets, how) && Counted()
      ensures Added(old(queue), queue, visited, page, targets, how)
      ensures clickedLinks == old(clickedLinks) + if how == Clicked then |queue| - |old(queue)| else 0
      ensures extractedLinks == old(extractedLinks) + if how == Extracted then |queue| - |old(queue)| else 0
    {
      ghost var s0 := St();
      for k := 0 to |targets|
        invariant St() == Discover(s0, page, targets[..k], how) && Counted()
        invariant clickedLinks == old(clickedLinks) + if how == Clicked then |queue| - |old(queue)| else 0
        invariant extractedLinks == old(extractedLinks) + if how == Extracted then |queue| - |old(queue)| else 0
      {
        assert targets[..k + 1][..k] == targets[..k];
        EnqueueOne(page, targets[k], how);
      }
      assert targets[..|targets|] == targets;
      DiscoverAdds(s0, page, targets, how);
    }

    method EnqueueOne(page: Url, link: Url, how: Method)
      requires Counted() && how != Initial
      modifies this`queue, this`depth, this`extractedLinks, this`clickedLinks
      ensures St() == DiscoverOne(old(St()), page, link, how) && Counted()
      ensures clickedLinks == old(clickedLinks) + if how == Clicked then |queue| - |old(queue)| else 0
      ensures extractedLinks == old(extractedLinks) + if how == Extracted then |queue| - |old(queue)| else 0
    {
      var alreadyQueued := Queued(queue, link);
      if link !in visited && !alreadyQueued {
        CountQueued(queue, crawled, dropped, extractedLinks, clickedLinks, Entry(link, page, how));
        queue := queue + [Entry(link, page, how)];
        depth := depth[link := level + 1];
        if how == Clicked { clickedLinks := clickedLinks + 1; } else { extractedLinks := extractedLinks + 1; }
      }
    }

    /** Takes the next entry: it is dropped, or its page is visited. */
    method TakeNext(drop: bool) returns (entry: Entry)
      requires |queue| > 0 && queue[0].url in depth && Counted()
      modifies this
      ensures St() == (if drop then Drop(old(St())) else Visit(old(St()))) && Counted()
      ensures entry == old(queue)[0] && results == old(results)
      ensures extractedLinks == old(extractedLinks) && clickedLinks == old(clickedLinks)
    {
      CountTaken(queue, crawled, dropped, extractedLinks, clickedLinks);
      entry := queue[0];
      queue := queue[1..];
      level := depth[entry.url];
      if drop {
        dropped := dropped + [entry];
      } else {
        visited := visited + {entry.url};
        crawled := crawled + [entry];
        uniquePages := uniquePages + 1;
      }
    }

    /** One turn of the loop. The code's test for a URL visited before never fires. */
    method CrawlNext(site: Site)
      requires |queue| > 0 && queue[0].url in depth && queue[0].url !in visited && Counted() && results == crawled
      modifies this
      ensures St() == Next(site, old(St())) && Counted() && results == crawled
    {
      var drop := site.excluded(queue[0].url);
      var entry := TakeNext(drop);
      if !drop {
        Enqueue(entry.url, site.clicks(entry.url), Clicked);
        results := results + [entry];
        Enqueue(entry.url, site.links(entry.url), Extracted);
      }
    }

    /** It keeps the invariant, and either visits one page more or shortens the queue. */
    method Turn(site: Site)
      requires |queue| > 0 && Sound(site, baseUrl, St()) && Counted() && results == crawled
      modifies this
      ensures Sound(site, baseUrl, St()) && Counted() && results == crawled
      ensures (|visited| == old(|visited|) && |queue| < old(|queue|)) || |visited| == old(|visited|) + 1
    {
      NextSound(site, baseUrl, St());
      CrawlNext(site);
    }

    /** Only the base URL is queued. */
    method Begin()
      modifies this
      ensures St() == InitState(baseUrl) && Counted() && results == crawled
    {
      visited, results, queue := {}, [], [Entry(baseUrl, "", Initial)];
      uniquePages, extractedLinks, clickedLinks := 0, 0, 0;
      crawled, depth, level, dropped := [], map[baseUrl := 0], 0, [];
      CountSnoc([], queue[0], Extracted);
      CountSnoc([], queue[0], Clicked);
    }

    /** The crawl from the base URL. */
    method Start(site: Site)
      modifies this
      ensures Sound(site, baseUrl, St()) && Counted() && results == crawled
      ensures |results| <= if maxPages < 0 then 0 else maxPages
      ensures queue != [] ==> |results| >= maxPages
      ensures forall u :: u in visited ==> Reachable(site, baseUrl, u)
      ensures queue == [] ==> forall u :: Reachable(site, baseUrl, u) ==> u in visited
    {
      Begin();
      InitSound(site, baseUrl);
      while |queue| > 0 && |visited| < maxPages
        invariant Sound(site, baseUrl, St()) && Counted() && results == crawled
        invariant |visited| <= if maxPages < 0 then 0 else maxPages
        decreases maxPages - |visited|, |queue|
      {
        Turn(site);
      }
      SoundReaches(site, baseUrl, St());
    }
  }

  /** Reachable from the base through pages that are not excluded. */
  ghost predicate Reachable(site: Site, base: Url, u: Url) {
    exists walk :: IsWalk(site, base, walk) && walk[|walk| - 1] == u
  }

  /** What a page refers to is visited or excluded. */
  ghost predicate ClosedUnder(site: Site, base: Url, visited: set<Url>) {
    && (base in visited || site.excluded(base))
    && (forall u, v :: u in visited && RefersTo(site, u, v) ==> v in visited || site.excluded(v))
  }

  lemma AllDone(site: Site, base: Url, s: State)
    requires Good(site, base, s, {}) && s.queue == []
    ensures ClosedUnder(site, base, s.visited)
  {
  }

  /** When nothing is left to visit, every walk has been followed to its end. */
  lemma {:induction false} WalkDone(site: Site, base: Url, visited: set<Url>, walk: seq<Url>)
    requires ClosedUnder(site, base, visited) && IsWalk(site, base, walk)
    ensures walk[|walk| - 1] in visited
  {
    if |walk| > 1 {
      var front := walk[..|walk| - 1];
      WalkPrefix(site, base, walk);
      WalkDone(site, base, visited, front);
      assert RefersTo(site, walk[|walk| - 2], walk[|walk| - 1]);
    }
  }

  lemma WalkPrefix(site: Site, base: Url, walk: seq<Url>)
    requires IsWalk(site, base, walk) && |walk| > 1
    ensures IsWalk(site, base, walk[..|walk| - 1])
  {
    var front := walk[..|walk| - 1];
    forall i | 0 <= i < |front| - 1 ensures RefersTo(site, front[i], front[i + 1]) {
      assert RefersTo(site, walk[i], walk[i + 1]);
    }
  }

  lemma VisitedIsReachable(site: Site, base: Url, s: State, u: Url)
    requires Good(site, base, s, {}) && u in s.visited
    ensures Reachable(site, base, u)
  {
    var i :| 0 <= i < |s.results| && s.results[i].url == u;
    var walk := SourceChain(site, base, s.results, s.visited, s.depth, i);
  }

  /** A finished crawl has visited exactly what can be reached through pages that are not excluded. */
  lemma CrawlIsComplete(site: Site, base: Url, s: State)
    requires Good(site, base, s, {}) && s.queue == []
    ensures forall u :: u in s.visited <==> Reachable(site, base, u)
  {
    AllDone(site, base, s);
    forall u ensures u in s.visited <==> Reachable(site, base, u) {
      if u in s.visited { VisitedIsReachable(site, base, s, u); }
      if walk :| IsWalk(site, base, walk) && walk[|walk| - 1] == u { WalkDone(site, base, s.visited, walk); }
    }
  }
}
