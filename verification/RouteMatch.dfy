/** Matching a path against a compiled route with named parameters (`:x`, `[x]`) and a trailing
    catch-all (`[...x]`, optional as `[[...x]]`). */
module RouteMatch {
  import opened Options
  import opened Text
  import opened RoutePaths

  datatype CatchAll = CatchAll(name: string, optional: bool)

  /** What the matcher knows of a route. */
  datatype Route = Route(pattern: string, paramNames: seq<string>, catchAll: Option<CatchAll>)

  type Params = seq<(string, string)>

  predicate HasSuffix(s: string, suffix: string) {
    |suffix| <= |s| && s[|s| - |suffix|..] == suffix
  }

  predicate IsBracketParam(s: string) {
    StartsWith(s, "[") && HasSuffix(s, "]") && !StartsWith(s, "[...") && !StartsWith(s, "[[...")
  }

  /** The matcher takes the segment for a parameter. */
  predicate IsParam(s: string) {
    StartsWith(s, ":") || IsBracketParam(s)
  }

  /** The name the compiler extracts from a segment. */
  function ParamName(s: string): Option<string> {
    if StartsWith(s, ":") && |s| > 1 then Some(s[1..])
    else if StartsWith(s, "[") && !StartsWith(s, "[...") && !StartsWith(s, "[[...") && HasSuffix(s, "]") && |s| > 2
    then Some(s[1..|s| - 1])
    else None
  }

  function ParamNames(segs: seq<string>): seq<string> {
    if segs == [] then []
    else
      var before := ParamNames(segs[..|segs| - 1]);
      match ParamName(segs[|segs| - 1])
      case Some(name) => before + [name]
      case None => before
  }

  /** A parameter segment without a name: `:` or `[]`. */
  predicate Nameless(s: string) {
    IsParam(s) && ParamName(s).None?
  }

  lemma NamelessIs(s: string)
    ensures Nameless(s) <==> s == ":" || s == "[]"
    ensures ParamName(s).Some? ==> IsParam(s)
  {
    if StartsWith(s, ":") {
      assert s[0] == ':';
      if |s| == 1 { assert s == ":"; }
    } else if StartsWith(s, "[") && HasSuffix(s, "]") {
      assert s[0] == '[' && s[|s| - 1] == s[|s| - 1..][0] == ']';
      if |s| == 2 { assert s == "[]"; }
    }
  }

  function CatchAllOf(last: string): Option<CatchAll> {
    if StartsWith(last, "[[...") && HasSuffix(last, "]]") && |last| > 7 then Some(CatchAll(last[5..|last| - 2], true))
    else if StartsWith(last, "[...") && HasSuffix(last, "]") && |last| > 5
    then Some(CatchAll(last[4..|last| - 1], false))
    else None
  }

  /** `:n` and `[n]` are named `n`, unless the name is empty or the bracket begins a catch-all; no other
      segment has a name. A segment without a name is a parameter only as `:` or `[]`. */
  lemma ParamNameIs(s: string, n: string)
    ensures ParamName(s) == Some(n) <==>
            n != "" && (s == ":" + n || (s == "[" + n + "]" && !("[..." <= s) && !("[[..." <= s)))
    ensures IsParam(s) <==> ParamName(s).Some? || s == ":" || s == "[]"
  {
    NamelessIs(s);
    if StartsWith(s, ":") {
      assert s == ":" + s[1..];
    } else if StartsWith(s, "[") && HasSuffix(s, "]") && |s| >= 2 {
      assert s[|s| - 1] == s[|s| - 1..][0];
      assert s == "[" + s[1..|s| - 1] + "]";
    }
    if s == ":" + n { assert s[0] == ':' && s[1..] == n; }
    if s == "[" + n + "]" {
      assert s[0] == '[' && s[|s| - 1..] == "]" && s[1..|s| - 1] == n;
    }
  }

  /** `[[...n]]` is the optional catch-all named `n` and `[...n]` the required one, for a name that is not
      empty; no other segment is a catch-all. */
  lemma CatchAllIs(s: string, n: string)
    ensures CatchAllOf(s) == Some(CatchAll(n, true)) <==> n != "" && s == "[[..." + n + "]]"
    ensures CatchAllOf(s) == Some(CatchAll(n, false)) <==> n != "" && s == "[..." + n + "]"
  {
    if StartsWith(s, "[[...") && HasSuffix(s, "]]") && |s| > 7 {
      assert s[..5] == "[[..." && s[|s| - 2..] == "]]";
      assert s == "[[..." + s[5..|s| - 2] + "]]";
      assert s[1] == "[[..."[1] != "[..."[1];
    } else if StartsWith(s, "[...") && HasSuffix(s, "]") && |s| > 5 {
      assert s[..4] == "[..." && s[|s| - 1..] == "]";
      assert s == "[..." + s[4..|s| - 1] + "]";
      assert s[1] == "[..."[1] != "[[..."[1];
    }
    if s == "[[..." + n + "]]" { assert s[..5] == "[[..." && s[|s| - 2..] == "]]" && s[5..|s| - 2] == n; }
    if s == "[..." + n + "]" {
      assert s[..4] == "[..." && s[|s| - 1..] == "]" && s[4..|s| - 1] == n;
      assert s[1] == "[..."[1] != "[[..."[1];
    }
  }

  lemma ParamNamesOne(s: string)
    ensures ParamNames([s]) == (if ParamName(s).Some? then [ParamName(s).value] else [])
  {
    assert [s][..0] == [];
  }

  /** The names come in the order of their segments. */
  lemma {:induction false} ParamNamesConcat(a: seq<string>, b: seq<string>)
    ensures ParamNames(a + b) == ParamNames(a) + ParamNames(b)
  {
    if b == [] {
      assert a + b == a;
    } else {
      ParamNamesConcat(a, b[..|b| - 1]);
      assert (a + b)[..|a + b| - 1] == a + b[..|b| - 1];
    }
  }

  method ExtractParamNames(path: string) returns (result: seq<string>)
    ensures result == ParamNames(Segments(path))
  {
    var segments := SplitBy(path, SLASH);
    result := [];
    for i := 0 to |segments|
      invariant result == ParamNames(segments[..i])
    {
      assert segments[..i + 1][..i] == segments[..i];
      match ParamName(segments[i]) {
        case Some(name) => result := result + [name];
        case None =>
      }
    }
    assert segments[..|segments|] == segments;
    EmptyHasNoName(segments);
  }

  lemma {:induction false} EmptyHasNoName(parts: seq<string>)
    ensures ParamNames(NonEmpty(parts)) == ParamNames(parts)
  {
    if parts != [] {
      var front, last := parts[..|parts| - 1], parts[|parts| - 1];
      EmptyHasNoName(front);
      if last != "" {
        assert (NonEmpty(front) + [last])[..|NonEmpty(front)|] == NonEmpty(front);
      } else {
        assert ParamName(last).None?;
        assert NonEmpty(parts) == NonEmpty(front) + [] == NonEmpty(front);
        assert ParamNames(parts) == ParamNames(front);
      }
    }
  }

  function CatchAllIn(path: string): Option<CatchAll> {
    var parts := Split(path, SLASH);
    CatchAllOf(parts[|parts| - 1])
  }

  method ExtractCatchAll(path: string) returns (c: Option<CatchAll>)
    ensures c == CatchAllIn(path)
    ensures var last := Split(path, SLASH)[|Split(path, SLASH)| - 1];
            forall n: string ::
              && (c == Some(CatchAll(n, true)) <==> n != "" && last == "[[..." + n + "]]")
              && (c == Some(CatchAll(n, false)) <==> n != "" && last == "[..." + n + "]")
  {
    var segments := SplitBy(path, SLASH);
    var last := segments[|segments| - 1];
    c := CatchAllOf(last);
    forall n: string
      ensures c == Some(CatchAll(n, true)) <==> n != "" && last == "[[..." + n + "]]"
      ensures c == Some(CatchAll(n, false)) <==> n != "" && last == "[..." + n + "]"
    {
      CatchAllIs(last, n);
    }
  }

  /** What the compiler stores for a pattern. */
  function RouteFor(pattern: string): Route {
    Route(pattern, ParamNames(Segments(pattern)), CatchAllIn(pattern))
  }

  ghost predicate IsCompiled(route: Route) {
    route == RouteFor(route.pattern)
  }

  /** A catch-all is the last segment, and no named parameter. */
  lemma CatchAllIsLast(pattern: string)
    requires CatchAllIn(pattern).Some?
    ensures var segs := Segments(pattern);
            segs != [] && CatchAllIn(pattern) == CatchAllOf(segs[|segs| - 1]) && ParamName(segs[|segs| - 1]).None?
  {
    var parts := Split(pattern, SLASH);
    var front, last := parts[..|parts| - 1], parts[|parts| - 1];
    assert last != "";
    assert Segments(pattern) == NonEmpty(front) + [last];
    CatchAllHasNoName(last);
  }

  lemma CatchAllHasNoName(s: string)
    requires CatchAllOf(s).Some?
    ensures ParamName(s).None?
  {
    if StartsWith(s, "[[...") { assert s[0] == "[[..."[0]; } else { assert s[0] == "[..."[0]; }
  }

  /** The segments before the catch-all, or all of them. */
  function Base(route: Route): seq<string> {
    var segs := Segments(route.pattern);
    if route.catchAll.Some? && segs != [] then segs[..|segs| - 1] else segs
  }

  /** The path has the pattern's fixed segments in place, any segment for a parameter, and the right
      number of segments. */
  ghost predicate Instance(route: Route, segs: seq<string>) {
    var base := Base(route);
    && (match route.catchAll
        case None => |segs| == |base|
        case Some(c) => if c.optional then |segs| >= |base| else |segs| > |base|)
    && StaticsMatch(base, segs)
  }

  ghost predicate Matches(route: Route, segs: seq<string>) {
    Instance(route, segs) && AllNamed(Base(route))
  }

  ghost predicate StaticsMatch(base: seq<string>, segs: seq<string>) {
    |base| <= |segs| && forall i :: 0 <= i < |base| && !IsParam(base[i]) ==> base[i] == segs[i]
  }

  ghost predicate AllNamed(base: seq<string>) {
    forall i :: 0 <= i < |base| ==> !Nameless(base[i])
  }

  ghost function CountParams(base: seq<string>): nat {
    if base == [] then 0
    else CountParams(base[..|base| - 1]) + if IsParam(base[|base| - 1]) then 1 else 0
  }

  /** The parameters in order, with their names and the segments in their places. */
  ghost function Bindings(base: seq<string>, segs: seq<string>): Params
    requires |base| <= |segs| && AllNamed(base)
  {
    if base == [] then []
    else
      var k := |base| - 1;
      Bindings(base[..k], segs) +
      if IsParam(base[k]) then [(ParamName(base[k]).value, segs[k])] else []
  }

  lemma {:induction false} NamesCount(base: seq<string>)
    ensures |ParamNames(base)| <= CountParams(base)
    ensures |ParamNames(base)| == CountParams(base) <==> AllNamed(base)
  {
    if base != [] {
      var front, last := base[..|base| - 1], base[|base| - 1];
      NamesCount(front);
      NamelessIs(last);
      assert base == front + [last];
      assert AllNamed(base) <==> AllNamed(front) && !Nameless(last);
    }
  }

  lemma {:induction false} PrefixCounts(base: seq<string>, i: nat)
    requires i <= |base|
    ensures ParamNames(base[..i]) <= ParamNames(base)
    ensures CountParams(base[..i]) <= CountParams(base)
  {
    if i == |base| {
      assert base[..i] == base;
    } else {
      var front := base[..|base| - 1];
      PrefixCounts(front, i);
      assert front[..i] == base[..i];
    }
  }

  /** The state of the matching loop before the `i`-th segment. */
  ghost predicate MatchInv(base: seq<string>, segs: seq<string>, i: nat, params: Params)
    requires i <= |base| <= |segs|
  {
    && StaticsMatch(base[..i], segs)
    && |params| == CountParams(base[..i]) <= |ParamNames(base)|
    && (AllNamed(base[..i]) ==> params == Bindings(base[..i], segs))
  }

  lemma PrefixSnoc(base: seq<string>, i: nat)
    requires i < |base|
    ensures base[..i + 1] == base[..i] + [base[i]] && base[..i + 1][..i] == base[..i]
    ensures AllNamed(base[..i + 1]) <==> AllNamed(base[..i]) && !Nameless(base[i])
    ensures CountParams(base[..i + 1]) == CountParams(base[..i]) + if IsParam(base[i]) then 1 else 0
  {
  }

  lemma BindStep(base: seq<string>, segs: seq<string>, i: nat, params: Params)
    requires i < |base| <= |segs| && MatchInv(base, segs, i, params)
    requires IsParam(base[i]) && |params| < |ParamNames(base)|
    ensures MatchInv(base, segs, i + 1, params + [(ParamNames(base)[|params|], segs[i])])
  {
    PrefixSnoc(base, i);
    PrefixCounts(base, i + 1);
    NamesCount(base[..i]);
    NamesCount(base[..i + 1]);
  }

  lemma StaticStep(base: seq<string>, segs: seq<string>, i: nat, params: Params)
    requires i < |base| <= |segs| && MatchInv(base, segs, i, params)
    requires !IsParam(base[i]) && base[i] == segs[i]
    ensures MatchInv(base, segs, i + 1, params)
  {
    PrefixSnoc(base, i);
    if AllNamed(base[..i + 1]) {
      assert Bindings(base[..i + 1], segs) == Bindings(base[..i], segs) + [];
    }
  }

  lemma OutOfNames(base: seq<string>, segs: seq<string>, i: nat, params: Params)
    requires i < |base| <= |segs| && MatchInv(base, segs, i, params)
    requires IsParam(base[i]) && |params| == |ParamNames(base)|
    ensures !AllNamed(base)
  {
    PrefixSnoc(base, i);
    PrefixCounts(base, i + 1);
    NamesCount(base);
  }

  /** The loop over the segments of the base. */
  method MatchBase(base: seq<string>, segs: seq<string>, names: seq<string>) returns (r: Option<Params>)
    requires |base| <= |segs| && names == ParamNames(base)
    ensures r.Some? <==> StaticsMatch(base, segs) && AllNamed(base)
    ensures r.Some? ==> r.value == Bindings(base, segs)
  {
    var params: Params, paramIdx := [], 0;
    for i := 0 to |base|
      invariant MatchInv(base, segs, i, params) && paramIdx == |params|
    {
      if IsParam(base[i]) {
        if paramIdx < |names| {
          BindStep(base, segs, i, params);
          params := params + [(names[paramIdx], segs[i])];
          paramIdx := paramIdx + 1;
        } else {
          OutOfNames(base, segs, i, params);
          return None;
        }
      } else if base[i] != segs[i] {
        return None;
      } else {
        StaticStep(base, segs, i, params);
      }
    }
    assert base[..|base|] == base;
    NamesCount(base);
    r := Some(params);
  }

  /** A parameter at place `i` of the base is bound to the segment at place `i`, under its own name, after
      those for the parameters before it. */
  lemma {:induction false} BoundAt(base: seq<string>, segs: seq<string>, i: nat)
    requires i < |base| <= |segs| && AllNamed(base) && IsParam(base[i])
    ensures CountParams(base[..i]) < |Bindings(base, segs)| == CountParams(base)
    ensures Bindings(base, segs)[CountParams(base[..i])] == (ParamName(base[i]).value, segs[i])
  {
    var front := base[..|base| - 1];
    BoundCount(front, segs);
    BoundCount(base, segs);
    if i < |front| {
      BoundAt(front, segs, i);
      assert front[..i] == base[..i];
    }
  }

  lemma {:induction false} BoundCount(base: seq<string>, segs: seq<string>)
    requires |base| <= |segs| && AllNamed(base)
    ensures |Bindings(base, segs)| == CountParams(base)
  {
    if base != [] { BoundCount(base[..|base| - 1], segs); }
  }

  /** The catch-all takes the remaining segments, joined by single slashes. */
  lemma CatchAllTakesRest(base: seq<string>, c: CatchAll, segs: seq<string>)
    requires |base| < |segs| && AllNamed(base) && Proper(segs)
    ensures var params := MatchResult(base, Some(c), segs);
            && params != [] && params[|params| - 1].0 == c.name
            && Split(params[|params| - 1].1, SLASH) == segs[|base|..]
  {
    SplitJoin(segs[|base|..], SLASH);
  }

  /** A pattern that ends in `[...n]` matches the paths with one segment more than its base, or with further
      ones: never its bare base. */
  lemma RequiredCatchAll(base: string, n: string, segs: seq<string>)
    requires n != "" && Free(n, SLASH)
    ensures var route, front := RouteFor(base + "/" + ("[..." + n + "]")), Segments(base);
            && Base(route) == front && route.catchAll == Some(CatchAll(n, false))
            && (Matches(route, segs) <==> |front| < |segs| && AllNamed(front) && StaticsMatch(front, segs))
  {
    LastSegment(base, "[..." + n + "]");
    CatchAllIs("[..." + n + "]", n);
  }

  /** A pattern that ends in `[[...n]]` matches its bare base too, and then gives `n` the empty value. */
  lemma OptionalCatchAll(base: string, n: string, segs: seq<string>)
    requires n != "" && Free(n, SLASH)
    ensures var route, front := RouteFor(base + "/" + ("[[..." + n + "]]")), Segments(base);
            && Base(route) == front && route.catchAll == Some(CatchAll(n, true))
            && (Matches(route, segs) <==> |front| <= |segs| && AllNamed(front) && StaticsMatch(front, segs))
            && (Matches(route, segs) && |segs| == |front| ==>
                  MatchResult(front, route.catchAll, segs) == Bindings(front, segs) + [(n, "")])
  {
    LastSegment(base, "[[..." + n + "]]");
    CatchAllIs("[[..." + n + "]]", n);
  }

  lemma LastSegment(base: string, last: string)
    requires last != "" && Free(last, SLASH)
    ensures Segments(base + "/" + last) == Segments(base) + [last]
    ensures CatchAllIn(base + "/" + last) == CatchAllOf(last)
  {
    SegmentsAtSlash(base, last);
    SplitAtSeparator(base, last, SLASH);
    SplitFree(last, SLASH);
    assert [last][..0] == [];
    assert NonEmpty([last]) == [last];
  }

  /** What a pattern ending in a catch-all does with a path that has just the segments of its base: nothing
      if it is required; if it is optional and the base has no parameters, it gives `n` the empty value. */
  ghost predicate BareRules(pattern: string, segs: seq<string>, r: Option<Params>) {
    && (forall base: string, n: string :: n != "" && Free(n, SLASH) && segs == Segments(base) ==>
          pattern == base + "/" + ("[..." + n + "]") ==> r.None?)
    && (NoneParameter(segs) ==>
          forall base: string, n: string :: n != "" && Free(n, SLASH) && segs == Segments(base) ==>
            pattern == base + "/" + ("[[..." + n + "]]") ==> r == Some([(n, "")]))
  }

  predicate NoneParameter(segs: seq<string>) {
    forall s :: s in segs ==> s != "" && s[0] != ':' && s[0] != '['
  }

  lemma RequiredNeverBare(base: string, n: string)
    requires n != "" && Free(n, SLASH)
    ensures !Matches(RouteFor(base + "/" + ("[..." + n + "]")), Segments(base))
  {
    RequiredCatchAll(base, n, Segments(base));
  }

  lemma OptionalBare(base: string, n: string)
    requires n != "" && Free(n, SLASH) && NoneParameter(Segments(base))
    ensures var route, segs := RouteFor(base + "/" + ("[[..." + n + "]]")), Segments(base);
            Matches(route, segs) && MatchResult(Base(route), route.catchAll, segs) == [(n, "")]
  {
    NoParams(Segments(base), Segments(base));
    OptionalCatchAll(base, n, Segments(base));
  }

  lemma BareRulesHold(pattern: string, segs: seq<string>)
    ensures var route := RouteFor(pattern);
            BareRules(pattern, segs,
                      if Matches(route, segs) then Some(MatchResult(Base(route), route.catchAll, segs)) else None)
  {
    var route := RouteFor(pattern);
    var r := if Matches(route, segs) then Some(MatchResult(Base(route), route.catchAll, segs)) else None;
    forall base: string, n: string | n != "" && Free(n, SLASH) && segs == Segments(base)
      ensures pattern == base + "/" + ("[..." + n + "]") ==> r.None?
    {
      RequiredNeverBare(base, n);
    }
    if NoneParameter(segs) {
      forall base: string, n: string | n != "" && Free(n, SLASH) && segs == Segments(base)
        ensures pattern == base + "/" + ("[[..." + n + "]]") ==> r == Some([(n, "")])
      {
        OptionalBare(base, n);
      }
    }
  }

  lemma {:induction false} NoParams(front: seq<string>, segs: seq<string>)
    requires front <= segs && NoneParameter(front)
    ensures AllNamed(front) && Bindings(front, segs) == []
  {
    if front != [] {
      var before := front[..|front| - 1];
      assert forall s :: s in before ==> s in front;
      NoParams(before, segs);
      assert front[|front| - 1] in front;
    }
  }

  /** `try_match_pattern` on a compiled route succeeds exactly for the instances of a pattern without
      nameless parameters, and binds each parameter to its segment and the catch-all to the rest. */
  method TryMatch(path: string, route: Route) returns (r: Option<Params>)
    requires IsCompiled(route)
    ensures r.Some? <==> Matches(route, Segments(path))
    ensures r.Some? ==> r.value == MatchResult(Base(route), route.catchAll, Segments(path))
    ensures BareRules(route.pattern, Segments(path), r)
  {
    BareRulesHold(route.pattern, Segments(path));
    var patternSegs := SplitPathSegments(route.pattern);
    var segs := SplitPathSegments(path);
    match route.catchAll {
      case None =>
        if |patternSegs| != |segs| {
          return None;
        }
        r := MatchBase(patternSegs, segs, route.paramNames);
      case Some(c) =>
        CatchAllIsLast(route.pattern);
        var baseLen := |patternSegs| - 1;
        if c.optional {
          if |segs| < baseLen { return None; }
        } else {
          if |segs| <= baseLen { return None; }
        }
        var base := MatchBase(patternSegs[..baseLen], segs, route.paramNames);
        if base.None? {
          return None;
        }
        var catchAllValue := JoinSegments(segs[baseLen..]);
        r := Some(base.value + [(c.name, catchAllValue)]);
    }
  }

  /** Puts values back in the places of the parameters. */
  ghost function Fill(base: seq<string>, params: Params): seq<string>
    requires |params| == CountParams(base)
  {
    if base == [] then []
    else if IsParam(base[|base| - 1]) then
      Fill(base[..|base| - 1], params[..|params| - 1]) + [params[|params| - 1].1]
    else Fill(base[..|base| - 1], params) + [base[|base| - 1]]
  }

  lemma {:induction false} FillBindings(base: seq<string>, segs: seq<string>)
    requires StaticsMatch(base, segs) && AllNamed(base)
    ensures |Bindings(base, segs)| == CountParams(base)
    ensures Fill(base, Bindings(base, segs)) == segs[..|base|]
  {
    if base != [] {
      var k := |base| - 1;
      var front, b := base[..k], Bindings(base[..k], segs);
      FillBindings(front, segs);
      if IsParam(base[k]) {
        var p := (ParamName(base[k]).value, segs[k]);
        assert (b + [p])[..|b|] == b;
      } else {
        assert Bindings(base, segs) == b + [] == b;
      }
    }
  }

  /** The pattern with its parameters replaced; the value of the catch-all is split again. */
  ghost function Substitute(base: seq<string>, catchAll: Option<CatchAll>, params: Params): seq<string>
    requires |params| == CountParams(base) + if catchAll.Some? then 1 else 0
  {
    if catchAll.None? then Fill(base, params)
    else Fill(base, params[..|params| - 1]) + Segments(params[|params| - 1].1)
  }

  /** What a successful match returns. */
  ghost function MatchResult(base: seq<string>, catchAll: Option<CatchAll>, segs: seq<string>): Params
    requires |base| <= |segs| && AllNamed(base)
  {
    Bindings(base, segs) + if catchAll.None? then [] else [(catchAll.value.name, Join(segs[|base|..], SLASH))]
  }

  /** Substituting the returned parameters into the pattern gives back the path's segments. */
  lemma MatchRoundTrip(route: Route, path: string)
    requires Matches(route, Segments(path))
    ensures var base, segs := Base(route), Segments(path);
            && |MatchResult(base, route.catchAll, segs)| == CountParams(base) + (if route.catchAll.Some? then 1 else 0)
            && Substitute(base, route.catchAll, MatchResult(base, route.catchAll, segs)) == segs
  {
    SegmentsProper(path);
    SubstituteBack(Base(route), route.catchAll, Segments(path));
  }

  lemma SubstituteBack(base: seq<string>, catchAll: Option<CatchAll>, segs: seq<string>)
    requires StaticsMatch(base, segs) && AllNamed(base) && Proper(segs)
    requires catchAll.None? ==> |segs| == |base|
    ensures var params := MatchResult(base, catchAll, segs);
            && |params| == CountParams(base) + (if catchAll.Some? then 1 else 0)
            && Substitute(base, catchAll, params) == segs
  {
    FillBindings(base, segs);
    var b, rest := Bindings(base, segs), segs[|base|..];
    assert segs[..|base|] + rest == segs;
    if catchAll.None? {
      assert b + [] == b;
    } else {
      SegmentsOfJoin(rest);
      assert (b + [(catchAll.value.name, Join(rest, SLASH))])[..|b|] == b;
    }
  }

  /** The parameters carry the names of the pattern. */
  ghost predicate NamedFor(base: seq<string>, params: Params) {
    |params| == CountParams(base) == |ParamNames(base)| &&
    forall i :: 0 <= i < |params| ==> params[i].0 == ParamNames(base)[i]
  }

  /** Filling in yields an instance, and matching it binds exactly what was filled in. */
  ghost predicate FillsBack(base: seq<string>, params: Params, rest: seq<string>)
    requires AllNamed(base) && |params| == CountParams(base)
  {
    |Fill(base, params)| == |base| &&
    var segs := Fill(base, params) + rest;
    StaticsMatch(base, segs) && Bindings(base, segs) == params
  }

  lemma FillParam(front: seq<string>, last: string, before: Params, p: (string, string), rest: seq<string>)
    requires AllNamed(front) && |before| == CountParams(front) && FillsBack(front, before, [p.1] + rest)
    requires IsParam(last) && ParamName(last) == Some(p.0)
    requires AllNamed(front + [last]) && |before + [p]| == CountParams(front + [last])
    ensures FillsBack(front + [last], before + [p], rest)
  {
    var base, params := front + [last], before + [p];
    assert base[..|front|] == front && params[..|before|] == before;
    assert Fill(base, params) == Fill(front, before) + [p.1];
    assert Fill(base, params) + rest == Fill(front, before) + ([p.1] + rest);
  }

  lemma FillStatic(front: seq<string>, last: string, params: Params, rest: seq<string>)
    requires AllNamed(front) && |params| == CountParams(front) && FillsBack(front, params, [last] + rest)
    requires !IsParam(last) && AllNamed(front + [last]) && |params| == CountParams(front + [last])
    ensures FillsBack(front + [last], params, rest)
  {
    var base := front + [last];
    assert base[..|front|] == front;
    assert Fill(base, params) == Fill(front, params) + [last];
    assert Fill(base, params) + rest == Fill(front, params) + ([last] + rest);
    assert Bindings(base, Fill(base, params) + rest) == params + [] == params;
  }

  /** The other way round: any values whatever, filled in, yield an instance whose match returns
      them. */
  lemma {:induction false} BindingsOfFill(base: seq<string>, params: Params, rest: seq<string>)
    requires AllNamed(base) && NamedFor(base, params)
    ensures FillsBack(base, params, rest)
  {
    if base != [] {
      var front, last := base[..|base| - 1], base[|base| - 1];
      assert base == front + [last];
      NamesCount(front);
      NamelessIs(last);
      assert !Nameless(last);
      if IsParam(last) {
        var before, p := params[..|params| - 1], params[|params| - 1];
        assert params == before + [p];
        assert ParamNames(base) == ParamNames(front) + [ParamName(last).value];
        BindingsOfFill(front, before, [p.1] + rest);
        FillParam(front, last, before, p, rest);
      } else {
        BindingsOfFill(front, params, [last] + rest);
        FillStatic(front, last, params, rest);
      }
    }
  }

  /** The part of a URL before the first question mark. */
  function PathPart(url: string): string {
    if url == "" || url[0] == '?' then "" else [url[0]] + PathPart(url[1..])
  }

  lemma PathPartNext(url: string, i: nat)
    requires i < |url| && url[i] != '?'
    ensures url[..i] + PathPart(url[i..]) == url[..i + 1] + PathPart(url[i + 1..])
  {
    assert url[i..][1..] == url[i + 1..];
    assert url[..i + 1] == url[..i] + [url[i]];
  }

  lemma PathPartEnds(url: string, i: nat)
    requires i <= |url| && (i == |url| || url[i] == '?')
    ensures url[..i] + PathPart(url[i..]) == url[..i]
  {
    assert PathPart(url[i..]) == "";
  }

  method ParsePath(url: string) returns (path: string)
    ensures path == PathPart(url)
    ensures path <= url && '?' !in path && (path == url || url[|path|] == '?')
  {
    var i := 0;
    assert url[..0] + PathPart(url[0..]) == PathPart(url) by { assert url[0..] == url; }
    while i < |url| && url[i] != '?'
      invariant i <= |url| && PathPart(url) == url[..i] + PathPart(url[i..]) && '?' !in url[..i]
    {
      PathPartNext(url, i);
      i := i + 1;
    }
    PathPartEnds(url, i);
    path := url[..i];
  }

  /** The first route in order that matches, with what its match returns. */
  ghost predicate FirstMatch(routes: seq<Route>, segs: seq<string>, r: Option<(nat, Params)>) {
    match r
    case None => forall k :: 0 <= k < |routes| ==> !Matches(routes[k], segs)
    case Some((i, params)) =>
      && i < |routes| && Matches(routes[i], segs) && params == MatchResult(Base(routes[i]), routes[i].catchAll, segs)
      && forall k :: 0 <= k < i ==> !Matches(routes[k], segs)
  }

  /** `match_url` */
  method MatchUrl(url: string, routes: seq<Route>) returns (r: Option<(nat, Params)>)
    requires forall k :: 0 <= k < |routes| ==> IsCompiled(routes[k])
    ensures FirstMatch(routes, Segments(PathPart(url)), r)
  {
    var path := ParsePath(url);
    ghost var segs := Segments(path);
    for k := 0 to |routes|
      invariant forall j :: 0 <= j < k ==> !Matches(routes[j], segs)
    {
      var m := TryMatch(path, routes[k]);
      if m.Some? {
        return Some((k, m.value));
      }
      forall j | 0 <= j < k + 1 ensures !Matches(routes[j], segs) {
        if j == k { assert !Matches(routes[k], segs); }
      }
    }
    r := None;
  }
}
