/** Deriving utility classes from CSS rules (experiments/css-factorize): declarations that occur
    together in several rules become one class, found by a greedy pass over the declarations in
    order of falling frequency. */
module Factorize {

  type Selector = string
  type Decl = string

  /** A rule's selector and its declarations. */
  datatype Rule = Rule(selector: Selector, decls: seq<Decl>)

  /** The inverted index, a Map in insertion order. */
  datatype Index = Index(order: seq<Decl>, at: map<Decl, seq<Selector>>)

  datatype Pattern = Pattern(decls: set<Decl>, selectors: seq<Selector>)

  ghost predicate Distinct<T>(s: seq<T>) {
    forall i, j :: 0 <= i < j < |s| ==> s[i] != s[j]
  }

  /** Parsed rules are a Map from selectors to Sets of declarations. */
  ghost predicate RulesOk(rules: seq<Rule>) {
    && (forall i, j :: 0 <= i < j < |rules| ==> rules[i].selector != rules[j].selector)
    && (forall i :: 0 <= i < |rules| ==> Distinct(rules[i].decls))
  }

  /** `rules.get(sel).has(d)` */
  predicate Has(rules: seq<Rule>, sel: Selector, d: Decl) {
    exists i :: 0 <= i < |rules| && rules[i].selector == sel && d in rules[i].decls
  }

  /** The selectors a declaration occurs in, in the order of the rules. */
  ghost function Users(rules: seq<Rule>, d: Decl): seq<Selector> {
    if rules == [] then []
    else Users(rules[..|rules| - 1], d) +
         if d in rules[|rules| - 1].decls then [rules[|rules| - 1].selector] else []
  }

  ghost predicate Occurs(rules: seq<Rule>, d: Decl) {
    exists i :: 0 <= i < |rules| && d in rules[i].decls
  }

  ghost function UserSet(rules: seq<Rule>, d: Decl): set<Selector> {
    Elements(Users(rules, d))
  }

  /** Two declarations occur in the same set of selectors. */
  ghost predicate Together(rules: seq<Rule>, d: Decl, e: Decl) {
    UserSet(rules, d) == UserSet(rules, e)
  }

  lemma {:induction false} UsersAre(rules: seq<Rule>, d: Decl)
    requires RulesOk(rules)
    ensures forall sel :: sel in Users(rules, d) <==> Has(rules, sel, d)
    ensures Distinct(Users(rules, d))
  {
    if rules != [] {
      var front, last := rules[..|rules| - 1], rules[|rules| - 1];
      UsersAre(front, d);
      forall sel ensures Has(rules, sel, d) <==> Has(front, sel, d) || (sel == last.selector && d in last.decls) {
        if Has(front, sel, d) {
          var i :| 0 <= i < |front| && front[i].selector == sel && d in front[i].decls;
          assert rules[i].selector == sel && d in rules[i].decls;
        }
      }
      assert !Has(front, last.selector, d);
    }
  }

  /** The users come in the order of the rules. */
  lemma {:induction false} UsersInOrder(rules: seq<Rule>, d: Decl, i: nat, j: nat)
    requires i < j < |Users(rules, d)|
    ensures exists a, b :: 0 <= a < b < |rules| && rules[a].selector == Users(rules, d)[i] &&
                           rules[b].selector == Users(rules, d)[j]
  {
    var front, last := rules[..|rules| - 1], rules[|rules| - 1];
    if j < |Users(front, d)| {
      UsersInOrder(front, d, i, j);
      var a, b :| 0 <= a < b < |front| && front[a].selector == Users(front, d)[i] &&
                  front[b].selector == Users(front, d)[j];
      assert rules[a].selector == Users(rules, d)[i] && rules[b].selector == Users(rules, d)[j];
    } else {
      var a := UserIsRule(front, d, i);
      assert rules[a].selector == Users(rules, d)[i] && rules[|rules| - 1].selector == Users(rules, d)[j];
    }
  }

  lemma {:induction false} UserIsRule(rules: seq<Rule>, d: Decl, i: nat) returns (a: nat)
    requires i < |Users(rules, d)|
    ensures a < |rules| && rules[a].selector == Users(rules, d)[i]
  {
    var front := rules[..|rules| - 1];
    if i < |Users(front, d)| { a := UserIsRule(front, d, i); } else { a := |rules| - 1; }
  }

  lemma OccursHasUsers(rules: seq<Rule>, d: Decl)
    requires RulesOk(rules)
    ensures Occurs(rules, d) <==> Users(rules, d) != []
  {
    UsersAre(rules, d);
    if Occurs(rules, d) {
      var i :| 0 <= i < |rules| && d in rules[i].decls;
      assert Has(rules, rules[i].selector, d);
    }
    if Users(rules, d) != [] {
      assert Has(rules, Users(rules, d)[0], d);
    }
  }

  function Elements<T>(s: seq<T>): set<T> {
    set x | x in s
  }

  lemma {:induction false} DistinctCount<T>(s: seq<T>)
    requires Distinct(s)
    ensures |Elements(s)| == |s|
  {
    if s != [] {
      DistinctCount(s[1..]);
      assert Elements(s) == {s[0]} + Elements(s[1..]);
    }
  }

  lemma SubsetSameSize<T>(a: set<T>, b: set<T>)
    requires a <= b && |b| <= |a|
    ensures a == b
  {
    assert |b - a| == |b| - |a|;
  }

  lemma UserCount(rules: seq<Rule>, d: Decl)
    requires RulesOk(rules)
    ensures |UserSet(rules, d)| == |Users(rules, d)|
    ensures forall sel :: sel in UserSet(rules, d) <==> Has(rules, sel, d)
  {
    UsersAre(rules, d);
    DistinctCount(Users(rules, d));
  }

  /** If `e` occurs wherever `d` does and is not more frequent, they occur together. */
  lemma NotMoreFrequent(rules: seq<Rule>, d: Decl, e: Decl)
    requires RulesOk(rules)
    requires UserSet(rules, d) <= UserSet(rules, e) && |Users(rules, e)| <= |Users(rules, d)|
    ensures Together(rules, d, e)
  {
    UserCount(rules, d);
    UserCount(rules, e);
    SubsetSameSize(UserSet(rules, d), UserSet(rules, e));
  }

  /** All declarations, one rule after the other. */
  ghost function Flat(rules: seq<Rule>): seq<Decl> {
    if rules == [] then [] else Flat(rules[..|rules| - 1]) + rules[|rules| - 1].decls
  }

  /** Where `d` first occurs, `e` has not occurred yet. */
  ghost predicate Sooner(flat: seq<Decl>, d: Decl, e: Decl) {
    exists n :: 0 <= n < |flat| && flat[n] == d && e !in flat[..n + 1]
  }

  /** The declarations in the order in which they first occur. */
  ghost predicate ByFirstUse(order: seq<Decl>, flat: seq<Decl>) {
    && (forall d :: d in order <==> d in flat)
    && (forall i, j :: 0 <= i < j < |order| ==> Sooner(flat, order[i], order[j]))
  }

  lemma FirstUseNext(order: seq<Decl>, flat: seq<Decl>, d: Decl)
    requires ByFirstUse(order, flat)
    ensures ByFirstUse(if d in order then order else order + [d], flat + [d])
  {
    var next, flat' := if d in order then order else order + [d], flat + [d];
    forall i, j | 0 <= i < j < |next| ensures Sooner(flat', next[i], next[j]) {
      if j < |order| {
        assert Sooner(flat, order[i], order[j]);
        var n :| 0 <= n < |flat| && flat[n] == order[i] && order[j] !in flat[..n + 1];
        assert flat'[..n + 1] == flat[..n + 1] && flat'[n] == next[i];
      } else {
        assert order[i] in flat;
        var n :| 0 <= n < |flat| && flat[n] == order[i];
        assert flat'[..n + 1] == flat[..n + 1] && flat'[n] == next[i];
      }
    }
  }

  /** The index lists every declaration once, with the selectors it occurs in. */
  ghost predicate Indexes(index: Index, rules: seq<Rule>) {
    && Distinct(index.order)
    && (forall d :: d in index.order <==> d in index.at)
    && (forall d :: d in index.at <==> Users(rules, d) != [])
    && (forall d :: d in index.at ==> index.at[d] == Users(rules, d))
  }

  /** The index in the middle of a rule, when only the declarations `seen` of it were entered. */
  ghost predicate IndexesPartly(index: Index, rules: seq<Rule>, sel: Selector, seen: seq<Decl>) {
    && Distinct(index.order)
    && (forall d :: d in index.order <==> d in index.at)
    && (forall d :: d in index.at <==> Users(rules, d) != [] || d in seen)
    && (forall d :: d in index.at ==> index.at[d] == Users(rules, d) + if d in seen then [sel] else [])
  }

  /** `declToSelectors.get(d).push(sel)`, the entry created if missing. */
  function Enter(index: Index, d: Decl, sel: Selector): Index {
    if d in index.at then index.(at := index.at[d := index.at[d] + [sel]])
    else Index(index.order + [d], index.at[d := [sel]])
  }

  lemma EnterAdds(index: Index, rules: seq<Rule>, sel: Selector, seen: seq<Decl>, d: Decl)
    requires IndexesPartly(index, rules, sel, seen) && d !in seen
    ensures IndexesPartly(Enter(index, d, sel), rules, sel, seen + [d])
  {
    var next := Enter(index, d, sel);
    forall e | e in next.at ensures next.at[e] == Users(rules, e) + if e in seen + [d] then [sel] else [] {
      if e == d && d !in index.at {
        assert Users(rules, d) == [];
      }
    }
  }

  lemma RuleEntered(index: Index, rules: seq<Rule>)
    requires |rules| > 0
    requires IndexesPartly(index, rules[..|rules| - 1], rules[|rules| - 1].selector, rules[|rules| - 1].decls)
    ensures Indexes(index, rules)
  {
    var front, last := rules[..|rules| - 1], rules[|rules| - 1];
    forall d ensures Users(rules, d) == Users(front, d) + if d in last.decls then [last.selector] else [] {}
  }

  /** The same, with the order of first use. */
  ghost predicate EnteredPartly(index: Index, before: seq<Rule>, sel: Selector, seen: seq<Decl>) {
    IndexesPartly(index, before, sel, seen) && ByFirstUse(index.order, Flat(before) + seen)
  }

  lemma OrderEntered(index: Index, rules: seq<Rule>, sel: Selector, seen: seq<Decl>, d: Decl, flat: seq<Decl>)
    requires IndexesPartly(index, rules, sel, seen) && ByFirstUse(index.order, flat)
    ensures ByFirstUse(Enter(index, d, sel).order, flat + [d])
  {
    FirstUseNext(index.order, flat, d);
    assert d in index.order <==> d in index.at;
  }

  lemma DeclEntered(index: Index, before: seq<Rule>, sel: Selector, seen: seq<Decl>, d: Decl)
    requires EnteredPartly(index, before, sel, seen) && d !in seen
    ensures EnteredPartly(Enter(index, d, sel), before, sel, seen + [d])
  {
    var flat := Flat(before) + seen;
    EnterAdds(index, before, sel, seen, d);
    OrderEntered(index, before, sel, seen, d, flat);
    assert Flat(before) + (seen + [d]) == flat + [d];
  }

  method EnterRule(index: Index, ghost before: seq<Rule>, rule: Rule) returns (index': Index)
    requires Indexes(index, before) && Distinct(rule.decls) && ByFirstUse(index.order, Flat(before))
    ensures EnteredPartly(index', before, rule.selector, rule.decls)
  {
    index' := index;
    assert Flat(before) + [] == Flat(before);
    for k := 0 to |rule.decls|
      invariant EnteredPartly(index', before, rule.selector, rule.decls[..k])
    {
      DeclEntered(index', before, rule.selector, rule.decls[..k], rule.decls[k]);
      index' := Enter(index', rule.decls[k], rule.selector);
      assert rule.decls[..k + 1] == rule.decls[..k] + [rule.decls[k]];
    }
    assert rule.decls[..|rule.decls|] == rule.decls;
  }

  /** Builds the inverted index. */
  method BuildIndex(rules: seq<Rule>) returns (index: Index)
    requires RulesOk(rules)
    ensures Indexes(index, rules) && ByFirstUse(index.order, Flat(rules))
  {
    index := Index([], map[]);
    for i := 0 to |rules|
      invariant Indexes(index, rules[..i]) && ByFirstUse(index.order, Flat(rules[..i]))
    {
      index := EnterRule(index, rules[..i], rules[i]);
      assert rules[..i + 1][..i] == rules[..i];
      RuleEntered(index, rules[..i + 1]);
    }
    assert rules[..|rules|] == rules;
  }

  /** Stable insertion by falling frequency. */
  function InsertByFrequency(d: Decl, sorted: seq<Decl>, at: map<Decl, seq<Selector>>): (r: seq<Decl>)
    requires d in at && forall e :: e in sorted ==> e in at
    ensures multiset(r) == multiset(sorted) + multiset{d}
  {
    if sorted != [] && |at[sorted[|sorted| - 1]]| < |at[d]| then
      assert sorted == sorted[..|sorted| - 1] + [sorted[|sorted| - 1]];
      InsertByFrequency(d, sorted[..|sorted| - 1], at) + [sorted[|sorted| - 1]]
    else sorted + [d]
  }

  /** The built-in sort with the comparison `b[1].length - a[1].length`. */
  function SortByFrequency(order: seq<Decl>, at: map<Decl, seq<Selector>>): (r: seq<Decl>)
    requires forall e :: e in order ==> e in at
    ensures multiset(r) == multiset(order)
  {
    if order == [] then []
    else
      assert order == order[..|order| - 1] + [order[|order| - 1]];
      var before := SortByFrequency(order[..|order| - 1], at);
      assert forall e :: e in before ==> e in multiset(before);
      InsertByFrequency(order[|order| - 1], before, at)
  }

  ghost predicate Falling(s: seq<Decl>, at: map<Decl, seq<Selector>>)
    requires forall e :: e in s ==> e in at
  {
    forall i, j :: 0 <= i < j < |s| ==> |at[s[i]]| >= |at[s[j]]|
  }

  lemma {:induction false} InsertKeepsFalling(d: Decl, sorted: seq<Decl>, at: map<Decl, seq<Selector>>)
    requires d in at && (forall e :: e in sorted ==> e in at) && Falling(sorted, at)
    ensures forall e :: e in InsertByFrequency(d, sorted, at) ==> e == d || e in sorted
    ensures Falling(InsertByFrequency(d, sorted, at), at)
  {
    if sorted != [] && |at[sorted[|sorted| - 1]]| < |at[d]| {
      var front, last := sorted[..|sorted| - 1], sorted[|sorted| - 1];
      InsertKeepsFalling(d, front, at);
      var r := InsertByFrequency(d, front, at);
      assert InsertByFrequency(d, sorted, at) == r + [last];
      forall e | e in r ensures |at[e]| >= |at[last]| {}
    }
  }

  lemma {:induction false} SortIsFalling(order: seq<Decl>, at: map<Decl, seq<Selector>>)
    requires forall e :: e in order ==> e in at
    ensures forall e :: e in SortByFrequency(order, at) <==> e in order
    ensures Falling(SortByFrequency(order, at), at)
  {
    var r := SortByFrequency(order, at);
    assert forall e :: e in r <==> e in multiset(r);
    if order != [] {
      var front, last := order[..|order| - 1], order[|order| - 1];
      SortIsFalling(front, at);
      InsertKeepsFalling(last, SortByFrequency(front, at), at);
    }
  }

  /** Of two equally frequent declarations, the one that was first stays first. */
  ghost predicate Stable(sorted: seq<Decl>, order: seq<Decl>, at: map<Decl, seq<Selector>>) {
    forall i, j :: 0 <= i < j < |sorted| && SameFrequency(at, sorted[i], sorted[j]) ==>
      Precedes(order, sorted[i], sorted[j])
  }

  ghost predicate SameFrequency(at: map<Decl, seq<Selector>>, d: Decl, e: Decl) {
    d in at && e in at && |at[d]| == |at[e]|
  }

  ghost predicate Precedes(order: seq<Decl>, d: Decl, e: Decl) {
    exists a, b :: 0 <= a < b < |order| && order[a] == d && order[b] == e
  }

  lemma PrecedesNext(order: seq<Decl>, last: Decl, d: Decl, e: Decl)
    ensures Precedes(order, d, e) || (d in order && e == last) ==> Precedes(order + [last], d, e)
  {
    var next := order + [last];
    if a, b :| 0 <= a < b < |order| && order[a] == d && order[b] == e {
      assert next[a] == d && next[b] == e;
    } else if d in order && e == last {
      var a :| 0 <= a < |order| && order[a] == d;
      assert next[a] == d && next[|order|] == e;
    }
  }

  /** The new one goes behind all that are at least as frequent, and before the others. */
  lemma {:induction false} InsertedAt(d: Decl, sorted: seq<Decl>, at: map<Decl, seq<Selector>>) returns (k: nat)
    requires d in at && forall e :: e in sorted ==> e in at
    ensures k <= |sorted| && InsertByFrequency(d, sorted, at) == sorted[..k] + [d] + sorted[k..]
    ensures forall m :: k <= m < |sorted| ==> |at[sorted[m]]| < |at[d]|
  {
    if sorted != [] && |at[sorted[|sorted| - 1]]| < |at[d]| {
      var front, last := sorted[..|sorted| - 1], sorted[|sorted| - 1];
      assert sorted == front + [last];
      k := InsertedAt(d, front, at);
      InsertShift(front, last, d, k);
    } else {
      k := |sorted|;
      assert sorted[..k] == sorted && sorted[k..] == [];
    }
  }

  lemma InsertShift(front: seq<Decl>, last: Decl, d: Decl, k: nat)
    requires k <= |front|
    ensures front[..k] + [d] + front[k..] + [last] == (front + [last])[..k] + [d] + (front + [last])[k..]
  {
  }

  lemma {:induction false} SortIsStable(order: seq<Decl>, at: map<Decl, seq<Selector>>)
    requires forall e :: e in order ==> e in at
    ensures Stable(SortByFrequency(order, at), order, at)
  {
    if order != [] {
      var front, last := order[..|order| - 1], order[|order| - 1];
      var before := SortByFrequency(front, at);
      SortIsFalling(front, at);
      SortIsStable(front, at);
      var k := InsertedAt(last, before, at);
      InsertStable(before, front, last, at, k);
      assert order == front + [last];
    }
  }

  lemma InsertStable(before: seq<Decl>, front: seq<Decl>, last: Decl, at: map<Decl, seq<Selector>>, k: nat)
    requires k <= |before| && last in at && forall e :: e in before ==> e in at && e in front
    requires Stable(before, front, at)
    requires forall m :: k <= m < |before| ==> |at[before[m]]| < |at[last]|
    ensures Stable(before[..k] + [last] + before[k..], front + [last], at)
  {
    var r := before[..k] + [last] + before[k..];
    forall i, j | 0 <= i < j < |r| && SameFrequency(at, r[i], r[j]) ensures Precedes(front + [last], r[i], r[j]) {
      PrecedesNext(front, last, r[i], r[j]);
      assert j > k ==> r[j] == before[j - 1];
      if i != k && j != k {
        var i', j' := if i < k then i else i - 1, if j < k then j else j - 1;
        assert before[i'] == r[i] && before[j'] == r[j];
      } else if j == k {
        assert r[i] == before[i];
      }
    }
  }

  /** Everything that occurs together with `d`. */
  ghost predicate IsClass(rules: seq<Rule>, decls: set<Decl>, d: Decl) {
    forall e :: e in decls <==> Occurs(rules, e) && Together(rules, d, e)
  }

  /** A found pattern is a whole class of a declaration that is shared. */
  ghost predicate GoodPattern(rules: seq<Rule>, p: Pattern) {
    exists d :: d in p.decls && IsClass(rules, p.decls, d) && p.selectors == Users(rules, d) && |Users(rules, d)| >= 2
  }

  ghost predicate Covered(patterns: seq<Pattern>, d: Decl) {
    exists k :: 0 <= k < |patterns| && d in patterns[k].decls
  }

  /** Distinct whole classes. */
  ghost predicate DisjointClasses(rules: seq<Rule>, patterns: seq<Pattern>) {
    && (forall k :: 0 <= k < |patterns| ==> GoodPattern(rules, patterns[k]))
    && (forall i, j :: 0 <= i < j < |patterns| ==> patterns[i].decls !! patterns[j].decls)
  }

  /** The patterns are exactly the classes of declarations used by two selectors or more. */
  ghost predicate AllClasses(rules: seq<Rule>, patterns: seq<Pattern>) {
    && DisjointClasses(rules, patterns)
    && (forall d :: |Users(rules, d)| >= 2 ==> Covered(patterns, d))
  }

  /** The state of the greedy pass before the `i`-th declaration. */
  ghost predicate GreedyInv(rules: seq<Rule>, sorted: seq<Decl>, i: nat, patterns: seq<Pattern>, processed: set<Decl>)
    requires i <= |sorted|
  {
    && DisjointClasses(rules, patterns)
    && (forall d :: d in processed <==> Covered(patterns, d))
    && (forall t :: 0 <= t < i && |Users(rules, sorted[t])| >= 2 ==> sorted[t] in processed)
  }

  /** A processed declaration took its whole class with it. */
  lemma ProcessedTogether(rules: seq<Rule>, sorted: seq<Decl>, i: nat, patterns: seq<Pattern>, processed: set<Decl>,
                          d: Decl, e: Decl)
    requires i <= |sorted| && GreedyInv(rules, sorted, i, patterns, processed)
    requires d in processed && Together(rules, d, e) && Occurs(rules, e)
    ensures e in processed
  {
    var k :| 0 <= k < |patterns| && d in patterns[k].decls;
    var seed :| IsClass(rules, patterns[k].decls, seed);
    assert e in patterns[k].decls;
  }

  /** An unprocessed declaration occurring wherever `d` does cannot be more frequent than `d`, because more
      frequent ones came first. */
  lemma NoneMoreFrequentLeft(rules: seq<Rule>, index: Index, sorted: seq<Decl>, i: nat, processed: set<Decl>, e: Decl)
    requires Indexes(index, rules) && i < |sorted| && e in index.order
    requires (forall x :: x in sorted <==> x in index.order) && Falling(sorted, index.at)
    requires forall t :: 0 <= t < i && |Users(rules, sorted[t])| >= 2 ==> sorted[t] in processed
    requires |Users(rules, sorted[i])| >= 2 && e !in processed
    ensures |Users(rules, e)| <= |Users(rules, sorted[i])|
  {
    var t :| 0 <= t < |sorted| && sorted[t] == e;
    assert index.at[e] == Users(rules, e) && index.at[sorted[i]] == Users(rules, sorted[i]);
    if t > i { assert |index.at[sorted[i]]| >= |index.at[sorted[t]]|; }
  }

  /** The heart of the greedy pass: so it occurs together with `d`. */
  lemma CommonMeansTogether(rules: seq<Rule>, index: Index, sorted: seq<Decl>, i: nat, patterns: seq<Pattern>,
                            processed: set<Decl>, e: Decl)
    requires RulesOk(rules) && Indexes(index, rules) && i < |sorted|
    requires (forall x :: x in sorted <==> x in index.order) && Falling(sorted, index.at)
    requires GreedyInv(rules, sorted, i, patterns, processed)
    requires sorted[i] !in processed && |Users(rules, sorted[i])| >= 2 && e in index.order
    ensures e !in processed && UserSet(rules, sorted[i]) <= UserSet(rules, e) <==> Together(rules, sorted[i], e)
  {
    var d := sorted[i];
    if e !in processed && UserSet(rules, d) <= UserSet(rules, e) {
      NoneMoreFrequentLeft(rules, index, sorted, i, processed, e);
      NotMoreFrequent(rules, d, e);
    }
    if Together(rules, d, e) && e in processed {
      OccursHasUsers(rules, d);
      ProcessedTogether(rules, sorted, i, patterns, processed, e, d);
    }
  }

  /** Collects the declarations that appear in all selectors of `sorted[i]`. */
  method CommonDecls(rules: seq<Rule>, index: Index, sorted: seq<Decl>, i: nat, ghost patterns: seq<Pattern>,
                     processed: set<Decl>)
    returns (common: set<Decl>)
    requires RulesOk(rules) && Indexes(index, rules) && i < |sorted|
    requires (forall x :: x in sorted <==> x in index.order) && Falling(sorted, index.at)
    requires GreedyInv(rules, sorted, i, patterns, processed)
    requires sorted[i] !in processed && |Users(rules, sorted[i])| >= 2
    ensures IsClass(rules, common, sorted[i]) && common !! processed
  {
    var decl, selectors := sorted[i], index.at[sorted[i]];
    common := {decl};
    for k := 0 to |index.order|
      invariant decl in common && common !! processed
      invariant forall e :: e in common ==> e in index.order && Together(rules, decl, e)
      invariant forall e :: e in index.order[..k] && Together(rules, decl, e) ==> e in common
    {
      var other := index.order[k];
      CommonMeansTogether(rules, index, sorted, i, patterns, processed, other);
      if other != decl && other !in processed {
        UserCount(rules, decl);
        UserCount(rules, other);
        var allHave := forall sel :: sel in selectors ==> Has(rules, sel, other);
        assert allHave <==> UserSet(rules, decl) <= UserSet(rules, other);
        if allHave {
          common := common + {other};
        }
      }
    }
    forall e ensures Occurs(rules, e) <==> e in index.order[..|index.order|] {
      OccursHasUsers(rules, e);
    }
  }

  /** The place in `sorted` at which each pattern was found: its first member there. */
  ghost predicate Seeded(sorted: seq<Decl>, i: nat, patterns: seq<Pattern>, seeds: seq<nat>)
    requires i <= |sorted|
  {
    && |seeds| == |patterns|
    && (forall k :: 0 <= k < |seeds| ==> SeedOf(sorted, i, patterns[k], seeds[k]))
    && (forall j, k :: 0 <= j < k < |seeds| ==> seeds[j] < seeds[k])
  }

  ghost predicate SeedOf(sorted: seq<Decl>, i: nat, p: Pattern, seed: nat)
    requires i <= |sorted|
  {
    seed < i && sorted[seed] in p.decls && forall t :: 0 <= t < seed ==> sorted[t] !in p.decls
  }

  lemma SeedAdded(rules: seq<Rule>, sorted: seq<Decl>, i: nat, patterns: seq<Pattern>, processed: set<Decl>,
                  seeds: seq<nat>, p: Pattern)
    requires RulesOk(rules) && i < |sorted| && GreedyInv(rules, sorted, i, patterns, processed)
    requires IsClass(rules, p.decls, sorted[i]) && p.decls !! processed && |Users(rules, sorted[i])| >= 2
    requires Seeded(sorted, i, patterns, seeds)
    ensures Seeded(sorted, i + 1, patterns + [p], seeds + [i])
  {
    OccursHasUsers(rules, sorted[i]);
    UserCount(rules, sorted[i]);
    forall t | 0 <= t < i ensures sorted[t] !in p.decls {
      UserCount(rules, sorted[t]);
    }
    assert SeedOf(sorted, i + 1, p, i);
    forall k | 0 <= k < |seeds| ensures SeedOf(sorted, i + 1, patterns[k], seeds[k]) {
      assert SeedOf(sorted, i, patterns[k], seeds[k]);
    }
  }

  lemma SeedsStay(sorted: seq<Decl>, i: nat, patterns: seq<Pattern>, seeds: seq<nat>)
    requires i < |sorted| && Seeded(sorted, i, patterns, seeds)
    ensures Seeded(sorted, i + 1, patterns, seeds)
  {
    forall k | 0 <= k < |seeds| ensures SeedOf(sorted, i + 1, patterns[k], seeds[k]) {
      assert SeedOf(sorted, i, patterns[k], seeds[k]);
    }
  }

  /** The patterns come in the order of falling frequency, and equally frequent ones in the order in which
      they are first used in the rules. */
  ghost predicate PatternsInOrder(rules: seq<Rule>, patterns: seq<Pattern>) {
    forall i, j :: 0 <= i < j < |patterns| ==> Ahead(rules, patterns[i], patterns[j])
  }

  ghost predicate Ahead(rules: seq<Rule>, p: Pattern, q: Pattern) {
    || |p.selectors| > |q.selectors|
    || (|p.selectors| == |q.selectors| && exists d :: d in p.decls && SoonerThanAll(rules, d, q))
  }

  ghost predicate SoonerThanAll(rules: seq<Rule>, d: Decl, q: Pattern) {
    forall e :: e in q.decls ==> Sooner(Flat(rules), d, e)
  }

  lemma FrequencyOf(rules: seq<Rule>, p: Pattern, e: Decl)
    requires RulesOk(rules) && GoodPattern(rules, p) && e in p.decls
    ensures |Users(rules, e)| == |p.selectors|
  {
    var seed :| seed in p.decls && IsClass(rules, p.decls, seed) && p.selectors == Users(rules, seed);
    UserCount(rules, seed);
    UserCount(rules, e);
  }

  lemma SeedAhead(rules: seq<Rule>, index: Index, sorted: seq<Decl>, p: Pattern, q: Pattern, m: nat, n: nat)
    requires RulesOk(rules) && Indexes(index, rules) && ByFirstUse(index.order, Flat(rules))
    requires (forall x :: x in sorted <==> x in index.order) && Falling(sorted, index.at)
    requires Stable(sorted, index.order, index.at) && GoodPattern(rules, p) && GoodPattern(rules, q)
    requires SeedOf(sorted, |sorted|, p, m) && SeedOf(sorted, |sorted|, q, n) && m < n
    ensures Ahead(rules, p, q)
  {
    FrequencyOf(rules, p, sorted[m]);
    FrequencyOf(rules, q, sorted[n]);
    if |p.selectors| == |q.selectors| {
      forall e | e in q.decls ensures Sooner(Flat(rules), sorted[m], e) {
        FrequencyOf(rules, q, e);
        PatternOccurs(rules, index, q, e);
        var t :| 0 <= t < |sorted| && sorted[t] == e;
        assert SameFrequency(index.at, sorted[m], sorted[t]);
        var a, b :| 0 <= a < b < |index.order| && index.order[a] == sorted[m] && index.order[b] == e;
      }
      assert SoonerThanAll(rules, sorted[m], q);
    }
  }

  lemma PatternOccurs(rules: seq<Rule>, index: Index, p: Pattern, e: Decl)
    requires RulesOk(rules) && Indexes(index, rules) && GoodPattern(rules, p) && e in p.decls
    ensures e in index.order && e in index.at
  {
    OccursHasUsers(rules, e);
  }

  lemma SeedsInOrder(rules: seq<Rule>, index: Index, sorted: seq<Decl>, patterns: seq<Pattern>, seeds: seq<nat>)
    requires RulesOk(rules) && Indexes(index, rules) && ByFirstUse(index.order, Flat(rules))
    requires (forall x :: x in sorted <==> x in index.order) && Falling(sorted, index.at)
    requires Stable(sorted, index.order, index.at) && DisjointClasses(rules, patterns)
    requires Seeded(sorted, |sorted|, patterns, seeds)
    ensures PatternsInOrder(rules, patterns)
  {
    forall i, j | 0 <= i < j < |patterns| ensures Ahead(rules, patterns[i], patterns[j]) {
      SeedAhead(rules, index, sorted, patterns[i], patterns[j], seeds[i], seeds[j]);
    }
  }

  /** The index, and its declarations sorted. */
  ghost predicate Ready(rules: seq<Rule>, index: Index, sorted: seq<Decl>) {
    && RulesOk(rules) && Indexes(index, rules) && ByFirstUse(index.order, Flat(rules))
    && sorted == SortByFrequency(index.order, index.at)
  }

  /** The state of the pass, with the places of the patterns. */
  ghost predicate PassInv(rules: seq<Rule>, sorted: seq<Decl>, i: nat, patterns: seq<Pattern>, processed: set<Decl>,
                          seeds: seq<nat>)
  {
    i <= |sorted| && GreedyInv(rules, sorted, i, patterns, processed) && Seeded(sorted, i, patterns, seeds)
  }

  /** One turn of the loop. */
  method TakePattern(rules: seq<Rule>, index: Index, sorted: seq<Decl>, i: nat, patterns: seq<Pattern>,
                     processed: set<Decl>, ghost seeds: seq<nat>)
    returns (patterns': seq<Pattern>, processed': set<Decl>, ghost seeds': seq<nat>)
    requires Ready(rules, index, sorted) && i < |sorted| && PassInv(rules, sorted, i, patterns, processed, seeds)
    ensures PassInv(rules, sorted, i + 1, patterns', processed', seeds')
  {
    SortIsFalling(index.order, index.at);
    patterns', processed', seeds' := patterns, processed, seeds;
    var decl := sorted[i];
    if decl !in processed && |index.at[decl]| >= 2 {
      var common := CommonDecls(rules, index, sorted, i, patterns, processed);
      PatternTaken(rules, sorted, i, patterns, processed, seeds, common);
      patterns' := patterns + [Pattern(common, index.at[decl])];
      processed' := processed + common;
      seeds' := seeds + [i];
    } else {
      DeclSkipped(rules, sorted, i, patterns, processed);
      SeedsStay(sorted, i, patterns, seeds);
    }
  }

  /** The greedy pass finds exactly the classes of declarations that occur together, restricted to
      those shared by two selectors or more. */
  method FindCommonPatterns(rules: seq<Rule>) returns (patterns: seq<Pattern>)
    requires RulesOk(rules)
    ensures AllClasses(rules, patterns) && PatternsInOrder(rules, patterns)
  {
    var index := BuildIndex(rules);
    patterns := [];
    var processed: set<Decl> := {};
    var sorted := SortByFrequency(index.order, index.at);
    ghost var seeds: seq<nat> := [];
    for i := 0 to |sorted|
      invariant PassInv(rules, sorted, i, patterns, processed, seeds)
    {
      patterns, processed, seeds := TakePattern(rules, index, sorted, i, patterns, processed, seeds);
    }
    PassDone(rules, index, sorted, patterns, processed, seeds);
  }

  lemma PatternTaken(rules: seq<Rule>, sorted: seq<Decl>, i: nat, patterns: seq<Pattern>, processed: set<Decl>,
                     seeds: seq<nat>, common: set<Decl>)
    requires RulesOk(rules) && i < |sorted| && GreedyInv(rules, sorted, i, patterns, processed)
    requires IsClass(rules, common, sorted[i]) && common !! processed && |Users(rules, sorted[i])| >= 2
    requires Seeded(sorted, i, patterns, seeds)
    ensures var p := Pattern(common, Users(rules, sorted[i]));
            GreedyInv(rules, sorted, i + 1, patterns + [p], processed + common) &&
            Seeded(sorted, i + 1, patterns + [p], seeds + [i])
  {
    ClassAdded(rules, sorted, i, patterns, processed, common);
    SeedAdded(rules, sorted, i, patterns, processed, seeds, Pattern(common, Users(rules, sorted[i])));
  }

  lemma PassDone(rules: seq<Rule>, index: Index, sorted: seq<Decl>, patterns: seq<Pattern>, processed: set<Decl>,
                 seeds: seq<nat>)
    requires Ready(rules, index, sorted) && PassInv(rules, sorted, |sorted|, patterns, processed, seeds)
    ensures AllClasses(rules, patterns) && PatternsInOrder(rules, patterns)
  {
    SortIsFalling(index.order, index.at);
    SortIsStable(index.order, index.at);
    GreedyDone(rules, index, sorted, patterns, processed);
    SeedsInOrder(rules, index, sorted, patterns, seeds);
  }

  lemma DeclSkipped(rules: seq<Rule>, sorted: seq<Decl>, i: nat, patterns: seq<Pattern>, processed: set<Decl>)
    requires i < |sorted| && GreedyInv(rules, sorted, i, patterns, processed)
    requires sorted[i] in processed || |Users(rules, sorted[i])| < 2
    ensures GreedyInv(rules, sorted, i + 1, patterns, processed)
  {
  }

  lemma GreedyDone(rules: seq<Rule>, index: Index, sorted: seq<Decl>, patterns: seq<Pattern>, processed: set<Decl>)
    requires Indexes(index, rules) && forall x :: x in sorted <==> x in index.order
    requires GreedyInv(rules, sorted, |sorted|, patterns, processed)
    ensures AllClasses(rules, patterns)
  {
    forall d | |Users(rules, d)| >= 2 ensures Covered(patterns, d) {
      assert d in index.at && d in sorted;
      var t :| 0 <= t < |sorted| && sorted[t] == d;
    }
  }

  lemma {:induction false} CoveredSnoc(patterns: seq<Pattern>, p: Pattern, e: Decl)
    ensures Covered(patterns + [p], e) <==> Covered(patterns, e) || e in p.decls
  {
    var next := patterns + [p];
    if Covered(patterns, e) {
      var k :| 0 <= k < |patterns| && e in patterns[k].decls;
      assert e in next[k].decls;
    }
    if e in p.decls { assert e in next[|patterns|].decls; }
  }

  lemma DisjointClassesSnoc(rules: seq<Rule>, patterns: seq<Pattern>, p: Pattern)
    requires DisjointClasses(rules, patterns) && GoodPattern(rules, p)
    requires forall e :: e in p.decls ==> !Covered(patterns, e)
    ensures DisjointClasses(rules, patterns + [p])
  {
    forall k | 0 <= k < |patterns| ensures patterns[k].decls !! p.decls {
      forall e | e in patterns[k].decls ensures e !in p.decls { assert Covered(patterns, e); }
    }
  }

  lemma ClassAdded(rules: seq<Rule>, sorted: seq<Decl>, i: nat, patterns: seq<Pattern>, processed: set<Decl>,
                   common: set<Decl>)
    requires RulesOk(rules) && i < |sorted| && GreedyInv(rules, sorted, i, patterns, processed)
    requires IsClass(rules, common, sorted[i]) && common !! processed && |Users(rules, sorted[i])| >= 2
    ensures GreedyInv(rules, sorted, i + 1, patterns + [Pattern(common, Users(rules, sorted[i]))], processed + common)
  {
    var d, p := sorted[i], Pattern(common, Users(rules, sorted[i]));
    OccursHasUsers(rules, d);
    assert d in common;
    assert GoodPattern(rules, p);
    DisjointClassesSnoc(rules, patterns, p);
    forall e ensures e in processed + common <==> Covered(patterns + [p], e) {
      CoveredSnoc(patterns, p, e);
    }
  }

  datatype Utility = Utility(name: string, pattern: Pattern)

  /** The decimal digits of a number. */
  function Decimal(n: nat): (s: string)
    ensures |s| >= 1 && (n >= 10 <==> |s| >= 2)
  {
    if n < 10 then [('0' as int + n) as char] else Decimal(n / 10) + [('0' as int + n % 10) as char]
  }

  function Letter(n: nat): char
    requires n < 26
  {
    ('a' as int + n) as char
  }

  function UtilityName(idx: nat): string {
    if idx < 26 then [Letter(idx)] else [Letter(idx % 26)] + Decimal(idx / 26)
  }

  lemma {:induction false} DecimalInjective(m: nat, n: nat)
    requires Decimal(m) == Decimal(n)
    ensures m == n
  {
    var s, t := Decimal(m), Decimal(n);
    assert s[|s| - 1] as int == '0' as int + m % 10 && t[|t| - 1] as int == '0' as int + n % 10;
    if |s| >= 2 {
      assert s[..|s| - 1] == Decimal(m / 10) && t[..|t| - 1] == Decimal(n / 10);
      DecimalInjective(m / 10, n / 10);
    }
  }

  lemma NameParts(idx: nat)
    ensures UtilityName(idx)[0] as int == 'a' as int + idx % 26
    ensures UtilityName(idx)[1..] == if idx < 26 then "" else Decimal(idx / 26)
  {
  }

  /** No two utilities get the same class name, however many there are. */
  lemma NamesInjective(i: nat, j: nat)
    requires UtilityName(i) == UtilityName(j)
    ensures i == j
  {
    NameParts(i);
    NameParts(j);
    if i >= 26 { DecimalInjective(i / 26, j / 26); }
  }

  /** What decimal digits denote. */
  ghost function Value(s: string): int {
    if s == "" then 0 else 10 * Value(s[..|s| - 1]) + (s[|s| - 1] as int - '0' as int)
  }

  lemma {:induction false} DecimalDenotes(n: nat)
    ensures Value(Decimal(n)) == n && (Decimal(n)[0] == '0' ==> n == 0)
    ensures forall i :: 0 <= i < |Decimal(n)| ==> '0' <= Decimal(n)[i] <= '9'
  {
    var s := Decimal(n);
    assert s[|s| - 1] as int - '0' as int == n % 10;
    if n >= 10 {
      assert s[..|s| - 1] == Decimal(n / 10);
      DecimalDenotes(n / 10);
    } else {
      assert s[..0] == "";
    }
  }

  lemma LetterIs(n: nat)
    requires n < 26
    ensures Letter(n) == "abcdefghijklmnopqrstuvwxyz"[n]
  {
  }

  /** The 26 letters in turn; from the second round on, with the number of the round. */
  lemma NameIs(idx: nat)
    ensures |UtilityName(idx)| >= 1 && UtilityName(idx)[0] == "abcdefghijklmnopqrstuvwxyz"[idx % 26]
    ensures idx < 26 ==> UtilityName(idx)[1..] == ""
    ensures idx >= 26 ==> var round := UtilityName(idx)[1..];
                          Value(round) == idx / 26 && round != "" && round[0] != '0' &&
                          forall i :: 0 <= i < |round| ==> '0' <= round[i] <= '9'
  {
    LetterIs(idx % 26);
    DecimalDenotes(idx / 26);
    if idx >= 26 { assert UtilityName(idx)[1..] == Decimal(idx / 26); }
  }

  /** Names the patterns in order. */
  method GenerateUtilities(patterns: seq<Pattern>) returns (utilities: seq<Utility>)
    ensures |utilities| == |patterns|
    ensures forall k :: 0 <= k < |patterns| ==> utilities[k] == Utility(UtilityName(k), patterns[k])
    ensures forall i, j :: 0 <= i < j < |utilities| ==> utilities[i].name != utilities[j].name
  {
    utilities := [];
    for idx := 0 to |patterns|
      invariant |utilities| == idx
      invariant forall k :: 0 <= k < idx ==> utilities[k] == Utility(UtilityName(k), patterns[k])
    {
      utilities := utilities + [Utility(UtilityName(idx), patterns[idx])];
    }
    forall i, j | 0 <= i < j < |utilities| ensures utilities[i].name != utilities[j].name {
      if utilities[i].name == utilities[j].name { NamesInjective(i, j); }
    }
  }

  function Patterns(utilities: seq<Utility>): seq<Pattern> {
    seq(|utilities|, k requires 0 <= k < |utilities| => utilities[k].pattern)
  }

  lemma UsedByRule(rules: seq<Rule>, i: nat, e: Decl)
    requires RulesOk(rules) && i < |rules|
    ensures rules[i].selector in UserSet(rules, e) <==> e in rules[i].decls
  {
    UserCount(rules, e);
    if e in rules[i].decls { assert Has(rules, rules[i].selector, e); }
  }

  /** All members of a pattern have the pattern's selectors. */
  lemma PatternUsers(rules: seq<Rule>, p: Pattern, e: Decl)
    requires RulesOk(rules) && GoodPattern(rules, p) && e in p.decls
    ensures UserSet(rules, e) == Elements(p.selectors) && |Users(rules, e)| >= 2 && Occurs(rules, e)
  {
    var seed :| seed in p.decls && IsClass(rules, p.decls, seed) &&
                p.selectors == Users(rules, seed) && |Users(rules, seed)| >= 2;
    UserCount(rules, seed);
    UserCount(rules, e);
  }

  /** A rule contains a pattern wholly or not at all, and contains it exactly if it is one of the
      pattern's selectors. */
  lemma AllOrNothing(rules: seq<Rule>, i: nat, p: Pattern)
    requires RulesOk(rules) && i < |rules| && GoodPattern(rules, p)
    ensures p.decls != {}
    ensures forall e :: e in p.decls ==> (e in rules[i].decls <==> rules[i].selector in p.selectors)
  {
    forall e | e in p.decls ensures e in rules[i].decls <==> rules[i].selector in p.selectors {
      PatternUsers(rules, p, e);
      UsedByRule(rules, i, e);
    }
  }

  /** Declarations in a pattern are shared; all others are used once. */
  lemma CoveredIffShared(rules: seq<Rule>, patterns: seq<Pattern>, d: Decl)
    requires RulesOk(rules) && AllClasses(rules, patterns) && Occurs(rules, d)
    ensures !Covered(patterns, d) <==> |Users(rules, d)| == 1
  {
    OccursHasUsers(rules, d);
    if Covered(patterns, d) {
      var k :| 0 <= k < |patterns| && d in patterns[k].decls;
      PatternUsers(rules, patterns[k], d);
    }
  }

  /** What is left of a selector's rule, and the classes it got. */
  datatype Mapped = Mapped(selector: Selector, utilities: seq<string>, remaining: set<Decl>)

  ghost function AssignedNames(utilities: seq<Utility>, sel: Selector): seq<string> {
    if utilities == [] then []
    else AssignedNames(utilities[..|utilities| - 1], sel) +
         if sel in utilities[|utilities| - 1].pattern.selectors then [utilities[|utilities| - 1].name] else []
  }

  /** These are the names of the utilities that the selector is in, in the order of the utilities. */
  ghost predicate NamesFor(utilities: seq<Utility>, sel: Selector, names: seq<string>) {
    exists places: seq<nat> :: NamedPlaces(utilities, sel, names, places)
  }

  ghost predicate NamedPlaces(utilities: seq<Utility>, sel: Selector, names: seq<string>, places: seq<nat>) {
    && |places| == |names|
    && (forall i, j :: 0 <= i < j < |places| ==> places[i] < places[j])
    && (forall k :: 0 <= k < |utilities| && sel in utilities[k].pattern.selectors <==> k in places)
    && (forall i :: 0 <= i < |places| ==> places[i] < |utilities| && names[i] == utilities[places[i]].name)
  }

  lemma PlacesNext(front: seq<Utility>, last: Utility, sel: Selector, names: seq<string>, places: seq<nat>)
    requires NamedPlaces(front, sel, names, places)
    ensures if sel in last.pattern.selectors
            then NamedPlaces(front + [last], sel, names + [last.name], places + [|front|])
            else NamedPlaces(front + [last], sel, names, places)
  {
    var n, all := |front|, front + [last];
    assert forall i :: 0 <= i < |places| ==> places[i] in places;
    assert forall k :: k in places ==> 0 <= k < n && all[k] == front[k];
    assert forall k :: 0 <= k < n ==> all[k] == front[k];
    assert all[n] == last;
  }

  lemma {:induction false} AssignedInOrder(utilities: seq<Utility>, sel: Selector)
    ensures NamesFor(utilities, sel, AssignedNames(utilities, sel))
  {
    if utilities == [] {
      assert NamedPlaces(utilities, sel, [], []);
    } else {
      var front, last := utilities[..|utilities| - 1], utilities[|utilities| - 1];
      AssignedInOrder(front, sel);
      var names := AssignedNames(front, sel);
      var places :| NamedPlaces(front, sel, names, places);
      PlacesNext(front, last, sel, names, places);
      assert utilities == front + [last];
      assert names + [] == names;
    }
  }

  ghost function Uncovered(decls: seq<Decl>, patterns: seq<Pattern>): set<Decl> {
    set d | d in decls && !Covered(patterns, d)
  }

  /** One step of the assignment: the next utility either applies and takes its declarations, or is
      disjoint from the rule. */
  lemma AssignStep(rules: seq<Rule>, i: nat, patterns: seq<Pattern>, k: nat)
    requires RulesOk(rules) && i < |rules| && DisjointClasses(rules, patterns) && k < |patterns|
    ensures var remaining, p := Uncovered(rules[i].decls, patterns[..k]), patterns[k];
            && (p.decls <= remaining <==> rules[i].selector in p.selectors)
            && Uncovered(rules[i].decls, patterns[..k + 1]) ==
                if p.decls <= remaining then remaining - p.decls else remaining
  {
    var decls, remaining, p := rules[i].decls, Uncovered(rules[i].decls, patterns[..k]), patterns[k];
    AllOrNothing(rules, i, p);
    forall e | e in p.decls ensures !Covered(patterns[..k], e) {
      NotInEarlier(rules, patterns, k, e);
    }
    UncoveredSnoc(decls, patterns[..k], p);
    assert patterns[..k + 1] == patterns[..k] + [p];
    var e0 :| e0 in p.decls;
    assert e0 in remaining <==> e0 in decls;
    assert p.decls <= remaining <==> rules[i].selector in p.selectors;
  }

  lemma NotInEarlier(rules: seq<Rule>, patterns: seq<Pattern>, k: nat, e: Decl)
    requires DisjointClasses(rules, patterns) && k < |patterns| && e in patterns[k].decls
    ensures !Covered(patterns[..k], e)
  {
    assert forall m :: 0 <= m < k ==> patterns[m].decls !! patterns[k].decls;
  }

  lemma UncoveredSnoc(decls: seq<Decl>, patterns: seq<Pattern>, p: Pattern)
    ensures Uncovered(decls, patterns + [p]) == Uncovered(decls, patterns) - p.decls
  {
    forall e ensures Covered(patterns + [p], e) <==> Covered(patterns, e) || e in p.decls {
      CoveredSnoc(patterns, p, e);
    }
  }

  lemma RemainingIsUnshared(rules: seq<Rule>, patterns: seq<Pattern>, i: nat)
    requires RulesOk(rules) && AllClasses(rules, patterns) && i < |rules|
    ensures Uncovered(rules[i].decls, patterns) == set d | d in rules[i].decls && |Users(rules, d)| == 1
  {
    forall d | d in rules[i].decls ensures !Covered(patterns, d) <==> |Users(rules, d)| == 1 {
      assert Occurs(rules, d);
      CoveredIffShared(rules, patterns, d);
    }
  }

  /** Every selector gets exactly the utilities whose pattern it is in, and keeps exactly the
      declarations that only it uses. */
  method BuildClassMapping(rules: seq<Rule>, utilities: seq<Utility>) returns (mapping: seq<Mapped>)
    requires RulesOk(rules) && AllClasses(rules, Patterns(utilities))
    ensures |mapping| == |rules|
    ensures forall i :: 0 <= i < |rules| ==>
              && mapping[i].selector == rules[i].selector
              && mapping[i].utilities == AssignedNames(utilities, rules[i].selector)
              && mapping[i].remaining == set d | d in rules[i].decls && |Users(rules, d)| == 1
  {
    mapping := [];
    for i := 0 to |rules|
      invariant |mapping| == i
      invariant forall j :: 0 <= j < i ==>
                  && mapping[j].selector == rules[j].selector
                  && mapping[j].utilities == AssignedNames(utilities, rules[j].selector)
                  && mapping[j].remaining == set d | d in rules[j].decls && |Users(rules, d)| == 1
    {
      var m := MapRule(rules, i, utilities);
      mapping := mapping + [m];
    }
  }

  lemma AssignedSnoc(utilities: seq<Utility>, k: nat, sel: Selector)
    requires k < |utilities|
    ensures AssignedNames(utilities[..k + 1], sel) ==
            AssignedNames(utilities[..k], sel) +
            if sel in utilities[k].pattern.selectors then [utilities[k].name] else []
  {
    assert utilities[..k + 1][..k] == utilities[..k];
  }

  method MapRule(rules: seq<Rule>, i: nat, utilities: seq<Utility>) returns (m: Mapped)
    requires RulesOk(rules) && AllClasses(rules, Patterns(utilities)) && i < |rules|
    ensures m.selector == rules[i].selector && m.utilities == AssignedNames(utilities, rules[i].selector)
    ensures m.remaining == set d | d in rules[i].decls && |Users(rules, d)| == 1
  {
    var sel, decls := rules[i].selector, rules[i].decls;
    var classes: seq<string>, remaining := [], Elements(decls);
    ghost var patterns := Patterns(utilities);
    assert DisjointClasses(rules, patterns);
    for k := 0 to |utilities|
      invariant remaining == Uncovered(decls, patterns[..k])
      invariant classes == AssignedNames(utilities[..k], sel)
    {
      var util := utilities[k];
      AssignStep(rules, i, patterns, k);
      AssignedSnoc(utilities, k, sel);
      if util.pattern.decls <= remaining {
        classes := classes + [util.name];
        remaining := remaining - util.pattern.decls;
      }
    }
    assert patterns[..|patterns|] == patterns && utilities[..|utilities|] == utilities;
    RemainingIsUnshared(rules, patterns, i);
    m := Mapped(sel, classes, remaining);
  }

  /** The three passes together. */
  method Factor(rules: seq<Rule>) returns (utilities: seq<Utility>, mapping: seq<Mapped>)
    requires RulesOk(rules)
    ensures AllClasses(rules, Patterns(utilities))
    ensures forall i, j :: 0 <= i < j < |utilities| ==> utilities[i].name != utilities[j].name
    ensures |mapping| == |rules|
    ensures PatternsInOrder(rules, Patterns(utilities))
    ensures forall k :: 0 <= k < |utilities| ==> utilities[k].name == UtilityName(k)
    ensures forall i :: 0 <= i < |rules| ==>
              && mapping[i].selector == rules[i].selector
              && NamesFor(utilities, rules[i].selector, mapping[i].utilities)
              && mapping[i].remaining == set d | d in rules[i].decls && |Users(rules, d)| == 1
  {
    var patterns := FindCommonPatterns(rules);
    utilities := GenerateUtilities(patterns);
    assert Patterns(utilities) == patterns;
    mapping := BuildClassMapping(rules, utilities);
    forall i | 0 <= i < |rules| ensures NamesFor(utilities, rules[i].selector, mapping[i].utilities) {
      AssignedInOrder(utilities, rules[i].selector);
    }
  }

  /** The utilities a selector gets and what remains give back its declarations: what does not
      remain is in an assigned pattern, */
  lemma NothingLost(rules: seq<Rule>, patterns: seq<Pattern>, i: nat, d: Decl)
    requires RulesOk(rules) && AllClasses(rules, patterns) && i < |rules|
    requires d in rules[i].decls && |Users(rules, d)| != 1
    ensures exists k :: 0 <= k < |patterns| && d in patterns[k].decls && rules[i].selector in patterns[k].selectors
  {
    assert Occurs(rules, d);
    CoveredIffShared(rules, patterns, d);
    var k :| 0 <= k < |patterns| && d in patterns[k].decls;
    AllOrNothing(rules, i, patterns[k]);
  }

  /** only in one, does not also remain, and belongs to the rule if the pattern is assigned to it. */
  lemma NothingDoubledOrAdded(rules: seq<Rule>, patterns: seq<Pattern>, i: nat, d: Decl, k: nat)
    requires RulesOk(rules) && AllClasses(rules, patterns) && i < |rules|
    requires k < |patterns| && d in patterns[k].decls
    ensures |Users(rules, d)| != 1
    ensures d in rules[i].decls <==> rules[i].selector in patterns[k].selectors
    ensures forall m :: 0 <= m < |patterns| && m != k ==> d !in patterns[m].decls
  {
    AllOrNothing(rules, i, patterns[k]);
    PatternUsers(rules, patterns[k], d);
    forall m | 0 <= m < |patterns| && m != k ensures d !in patterns[m].decls {
      assert if m < k then patterns[m].decls !! patterns[k].decls else patterns[k].decls !! patterns[m].decls;
    }
  }
}
