/** Substring search over UTF-16 code units: Horspool's algorithm in both directions, with a skip
    table indexed by the low byte of a unit, and brute force for short needles. */
module StringSearch {
  import opened Options
  import opened Utf16

  /** A window into a string. */
  datatype View = View(str: Text, start: nat, end: nat) {
    ghost predicate Valid() { start <= end <= |str| }

    function Length(): nat
      requires Valid()
    {
      end - start
    }

    function At(i: nat): Unit
      requires Valid() && i < Length()
    {
      str[start + i]
    }

    function Content(): Text
      requires Valid()
    {
      str[start..end]
    }
  }

  ghost predicate OccursAt(haystack: Text, needle: Text, i: int) {
    0 <= i <= |haystack| - |needle| && haystack[i..i + |needle|] == needle
  }

  /** The position of the first occurrence, if there is one. */
  ghost predicate IsFirst(haystack: Text, needle: Text, r: Option<nat>) {
    match r
    case Some(i) => OccursAt(haystack, needle, i) && forall j :: 0 <= j < i ==> !OccursAt(haystack, needle, j)
    case None => forall j :: !OccursAt(haystack, needle, j)
  }

  /** The position of the last occurrence, if there is one. */
  ghost predicate IsLast(haystack: Text, needle: Text, r: Option<nat>) {
    match r
    case Some(i) => OccursAt(haystack, needle, i) && forall j :: j > i ==> !OccursAt(haystack, needle, j)
    case None => forall j :: !OccursAt(haystack, needle, j)
  }

  /** An occurrence, unit by unit. */
  lemma OccursPointwise(haystack: View, needle: View, i: int)
    requires haystack.Valid() && needle.Valid() && 0 <= i <= haystack.Length() - needle.Length()
    ensures OccursAt(haystack.Content(), needle.Content(), i) <==>
            forall j :: 0 <= j < needle.Length() ==> haystack.At(i + j) == needle.At(j)
  {
    var h, n := haystack.Content(), needle.Content();
    if OccursAt(h, n, i) {
      forall j | 0 <= j < |n| ensures haystack.At(i + j) == needle.At(j) {
        assert h[i..i + |n|][j] == h[i + j] && h[i + j] == haystack.At(i + j) && n[j] == needle.At(j);
      }
    }
    if forall j :: 0 <= j < |n| ==> haystack.At(i + j) == needle.At(j) {
      forall j | 0 <= j < |n| ensures h[i..i + |n|][j] == n[j] {
        assert haystack.At(i + j) == needle.At(j);
      }
    }
  }

  function LowByte(u: Unit): nat {
    u % 256
  }

  /** The needle occurs at `i`: compares unit by unit from `from` on. */
  method MatchAt(haystack: View, needle: View, i: nat, from: nat) returns (all: bool)
    requires haystack.Valid() && needle.Valid() && i + needle.Length() <= haystack.Length()
    requires from <= needle.Length()
    requires forall j :: 0 <= j < from ==> haystack.At(i + j) == needle.At(j)
    ensures all <==> OccursAt(haystack.Content(), needle.Content(), i)
  {
    OccursPointwise(haystack, needle, i);
    var j := from;
    while j < needle.Length()
      invariant from <= j <= needle.Length()
      invariant forall k :: 0 <= k < j ==> haystack.At(i + k) == needle.At(k)
    {
      if haystack.At(i + j) != needle.At(j) {
        return false;
      }
      j := j + 1;
    }
    return true;
  }

  /** Every unit of the needle but the last allows a shift of at most its distance to the end. */
  ghost predicate ForwardTable(table: seq<nat>, needle: View)
    requires needle.Valid()
  {
    && |table| == 256
    && (forall b :: 0 <= b < 256 ==> 1 <= table[b] <= needle.Length())
    && (forall j :: 0 <= j < needle.Length() - 1 ==> table[LowByte(needle.At(j))] <= needle.Length() - 1 - j)
  }

  /** Positions skipped by a forward shift hold no occurrence. */
  lemma ForwardSkipSafe(haystack: View, needle: View, table: seq<nat>, i: nat, p: int)
    requires haystack.Valid() && needle.Valid() && needle.Length() > 0
    requires ForwardTable(table, needle) && i + needle.Length() <= haystack.Length()
    requires i < p < i + table[LowByte(haystack.At(i + needle.Length() - 1))]
    ensures !OccursAt(haystack.Content(), needle.Content(), p)
  {
    if 0 <= p <= haystack.Length() - needle.Length() {
      OccursPointwise(haystack, needle, p);
      var j := i + needle.Length() - 1 - p;
      assert haystack.At(p + j) == haystack.At(i + needle.Length() - 1);
      assert table[LowByte(needle.At(j))] <= needle.Length() - 1 - j;
    }
  }

  /** Fills the table from left to right, so the last occurrence of a byte decides. */
  method BuildForwardTable(needle: View) returns (table: array<nat>)
    requires needle.Valid() && needle.Length() > 0
    ensures fresh(table) && ForwardTable(table[..], needle)
  {
    var m := needle.Length();
    table := new nat[256](_ => m);
    for i := 0 to m - 1
      invariant forall b :: 0 <= b < 256 ==> 1 <= table[b] <= m
      invariant forall j :: 0 <= j < i ==> table[LowByte(needle.At(j))] <= m - 1 - j
    {
      table[LowByte(needle.At(i))] := m - 1 - i;
    }
  }

  /** Horspool's search finds the first occurrence. */
  method HorspoolFind(haystack: View, needle: View) returns (r: Option<nat>)
    requires haystack.Valid() && needle.Valid()
    ensures IsFirst(haystack.Content(), needle.Content(), r)
  {
    if needle.Length() == 0 {
      return Some(0);
    }
    if haystack.Length() < needle.Length() {
      return None;
    }
    var skip := BuildForwardTable(needle);
    ghost var table := skip[..];
    var i := 0;
    while i <= haystack.Length() - needle.Length()
      invariant skip[..] == table
      invariant forall p :: 0 <= p < i ==> !OccursAt(haystack.Content(), needle.Content(), p)
      decreases haystack.Length() - i
    {
      var all := MatchAt(haystack, needle, i, 0);
      if all {
        return Some(i);
      }
      var shift := skip[LowByte(haystack.At(i + needle.Length() - 1))];
      forall p | i < p < i + shift ensures !OccursAt(haystack.Content(), needle.Content(), p) {
        ForwardSkipSafe(haystack, needle, table, i, p);
      }
      i := i + shift;
    }
    return None;
  }

  /** Skips to positions with the needle's first unit, then compares the rest. */
  method BruteForceFind(haystack: View, needle: View) returns (r: Option<nat>)
    requires haystack.Valid() && needle.Valid()
    ensures IsFirst(haystack.Content(), needle.Content(), r)
  {
    if needle.Length() == 0 {
      return Some(0);
    }
    if haystack.Length() < needle.Length() {
      return None;
    }
    var first, forwardLen := needle.At(0), haystack.Length() - needle.Length();
    var i := 0;
    while i <= forwardLen
      invariant i <= forwardLen + 1
      invariant forall p :: 0 <= p < i ==> !OccursAt(haystack.Content(), needle.Content(), p)
    {
      while i <= forwardLen && haystack.At(i) != first
        invariant i <= forwardLen + 1
        invariant forall p :: 0 <= p < i ==> !OccursAt(haystack.Content(), needle.Content(), p)
      {
        OccursPointwise(haystack, needle, i);
        i := i + 1;
      }
      if i <= forwardLen {
        var all := MatchAt(haystack, needle, i, 1);
        if all {
          return Some(i);
        }
        i := i + 1;
      }
    }
    return None;
  }

  method Find(haystack: View, needle: View) returns (r: Option<nat>)
    requires haystack.Valid() && needle.Valid()
    ensures IsFirst(haystack.Content(), needle.Content(), r)
  {
    if needle.Length() <= 4 {
      r := BruteForceFind(haystack, needle);
    } else {
      r := HorspoolFind(haystack, needle);
    }
  }

  /** Every unit of the needle but the first allows a shift of at most its index. */
  ghost predicate BackwardTable(table: seq<nat>, needle: View)
    requires needle.Valid()
  {
    && |table| == 256
    && (forall b :: 0 <= b < 256 ==> 1 <= table[b] <= needle.Length())
    && (forall j :: 0 < j < needle.Length() ==> table[LowByte(needle.At(j))] <= j)
  }

  /** Positions skipped by a backward shift hold no occurrence. */
  lemma BackwardSkipSafe(haystack: View, needle: View, table: seq<nat>, i: nat, p: int)
    requires haystack.Valid() && needle.Valid() && needle.Length() > 0
    requires BackwardTable(table, needle) && i + needle.Length() <= haystack.Length()
    requires i - table[LowByte(haystack.At(i))] < p < i
    ensures !OccursAt(haystack.Content(), needle.Content(), p)
  {
    if 0 <= p {
      OccursPointwise(haystack, needle, p);
      var j := i - p;
      assert haystack.At(p + j) == haystack.At(i);
      assert table[LowByte(needle.At(j))] <= j;
    }
  }

  /** Fills the table from right to left, so the first occurrence of a byte decides. */
  method BuildBackwardTable(needle: View) returns (table: array<nat>)
    requires needle.Valid() && needle.Length() > 0
    ensures fresh(table) && BackwardTable(table[..], needle)
  {
    var m := needle.Length();
    table := new nat[256](_ => m);
    var i := m - 1;
    while i > 0
      invariant 0 <= i <= m - 1
      invariant forall b :: 0 <= b < 256 ==> 1 <= table[b] <= m
      invariant forall j :: i < j < m ==> table[LowByte(needle.At(j))] <= j
    {
      table[LowByte(needle.At(i))] := i;
      i := i - 1;
    }
  }

  /** Horspool's search backwards finds the last occurrence. */
  method HorspoolRevFind(haystack: View, needle: View) returns (r: Option<nat>)
    requires haystack.Valid() && needle.Valid()
    ensures IsLast(haystack.Content(), needle.Content(), r)
  {
    if needle.Length() == 0 {
      return Some(haystack.Length());
    }
    if haystack.Length() < needle.Length() {
      return None;
    }
    var skip := BuildBackwardTable(needle);
    ghost var table := skip[..];
    var i := haystack.Length() - needle.Length();
    while i >= 0
      invariant i <= haystack.Length() - needle.Length()
      invariant skip[..] == table
      invariant forall p :: p > i ==> !OccursAt(haystack.Content(), needle.Content(), p)
      decreases i
    {
      var all := MatchAt(haystack, needle, i, 0);
      if all {
        return Some(i);
      }
      var shift := skip[LowByte(haystack.At(i))];
      forall p | i - shift < p < i ensures !OccursAt(haystack.Content(), needle.Content(), p) {
        BackwardSkipSafe(haystack, needle, table, i, p);
      }
      i := i - shift;
    }
    return None;
  }

  method BruteForceRevFind(haystack: View, needle: View) returns (r: Option<nat>)
    requires haystack.Valid() && needle.Valid()
    ensures IsLast(haystack.Content(), needle.Content(), r)
  {
    if needle.Length() == 0 {
      return Some(haystack.Length());
    }
    if haystack.Length() < needle.Length() {
      return None;
    }
    var first := needle.At(0);
    var i := haystack.Length() - needle.Length();
    while i >= 0
      invariant -1 <= i <= haystack.Length() - needle.Length()
      invariant forall p :: p > i ==> !OccursAt(haystack.Content(), needle.Content(), p)
    {
      while i >= 0 && haystack.At(i) != first
        invariant -1 <= i <= haystack.Length() - needle.Length()
        invariant forall p :: p > i ==> !OccursAt(haystack.Content(), needle.Content(), p)
      {
        OccursPointwise(haystack, needle, i);
        i := i - 1;
      }
      if i >= 0 {
        var all := MatchAt(haystack, needle, i, 1);
        if all {
          return Some(i);
        }
        i := i - 1;
      }
    }
    return None;
  }

  method RevFind(haystack: View, needle: View) returns (r: Option<nat>)
    requires haystack.Valid() && needle.Valid()
    ensures IsLast(haystack.Content(), needle.Content(), r)
  {
    if needle.Length() <= 4 {
      r := BruteForceRevFind(haystack, needle);
    } else {
      r := HorspoolRevFind(haystack, needle);
    }
  }

  /** First and last positions are unique, so the two algorithms agree on every input. */
  lemma SearchResultUnique(haystack: Text, needle: Text, r: Option<nat>, s: Option<nat>)
    ensures IsFirst(haystack, needle, r) && IsFirst(haystack, needle, s) ==> r == s
    ensures IsLast(haystack, needle, r) && IsLast(haystack, needle, s) ==> r == s
  {
    if r.Some? && s.Some? && r != s {
      assert r.value < s.value || s.value < r.value;
    }
  }

  method HasPrefix(self: View, str: View) returns (b: bool)
    requires self.Valid() && str.Valid()
    ensures b <==> str.Content() <= self.Content()
  {
    var r := Find(self, str);
    b := r == Some(0);
    assert str.Content() <= self.Content() <==> OccursAt(self.Content(), str.Content(), 0);
  }

  method HasSuffix(self: View, str: View) returns (b: bool)
    requires self.Valid() && str.Valid()
    ensures b <==> |str.Content()| <= |self.Content()| &&
                   self.Content()[|self.Content()| - |str.Content()|..] == str.Content()
  {
    var r := RevFind(self, str);
    ghost var s, n := self.Content(), str.Content();
    if |n| <= |s| {
      assert s[|s| - |n|..] == s[|s| - |n|..|s| - |n| + |n|];
      assert s[|s| - |n|..] == n <==> OccursAt(s, n, |s| - |n|);
    }
    b := r.Some? && r.value == self.Length() - str.Length();
  }
}
