/** Splitting and joining text on a separator, as the store does on "." and the routes on "/". */
module Text {

  predicate Free(part: string, sep: char) {
    sep !in part
  }

  predicate AllFree(parts: seq<string>, sep: char) {
    forall i :: 0 <= i < |parts| ==> Free(parts[i], sep)
  }

  function Join(parts: seq<string>, sep: char): string {
    if |parts| == 0 then ""
    else if |parts| == 1 then parts[0]
    else Join(parts[..|parts| - 1], sep) + [sep] + parts[|parts| - 1]
  }

  /** The pieces between separators; never empty. */
  function Split(s: string, sep: char): (parts: seq<string>)
    ensures |parts| >= 1 && AllFree(parts, sep)
  {
    if s == "" then [""]
    else
      Extend(Split(s[..|s| - 1], sep), s[|s| - 1], sep)
  }

  /** One more character either ends the last piece or belongs to it. */
  function Extend(parts: seq<string>, c: char, sep: char): seq<string>
    requires |parts| >= 1
  {
    if c == sep then parts + [""]
    else parts[..|parts| - 1] + [parts[|parts| - 1] + [c]]
  }

  predicate StartsWith(s: string, prefix: string) {
    prefix <= s
  }

  lemma ExtendAppend(a: seq<string>, b: seq<string>, c: char, sep: char)
    requires |b| >= 1
    ensures Extend(a + b, c, sep) == a + Extend(b, c, sep)
  {
    assert (a + b)[..|a + b| - 1] == a + b[..|b| - 1];
  }

  lemma SplitNext(s: string, c: char, sep: char)
    ensures Split(s + [c], sep) == Extend(Split(s, sep), c, sep)
  {
    assert (s + [c])[..|s|] == s;
  }

  /** Splitting is additive at a separator. */
  lemma {:induction false} SplitAtSeparator(s: string, t: string, sep: char)
    ensures Split(s + [sep] + t, sep) == Split(s, sep) + Split(t, sep)
  {
    SplitNext(s, sep, sep);
    if t == "" {
      assert s + [sep] + t == s + [sep];
    } else {
      var t0, c := t[..|t| - 1], t[|t| - 1];
      SplitAtSeparator(s, t0, sep);
      assert t == t0 + [c];
      assert s + [sep] + t == (s + [sep] + t0) + [c];
      SplitNext(s + [sep] + t0, c, sep);
      SplitNext(t0, c, sep);
      ExtendAppend(Split(s, sep), Split(t0, sep), c, sep);
    }
  }

  lemma {:induction false} SplitFree(part: string, sep: char)
    requires Free(part, sep)
    ensures Split(part, sep) == [part]
  {
    if part != "" {
      SplitFree(part[..|part| - 1], sep);
      assert part[..|part| - 1] + [part[|part| - 1]] == part;
    }
  }

  lemma {:induction false} SplitJoin(parts: seq<string>, sep: char)
    requires |parts| > 0 && AllFree(parts, sep)
    ensures Split(Join(parts, sep), sep) == parts
  {
    var front, last := parts[..|parts| - 1], parts[|parts| - 1];
    assert parts == front + [last];
    SplitFree(last, sep);
    if |parts| > 1 {
      SplitJoin(front, sep);
      SplitAtSeparator(Join(front, sep), last, sep);
    }
  }

  lemma JoinExtend(parts: seq<string>, c: char, sep: char)
    requires |parts| >= 1
    ensures Join(Extend(parts, c, sep), sep) == Join(parts, sep) + [c]
  {
    var next := Extend(parts, c, sep);
    if c == sep {
      assert next[..|next| - 1] == parts;
    } else {
      assert next[..|next| - 1] == parts[..|parts| - 1];
    }
  }

  lemma {:induction false} JoinSplit(s: string, sep: char)
    ensures Join(Split(s, sep), sep) == s
  {
    if s != "" {
      JoinSplit(s[..|s| - 1], sep);
      JoinExtend(Split(s[..|s| - 1], sep), s[|s| - 1], sep);
    }
  }

  lemma {:induction false} JoinAppend(parts: seq<string>, rest: seq<string>, sep: char)
    requires |parts| > 0 && |rest| > 0
    ensures Join(parts + rest, sep) == Join(parts, sep) + [sep] + Join(rest, sep)
  {
    var whole := parts + rest;
    if |rest| == 1 {
      assert whole[..|whole| - 1] == parts;
    } else {
      JoinAppend(parts, rest[..|rest| - 1], sep);
      assert whole[..|whole| - 1] == parts + rest[..|rest| - 1];
    }
  }

  lemma StartsWithMeansBelow(path: seq<string>, key: string, sep: char)
    requires |path| > 0 && AllFree(path, sep)
    requires StartsWith(key, Join(path, sep) + [sep])
    ensures path < Split(key, sep)
  {
    var prefix := Join(path, sep);
    var rest := key[|prefix| + 1..];
    assert key == prefix + [sep] + rest;
    SplitAtSeparator(prefix, rest, sep);
    SplitJoin(path, sep);
  }

  lemma BelowMeansStartsWith(path: seq<string>, key: string, sep: char)
    requires |path| > 0 && path < Split(key, sep)
    ensures StartsWith(key, Join(path, sep) + [sep])
  {
    var keyPath := Split(key, sep);
    JoinSplit(key, sep);
    JoinAppend(path, keyPath[|path|..], sep);
    assert path + keyPath[|path|..] == keyPath;
  }

  /** The string test that finds the keys below a path is the prefix order on paths. */
  lemma KeyBelowPath(path: seq<string>, key: string, sep: char)
    requires |path| > 0 && AllFree(path, sep)
    ensures StartsWith(key, Join(path, sep) + [sep]) <==> path < Split(key, sep)
    ensures key == Join(path, sep) <==> path == Split(key, sep)
  {
    if StartsWith(key, Join(path, sep) + [sep]) { StartsWithMeansBelow(path, key, sep); }
    if path < Split(key, sep) { BelowMeansStartsWith(path, key, sep); }
    JoinSplit(key, sep);
    SplitJoin(path, sep);
  }
}
