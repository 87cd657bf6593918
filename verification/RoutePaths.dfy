/** Path segments and path normalization of the Luna router. */
module RoutePaths {
  import opened Text

  const SLASH := '/'

  function NonEmpty(parts: seq<string>): (r: seq<string>)
    ensures forall i :: 0 <= i < |r| ==> r[i] != "" && r[i] in parts
  {
    if parts == [] then []
    else NonEmpty(parts[..|parts| - 1]) + if parts[|parts| - 1] == "" then [] else [parts[|parts| - 1]]
  }

  /** The non-empty pieces of a path. */
  function Segments(path: string): seq<string> {
    NonEmpty(Split(path, SLASH))
  }

  /** `split_by`: one pass with the current piece as accumulator. */
  method SplitBy(s: string, sep: char) returns (result: seq<string>)
    ensures result == Split(s, sep)
  {
    result := [];
    var current := "";
    for i := 0 to |s|
      invariant result + [current] == Split(s[..i], sep)
    {
      assert s[..i + 1][..i] == s[..i];
      if s[i] == sep {
        result, current := result + [current], "";
      } else {
        assert (result + [current])[..|result|] == result;
        current := current + [s[i]];
      }
    }
    assert s[..|s|] == s;
    result := result + [current];
  }

  method SplitPathSegments(path: string) returns (result: seq<string>)
    ensures result == Segments(path)
  {
    var parts := SplitBy(path, SLASH);
    result := [];
    for i := 0 to |parts|
      invariant result == NonEmpty(parts[..i])
    {
      assert parts[..i + 1][..i] == parts[..i];
      if parts[i] != "" {
        result := result + [parts[i]];
      }
    }
    assert parts[..|parts|] == parts;
  }

  method JoinSegments(segments: seq<string>) returns (result: string)
    ensures result == Join(segments, SLASH)
  {
    result := "";
    for i := 0 to |segments|
      invariant result == Join(segments[..i], SLASH)
    {
      assert segments[..i + 1][..i] == segments[..i];
      if i > 0 {
        result := result + [SLASH];
      }
      result := result + segments[i];
    }
    assert segments[..|segments|] == segments;
  }

  lemma {:induction false} NonEmptyConcat(a: seq<string>, b: seq<string>)
    ensures NonEmpty(a + b) == NonEmpty(a) + NonEmpty(b)
  {
    if b == [] {
      assert a + b == a;
    } else {
      assert (a + b)[..|a + b| - 1] == a + b[..|b| - 1];
      NonEmptyConcat(a, b[..|b| - 1]);
    }
  }

  lemma {:induction false} NonEmptyIdentity(parts: seq<string>)
    requires forall i :: 0 <= i < |parts| ==> parts[i] != ""
    ensures NonEmpty(parts) == parts
  {
    if parts != [] {
      NonEmptyIdentity(parts[..|parts| - 1]);
    }
  }

  /** What `Segments` yields: pieces that are neither empty nor contain a slash. */
  ghost predicate Proper(segs: seq<string>) {
    AllFree(segs, SLASH) && forall i :: 0 <= i < |segs| ==> segs[i] != ""
  }

  lemma SegmentsProper(path: string)
    ensures Proper(Segments(path))
  {
    var parts := Split(path, SLASH);
    assert forall p :: p in parts ==> Free(p, SLASH);
  }

  /** Joining proper segments and splitting again gives them back, also when there are none. */
  lemma SegmentsOfJoin(segs: seq<string>)
    requires Proper(segs)
    ensures Segments(Join(segs, SLASH)) == segs
  {
    if segs != [] {
      SplitJoin(segs, SLASH);
    }
    NonEmptyIdentity(segs);
  }

  lemma SegmentsAtSlash(a: string, b: string)
    ensures Segments(a + [SLASH] + b) == Segments(a) + Segments(b)
  {
    SplitAtSeparator(a, b, SLASH);
    NonEmptyConcat(Split(a, SLASH), Split(b, SLASH));
  }

  predicate EndsWithSlash(s: string) {
    s != "" && s[|s| - 1] == SLASH
  }

  predicate StartsWithSlash(s: string) {
    s != "" && s[0] == SLASH
  }

  /** Runs of slashes become one. */
  function Collapse(s: string): string {
    if s == "" then ""
    else
      var before := Collapse(s[..|s| - 1]);
      if s[|s| - 1] == SLASH && EndsWithSlash(before) then before else before + [s[|s| - 1]]
  }

  /** `normalize_path` */
  method NormalizePath(path: string) returns (result: string)
    ensures result == Normalize(path)
  {
    if path == "" || path == "/" {
      return "/";
    }
    result := "";
    var prevSlash := false;
    for i := 0 to |path|
      invariant result == Collapse(path[..i])
      invariant prevSlash <==> EndsWithSlash(result)
    {
      assert path[..i + 1][..i] == path[..i];
      if path[i] == SLASH {
        if !prevSlash {
          result := result + [path[i]];
        }
        prevSlash := true;
      } else {
        result := result + [path[i]];
        prevSlash := false;
      }
    }
    assert path[..|path|] == path;
    if |result| > 1 && result[|result| - 1] == SLASH {
      result := result[..|result| - 1];
    }
  }

  function Normalize(path: string): string {
    if path == "" || path == "/" then "/"
    else
      var r := Collapse(path);
      if |r| > 1 && EndsWithSlash(r) then r[..|r| - 1] else r
  }

  function Lead(path: string): string {
    if StartsWithSlash(path) then [SLASH] else ""
  }

  lemma SplitSnoc(q: string, c: char)
    ensures Split(q + [c], SLASH) == Extend(Split(q, SLASH), c, SLASH)
  {
    assert (q + [c])[..|q|] == q;
  }

  lemma CollapseSnoc(q: string, c: char)
    ensures Collapse(q + [c]) == if c == SLASH && EndsWithSlash(q) then Collapse(q) else Collapse(q) + [c]
  {
    assert (q + [c])[..|q|] == q;
    CollapseEnds(q);
  }

  lemma {:induction false} CollapseEnds(q: string)
    ensures EndsWithSlash(Collapse(q)) <==> EndsWithSlash(q)
  {
    if q != "" {
      CollapseEnds(q[..|q| - 1]);
    }
  }

  lemma NonEmptySnoc(parts: seq<string>, p: string)
    ensures NonEmpty(parts + [p]) == NonEmpty(parts) + if p == "" then [] else [p]
  {
    assert (parts + [p])[..|parts|] == parts;
  }

  lemma JoinSnoc(segs: seq<string>, p: string)
    ensures Join(segs + [p], SLASH) == if segs == [] then p else Join(segs, SLASH) + [SLASH] + p
  {
    assert (segs + [p])[..|segs|] == segs;
  }

  lemma SegmentsEmpty()
    ensures Segments("") == []
  {
    assert Split("", SLASH) == [] + [""];
    NonEmptySnoc([], "");
  }

  /** The last piece is empty exactly at the start of the text and after a separator. */
  lemma LastPiece(s: string)
    ensures Split(s, SLASH)[|Split(s, SLASH)| - 1] == "" <==> s == "" || EndsWithSlash(s)
  {
  }

  lemma SegmentsSlash(q: string)
    ensures Segments(q + [SLASH]) == Segments(q)
  {
    SplitSnoc(q, SLASH);
    NonEmptySnoc(Split(q, SLASH), "");
  }

  /** A character after a slash, or at the start, begins a segment. */
  lemma SegmentsBegin(q: string, c: char)
    requires c != SLASH && (q == "" || EndsWithSlash(q))
    ensures Segments(q + [c]) == Segments(q) + [[c]]
  {
    LastPiece(q);
    SplitSnoc(q, c);
    var parts := Split(q, SLASH);
    var front := parts[..|parts| - 1];
    assert parts == front + [""];
    assert "" + [c] == [c];
    NonEmptySnoc(front, "");
    NonEmptySnoc(front, [c]);
  }

  /** Any other character extends the last segment. */
  lemma SegmentsExtend(q: string, c: char)
    requires c != SLASH && q != "" && !EndsWithSlash(q)
    ensures Segments(q) != [] && Segments(q + [c]) == Extend(Segments(q), c, SLASH)
  {
    LastPiece(q);
    SplitSnoc(q, c);
    var parts := Split(q, SLASH);
    var front, last := parts[..|parts| - 1], parts[|parts| - 1];
    assert parts == front + [last];
    NonEmptySnoc(front, last);
    NonEmptySnoc(front, last + [c]);
  }

  /** `col` is a lead, the segments joined, and a slash if the text ends with one after a segment. */
  ghost predicate IsForm(col: string, lead: string, segs: seq<string>, ends: bool) {
    col == lead + Join(segs, SLASH) + if ends && segs != [] then [SLASH] else ""
  }

  ghost predicate HasForm(path: string) {
    IsForm(Collapse(path), Lead(path), Segments(path), EndsWithSlash(path))
  }

  lemma LeadSnoc(q: string, c: char)
    ensures Lead(q + [c]) == if q != "" then Lead(q) else if c == SLASH then [SLASH] else ""
  {
  }

  lemma SegmentsLastPiece(q: string)
    requires q != "" && !EndsWithSlash(q)
    ensures Segments(q) != []
  {
    LastPiece(q);
  }

  lemma BeginForm(col: string, lead: string, segs: seq<string>, ends: bool, c: char)
    requires IsForm(col, lead, segs, ends) && (ends || segs == [])
    ensures IsForm(col + [c], lead, segs + [[c]], false)
  {
    JoinSnoc(segs, [c]);
    var j, t := Join(segs, SLASH), if ends && segs != [] then [SLASH] else "";
    assert lead + j + t + [c] == lead + (j + t + [c]);
  }

  lemma ExtendForm(col: string, lead: string, segs: seq<string>, c: char)
    requires IsForm(col, lead, segs, false) && segs != [] && c != SLASH
    ensures IsForm(col + [c], lead, Extend(segs, c, SLASH), false)
  {
    JoinExtend(segs, c, SLASH);
    assert lead + Join(segs, SLASH) + "" + [c] == lead + (Join(segs, SLASH) + [c]) + "";
  }

  /** A slash is dropped after another one, becomes the lead of an empty text, and else ends it. */
  lemma SlashForm(col: string, lead: string, segs: seq<string>)
    requires IsForm(col, lead, segs, false) && segs != []
    ensures IsForm(col + [SLASH], lead, segs, true)
  {
    assert lead + Join(segs, SLASH) + "" == lead + Join(segs, SLASH);
  }

  lemma FormSlash(q: string)
    requires HasForm(q)
    ensures HasForm(q + [SLASH])
  {
    CollapseSnoc(q, SLASH);
    SegmentsSlash(q);
    LeadSnoc(q, SLASH);
    if q == "" {
      SegmentsEmpty();
      assert Collapse("") + [SLASH] == [SLASH] + Join([], SLASH) + "";
    } else if !EndsWithSlash(q) {
      SegmentsLastPiece(q);
      SlashForm(Collapse(q), Lead(q), Segments(q));
    }
    assert IsForm(Collapse(q + [SLASH]), Lead(q + [SLASH]), Segments(q), true);
  }

  lemma FormBegin(q: string, c: char)
    requires HasForm(q) && c != SLASH && (q == "" || EndsWithSlash(q))
    ensures HasForm(q + [c])
  {
    CollapseSnoc(q, c);
    SegmentsBegin(q, c);
    LeadSnoc(q, c);
    SegmentsEmpty();
    BeginForm(Collapse(q), Lead(q), Segments(q), EndsWithSlash(q), c);
  }

  lemma FormExtend(q: string, c: char)
    requires HasForm(q) && c != SLASH && q != "" && !EndsWithSlash(q)
    ensures HasForm(q + [c])
  {
    CollapseSnoc(q, c);
    SegmentsExtend(q, c);
    LeadSnoc(q, c);
    ExtendForm(Collapse(q), Lead(q), Segments(q), c);
  }

  /** Collapsing keeps a leading slash, joins the segments by single slashes, and keeps at most one
      trailing slash. */
  lemma {:induction false} CollapseForm(path: string)
    ensures HasForm(path)
  {
    if path == "" {
      SegmentsEmpty();
    } else {
      var q, c := path[..|path| - 1], path[|path| - 1];
      assert path == q + [c];
      CollapseForm(q);
      if c == SLASH {
        FormSlash(q);
      } else if q == "" || EndsWithSlash(q) {
        FormBegin(q, c);
      } else {
        FormExtend(q, c);
      }
    }
  }

  lemma JoinEnd(segs: seq<string>)
    requires Proper(segs)
    ensures segs == [] <==> Join(segs, SLASH) == ""
    ensures segs != [] ==> !EndsWithSlash(Join(segs, SLASH)) && !StartsWithSlash(Join(segs, SLASH))
    decreases |segs|
  {
    if segs != [] {
      var front, last := segs[..|segs| - 1], segs[|segs| - 1];
      assert segs == front + [last];
      JoinSnoc(front, last);
      JoinEnd(front);
    }
  }

  /** A leading slash is kept, and the empty path becomes the root. */
  function LeadOrRoot(path: string): string {
    if path == "" then [SLASH] else Lead(path)
  }

  lemma NormalizeRoot(path: string)
    requires path == "" || path == "/"
    ensures Normalize(path) == LeadOrRoot(path) + Join(Segments(path), SLASH)
  {
    SegmentsEmpty();
    SegmentsSlash("");
    assert "" + [SLASH] == "/";
    assert Segments(path) == [];
  }

  /** What normalization computes: the segments, joined, with a leading slash if there was one or if
      the path was empty. */
  lemma NormalizeForm(path: string)
    ensures Normalize(path) == LeadOrRoot(path) + Join(Segments(path), SLASH)
  {
    if path == "" || path == "/" {
      NormalizeRoot(path);
    } else {
      CollapseForm(path);
      SegmentsProper(path);
      JoinEnd(Segments(path));
      NormalizeTail(path, Lead(path), Join(Segments(path), SLASH));
    }
  }

  lemma NormalizeTail(path: string, l: string, j: string)
    requires path != "" && path != "/" && HasForm(path)
    requires l == Lead(path) && j == Join(Segments(path), SLASH)
    requires (Segments(path) == [] <==> j == "") && !EndsWithSlash(j)
    ensures Normalize(path) == l + j
  {
    var r := Collapse(path);
    CollapseEnds(path);
    if EndsWithSlash(path) && j != "" {
      assert r == l + j + [SLASH];
      assert r[..|r| - 1] == l + j;
    } else {
      assert r == l + j + "" == l + j;
    }
  }

  lemma SegmentsOfRooted(segs: seq<string>)
    requires Proper(segs)
    ensures Segments([SLASH] + Join(segs, SLASH)) == segs
  {
    var j := Join(segs, SLASH);
    SegmentsAtSlash("", j);
    assert "" + [SLASH] + j == [SLASH] + j;
    SegmentsEmpty();
    SegmentsOfJoin(segs);
  }

  /** Normalization changes no segment. */
  lemma NormalizeKeepsSegments(path: string)
    ensures Segments(Normalize(path)) == Segments(path)
  {
    NormalizeForm(path);
    SegmentsProper(path);
    SegmentsOfRooted(Segments(path));
    SegmentsOfJoin(Segments(path));
    assert "" + Join(Segments(path), SLASH) == Join(Segments(path), SLASH);
  }

  /** Two paths normalize alike exactly if they have the same segments and agree on being absolute. */
  lemma NormalizeEqual(a: string, b: string)
    ensures Normalize(a) == Normalize(b) <==> Segments(a) == Segments(b) && LeadOrRoot(a) == LeadOrRoot(b)
  {
    NormalizeForm(a);
    NormalizeForm(b);
    NormalizeKeepsSegments(a);
    NormalizeKeepsSegments(b);
    if Normalize(a) == Normalize(b) && LeadOrRoot(a) != LeadOrRoot(b) {
      NormalizedLead(a);
      NormalizedLead(b);
    }
  }

  /** The result is absolute exactly if the input was, or was empty; and it is never empty. */
  lemma NormalizedLead(path: string)
    ensures Normalize(path) != "" && Lead(Normalize(path)) == LeadOrRoot(path)
  {
    NormalizeForm(path);
    SegmentsProper(path);
    JoinEnd(Segments(path));
    if LeadOrRoot(path) == "" {
      RelativeHasSegment(path);
      assert "" + Join(Segments(path), SLASH) == Join(Segments(path), SLASH);
    }
  }

  lemma {:induction false} RelativeHasSegment(path: string)
    requires path != "" && !StartsWithSlash(path)
    ensures Segments(path) != []
  {
    var q := path[..|path| - 1];
    assert path == q + [path[|path| - 1]];
    if path[|path| - 1] != SLASH {
      SegmentsLastPiece(path);
    } else {
      SegmentsSlash(q);
      RelativeHasSegment(q);
    }
  }

  lemma NormalizeIdempotent(path: string)
    ensures Normalize(Normalize(path)) == Normalize(path)
  {
    NormalizeKeepsSegments(path);
    NormalizedLead(path);
    NormalizeEqual(Normalize(path), path);
  }
}
