/** Merging coverage reports from several sources, and their statistics. */
module Coverage {

  type Path = string

  datatype Line = Line(line: int, count: int)

  /** One file of a source: a source is a Map from paths to line coverage, here in its order. */
  datatype File = File(path: Path, lines: seq<Line>)

  type Source = seq<File>

  /** A single measurement. */
  datatype Rec = Rec(path: Path, line: int, count: int)

  ghost function OfLines(path: Path, lines: seq<Line>): set<Rec> {
    set l | l in lines :: Rec(path, l.line, l.count)
  }

  ghost function OfSource(source: Source): set<Rec> {
    set f, l | f in source && l in f.lines :: Rec(f.path, l.line, l.count)
  }

  /** Everything that was measured. */
  ghost function OfAll(sources: seq<Source>): set<Rec> {
    set source, f, l | source in sources && f in source && l in f.lines :: Rec(f.path, l.line, l.count)
  }

  /** Some source has a count for the line. */
  ghost predicate Measured(sources: seq<Source>, path: Path, line: int, count: int) {
    exists source, f :: source in sources && f in source && f.path == path && Line(line, count) in f.lines
  }

  lemma RecordsAreMeasured(sources: seq<Source>, path: Path, line: int, count: int)
    ensures Rec(path, line, count) in OfAll(sources) <==> Measured(sources, path, line, count)
  {
    if Measured(sources, path, line, count) {
      var source, f :| source in sources && f in source && f.path == path && Line(line, count) in f.lines;
      var l := Line(line, count);
      assert Rec(path, line, count) == Rec(f.path, l.line, l.count);
    }
  }

  /** The largest count recorded for the line. */
  ghost predicate IsMax(recs: set<Rec>, path: Path, line: int, count: int) {
    Rec(path, line, count) in recs && forall r :: r in recs && r.path == path && r.line == line ==> r.count <= count
  }

  lemma {:induction false} MaxExists(recs: set<Rec>, r: Rec) returns (count: int)
    requires r in recs
    ensures IsMax(recs, r.path, r.line, count)
  {
    if s :| s in recs && s.path == r.path && s.line == r.line && s.count > r.count {
      count := MaxExists(recs - {r}, s);
    } else {
      count := r.count;
    }
  }

  ghost predicate DistinctLines(lines: seq<Line>) {
    forall i, j :: 0 <= i < j < |lines| ==> lines[i].line != lines[j].line
  }

  /** Each line once, with the largest count recorded for it. */
  ghost predicate Best(lines: seq<Line>, recs: set<Rec>, path: Path) {
    DistinctLines(lines) && forall l: Line :: l in lines <==> IsMax(recs, path, l.line, l.count)
  }

  ghost function PathsOf(source: Source): set<Path> {
    set f | f in source :: f.path
  }

  ghost function AllPaths(sources: seq<Source>): set<Path> {
    set source, f | source in sources && f in source :: f.path
  }

  /** `target.lines.find(...)` */
  method FindLine(lines: seq<Line>, line: int) returns (k: nat)
    ensures k <= |lines| && (k < |lines| ==> lines[k].line == line)
    ensures k == |lines| <==> forall l :: l in lines ==> l.line != line
  {
    k := 0;
    while k < |lines| && lines[k].line != line
      invariant k <= |lines| && forall i :: 0 <= i < k ==> lines[i].line != line
    {
      k := k + 1;
    }
  }

  lemma OtherLine(recs: set<Rec>, x: Rec, path: Path, line: int, count: int)
    requires path != x.path || line != x.line
    ensures IsMax(recs + {x}, path, line, count) <==> IsMax(recs, path, line, count)
  {
  }

  lemma NewMax(recs: set<Rec>, x: Rec, count: int)
    requires forall r :: r in recs && r.path == x.path && r.line == x.line ==> r.count <= count
    requires Rec(x.path, x.line, count) in recs || count == x.count
    ensures forall c :: IsMax(recs + {x}, x.path, x.line, c) <==> c == if x.count > count then x.count else count
  {
    var best := if x.count > count then x.count else count;
    assert Rec(x.path, x.line, best) in recs + {x};
    assert IsMax(recs + {x}, x.path, x.line, best);
    forall c | IsMax(recs + {x}, x.path, x.line, c) ensures c == best {
      assert Rec(x.path, x.line, c) in recs + {x};
    }
  }

  /** The new record replaces the count of its line. */
  lemma BestAfter(lines: seq<Line>, lines': seq<Line>, recs: set<Rec>, path: Path, x: Line, best: int)
    requires Best(lines, recs, path) && DistinctLines(lines')
    requires forall l :: l in lines' <==> if l.line == x.line then l.count == best else l in lines
    requires forall c :: IsMax(recs + {Rec(path, x.line, x.count)}, path, x.line, c) <==> c == best
    ensures Best(lines', recs + {Rec(path, x.line, x.count)}, path)
  {
    forall l: Line ensures l in lines' <==> IsMax(recs + {Rec(path, x.line, x.count)}, path, l.line, l.count) {
      if l.line != x.line { OtherLine(recs, Rec(path, x.line, x.count), path, l.line, l.count); }
    }
  }

  lemma ReplaceOne(lines: seq<Line>, k: nat, x: Line)
    requires DistinctLines(lines) && k < |lines| && lines[k].line == x.line
    ensures DistinctLines(lines[k := x])
    ensures forall l :: l in lines[k := x] <==> if l.line == x.line then l.count == x.count else l in lines
  {
    var lines' := lines[k := x];
    assert lines'[k] == x;
    forall l | l in lines && l.line != x.line ensures l in lines' {
      var i :| 0 <= i < |lines| && lines[i] == l;
      assert lines'[i] == l;
    }
  }

  lemma LineMissing(lines: seq<Line>, recs: set<Rec>, path: Path, line: int)
    requires Best(lines, recs, path)
    ensures (forall l :: l in lines ==> l.line != line) ==> forall r :: r in recs && r.path == path ==> r.line != line
  {
    if r :| r in recs && r.path == path && r.line == line {
      var c := MaxExists(recs, r);
      assert Line(line, c) in lines;
    }
  }

  /** Enters one line of one source. */
  method AddLine(lines: seq<Line>, x: Line, ghost recs: set<Rec>, ghost path: Path) returns (lines': seq<Line>)
    requires Best(lines, recs, path)
    ensures Best(lines', recs + {Rec(path, x.line, x.count)}, path)
  {
    ghost var r := Rec(path, x.line, x.count);
    var k := FindLine(lines, x.line);
    if k < |lines| {
      var best := if x.count > lines[k].count then x.count else lines[k].count;
      assert lines[k] in lines;
      assert IsMax(recs, path, lines[k].line, lines[k].count);
      NewMax(recs, r, lines[k].count);
      ReplaceOne(lines, k, Line(x.line, best));
      lines' := lines[k := Line(x.line, best)];
      BestAfter(lines, lines', recs, path, x, best);
    } else {
      LineMissing(lines, recs, path, x.line);
      NewMax(recs, r, x.count);
      lines' := lines + [x];
      BestAfter(lines, lines', recs, path, x, x.count);
    }
  }

  /** The map while merging: what was entered so far, for the files met so far. */
  ghost predicate MergedSoFar(merged: map<Path, seq<Line>>, recs: set<Rec>) {
    && (forall path :: path in merged ==> Best(merged[path], recs, path))
    && (forall r :: r in recs ==> r.path in merged)
  }

  lemma OtherPath(lines: seq<Line>, recs: set<Rec>, x: Rec, path: Path)
    requires Best(lines, recs, path) && path != x.path
    ensures Best(lines, recs + {x}, path)
  {
    forall l: Line ensures l in lines <==> IsMax(recs + {x}, path, l.line, l.count) {
      OtherLine(recs, x, path, l.line, l.count);
    }
  }

  lemma MergedStep(merged: map<Path, seq<Line>>, lines: seq<Line>, recs: set<Rec>, x: Rec)
    requires MergedSoFar(merged, recs) && x.path in merged && Best(lines, recs + {x}, x.path)
    ensures MergedSoFar(merged[x.path := lines], recs + {x})
  {
    forall path | path in merged && path != x.path ensures Best(merged[path], recs + {x}, path) {
      OtherPath(merged[path], recs, x, path);
    }
  }

  lemma LinesSnoc(recs: set<Rec>, path: Path, lines: seq<Line>, k: nat)
    requires k < |lines|
    ensures recs + OfLines(path, lines[..k + 1]) ==
            (recs + OfLines(path, lines[..k])) + {Rec(path, lines[k].line, lines[k].count)}
  {
    assert lines[..k + 1] == lines[..k] + [lines[k]];
  }

  lemma SourceSnoc(recs: set<Rec>, source: Source, j: nat)
    requires j < |source|
    ensures recs + OfSource(source[..j + 1]) ==
              (recs + OfSource(source[..j])) + OfLines(source[j].path, source[j].lines)
    ensures PathsOf(source[..j + 1]) == PathsOf(source[..j]) + {source[j].path}
  {
    assert source[..j + 1] == source[..j] + [source[j]];
    var before, f := source[..j], source[j];
    assert OfSource(before + [f]) == OfSource(before) + OfLines(f.path, f.lines);
  }

  lemma AllSnoc(sources: seq<Source>, i: nat)
    requires i < |sources|
    ensures OfAll(sources[..i + 1]) == OfAll(sources[..i]) + OfSource(sources[i])
    ensures AllPaths(sources[..i + 1]) == AllPaths(sources[..i]) + PathsOf(sources[i])
  {
    assert sources[..i + 1] == sources[..i] + [sources[i]];
    var before, source := sources[..i], sources[i];
    assert OfAll(before + [source]) == OfAll(before) + OfSource(source);
  }

  method AddFile(merged: map<Path, seq<Line>>, f: File, ghost recs: set<Rec>) returns (merged': map<Path, seq<Line>>)
    requires MergedSoFar(merged, recs)
    ensures MergedSoFar(merged', recs + OfLines(f.path, f.lines)) && merged'.Keys == merged.Keys + {f.path}
  {
    merged' := merged;
    if f.path !in merged' {
      merged' := merged'[f.path := []];
    }
    assert recs + OfLines(f.path, f.lines[..0]) == recs;
    for k := 0 to |f.lines|
      invariant merged'.Keys == merged.Keys + {f.path}
      invariant MergedSoFar(merged', recs + OfLines(f.path, f.lines[..k]))
    {
      ghost var now := recs + OfLines(f.path, f.lines[..k]);
      var lines := AddLine(merged'[f.path], f.lines[k], now, f.path);
      MergedStep(merged', lines, now, Rec(f.path, f.lines[k].line, f.lines[k].count));
      LinesSnoc(recs, f.path, f.lines, k);
      merged' := merged'[f.path := lines];
    }
    assert f.lines[..|f.lines|] == f.lines;
  }

  method AddSource(merged: map<Path, seq<Line>>, source: Source, ghost recs: set<Rec>)
    returns (merged': map<Path, seq<Line>>)
    requires MergedSoFar(merged, recs)
    ensures MergedSoFar(merged', recs + OfSource(source)) && merged'.Keys == merged.Keys + PathsOf(source)
  {
    merged' := merged;
    assert recs + OfSource(source[..0]) == recs;
    for j := 0 to |source|
      invariant MergedSoFar(merged', recs + OfSource(source[..j])) && merged'.Keys == merged.Keys + PathsOf(source[..j])
    {
      merged' := AddFile(merged', source[j], recs + OfSource(source[..j]));
      SourceSnoc(recs, source, j);
    }
    assert source[..|source|] == source;
  }

  ghost predicate Rising(lines: seq<Line>) {
    forall i, j :: 0 <= i < j < |lines| ==> lines[i].line < lines[j].line
  }

  lemma LastLargest(a: seq<Line>)
    requires Rising(a) && a != []
    ensures forall l :: l in a ==> l == a[|a| - 1] || l.line < a[|a| - 1].line
  {
  }

  function InsertLine(x: Line, sorted: seq<Line>): seq<Line> {
    if sorted != [] && sorted[|sorted| - 1].line > x.line then
      InsertLine(x, sorted[..|sorted| - 1]) + [sorted[|sorted| - 1]]
    else sorted + [x]
  }

  /** The built-in sort by line. */
  function SortByLine(lines: seq<Line>): seq<Line> {
    if lines == [] then [] else InsertLine(lines[|lines| - 1], SortByLine(lines[..|lines| - 1]))
  }

  lemma {:induction false} InsertRising(x: Line, sorted: seq<Line>)
    requires Rising(sorted) && forall l :: l in sorted ==> l.line != x.line
    ensures Rising(InsertLine(x, sorted)) && forall l :: l in InsertLine(x, sorted) <==> l == x || l in sorted
  {
    if sorted != [] && sorted[|sorted| - 1].line > x.line {
      var front, last := sorted[..|sorted| - 1], sorted[|sorted| - 1];
      assert sorted == front + [last];
      InsertRising(x, front);
      var r := InsertLine(x, front);
      assert InsertLine(x, sorted) == r + [last];
      forall l | l in r ensures l.line < last.line {
        assert l == x || l in front;
      }
    } else if sorted != [] {
      assert sorted[|sorted| - 1] in sorted;
      LastLargest(sorted);
    }
  }

  lemma {:induction false} SortRises(lines: seq<Line>)
    requires DistinctLines(lines)
    ensures Rising(SortByLine(lines)) && forall l :: l in SortByLine(lines) <==> l in lines
  {
    if lines != [] {
      var front, last := lines[..|lines| - 1], lines[|lines| - 1];
      assert lines == front + [last];
      SortRises(front);
      InsertRising(last, SortByLine(front));
    }
  }

  /** The merge of the sources: their files, each with rising lines that carry the largest count
      measured by any source. */
  ghost predicate IsMerge(merged: map<Path, seq<Line>>, sources: seq<Source>) {
    && merged.Keys == AllPaths(sources)
    && (forall path :: path in merged ==> Rising(merged[path]) && LargestCounts(merged[path], sources, path))
  }

  ghost predicate LargestCounts(lines: seq<Line>, sources: seq<Source>, path: Path) {
    forall l: Line :: l in lines <==>
      Measured(sources, path, l.line, l.count) && forall c :: Measured(sources, path, l.line, c) ==> c <= l.count
  }

  lemma BestIsLargest(lines: seq<Line>, sources: seq<Source>, path: Path)
    requires Best(lines, OfAll(sources), path)
    ensures LargestCounts(SortByLine(lines), sources, path) && Rising(SortByLine(lines))
  {
    SortRises(lines);
    var recs := OfAll(sources);
    forall l: Line
      ensures IsMax(recs, path, l.line, l.count) <==>
              Measured(sources, path, l.line, l.count) &&
              forall c :: Measured(sources, path, l.line, c) ==> c <= l.count
    {
      forall c ensures Rec(path, l.line, c) in recs <==> Measured(sources, path, l.line, c) {
        RecordsAreMeasured(sources, path, l.line, c);
      }
    }
  }

  /** `mergeCoverage` */
  method MergeCoverage(sources: seq<Source>) returns (merged: map<Path, seq<Line>>)
    ensures IsMerge(merged, sources)
  {
    var entered: map<Path, seq<Line>> := map[];
    for i := 0 to |sources|
      invariant MergedSoFar(entered, OfAll(sources[..i])) && entered.Keys == AllPaths(sources[..i])
    {
      entered := AddSource(entered, sources[i], OfAll(sources[..i]));
      AllSnoc(sources, i);
    }
    assert sources[..|sources|] == sources;
    merged := map path | path in entered :: SortByLine(entered[path]);
    forall path | path in merged ensures Rising(merged[path]) && LargestCounts(merged[path], sources, path) {
      BestIsLargest(entered[path], sources, path);
    }
  }

  lemma {:induction false} RisingUnique(a: seq<Line>, b: seq<Line>)
    requires Rising(a) && Rising(b) && forall l :: l in a <==> l in b
    ensures a == b
  {
    EmptyAlike(a, b);
    if a != [] {
      var x, y := a[|a| - 1], b[|b| - 1];
      assert x in b && y in a;
      LastLargest(a);
      LastLargest(b);
      var a0, b0 := a[..|a| - 1], b[..|b| - 1];
      assert a == a0 + [x] && b == b0 + [y];
      forall l ensures l in a0 <==> l in b0 {
        assert l in a0 <==> l in a && l != x;
        assert l in b0 <==> l in b && l != y;
      }
      RisingUnique(a0, b0);
    }
  }

  lemma EmptyAlike(a: seq<Line>, b: seq<Line>)
    requires forall l :: l in a <==> l in b
    ensures a == [] <==> b == []
  {
    if a != [] { assert a[0] in b; }
    if b != [] { assert b[0] in a; }
  }

  /** The result depends neither on the order of the sources, nor on repetitions. */
  lemma MergeOrderIrrelevant(a: seq<Source>, b: seq<Source>, m: map<Path, seq<Line>>, n: map<Path, seq<Line>>)
    requires forall s :: s in a <==> s in b
    requires IsMerge(m, a) && IsMerge(n, b)
    ensures m == n
  {
    assert AllPaths(a) == AllPaths(b);
    forall path | path in m ensures m[path] == n[path] {
      forall line, count ensures Measured(a, path, line, count) <==> Measured(b, path, line, count) {}
      RisingUnique(m[path], n[path]);
    }
  }

  // ----- Statistics -----

  /** Covered lines of all lines; also an entry of the per-directory map. */
  datatype Tally = Tally(covered: nat, total: nat)

  datatype Stats = Stats(files: nat, totalLines: nat, coveredLines: nat, rate: real)

  function Plus(a: Tally, b: Tally): Tally {
    Tally(a.covered + b.covered, a.total + b.total)
  }

  /** `lines.filter(l => l.count > 0)` */
  function Covered(lines: seq<Line>): (r: seq<Line>)
    ensures |r| <= |lines|
  {
    if lines == [] then []
    else Covered(lines[..|lines| - 1]) + if lines[|lines| - 1].count > 0 then [lines[|lines| - 1]] else []
  }

  function TallyOf(f: File): Tally {
    Tally(|Covered(f.lines)|, |f.lines|)
  }

  ghost function Sum(files: seq<File>): Tally {
    if files == [] then Tally(0, 0) else Plus(Sum(files[..|files| - 1]), TallyOf(files[|files| - 1]))
  }

  method CalculateStats(files: seq<File>) returns (stats: Stats)
    ensures stats.files == |files| && Sum(files) == Tally(stats.coveredLines, stats.totalLines)
    ensures stats.coveredLines == |AllHit(files)| && stats.totalLines == |AllLines(files)|
    ensures IsRate(stats.rate, stats.coveredLines, stats.totalLines)
  {
    var total: nat, covered: nat := 0, 0;
    for i := 0 to |files|
      invariant Sum(files[..i]) == Tally(covered, total) && covered <= total
    {
      assert files[..i + 1][..i] == files[..i];
      total := total + |files[i].lines|;
      covered := covered + |Covered(files[i].lines)|;
    }
    assert files[..|files|] == files;
    SumCounts(files);
    stats := Stats(|files|, total, covered, Rate(covered, total));
  }

  /** A percentage; of nothing, zero. */
  ghost predicate IsRate(rate: real, covered: nat, total: nat) {
    0.0 <= rate <= 100.0 && if total == 0 then rate == 0.0 else rate * total as real == covered as real * 100.0
  }

  function Rate(covered: nat, total: nat): (rate: real)
    requires covered <= total
    ensures IsRate(rate, covered, total)
  {
    if total > 0 then
      var share := covered as real / total as real;
      assert share * total as real == covered as real && 0.0 <= share <= 1.0;
      share * 100.0
    else 0.0
  }

  /** The files of a directory, tallied. */
  ghost function DirTally(files: seq<File>, dirname: Path -> Path, dir: Path): Tally {
    if files == [] then Tally(0, 0)
    else
      var before := DirTally(files[..|files| - 1], dirname, dir);
      if dirname(files[|files| - 1].path) == dir then Plus(before, TallyOf(files[|files| - 1])) else before
  }

  ghost function DirsOf(files: seq<File>, dirname: Path -> Path): set<Path> {
    if files == [] then {} else DirsOf(files[..|files| - 1], dirname) + {dirname(files[|files| - 1].path)}
  }

  /** The directories met, each with the tally of its files. */
  ghost predicate TalliedByDir(files: seq<File>, dirname: Path -> Path, byDir: map<Path, Tally>) {
    && byDir.Keys == DirsOf(files, dirname)
    && (forall dir :: dir in byDir ==> byDir[dir] == DirTally(files, dirname, dir))
  }

  lemma {:induction false} NoFilesNoTally(files: seq<File>, dirname: Path -> Path, dir: Path)
    requires dir !in DirsOf(files, dirname)
    ensures DirTally(files, dirname, dir) == Tally(0, 0)
  {
    if files != [] { NoFilesNoTally(files[..|files| - 1], dirname, dir); }
  }

  function Entry(byDir: map<Path, Tally>, dir: Path): Tally {
    if dir in byDir then byDir[dir] else Tally(0, 0)
  }

  /** Adds one file to the entry of its directory, created if missing. */
  method TallyFile(byDir: map<Path, Tally>, f: File, dir: Path) returns (byDir': map<Path, Tally>)
    ensures byDir' == byDir[dir := Plus(Entry(byDir, dir), TallyOf(f))]
  {
    byDir' := byDir;
    if dir !in byDir' {
      byDir' := byDir'[dir := Tally(0, 0)];
    }
    var dirStats := byDir'[dir];
    byDir' := byDir'[dir := Tally(dirStats.covered + |Covered(f.lines)|, dirStats.total + |f.lines|)];
  }

  lemma FileTallied(files: seq<File>, dirname: Path -> Path, byDir: map<Path, Tally>)
    requires files != [] && TalliedByDir(files[..|files| - 1], dirname, byDir)
    ensures var f := files[|files| - 1];
            TalliedByDir(files, dirname, byDir[dirname(f.path) := Plus(Entry(byDir, dirname(f.path)), TallyOf(f))])
  {
    var own := dirname(files[|files| - 1].path);
    if own !in byDir { NoFilesNoTally(files[..|files| - 1], dirname, own); }
  }

  /** `calculateDirectoryStats`, with the library's `dirname` as a parameter. */
  method CalculateDirectoryStats(files: seq<File>, dirname: Path -> Path) returns (byDir: map<Path, Tally>)
    ensures TalliedByDir(files, dirname, byDir)
    ensures forall dir :: dir in byDir <==> exists i :: 0 <= i < |files| && dirname(files[i].path) == dir
    ensures forall dir :: dir in byDir ==>
              byDir[dir].covered == |HitIn(files, dirname, dir)| && byDir[dir].total == |LinesIn(files, dirname, dir)|
  {
    byDir := map[];
    for i := 0 to |files|
      invariant TalliedByDir(files[..i], dirname, byDir)
    {
      assert files[..i + 1][..i] == files[..i];
      FileTallied(files[..i + 1], dirname, byDir);
      byDir := TallyFile(byDir, files[i], dirname(files[i].path));
    }
    assert files[..|files|] == files;
    forall dir ensures dir in byDir <==> exists i :: 0 <= i < |files| && dirname(files[i].path) == dir {
      DirsAre(files, dirname, dir);
    }
    forall dir | dir in byDir
      ensures byDir[dir].covered == |HitIn(files, dirname, dir)| && byDir[dir].total == |LinesIn(files, dirname, dir)|
    {
      DirTallyCounts(files, dirname, dir);
    }
  }

  // ----- What the totals count -----

  /** The lines of the files in a directory: file and place. */
  ghost function LinesIn(files: seq<File>, dirname: Path -> Path, dir: Path): set<(nat, nat)> {
    set i: nat, k: nat | i < |files| && k < |files[i].lines| && dirname(files[i].path) == dir :: (i, k)
  }

  /** Those among them that were hit at least once. */
  ghost function HitIn(files: seq<File>, dirname: Path -> Path, dir: Path): set<(nat, nat)> {
    set p | p in LinesIn(files, dirname, dir) && files[p.0].lines[p.1].count >= 1
  }

  /** The lines of all files, and those hit at least once. */
  ghost function AllLines(files: seq<File>): set<(nat, nat)> {
    set i: nat, k: nat | i < |files| && k < |files[i].lines| :: (i, k)
  }

  ghost function AllHit(files: seq<File>): set<(nat, nat)> {
    set p | p in AllLines(files) && files[p.0].lines[p.1].count >= 1
  }

  ghost function Row(n: nat, lines: seq<Line>): set<(nat, nat)> {
    set k: nat | k < |lines| :: (n, k)
  }

  ghost function HitRow(n: nat, lines: seq<Line>): set<(nat, nat)> {
    set p | p in Row(n, lines) && lines[p.1].count >= 1
  }

  lemma {:induction false} RowCounts(n: nat, lines: seq<Line>)
    ensures |Row(n, lines)| == |lines| && |HitRow(n, lines)| == |Covered(lines)|
  {
    if lines == [] {
      assert Row(n, lines) == {} && HitRow(n, lines) == {};
    } else {
      var k := |lines| - 1;
      RowCounts(n, lines[..k]);
      assert Row(n, lines) == Row(n, lines[..k]) + {(n, k)};
      assert HitRow(n, lines) == HitRow(n, lines[..k]) + if lines[k].count >= 1 then {(n, k)} else {};
    }
  }

  lemma LinesInSnoc(front: seq<File>, f: File, dirname: Path -> Path, dir: Path)
    ensures LinesIn(front + [f], dirname, dir) ==
            LinesIn(front, dirname, dir) + if dirname(f.path) == dir then Row(|front|, f.lines) else {}
    ensures LinesIn(front, dirname, dir) !! Row(|front|, f.lines)
  {
  }

  lemma HitInSnoc(front: seq<File>, f: File, dirname: Path -> Path, dir: Path)
    ensures HitIn(front + [f], dirname, dir) ==
            HitIn(front, dirname, dir) + if dirname(f.path) == dir then HitRow(|front|, f.lines) else {}
    ensures HitIn(front, dirname, dir) !! HitRow(|front|, f.lines)
  {
    LinesInSnoc(front, f, dirname, dir);
    var files := front + [f];
    forall p | p in LinesIn(front, dirname, dir) ensures files[p.0].lines[p.1] == front[p.0].lines[p.1] {}
    forall p | p in Row(|front|, f.lines) ensures p.0 == |front| && p.1 < |f.lines| {}
  }

  /** One more file adds its lines to its directory. */
  lemma CountsSnoc(front: seq<File>, f: File, dirname: Path -> Path, dir: Path)
    ensures |LinesIn(front + [f], dirname, dir)| ==
            |LinesIn(front, dirname, dir)| + if dirname(f.path) == dir then |f.lines| else 0
    ensures |HitIn(front + [f], dirname, dir)| ==
            |HitIn(front, dirname, dir)| + if dirname(f.path) == dir then |Covered(f.lines)| else 0
  {
    RowCounts(|front|, f.lines);
    LinesInSnoc(front, f, dirname, dir);
    HitInSnoc(front, f, dirname, dir);
  }

  lemma {:induction false} DirTallyCounts(files: seq<File>, dirname: Path -> Path, dir: Path)
    ensures DirTally(files, dirname, dir).covered == |HitIn(files, dirname, dir)|
    ensures DirTally(files, dirname, dir).total == |LinesIn(files, dirname, dir)|
  {
    if files == [] {
      assert LinesIn(files, dirname, dir) == {} && HitIn(files, dirname, dir) == {};
    } else {
      var front, f := files[..|files| - 1], files[|files| - 1];
      assert files == front + [f];
      DirTallyCounts(front, dirname, dir);
      CountsSnoc(front, f, dirname, dir);
    }
  }

  /** With one directory for everything. */
  lemma {:induction false} SumIsDirTally(files: seq<File>)
    ensures Sum(files) == DirTally(files, _ => "", "")
  {
    if files != [] { SumIsDirTally(files[..|files| - 1]); }
  }

  lemma SumCounts(files: seq<File>)
    ensures Sum(files).covered == |AllHit(files)| && Sum(files).total == |AllLines(files)|
  {
    SumIsDirTally(files);
    DirTallyCounts(files, _ => "", "");
    assert LinesIn(files, _ => "", "") == AllLines(files);
    assert HitIn(files, _ => "", "") == AllHit(files);
  }

  lemma {:induction false} DirsAre(files: seq<File>, dirname: Path -> Path, dir: Path)
    ensures dir in DirsOf(files, dirname) <==> exists i :: 0 <= i < |files| && dirname(files[i].path) == dir
  {
    if files != [] {
      var front := files[..|files| - 1];
      DirsAre(front, dirname, dir);
      if i :| 0 <= i < |front| && dirname(front[i].path) == dir { assert dirname(files[i].path) == dir; }
    }
  }

  ghost predicate DistinctPaths(dirs: seq<Path>) {
    forall i, j :: 0 <= i < j < |dirs| ==> dirs[i] != dirs[j]
  }

  ghost function SumOfDirs(dirs: seq<Path>, byDir: map<Path, Tally>): Tally
    requires forall dir :: dir in dirs ==> dir in byDir
  {
    if dirs == [] then Tally(0, 0) else Plus(SumOfDirs(dirs[..|dirs| - 1], byDir), byDir[dirs[|dirs| - 1]])
  }

  ghost function DirSums(dirs: seq<Path>, files: seq<File>, dirname: Path -> Path): Tally {
    if dirs == [] then Tally(0, 0)
    else Plus(DirSums(dirs[..|dirs| - 1], files, dirname), DirTally(files, dirname, dirs[|dirs| - 1]))
  }

  lemma PlusCommutes(a: Tally, b: Tally, c: Tally)
    ensures Plus(Plus(a, c), b) == Plus(Plus(a, b), c) == Plus(a, Plus(b, c))
  {
  }

  /** The last file adds to exactly one directory. */
  lemma {:induction false} DirSumsStep(dirs: seq<Path>, files: seq<File>, dirname: Path -> Path)
    requires DistinctPaths(dirs) && files != []
    ensures var front, f := files[..|files| - 1], files[|files| - 1];
            DirSums(dirs, files, dirname) ==
            if dirname(f.path) in dirs then Plus(DirSums(dirs, front, dirname), TallyOf(f))
            else DirSums(dirs, front, dirname)
  {
    if dirs != [] {
      var others, last := dirs[..|dirs| - 1], dirs[|dirs| - 1];
      var front := files[..|files| - 1];
      assert dirs == others + [last] && last !in others;
      DirSumsStep(others, files, dirname);
      PlusCommutes(DirSums(others, front, dirname), DirTally(front, dirname, last), TallyOf(files[|files| - 1]));
    }
  }

  lemma {:induction false} DirSumsTotal(dirs: seq<Path>, files: seq<File>, dirname: Path -> Path)
    requires DistinctPaths(dirs) && forall dir :: dir in DirsOf(files, dirname) ==> dir in dirs
    ensures DirSums(dirs, files, dirname) == Sum(files)
    decreases |files|, |dirs|
  {
    if files != [] {
      DirSumsTotal(dirs, files[..|files| - 1], dirname);
      DirSumsStep(dirs, files, dirname);
    } else if dirs != [] {
      DirSumsTotal(dirs[..|dirs| - 1], files, dirname);
    }
  }

  lemma {:induction false} SumsAgree(dirs: seq<Path>, files: seq<File>, dirname: Path -> Path, byDir: map<Path, Tally>)
    requires forall dir :: dir in dirs ==> dir in byDir && byDir[dir] == DirTally(files, dirname, dir)
    ensures SumOfDirs(dirs, byDir) == DirSums(dirs, files, dirname)
  {
    if dirs != [] { SumsAgree(dirs[..|dirs| - 1], files, dirname, byDir); }
  }

  /** The per-directory tallies, summed in any order, add up to those of all files. */
  lemma DirectoriesAddUp(files: seq<File>, dirname: Path -> Path, byDir: map<Path, Tally>, dirs: seq<Path>)
    requires TalliedByDir(files, dirname, byDir)
    requires DistinctPaths(dirs) && forall dir :: dir in dirs <==> dir in byDir
    ensures SumOfDirs(dirs, byDir) == Sum(files)
  {
    SumsAgree(dirs, files, dirname, byDir);
    DirSumsTotal(dirs, files, dirname);
  }
}
