/** Escaping into string literals, template literals and attribute values, and the state of a
    component on its way through a page. */
module Escape {
  import opened Options
  import opened Utf16

  const AMP: Unit := '&' as int
  const QUOT: Unit := '"' as int
  const LT: Unit := '<' as int
  const GT: Unit := '>' as int
  const APOS: Unit := '\'' as int
  const BACKSLASH: Unit := '\\' as int
  const BACKTICK: Unit := '`' as int
  const DOLLAR: Unit := '$' as int
  const BRACE: Unit := '{' as int
  const LF: Unit := 10
  const CR: Unit := 13
  const NUL: Unit := 0
  const REPLACEMENT: Unit := 0xFFFD
  const SMALL_N: Unit := 'n' as int

  const AMP_REF: Text := [AMP, 'a' as int, 'm' as int, 'p' as int, ';' as int]
  const QUOT_REF: Text := [AMP, 'q' as int, 'u' as int, 'o' as int, 't' as int, ';' as int]
  const LT_REF: Text := [AMP, 'l' as int, 't' as int, ';' as int]
  const GT_REF: Text := [AMP, 'g' as int, 't' as int, ';' as int]

  const LT_ESCAPE: Text := UnicodeEscape('3' as int, 'c' as int)
  const GT_ESCAPE: Text := UnicodeEscape('3' as int, 'e' as int)
  const AMP_ESCAPE: Text := UnicodeEscape('2' as int, '6' as int)

  function UnicodeEscape(high: Unit, low: Unit): Text {
    [BACKSLASH, 'u' as int, '0' as int, '0' as int, high, low]
  }

  predicate Basic(s: string) {
    forall i :: 0 <= i < |s| ==> s[i] as int < 0x1_0000
  }

  /** A text spelled out. */
  function Spelled(s: string): Text
    requires Basic(s)
  {
    seq(|s|, i requires 0 <= i < |s| => s[i] as int)
  }

  // ----- Replacing -----

  /** `s.replace(/pattern/g, replacement)` for a pattern without special characters. */
  function Replace(s: Text, pattern: Text, replacement: Text): Text
    requires pattern != []
    decreases |s|
  {
    if s == [] then []
    else if pattern <= s then replacement + Replace(s[|pattern|..], pattern, replacement)
    else [s[0]] + Replace(s[1..], pattern, replacement)
  }

  type Table = map<Unit, Text>

  function Escaped(table: Table, c: Unit): Text {
    if c in table then table[c] else [c]
  }

  /** Every unit replaced on its own, in one pass. */
  function MapEach(s: Text, table: Table): Text {
    if s == [] then [] else Escaped(table, s[0]) + MapEach(s[1..], table)
  }

  lemma {:induction false} MapNothing(s: Text)
    ensures MapEach(s, map[]) == s
  {
    if s != [] { MapNothing(s[1..]); }
  }

  lemma {:induction false} ReplaceApart(s: Text, rest: Text, c: Unit, replacement: Text)
    requires c !in s
    ensures Replace(s + rest, [c], replacement) == s + Replace(rest, [c], replacement)
  {
    if s == [] {
      assert s + rest == rest;
    } else {
      assert (s + rest)[0] == s[0] && (s + rest)[1..] == s[1..] + rest;
      ReplaceApart(s[1..], rest, c, replacement);
    }
  }

  /** Replacing one more unit after a pass is a pass with one more entry, provided the pass does not
      write that unit. */
  lemma {:induction false} OneMoreEntry(s: Text, table: Table, c: Unit, replacement: Text)
    requires c !in table && forall k :: k in table ==> c !in table[k]
    ensures Replace(MapEach(s, table), [c], replacement) == MapEach(s, table[c := replacement])
  {
    if s != [] {
      var rest := MapEach(s[1..], table);
      OneMoreEntry(s[1..], table, c, replacement);
      if s[0] == c {
        assert ([c] + rest)[0] == c && ([c] + rest)[1..] == rest;
      } else {
        ReplaceApart(Escaped(table, s[0]), rest, c, replacement);
      }
    }
  }

  /** Three replacements in a row are one pass, provided none writes what a later one replaces. */
  lemma ThreeInOnePass(s: Text, a: Unit, ra: Text, b: Unit, rb: Text, c: Unit, rc: Text)
    requires a != b && a != c && b != c && b !in ra && c !in ra && c !in rb
    ensures Replace(Replace(Replace(s, [a], ra), [b], rb), [c], rc) == MapEach(s, map[a := ra, b := rb, c := rc])
  {
    var m: Table := map[];
    MapNothing(s);
    OneMoreEntry(s, m, a, ra);
    OneMoreEntry(s, m[a := ra], b, rb);
    OneMoreEntry(s, m[a := ra][b := rb], c, rc);
    assert m[a := ra][b := rb][c := rc] == map[a := ra, b := rb, c := rc];
  }

  // ----- The escapes -----

  /** `escapeString` of the code generator */
  function EscapeString(s: Text): Text {
    var t := Replace(Replace(s, [BACKSLASH], [BACKSLASH, BACKSLASH]), [APOS], [BACKSLASH, APOS]);
    Replace(t, [LF], [BACKSLASH, SMALL_N])
  }

  /** `escapeTemplate` of the code generator */
  function EscapeTemplate(s: Text): Text {
    var t := Replace(Replace(s, [BACKSLASH], [BACKSLASH, BACKSLASH]), [BACKTICK], [BACKSLASH, BACKTICK]);
    Replace(t, [DOLLAR], [BACKSLASH, DOLLAR])
  }

  function EscapeAttr(s: Text): Text {
    Replace(Replace(Replace(Replace(s, [AMP], AMP_REF), [QUOT], QUOT_REF), [LT], LT_REF), [GT], GT_REF)
  }

  function EscapeJson(s: Text): Text {
    Replace(Replace(Replace(s, [LT], LT_ESCAPE), [GT], GT_ESCAPE), [AMP], AMP_ESCAPE)
  }

  /** What the client does to the attribute before it parses it. */
  function UnescapeJson(s: Text): Text {
    Replace(Replace(Replace(s, LT_ESCAPE, [LT]), GT_ESCAPE, [GT]), AMP_ESCAPE, [AMP])
  }

  ghost const STRING_TABLE: Table :=
    map[BACKSLASH := [BACKSLASH, BACKSLASH], APOS := [BACKSLASH, APOS], LF := [BACKSLASH, SMALL_N]]
  ghost const TEMPLATE_TABLE: Table :=
    map[BACKSLASH := [BACKSLASH, BACKSLASH], BACKTICK := [BACKSLASH, BACKTICK], DOLLAR := [BACKSLASH, DOLLAR]]
  ghost const JSON_TABLE: Table := map[LT := LT_ESCAPE, GT := GT_ESCAPE, AMP := AMP_ESCAPE]
  ghost const ATTR_TABLE: Table := map[AMP := AMP_REF, QUOT := QUOT_REF, LT := LT_REF, GT := GT_REF]

  /** Backslash and apostrophe get a backslash before them, the line feed becomes a backslash and an n, and
      every other unit stays. */
  lemma EscapeStringOnePass(s: Text)
    ensures EscapeString(s) == MapEach(s, STRING_TABLE)
    ensures STRING_TABLE == map['\\' as int := Spelled("\\\\"), '\'' as int := Spelled("\\'"), 10 := Spelled("\\n")]
  {
    assert Spelled("\\\\") == [BACKSLASH, BACKSLASH] && Spelled("\\'") == [BACKSLASH, APOS];
    assert Spelled("\\n") == [BACKSLASH, SMALL_N];
    ThreeInOnePass(s, BACKSLASH, [BACKSLASH, BACKSLASH], APOS, [BACKSLASH, APOS], LF, [BACKSLASH, SMALL_N]);
  }

  lemma EscapeTemplateOnePass(s: Text)
    ensures EscapeTemplate(s) == MapEach(s, TEMPLATE_TABLE)
    ensures TEMPLATE_TABLE == map['\\' as int := Spelled("\\\\"), '`' as int := Spelled("\\`"),
                                  '$' as int := Spelled("\\$")]
  {
    assert Spelled("\\\\") == [BACKSLASH, BACKSLASH] && Spelled("\\`") == [BACKSLASH, BACKTICK];
    assert Spelled("\\$") == [BACKSLASH, DOLLAR];
    ThreeInOnePass(s, BACKSLASH, [BACKSLASH, BACKSLASH], BACKTICK, [BACKSLASH, BACKTICK], DOLLAR, [BACKSLASH, DOLLAR]);
  }

  lemma EscapeJsonOnePass(s: Text)
    ensures EscapeJson(s) == MapEach(s, JSON_TABLE)
    ensures JSON_TABLE == map['<' as int := Spelled("\\u003c"), '>' as int := Spelled("\\u003e"),
                              '&' as int := Spelled("\\u0026")]
  {
    assert Spelled("\\u003c") == LT_ESCAPE && Spelled("\\u003e") == GT_ESCAPE && Spelled("\\u0026") == AMP_ESCAPE;
    ThreeInOnePass(s, LT, LT_ESCAPE, GT, GT_ESCAPE, AMP, AMP_ESCAPE);
  }

  lemma ReferencesSpelled()
    ensures Spelled("&amp;") == AMP_REF && Spelled("&quot;") == QUOT_REF
    ensures Spelled("&lt;") == LT_REF && Spelled("&gt;") == GT_REF
  {
  }

  lemma AttrTableSpelled()
    ensures ATTR_TABLE == map['&' as int := Spelled("&amp;"), '"' as int := Spelled("&quot;"),
                              '<' as int := Spelled("&lt;"), '>' as int := Spelled("&gt;")]
  {
    ReferencesSpelled();
  }

  lemma EscapeAttrOnePass(s: Text)
    ensures EscapeAttr(s) == MapEach(s, ATTR_TABLE)
    ensures ATTR_TABLE == map['&' as int := Spelled("&amp;"), '"' as int := Spelled("&quot;"),
                              '<' as int := Spelled("&lt;"), '>' as int := Spelled("&gt;")]
  {
    AttrTableSpelled();
    ThreeInOnePass(s, AMP, AMP_REF, QUOT, QUOT_REF, LT, LT_REF);
    var m: Table := map[AMP := AMP_REF, QUOT := QUOT_REF, LT := LT_REF];
    OneMoreEntry(s, m, GT, GT_REF);
    assert m[GT := GT_REF] == ATTR_TABLE;
  }

  // ----- Reading literals and attribute values -----

  datatype Reader =
    | StringLiteral     // '...', section 12.9.4 of ECMA-262
    | TemplateLiteral   // `...`, section 12.9.6 of ECMA-262
    | AttributeValue    // "...", section 13.2.5.36 of the HTML standard

  /** What a reader makes of the text before it: the end of the value, some units of it, or
      something that is an error or outside this model (`\x`, `\u`, `${`, other references). */
  datatype Step = End | Take(value: Unit, width: nat) | Fail

  function QuoteOf(reader: Reader): Unit {
    match reader
    case StringLiteral => APOS
    case TemplateLiteral => BACKTICK
    case AttributeValue => QUOT
  }

  function ReadStep(reader: Reader, s: Text): (r: Step)
    requires s != []
    ensures r.Take? ==> 0 < r.width <= |s|
  {
    if s[0] == QuoteOf(reader) then End
    else
      match reader
      case StringLiteral =>
        if s[0] == LF || s[0] == CR then Fail
        else if s[0] == BACKSLASH then ReadEscape(s)
        else Take(s[0], 1)
      case TemplateLiteral =>
        if s[0] == CR then ReadCarriageReturn(s)
        else if s[0] == BACKSLASH then ReadEscape(s)
        else if s[0] == DOLLAR && |s| > 1 && s[1] == BRACE then Fail
        else Take(s[0], 1)
      case AttributeValue =>
        if s[0] == CR then ReadCarriageReturn(s)
        else if s[0] == NUL then Take(REPLACEMENT, 1)
        else if s[0] == AMP then
          if AMP_REF <= s then Take(AMP, 5)
          else if QUOT_REF <= s then Take(QUOT, 6)
          else if LT_REF <= s then Take(LT, 4)
          else if GT_REF <= s then Take(GT, 4)
          else Fail
        else Take(s[0], 1)
  }

  /** A carriage return, alone or before a line feed, is read as a line feed. */
  function ReadCarriageReturn(s: Text): (r: Step)
    requires s != []
    ensures r.Take? && r.value == LF && 0 < r.width <= |s|
  {
    Take(LF, if |s| > 1 && s[1] == LF then 2 else 1)
  }

  function ReadEscape(s: Text): (r: Step)
    requires s != []
    ensures r.Take? ==> 0 < r.width <= |s|
  {
    if |s| < 2 then Fail
    else if s[1] == SMALL_N then Take(LF, 2)
    else if s[1] in {BACKSLASH, APOS, BACKTICK, DOLLAR, QUOT} then Take(s[1], 2)
    else Fail
  }

  /** The value up to the closing quote, and the text after that. */
  function Read(reader: Reader, s: Text): Option<(Text, Text)>
    decreases |s|
  {
    if s == [] then None
    else
      match ReadStep(reader, s)
      case Fail => None
      case End => Some(([], s[1..]))
      case Take(value, width) =>
        match Read(reader, s[width..])
        case None => None
        case Some((more, rest)) => Some(([value] + more, rest))
  }

  /** A unit that is read back as itself. */
  ghost predicate Undone(reader: Reader, table: Table, c: Unit) {
    forall rest: Text :: ReadsAs(reader, Escaped(table, c), rest, c)
  }

  ghost predicate ReadsAs(reader: Reader, escaped: Text, rest: Text, c: Unit) {
    escaped != [] && ReadStep(reader, escaped + rest) == Take(c, |escaped|)
  }

  /** A unit that is read back as another one, or not at all. */
  ghost predicate Garbled(reader: Reader, table: Table, c: Unit) {
    forall rest: Text :: Misread(reader, Escaped(table, c), rest, c)
  }

  ghost predicate Misread(reader: Reader, escaped: Text, rest: Text, c: Unit) {
    && escaped != []
    && var step := ReadStep(reader, escaped + rest);
       step.Fail? || (step.Take? && step.value != c)
  }

  lemma TakenHead(reader: Reader, escaped: Text, rest: Text, c: Unit, s: Text, tail: Text)
    requires ReadsAs(reader, escaped, rest, c)
    ensures Read(reader, escaped + rest) == Some(([c] + s, tail)) <==> Read(reader, rest) == Some((s, tail))
  {
    assert (escaped + rest)[|escaped|..] == rest;
    if Read(reader, rest).Some? {
      assert ([c] + Read(reader, rest).value.0)[1..] == Read(reader, rest).value.0;
      assert ([c] + s)[1..] == s;
    }
  }

  lemma MisreadHead(reader: Reader, escaped: Text, rest: Text, c: Unit, s: Text, tail: Text)
    requires Misread(reader, escaped, rest, c)
    ensures Read(reader, escaped + rest) != Some(([c] + s, tail))
  {
    assert ([c] + s)[0] == c;
  }

  /** The reader undoes the table, but for these units. */
  ghost predicate UndoneBut(reader: Reader, table: Table, bad: set<Unit>) {
    forall c: Unit :: if c in bad then Garbled(reader, table, c) else Undone(reader, table, c)
  }

  ghost predicate Free(s: Text, bad: set<Unit>) {
    forall c :: c in s ==> c !in bad
  }

  lemma HeadReadsBack(reader: Reader, table: Table, bad: set<Unit>, c: Unit, rest: Text, s: Text, tail: Text)
    requires UndoneBut(reader, table, bad)
    ensures Read(reader, Escaped(table, c) + rest) == Some(([c] + s, tail))
            <==> c !in bad && Read(reader, rest) == Some((s, tail))
  {
    if c in bad {
      assert Garbled(reader, table, c);
      assert Misread(reader, Escaped(table, c), rest, c);
      MisreadHead(reader, Escaped(table, c), rest, c, s, tail);
    } else {
      assert Undone(reader, table, c);
      assert ReadsAs(reader, Escaped(table, c), rest, c);
      TakenHead(reader, Escaped(table, c), rest, c, s, tail);
    }
  }

  /** A reader gives back exactly what was escaped if and only if no garbled unit is in it. */
  lemma {:induction false} ReadsBack(reader: Reader, table: Table, bad: set<Unit>, s: Text, tail: Text)
    requires UndoneBut(reader, table, bad)
    ensures Read(reader, MapEach(s, table) + [QuoteOf(reader)] + tail) == Some((s, tail)) <==> Free(s, bad)
  {
    if s == [] {
      var end := [QuoteOf(reader)] + tail;
      assert MapEach(s, table) + [QuoteOf(reader)] + tail == end;
      assert end[1..] == tail;
    } else {
      var c, rest := s[0], MapEach(s[1..], table) + [QuoteOf(reader)] + tail;
      ReadsBack(reader, table, bad, s[1..], tail);
      HeadReadsBack(reader, table, bad, c, rest, s[1..], tail);
      assert MapEach(s, table) + [QuoteOf(reader)] + tail == Escaped(table, c) + rest;
      assert [c] + s[1..] == s;
      assert Free(s, bad) <==> c !in bad && Free(s[1..], bad);
    }
  }

  /** A generated string literal has the escaped value exactly when that has no carriage return. */
  lemma StringLiteralValue(s: Text, tail: Text)
    ensures Read(StringLiteral, EscapeString(s) + ['\'' as int] + tail) == Some((s, tail)) <==> 13 !in s
  {
    EscapeStringOnePass(s);
    ReadsBack(StringLiteral, STRING_TABLE, {CR}, s, tail);
  }

  /** So does a generated template literal, whose reader turns carriage returns into line feeds. */
  lemma TemplateLiteralValue(s: Text, tail: Text)
    ensures Read(TemplateLiteral, EscapeTemplate(s) + ['`' as int] + tail) == Some((s, tail)) <==> 13 !in s
  {
    EscapeTemplateOnePass(s);
    ReadsBack(TemplateLiteral, TEMPLATE_TABLE, {CR}, s, tail);
  }

  lemma ReferencesRead(c: Unit, rest: Text)
    requires c in ATTR_TABLE
    ensures ReadsAs(AttributeValue, ATTR_TABLE[c], rest, c)
  {
    var reference := ATTR_TABLE[c];
    assert reference <= reference + rest;
    assert (reference + rest)[1] == reference[1];
  }

  /** An escaped attribute value. */
  lemma AttributeValueRead(s: Text, tail: Text)
    ensures Read(AttributeValue, EscapeAttr(s) + ['"' as int] + tail) == Some((s, tail)) <==> 13 !in s && 0 !in s
  {
    EscapeAttrOnePass(s);
    forall c: Unit | c !in {CR, NUL} ensures Undone(AttributeValue, ATTR_TABLE, c) {
      forall rest: Text ensures ReadsAs(AttributeValue, Escaped(ATTR_TABLE, c), rest, c) {
        if c in ATTR_TABLE { ReferencesRead(c, rest); }
      }
    }
    ReadsBack(AttributeValue, ATTR_TABLE, {CR, NUL}, s, tail);
  }

  /** In template literals and attributes a carriage return, a line feed and the two in this order are one
      and the same, namely one line feed. */
  lemma LineEndsAlike(reader: Reader, rest: Text)
    requires !reader.StringLiteral?
    ensures Read(reader, [13, 10] + rest) == Read(reader, [10] + rest)
    ensures rest == [] || rest[0] != 10 ==> Read(reader, [13] + rest) == Read(reader, [10] + rest)
    ensures Read(reader, rest).Some? ==>
              Read(reader, [10] + rest) == Some(([10] + Read(reader, rest).value.0, Read(reader, rest).value.1))
  {
    var both, cr, lf: Text := [13, 10] + rest, [13] + rest, [10] + rest;
    assert both[2..] == cr[1..] == lf[1..] == rest;
    assert both[0] == cr[0] == CR && both[1] == LF && lf[0] == LF;
    assert rest != [] ==> cr[1] == rest[0];
  }

  /** Without an escape, exactly these units do not stand for themselves wherever they are, so each of the
      escapes is needed, but for `<` and `>` in an attribute. */
  lemma EscapesNeeded(c: Unit)
    ensures Undone(StringLiteral, map[], c) <==> c !in ['\\' as int, '\'' as int, 10, 13]
    ensures Undone(TemplateLiteral, map[], c) <==> c !in ['\\' as int, '`' as int, '$' as int, 13]
    ensures Undone(AttributeValue, map[], c) <==> c !in ['&' as int, '"' as int, 0, 13]
  {
    var none: Table := map[];
    assert Escaped(none, c) == [c];
    forall reader: Reader | Undone(reader, none, c)
      ensures ReadsAs(reader, [c], [], c) && ReadsAs(reader, [c], ['{' as int], c)
    {
      assert ReadsAs(reader, Escaped(none, c), [], c) && ReadsAs(reader, Escaped(none, c), ['{' as int], c);
    }
    assert [c] + [] == [c];
  }

  // ----- State in a page -----

  /** The text occurs somewhere. */
  ghost predicate Contains(s: Text, part: Text) {
    part <= s || (s != [] && Contains(s[1..], part))
  }

  lemma PrefixOfCons(c: Unit, rest: Text, part: Text)
    requires part != []
    ensures part <= [c] + rest <==> part[0] == c && part[1..] <= rest
  {
    var s := [c] + rest;
    assert s[1..] == rest;
    assert part == [part[0]] + part[1..];
    if part <= s { assert part[1..] == s[1..][..|part| - 1]; }
  }

  /** A replacement that begins with a unit that is not in `part` leaves no new `part` at the front. */
  lemma {:induction false} FrontNotCreated(s: Text, pattern: Text, replacement: Text, part: Text)
    requires pattern != [] && replacement != [] && replacement[0] !in part
    ensures part <= Replace(s, pattern, replacement) ==> part <= s
    decreases |part|
  {
    if part != [] && s != [] {
      if pattern <= s {
        assert Replace(s, pattern, replacement)[0] == replacement[0];
      } else {
        FrontNotCreated(s[1..], pattern, replacement, part[1..]);
        PrefixOfCons(s[0], Replace(s[1..], pattern, replacement), part);
        PrefixOfCons(s[0], s[1..], part);
        assert s == [s[0]] + s[1..];
      }
    }
  }

  /** Nothing that begins inside `piece` can be `part`. */
  ghost predicate NoneBegins(piece: Text, part: Text) {
    forall k :: 0 <= k < |piece| ==> Clash(piece, part, k)
  }

  ghost predicate Clash(piece: Text, part: Text, k: nat) {
    exists j :: 0 <= j < |part| && k + j < |piece| && piece[k + j] != part[j]
  }

  lemma {:induction false} ContainsAfter(piece: Text, rest: Text, part: Text)
    requires NoneBegins(piece, part)
    ensures Contains(piece + rest, part) <==> Contains(rest, part)
  {
    if piece == [] {
      assert piece + rest == rest;
    } else {
      var s := piece + rest;
      assert s[1..] == piece[1..] + rest;
      assert Clash(piece, part, 0);
      var j :| 0 <= j < |part| && j < |piece| && piece[j] != part[j];
      assert s[j] == piece[j];
      forall k | 0 <= k < |piece[1..]| ensures Clash(piece[1..], part, k) {
        assert Clash(piece, part, k + 1);
        var i :| 0 <= i < |part| && k + 1 + i < |piece| && piece[k + 1 + i] != part[i];
        assert piece[1..][k + i] != part[i];
      }
      ContainsAfter(piece[1..], rest, part);
    }
  }

  lemma {:induction false} NotCreated(s: Text, pattern: Text, replacement: Text, part: Text)
    requires pattern != [] && replacement != [] && part != []
    requires replacement[0] !in part[1..] && NoneBegins(replacement, part)
    requires !Contains(s, part)
    ensures !Contains(Replace(s, pattern, replacement), part)
    decreases |s|
  {
    if s != [] {
      if pattern <= s {
        ContainedLater(s, |pattern|, part);
        NotCreated(s[|pattern|..], pattern, replacement, part);
        ContainsAfter(replacement, Replace(s[|pattern|..], pattern, replacement), part);
      } else {
        NotCreated(s[1..], pattern, replacement, part);
        FrontNotCreated(s[1..], pattern, replacement, part[1..]);
        var rest := Replace(s[1..], pattern, replacement);
        assert ([s[0]] + rest)[1..] == rest && [s[0]] + s[1..] == s;
        PrefixOfCons(s[0], rest, part);
        PrefixOfCons(s[0], s[1..], part);
      }
    }
  }

  lemma {:induction false} ContainedLater(s: Text, n: nat, part: Text)
    requires n <= |s|
    ensures Contains(s[n..], part) ==> Contains(s, part)
  {
    if n == 0 {
      assert s[0..] == s;
    } else {
      ContainedLater(s[1..], n - 1, part);
      assert s[1..][n - 1..] == s[n..];
    }
  }

  /** A pattern like `\u003c`: its first unit does not come again, and the unit it stands for is not
      in it. */
  ghost predicate StandsFor(pattern: Text, c: Unit) {
    pattern != [] && pattern[0] !in pattern[1..] && c !in pattern
  }

  lemma {:induction false} NoneLeft(s: Text, pattern: Text, c: Unit)
    requires StandsFor(pattern, c)
    ensures !Contains(Replace(s, pattern, [c]), pattern)
    decreases |s|
  {
    if s != [] {
      var r := Replace(s, pattern, [c]);
      if pattern <= s {
        NoneLeft(s[|pattern|..], pattern, c);
        assert r[0] == c && r[1..] == Replace(s[|pattern|..], pattern, [c]);
      } else {
        NoneLeft(s[1..], pattern, c);
        FrontNotCreated(s[1..], pattern, [c], pattern[1..]);
        var rest := Replace(s[1..], pattern, [c]);
        assert ([s[0]] + rest)[1..] == rest && [s[0]] + s[1..] == s;
        PrefixOfCons(s[0], rest, pattern);
        PrefixOfCons(s[0], s[1..], pattern);
      }
    }
  }

  /** Replacing back. */
  lemma {:induction false} UndoReplace(s: Text, pattern: Text, c: Unit)
    requires StandsFor(pattern, c) && !Contains(s, pattern)
    ensures Replace(Replace(s, [c], pattern), pattern, [c]) == s
  {
    if s != [] {
      var rest := Replace(s[1..], [c], pattern);
      UndoReplace(s[1..], pattern, c);
      assert [s[0]] + s[1..] == s;
      if s[0] == c {
        assert [c] <= s;
        assert (pattern + rest)[|pattern|..] == rest;
      } else {
        var r := [s[0]] + rest;
        assert r[1..] == rest;
        FrontNotCreated(s[1..], [c], pattern, pattern[1..]);
        PrefixOfCons(s[0], rest, pattern);
        PrefixOfCons(s[0], s[1..], pattern);
      }
    }
  }

  /** Free of the three sequences that the client turns back. */
  ghost predicate Unambiguous(s: Text) {
    !Contains(s, LT_ESCAPE) && !Contains(s, GT_ESCAPE) && !Contains(s, AMP_ESCAPE)
  }

  lemma EscapesApart(high: Unit, low: Unit, high': Unit, low': Unit)
    requires BACKSLASH !in [high, low] && BACKSLASH !in [high', low'] && (high != high' || low != low')
    ensures NoneBegins(UnicodeEscape(high, low), UnicodeEscape(high', low'))
  {
    var p, q := UnicodeEscape(high, low), UnicodeEscape(high', low');
    forall k | 0 <= k < |p| ensures Clash(p, q, k) {
      if k == 0 {
        assert p[4] != q[4] || p[5] != q[5];
      } else {
        assert p[k + 0] != q[0];
      }
    }
  }

  /** The server's three replacements in the order in which undoing them leads back. */
  lemma EscapeJsonOtherOrder(s: Text)
    ensures EscapeJson(s) == Replace(Replace(Replace(s, [AMP], AMP_ESCAPE), [GT], GT_ESCAPE), [LT], LT_ESCAPE)
  {
    EscapeJsonOnePass(s);
    ThreeInOnePass(s, AMP, AMP_ESCAPE, GT, GT_ESCAPE, LT, LT_ESCAPE);
    assert JSON_TABLE == map[AMP := AMP_ESCAPE, GT := GT_ESCAPE, LT := LT_ESCAPE];
  }

  lemma UnambiguousUndone(s: Text)
    requires Unambiguous(s)
    ensures UnescapeJson(EscapeJson(s)) == s
  {
    var a := Replace(s, [AMP], AMP_ESCAPE);
    var b := Replace(a, [GT], GT_ESCAPE);
    EscapeJsonOtherOrder(s);
    EscapesApart('2' as int, '6' as int, '3' as int, 'e' as int);
    EscapesApart('2' as int, '6' as int, '3' as int, 'c' as int);
    EscapesApart('3' as int, 'e' as int, '3' as int, 'c' as int);
    NotCreated(s, [AMP], AMP_ESCAPE, GT_ESCAPE);
    NotCreated(s, [AMP], AMP_ESCAPE, LT_ESCAPE);
    NotCreated(a, [GT], GT_ESCAPE, LT_ESCAPE);
    UndoReplace(b, LT_ESCAPE, LT);
    UndoReplace(a, GT_ESCAPE, GT);
    UndoReplace(s, AMP_ESCAPE, AMP);
  }

  /** The client turns the escaped state back if and only if the state has none of the sequences in
      it to begin with. */
  lemma StateRoundTrip(s: Text)
    ensures UnescapeJson(EscapeJson(s)) == s <==> Unambiguous(s)
  {
    ResultUnambiguous(EscapeJson(s));
    if Unambiguous(s) { UnambiguousUndone(s); }
  }

  lemma ResultUnambiguous(s: Text)
    ensures Unambiguous(UnescapeJson(s))
  {
    var a := Replace(s, LT_ESCAPE, [LT]);
    var b := Replace(a, GT_ESCAPE, [GT]);
    NoneLeft(s, LT_ESCAPE, LT);
    NoneLeft(a, GT_ESCAPE, GT);
    NoneLeft(b, AMP_ESCAPE, AMP);
    OneUnitApart(GT, LT_ESCAPE);
    OneUnitApart(AMP, LT_ESCAPE);
    OneUnitApart(AMP, GT_ESCAPE);
    NotCreated(a, GT_ESCAPE, [GT], LT_ESCAPE);
    NotCreated(b, AMP_ESCAPE, [AMP], LT_ESCAPE);
    NotCreated(b, AMP_ESCAPE, [AMP], GT_ESCAPE);
  }

  lemma OneUnitApart(c: Unit, part: Text)
    requires part != [] && c != part[0]
    ensures NoneBegins([c], part)
  {
    assert [c][0 + 0] != part[0];
  }

  /** From the server through the attribute to the client. */
  lemma StateDelivered(s: Text, tail: Text)
    requires CR !in s && NUL !in s
    ensures Read(AttributeValue, EscapeAttr(EscapeJson(s)) + [QUOT] + tail) == Some((EscapeJson(s), tail))
    ensures UnescapeJson(EscapeJson(s)) == s <==> Unambiguous(s)
    ensures forall c :: c in [LT, GT, AMP] ==> c !in EscapeJson(s)
  {
    forall c | c in EscapeJson(s) ensures c !in [LT, GT, AMP, CR, NUL] {
      EscapeJsonWrites(s, c);
    }
    AttributeValueRead(EscapeJson(s), tail);
    StateRoundTrip(s);
  }

  lemma EscapeJsonWrites(s: Text, c: Unit)
    requires CR !in s && NUL !in s
    ensures c in EscapeJson(s) ==> c !in [LT, GT, AMP, CR, NUL]
  {
    EscapeJsonOnePass(s);
    MapWrites(s, JSON_TABLE, c);
    forall u | u in s ensures c in Escaped(JSON_TABLE, u) ==> c !in [LT, GT, AMP, CR, NUL] {
      JsonEntry(u, c);
    }
  }

  lemma JsonEntry(u: Unit, c: Unit)
    requires u != CR && u != NUL
    ensures c in Escaped(JSON_TABLE, u) ==> c !in [LT, GT, AMP, CR, NUL]
  {
    if u in JSON_TABLE {
      assert forall k :: 0 <= k < 6 ==> JSON_TABLE[u][k] !in [LT, GT, AMP, CR, NUL];
    }
  }

  lemma {:induction false} MapWrites(s: Text, table: Table, c: Unit)
    ensures c in MapEach(s, table) ==> exists u :: u in s && c in Escaped(table, u)
  {
    if s != [] {
      MapWrites(s[1..], table, c);
      if c in MapEach(s[1..], table) {
        var u :| u in s[1..] && c in Escaped(table, u);
        assert u in s;
      }
    }
  }
}
