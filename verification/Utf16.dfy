/** Strings as UTF-16: iteration by code points, writing them back, and offsets of characters
    (sections 2.1 and 2.2 of RFC 2781). */
module Utf16 {
  import opened Options

  /** A UTF-16 code unit. */
  type Unit = u: int | 0 <= u < 0x1_0000

  type Text = seq<Unit>

  /** What the iterator yields; a surrogate without its partner is yielded as it is. */
  type CodePoint = c: int | 0 <= c < 0x11_0000

  predicate IsLead(c: int) { 0xD800 <= c <= 0xDBFF }

  predicate IsTrail(c: int) { 0xDC00 <= c <= 0xDFFF }

  /** The text begins with a surrogate pair. */
  predicate BeginsWithPair(s: Text) {
    |s| >= 2 && IsLead(s[0]) && IsTrail(s[1])
  }

  /** `code_point_of_surrogate_pair` */
  function Combine(lead: Unit, trail: Unit): CodePoint
    requires IsLead(lead) && IsTrail(trail)
  {
    (lead - 0xD800) * 1024 + trail - 0xDC00 + 0x1_0000
  }

  /** `String.fromCodePoint` */
  function Units(c: CodePoint): Text {
    if c < 0x1_0000 then [c]
    else [0xD800 + (c - 0x1_0000) / 1024, 0xDC00 + (c - 0x1_0000) % 1024]
  }

  function Width(s: Text): nat {
    if BeginsWithPair(s) then 2 else 1
  }

  function First(s: Text): CodePoint
    requires s != []
  {
    if BeginsWithPair(s) then Combine(s[0], s[1]) else s[0]
  }

  function Decode(s: Text): seq<CodePoint> {
    if s == [] then [] else [First(s)] + Decode(s[Width(s)..])
  }

  function Encode(cs: seq<CodePoint>): Text {
    if cs == [] then [] else Units(cs[0]) + Encode(cs[1..])
  }

  /** `String.to_array`, that is, the iterator run to its end. */
  method ToArray(s: Text) returns (result: seq<CodePoint>)
    ensures result == Decode(s)
  {
    result := [];
    var i := 0;
    assert s[0..] == s;
    while i < |s|
      invariant 0 <= i <= |s| && result + Decode(s[i..]) == Decode(s)
    {
      var c1 := s[i];
      if IsLead(c1) && i + 1 < |s| && IsTrail(s[i + 1]) {
        assert s[i..][2..] == s[i + 2..];
        result := result + [Combine(c1, s[i + 1])];
        i := i + 2;
      } else {
        assert s[i..][1..] == s[i + 1..];
        result := result + [c1];
        i := i + 1;
      }
    }
  }

  /** `String.from_array` */
  method FromArray(chars: seq<CodePoint>) returns (result: Text)
    ensures result == Encode(chars)
  {
    result := [];
    assert chars[0..] == chars;
    for i := 0 to |chars|
      invariant result + Encode(chars[i..]) == Encode(chars)
    {
      assert chars[i..][1..] == chars[i + 1..];
      result := result + Units(chars[i]);
    }
  }

  lemma UnitsOfCombine(lead: Unit, trail: Unit)
    requires IsLead(lead) && IsTrail(trail)
    ensures Units(Combine(lead, trail)) == [lead, trail]
  {
  }

  /** The pairs, ordered by lead and then by trail, are the code points from 0x10000 to 0x10FFFF in turn. */
  lemma PairsInTurn(lead: Unit, trail: Unit)
    requires 0xD800 <= lead <= 0xDBFF && 0xDC00 <= trail <= 0xDFFF
    ensures IsLead(lead) && IsTrail(trail)
    ensures Combine(0xD800, 0xDC00) == 0x1_0000 && Combine(0xDBFF, 0xDFFF) == 0x10_FFFF
    ensures trail < 0xDFFF ==> Combine(lead, trail + 1) == Combine(lead, trail) + 1
    ensures lead < 0xDBFF ==> Combine(lead + 1, 0xDC00) == Combine(lead, 0xDFFF) + 1
  {
    assert 0xD800 <= 0xD800 && IsLead(0xD800) && IsLead(0xDBFF) && IsTrail(0xDC00) && IsTrail(0xDFFF);
    var plane: CodePoint := 0x1_0000;
    assert Combine(0xD800, 0xDC00) == plane;
  }

  /** Decoding and encoding again is the identity on every string, unpaired surrogates included. */
  lemma {:induction false} EncodeDecode(s: Text)
    ensures Encode(Decode(s)) == s
  {
    if s != [] {
      EncodeDecode(s[Width(s)..]);
      if BeginsWithPair(s) {
        UnitsOfCombine(s[0], s[1]);
        assert [s[0], s[1]] + s[2..] == s;
      } else {
        assert [s[0]] + s[1..] == s;
      }
    }
  }

  /** No high surrogate is followed by a low one, as separate code points. */
  ghost predicate NoSplitPair(cs: seq<CodePoint>) {
    forall i :: 0 <= i < |cs| - 1 ==> !(IsLead(cs[i]) && IsTrail(cs[i + 1]))
  }

  lemma {:induction false} DecodeJoinsPairs(s: Text)
    ensures NoSplitPair(Decode(s))
    ensures s != [] ==> Decode(s)[0] == First(s)
  {
    if s != [] {
      var rest := s[Width(s)..];
      DecodeJoinsPairs(rest);
      var cs := Decode(s);
      forall i | 0 <= i < |cs| - 1 ensures !(IsLead(cs[i]) && IsTrail(cs[i + 1])) {
        if i == 0 {
          assert rest != [] && cs[1] == First(rest);
        } else {
          assert cs[i] == Decode(rest)[i - 1] && cs[i + 1] == Decode(rest)[i];
        }
      }
    }
  }

  lemma FirstOfUnits(c: CodePoint, rest: Text)
    requires IsLead(c) && rest != [] ==> !IsTrail(rest[0])
    ensures var s := Units(c) + rest;
            First(s) == c && Width(s) == |Units(c)| && s[Width(s)..] == rest
  {
    var s := Units(c) + rest;
    if c < 0x1_0000 {
      assert s[0] == c && (rest != [] ==> s[1] == rest[0]);
    } else {
      assert s[0] == Units(c)[0] && s[1] == Units(c)[1];
    }
  }

  lemma EncodeBegins(cs: seq<CodePoint>)
    requires cs != []
    ensures Encode(cs) != [] && (IsTrail(Encode(cs)[0]) ==> IsTrail(cs[0]))
  {
    assert Encode(cs)[0] == Units(cs[0])[0];
  }

  lemma {:induction false} DecodeEncodeJoined(cs: seq<CodePoint>)
    requires NoSplitPair(cs)
    ensures Decode(Encode(cs)) == cs
  {
    if cs != [] {
      if |cs| > 1 {
        EncodeBegins(cs[1..]);
        assert !(IsLead(cs[0]) && IsTrail(cs[1]));
      }
      FirstOfUnits(cs[0], Encode(cs[1..]));
      assert NoSplitPair(cs[1..]);
      DecodeEncodeJoined(cs[1..]);
    }
  }

  /** The other direction holds exactly for lists in which no pair is split. */
  lemma {:induction false} DecodeEncode(cs: seq<CodePoint>)
    ensures Decode(Encode(cs)) == cs <==> NoSplitPair(cs)
  {
    if NoSplitPair(cs) { DecodeEncodeJoined(cs); }
    DecodeJoinsPairs(Encode(cs));
  }

  /** Every surrogate is part of a pair. */
  ghost predicate WellFormed(s: Text) {
    s == [] || ((BeginsWithPair(s) || !(IsLead(s[0]) || IsTrail(s[0]))) && WellFormed(s[Width(s)..]))
  }

  /** The number of characters. */
  ghost function Chars(s: Text): nat {
    if s == [] then 0 else 1 + Chars(s[Width(s)..])
  }

  lemma {:induction false} CharsAreCodePoints(s: Text)
    ensures Chars(s) == |Decode(s)|
  {
    if s != [] { CharsAreCodePoints(s[Width(s)..]); }
  }

  /** Where the `n`-th character begins. */
  ghost function Offset(s: Text, n: nat): nat
    requires n <= Chars(s)
  {
    if n == 0 then 0 else Width(s) + Offset(s[Width(s)..], n - 1)
  }

  /** The `n`-th code point is what begins where the `n`-th character does. */
  lemma {:induction false} CodePointAt(s: Text, n: nat)
    requires n < Chars(s)
    ensures Offset(s, n) < |s| && n < |Decode(s)| && Decode(s)[n] == First(s[Offset(s, n)..])
  {
    if n == 0 {
      assert s[0..] == s;
    } else {
      var rest := s[Width(s)..];
      CodePointAt(rest, n - 1);
      assert rest[Offset(rest, n - 1)..] == s[Offset(s, n)..];
    }
  }

  /** After `n` characters the rest is well-formed again, and what comes next there is what a scan
      forwards or backwards sees. */
  lemma {:induction false} OffsetSplits(s: Text, n: nat)
    requires WellFormed(s) && n <= Chars(s)
    ensures Offset(s, n) <= |s| && WellFormed(s[Offset(s, n)..]) && Chars(s[Offset(s, n)..]) == Chars(s) - n
    ensures n == Chars(s) <==> Offset(s, n) == |s|
  {
    if n == 0 {
      assert s[0..] == s;
    } else {
      OffsetSplits(s[Width(s)..], n - 1);
      assert s[Width(s)..][Offset(s[Width(s)..], n - 1)..] == s[Offset(s, n)..];
    }
  }

  /** One more character advances by the width of what is at the offset. */
  lemma {:induction false} OffsetNext(s: Text, n: nat)
    requires n < Chars(s)
    ensures Offset(s, n) < |s| && Offset(s, n + 1) == Offset(s, n) + Width(s[Offset(s, n)..])
  {
    if n == 0 {
      assert s[0..] == s;
      assert Offset(s, 1) == Width(s) + Offset(s[Width(s)..], 0) == Width(s);
    } else {
      OffsetNext(s[Width(s)..], n - 1);
      assert s[Width(s)..][Offset(s[Width(s)..], n - 1)..] == s[Offset(s, n)..];
    }
  }

  /** The unit after which, or before which, two units are skipped is the lead, or the trail, of a pair. */
  lemma OffsetStep(s: Text, n: nat)
    requires WellFormed(s) && n < Chars(s)
    ensures var at, next := Offset(s, n), Offset(s, n + 1);
            && at < next <= |s|
            && next == at + (if IsLead(s[at]) then 2 else 1) == at + (if IsTrail(s[next - 1]) then 2 else 1)
            && (IsLead(s[at]) ==> IsTrail(s[at + 1]))
  {
    var at := Offset(s, n);
    OffsetSplits(s, n);
    OffsetNext(s, n);
    var rest := s[at..];
    assert rest[0] == s[at] && (|rest| > 1 ==> rest[1] == s[at + 1]);
  }

  function Shift(r: Option<nat>, delta: nat): Option<nat> {
    if r.None? then None else Some(r.value + delta)
  }

  /** What a scan forwards finds, which takes every lead to begin a pair: the `n`-th character it sees,
      unless the text ends there. */
  function ForwardScan(t: Text, n: nat): Option<nat> {
    if t == [] then None
    else if n == 0 then Some(0)
    else
      var step := if IsLead(t[0]) then 2 else 1;
      if step >= |t| then None else Shift(ForwardScan(t[step..], n - 1), step)
  }

  /** Where a scan backwards ends, which takes every trail to end a pair. */
  function BackwardScan(t: Text, n: nat): Option<nat> {
    if n == 0 then Some(|t|)
    else if t == [] then None
    else
      var step := if IsTrail(t[|t| - 1]) then 2 else 1;
      if step > |t| then None else BackwardScan(t[..|t| - step], n - 1)
  }

  /** In a well-formed text the scan forwards finds every character where it begins. */
  lemma {:induction false} ForwardIsOffset(t: Text, n: nat)
    requires WellFormed(t)
    ensures ForwardScan(t, n) == if n < Chars(t) then Some(Offset(t, n)) else None
  {
    if t != [] && n > 0 {
      ForwardIsOffset(t[Width(t)..], n - 1);
    }
  }

  /** One character back. */
  lemma BackOnce(t: Text, at: nat, next: nat, n: nat)
    requires at < next <= |t| && next == at + (if IsTrail(t[next - 1]) then 2 else 1) && n > 0
    ensures BackwardScan(t[..next], n) == BackwardScan(t[..at], n - 1)
  {
    var p := t[..next];
    assert p[|p| - 1] == t[next - 1];
    assert p[..at] == t[..at];
  }

  /** Counted back from the `m`-th character on, one meets the beginnings of the earlier ones. */
  lemma {:induction false} BackFrom(t: Text, m: nat, n: nat)
    requires WellFormed(t) && m <= Chars(t)
    ensures Offset(t, m) <= |t|
    ensures BackwardScan(t[..Offset(t, m)], n) == if n <= m then Some(Offset(t, m - n)) else None
  {
    OffsetSplits(t, m);
    if n > 0 && m > 0 {
      OffsetStep(t, m - 1);
      BackFrom(t, m - 1, n - 1);
      BackOnce(t, Offset(t, m - 1), Offset(t, m), n);
    }
  }

  /** In a well-formed text the scan backwards ends where as many characters are left before it. */
  lemma BackwardIsOffset(t: Text, n: nat)
    requires WellFormed(t)
    ensures BackwardScan(t, n) == if n <= Chars(t) then Some(Offset(t, Chars(t) - n)) else None
  {
    OffsetSplits(t, Chars(t));
    BackFrom(t, Chars(t), n);
    assert t[..|t|] == t;
  }

  /** The two scans agree on every character; the end of the text only the backward one finds. */
  lemma BothWays(t: Text, n: nat)
    requires WellFormed(t) && n <= Chars(t)
    ensures ForwardScan(t, n) == BackwardScan(t, Chars(t) - n) <==> n < Chars(t)
  {
    ForwardIsOffset(t, n);
    BackwardIsOffset(t, Chars(t) - n);
  }

  /** `offset_of_nth_char_forward` */
  method OffsetOfNthCharForward(self: Text, n: nat, start: nat, end: nat) returns (r: Option<nat>)
    requires start <= end <= |self|
    ensures r == Shift(ForwardScan(self[start..end], n), start)
  {
    ghost var all := Shift(ForwardScan(self[start..end], n), start);
    var offset, count := start, 0;
    while offset < end && count < n
      invariant start <= offset && count <= n
      invariant all == if offset < end then Shift(ForwardScan(self[offset..end], n - count), offset) else None
      decreases n - count
    {
      var step := if IsLead(self[offset]) then 2 else 1;
      if offset + step < end { Window(self, offset, end, step); }
      offset := offset + step;
      count := count + 1;
    }
    r := if count < n || offset >= end then None else Some(offset);
  }

  /** `offset_of_nth_char_backward` */
  method OffsetOfNthCharBackward(self: Text, n: nat, start: nat, end: nat) returns (r: Option<nat>)
    requires start <= end <= |self|
    ensures r == Shift(BackwardScan(self[start..end], n), start)
  {
    ghost var all := Shift(BackwardScan(self[start..end], n), start);
    var offset: int, count := end, 0;
    while offset - 1 >= start && count < n
      invariant start - 1 <= offset <= end && count <= n
      invariant all == if offset < start then None else Shift(BackwardScan(self[start..offset], n - count), start)
      decreases n - count
    {
      var step := if IsTrail(self[offset - 1]) then 2 else 1;
      ghost var t := self[start..offset];
      assert t[|t| - 1] == self[offset - 1];
      if offset - step >= start { assert t[..|t| - step] == self[start..offset - step]; }
      offset := offset - step;
      count := count + 1;
    }
    r := if count < n || offset < start then None else Some(offset);
  }

  /** `offset_of_nth_char`: negative indices count from the end. */
  method OffsetOfNthChar(self: Text, i: int, start: nat, end: nat) returns (r: Option<nat>)
    requires start <= end <= |self|
    ensures r == Shift(if i >= 0 then ForwardScan(self[start..end], i) else BackwardScan(self[start..end], -i), start)
  {
    if i >= 0 {
      r := OffsetOfNthCharForward(self, i, start, end);
    } else {
      r := OffsetOfNthCharBackward(self, -i, start, end);
    }
  }

  /** Among the first `len` characters is a lead, before the last unit, without its trail. */
  ghost predicate Broken(t: Text, len: int)
    decreases |t|
  {
    len > 0 && t != [] &&
    if IsLead(t[0]) && |t| > 1 then !IsTrail(t[1]) || Broken(t[2..], len - 1) else Broken(t[1..], len - 1)
  }

  /** The `n`-th character is a lead before a unit other than a trail. */
  ghost predicate BreaksAt(t: Text, n: nat) {
    n < Chars(t) &&
    var at := Offset(t, n);
    at + 1 < |t| && 0xD800 <= t[at] <= 0xDBFF && !(0xDC00 <= t[at + 1] <= 0xDFFF)
  }

  /** It is one character earlier in the rest. */
  lemma BreaksLater(t: Text, n: nat)
    requires 0 < n < Chars(t)
    ensures BreaksAt(t, n) <==> BreaksAt(t[Width(t)..], n - 1)
  {
    var rest := t[Width(t)..];
    assert Offset(t, n) == Width(t) + Offset(rest, n - 1);
  }

  lemma {:induction false} BreakOf(t: Text, len: int) returns (n: nat)
    requires Broken(t, len)
    ensures n < len && BreaksAt(t, n)
    decreases |t|
  {
    if IsLead(t[0]) && |t| > 1 && !IsTrail(t[1]) {
      n := 0;
    } else {
      var m := BreakOf(t[Width(t)..], len - 1);
      n := m + 1;
      BreaksLater(t, n);
    }
  }

  lemma {:induction false} BreakBreaks(t: Text, len: int, n: nat)
    requires n < len && BreaksAt(t, n)
    ensures Broken(t, len)
    decreases |t|
  {
    if n > 0 {
      BreaksLater(t, n);
      BreakBreaks(t[Width(t)..], len - 1, n - 1);
    }
  }

  /** That is, one of the characters is such a lead. */
  lemma BrokenIff(t: Text, len: int)
    ensures Broken(t, len) <==> exists n: nat :: n < len && BreaksAt(t, n)
  {
    if Broken(t, len) {
      var n := BreakOf(t, len);
      assert n < len && BreaksAt(t, n);
    }
    if n: nat :| n < len && BreaksAt(t, n) { BreakBreaks(t, len, n); }
  }

  lemma {:induction false} WellFormedNotBroken(t: Text, len: int)
    requires WellFormed(t)
    ensures !Broken(t, len)
  {
    if t != [] { WellFormedNotBroken(t[Width(t)..], len - 1); }
  }

  lemma BrokenNext(t: Text, len: int)
    requires len > 0 && t != []
    ensures if IsLead(t[0]) && |t| > 1 && !IsTrail(t[1]) then Broken(t, len)
            else Broken(t, len) <==> Broken(t[Width(t)..], len - 1)
    ensures Chars(t) == 1 + Chars(t[Width(t)..])
  {
  }

  lemma Window(self: Text, index: nat, end: nat, step: nat)
    requires index + step <= end <= |self|
    ensures self[index..end][step..] == self[index + step..end]
  {
  }

  /** What `char_length_ge` makes of a text. */
  ghost function Verdict(t: Text, len: int): Option<bool> {
    if Broken(t, len) then None else Some(Chars(t) >= len)
  }

  /** One turn of the counting loop. */
  lemma CountNext(self: Text, index: nat, end: nat, len: int)
    requires index < end <= |self| && len > 0
    ensures var pair := IsLead(self[index]) && index + 1 < end;
            Verdict(self[index..end], len) ==
            if pair && !IsTrail(self[index + 1]) then None
            else Verdict(self[index + (if pair then 2 else 1)..end], len - 1)
  {
    BrokenNext(self[index..end], len);
    Window(self, index, end, Width(self[index..end]));
  }

  lemma CountEnds(t: Text, len: int)
    requires t == [] || len <= 0
    ensures Verdict(t, len) == Some(len <= 0)
  {
  }

  /** `char_length_ge`: aborts exactly at a lead without its trail, if it gets there; and else decides
      whether there are so many characters. */
  method CharLengthGe(self: Text, len: int, start: nat, end: nat) returns (r: Option<bool>)
    requires start <= end <= |self|
    ensures r == if Broken(self[start..end], len) then None else Some(Chars(self[start..end]) >= len)
  {
    ghost var verdict := Verdict(self[start..end], len);
    var index, count := start, 0;
    while index < end && count < len
      invariant start <= index <= end && verdict == Verdict(self[index..end], len - count)
      decreases end - index
    {
      CountNext(self, index, end, len - count);
      if IsLead(self[index]) && index + 1 < end {
        if !IsTrail(self[index + 1]) {
          return None;
        }
        index := index + 2;
      } else {
        index := index + 1;
      }
      count := count + 1;
    }
    CountEnds(self[index..end], len - count);
    r := Some(count >= len);
  }
}
