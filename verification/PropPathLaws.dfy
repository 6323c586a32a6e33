// The path parser accepts exactly the grammar, and its answer prints as the path.
module PropPathLaws {
  import opened Wrappers
  import opened Decimal
  import opened Dotted
  import opened PropPath

  // -- Segments --------------------------------------------------------------

  // A segment, with the field told by character ranges.
  ghost predicate IsCut(s: string) {
    IsField(s) || exists field, digits :: IsField(field) && IsNumeral(digits) && s == Bracketed(field, digits)
  }

  lemma {:induction false} SegmentIs(s: string)
    ensures IsSegment(s) <==> IsCut(s)
  {
    forall t ensures IsField(t) <==> Field(t) {
      FieldIs(t);
    }
  }

  lemma {:induction false} FieldHasNo(s: string)
    requires IsField(s)
    ensures '[' !in s && '.' !in s
  {
  }

  // What an indexed segment is cut into.
  lemma {:induction false} IndexedIs(field: string, digits: string)
    requires IsField(field) && IsNumeral(digits)
    ensures SegmentOf(Bracketed(field, digits)) == Ok(Segment(field, Some(Wrap(ValueOf(digits)))))
  {
    var raw := Bracketed(field, digits);
    BracketAt(field, digits);
    assert raw[..|field|] == field && raw[|field|..] == "[" + digits + "]";
    assert raw[|field|..][1..|raw[|field|..]| - 1] == digits;
  }

  lemma {:induction false} BracketAt(field: string, digits: string)
    requires IsField(field)
    ensures IndexByte(Bracketed(field, digits), '[') == Some(|field|)
  {
    FieldHasNo(field);
    FirstAt(field, '[', digits + "]");
    assert Bracketed(field, digits) == field + ['['] + (digits + "]");
  }

  lemma {:induction false} FirstAt(s: string, c: char, t: string)
    requires c !in s
    ensures IndexByte(s + [c] + t, c) == Some(|s|)
  {
    if s == [] {
      assert s + [c] + t == [c] + t;
    } else {
      assert (s + [c] + t)[1..] == s[1..] + [c] + t;
      FirstAt(s[1..], c, t);
    }
  }

  lemma {:induction false} PlainIs(field: string)
    requires IsField(field)
    ensures SegmentOf(field) == Ok(Segment(field, None))
  {
    FieldHasNo(field);
  }

  // An accepted segment is a field, or a field and a numeral.
  lemma {:induction false} AcceptedSegment(raw: string) returns (digits: string)
    requires SegmentOf(raw).Ok?
    ensures IsField(SegmentOf(raw).value.field)
    ensures SegmentOf(raw).value.index.None? ==> raw == SegmentOf(raw).value.field
    ensures SegmentOf(raw).value.index.Some? ==>
      && IsNumeral(digits) && raw == Bracketed(SegmentOf(raw).value.field, digits)
      && SegmentOf(raw).value.index == Some(Wrap(ValueOf(digits)))
  {
    digits := "";
    var bracket := IndexByte(raw, '[');
    if bracket.Some? {
      digits := CutIndex(raw, bracket.value);
    }
  }

  lemma {:induction false} CutIndex(raw: string, at: nat) returns (digits: string)
    requires at + 3 <= |raw| && raw[at] == '[' && raw[|raw| - 1] == ']'
    ensures digits == raw[at..][1..|raw[at..]| - 1] && raw == Bracketed(raw[..at], digits)
  {
    digits := raw[at + 1..|raw| - 1];
    assert raw[at..] == "[" + digits + "]";
  }

  lemma {:induction false} SegmentAccepts(raw: string)
    ensures SegmentOf(raw).Ok? <==> IsSegment(raw)
  {
    if SegmentOf(raw).Ok? {
      var digits := AcceptedSegment(raw);
      assert IsCut(raw);
    }
    SegmentIs(raw);
    if IsCut(raw) {
      if IsField(raw) {
        PlainIs(raw);
      } else {
        var field, digits :| IsField(field) && IsNumeral(digits) && raw == Bracketed(field, digits);
        IndexedIs(field, digits);
      }
    }
  }

  // -- Paths -----------------------------------------------------------------

  lemma {:induction false} SegmentsAccept(parts: seq<string>)
    ensures SegmentsOf(parts).Ok? <==> forall s | s in parts :: IsSegment(s)
    ensures SegmentsOf(parts).Ok? ==> |SegmentsOf(parts).value| == |parts|
    ensures SegmentsOf(parts).Ok? ==>
      forall i | 0 <= i < |parts| :: SegmentOf(parts[i]) == Ok(SegmentsOf(parts).value[i])
  {
    if parts != [] {
      SegmentAccepts(parts[0]);
      SegmentsAccept(parts[1..]);
      assert parts == [parts[0]] + parts[1..];
    }
  }

  lemma {:induction false} SegmentNoDot(s: string)
    requires IsSegment(s)
    ensures '.' !in s && s != "" && !IsBlank(s)
  {
    SegmentIs(s);
    if IsField(s) {
      FieldHasNo(s);
      assert s[0] == s[0];
    } else {
      var field, digits :| IsField(field) && IsNumeral(digits) && s == Bracketed(field, digits);
      FieldHasNo(field);
      assert s[0] == field[0];
    }
  }

  lemma {:induction false} JoinStarts(p: seq<string>)
    requires p != [] && p[0] != ""
    ensures Join(p) != "" && Join(p)[0] == p[0][0]
  {
  }

  // The parser accepts exactly the grammar.
  lemma {:induction false} PathAccepts(path: string)
    ensures ParsesPath(path) <==> IsPath(path)
  {
    SegmentsAccept(Split(path));
    JoinSplit(path);
    if IsPath(path) {
      var parts: seq<string> :| parts != [] && path == Join(parts) && forall s | s in parts :: IsSegment(s);
      forall s | s in parts ensures '.' !in s { SegmentNoDot(s); }
      SplitJoin(parts);
      assert parts[0] in parts;
      SegmentNoDot(parts[0]);
      JoinStarts(parts);
      NotBlank(path, parts[0]);
    }
  }

  lemma {:induction false} NotBlank(path: string, first: string)
    requires IsSegment(first) && path != "" && first != "" && path[0] == first[0]
    ensures !IsBlank(path)
  {
    SegmentIs(first);
    if !IsField(first) {
      var field, digits :| IsField(field) && IsNumeral(digits) && first == Bracketed(field, digits);
      assert first[0] == field[0];
    }
    assert IsFieldStart(path[0]);
  }

  // -- Refusals --------------------------------------------------------------

  // The text before the first bracket, and from it on.
  predicate IsCutAt(raw: string, head: string, tail: string) {
    raw == head + tail && '[' !in head && (tail == "" || tail[0] == '[')
  }

  // Why a cut segment is refused: the field first, then the brackets, then what is in them.
  predicate RefusedCut(raw: string, head: string, tail: string, reason: Reason) {
    if raw == "" then reason == EmptySegment
    else if !Field(head) then reason == NotAFieldName
    else
      && tail != ""
      && if |tail| < 3 || tail[|tail| - 1] != ']' then reason == MalformedIndex
         else if exists i :: 1 <= i < |tail| - 1 && !Numeric(tail[i]) then reason == NotDecimal
         else reason == LeadingZero && |tail| > 3 && tail[1] == '0'
  }

  ghost predicate SegmentRefused(raw: string, reason: Reason) {
    exists head, tail :: IsCutAt(raw, head, tail) && RefusedCut(raw, head, tail, reason)
  }

  lemma {:induction false} OneCut(raw: string, head: string, tail: string, other: string, rest: string)
    requires IsCutAt(raw, head, tail) && IsCutAt(raw, other, rest)
    ensures head == other && tail == rest
  {
    CutPlace(raw, head, tail);
    CutPlace(raw, other, rest);
    assert |head| == |other|;
    assert raw[..|head|] == head && raw[..|other|] == other && raw[|head|..] == tail && raw[|other|..] == rest;
  }

  lemma {:induction false} CutPlace(raw: string, head: string, tail: string)
    requires IsCutAt(raw, head, tail)
    ensures |head| <= |raw| && (|head| < |raw| ==> raw[|head|] == '[')
    ensures forall k | 0 <= k < |head| :: raw[k] != '['
  {
    forall k | 0 <= k < |head| ensures raw[k] != '[' {
      assert raw[k] == head[k] && head[k] in head;
    }
  }

  lemma {:induction false} DigitsAre(s: string)
    ensures AllDigits(s) <==> forall i | 0 <= i < |s| :: Numeric(s[i])
  {
    forall i | 0 <= i < |s| ensures IsDigit(s[i]) <==> Numeric(s[i]) {
      DigitIs(s[i]);
    }
  }

  lemma {:induction false} DigitIs(c: char)
    ensures IsDigit(c) <==> Numeric(c)
  {
  }

  lemma {:induction false} InBrackets(tail: string)
    requires |tail| >= 3
    ensures var digits := tail[1..|tail| - 1];
      && (AllDigits(digits) <==> !exists i :: 1 <= i < |tail| - 1 && !Numeric(tail[i]))
      && digits[0] == tail[1]
  {
    var digits := tail[1..|tail| - 1];
    DigitsAre(digits);
    assert forall i | 0 <= i < |digits| :: digits[i] == tail[i + 1];
    if i :| 1 <= i < |tail| - 1 && !Numeric(tail[i]) {
      assert digits[i - 1] == tail[i];
    }
  }

  lemma {:induction false} CutRefuses(raw: string, head: string, tail: string, reason: Reason)
    requires var bracket := IndexByte(raw, '[');
      if bracket.Some? then head == raw[..bracket.value] && tail == raw[bracket.value..] else head == raw && tail == ""
    ensures SegmentOf(raw) == Err(reason) <==> RefusedCut(raw, head, tail, reason)
  {
    FieldIs(head);
    if |tail| >= 3 {
      InBrackets(tail);
    }
  }

  // A segment is refused exactly so, with that reason.
  lemma {:induction false} SegmentRefuses(raw: string, reason: Reason)
    ensures SegmentOf(raw) == Err(reason) <==> SegmentRefused(raw, reason)
  {
    var bracket := IndexByte(raw, '[');
    var head := if bracket.Some? then raw[..bracket.value] else raw;
    var tail := if bracket.Some? then raw[bracket.value..] else "";
    assert raw == head + tail && IsCutAt(raw, head, tail);
    CutRefuses(raw, head, tail, reason);
    if other, rest :| IsCutAt(raw, other, rest) && RefusedCut(raw, other, rest, reason) {
      OneCut(raw, head, tail, other, rest);
    }
  }

  // The code points of the White_Space property.
  predicate Spacing(c: char) {
    || 0x9 <= c as int <= 0xD
    || c as int in {0x20, 0x85, 0xA0, 0x1680, 0x2028, 0x2029, 0x202F, 0x205F, 0x3000}
    || 0x2000 <= c as int <= 0x200A
  }

  lemma {:induction false} SpacingIs(c: char)
    ensures IsSpace(c) <==> Spacing(c)
  {
  }

  // A path is refused when it is blank, or with the reason of its first refused segment.
  ghost predicate PathRefused(path: string, reason: Reason) {
    if forall i | 0 <= i < |path| :: Spacing(path[i]) then reason == EmptyPath
    else FirstRefused(Split(path), reason)
  }

  ghost predicate FirstRefused(parts: seq<string>, reason: Reason) {
    exists i :: RefusedPart(parts, i, reason)
  }

  ghost predicate RefusedPart(parts: seq<string>, i: int, reason: Reason) {
    0 <= i < |parts| && SegmentRefused(parts[i], reason) && forall k | 0 <= k < i :: IsSegment(parts[k])
  }

  lemma {:induction false} PartsRefuse(parts: seq<string>, reason: Reason)
    ensures SegmentsOf(parts) == Err(reason) <==> FirstRefused(parts, reason)
  {
    if parts != [] {
      var rest := parts[1..];
      assert parts == [parts[0]] + rest;
      SegmentAccepts(parts[0]);
      SegmentRefuses(parts[0], reason);
      PartsRefuse(rest, reason);
      if i :| RefusedPart(rest, i, reason) && IsSegment(parts[0]) {
        assert parts[i + 1] == rest[i] && RefusedPart(parts, i + 1, reason);
      }
      if i :| RefusedPart(parts, i, reason) && i > 0 {
        assert parts[i] == rest[i - 1] && RefusedPart(rest, i - 1, reason);
      }
      if SegmentRefused(parts[0], reason) {
        assert RefusedPart(parts, 0, reason);
      }
    }
  }

  lemma {:induction false} PathRefuses(path: string, reason: Reason)
    ensures PathOf(path) == Err(reason) <==> PathRefused(path, reason)
  {
    forall i | 0 <= i < |path| ensures IsSpace(path[i]) <==> Spacing(path[i]) {
      SpacingIs(path[i]);
    }
    PartsRefuse(Split(path), reason);
  }

  // -- Printing --------------------------------------------------------------

  function PrintIndex(n: int): string {
    if n < 0 then "-" + Itoa(-n) else Itoa(n)
  }

  function Print(s: Segment): string {
    match s.index case None => s.field case Some(n) => Bracketed(s.field, PrintIndex(n))
  }

  function PrintAll(segments: seq<Segment>): (r: seq<string>)
    ensures |r| == |segments|
    ensures forall i | 0 <= i < |segments| :: r[i] == Print(segments[i])
  {
    seq(|segments|, i requires 0 <= i < |segments| => Print(segments[i]))
  }

  // The numeral of an indexed segment, as written.
  function Numeral(raw: string): Option<nat> {
    var bracket := IndexByte(raw, '[');
    if bracket.None? || |raw| < bracket.value + 3 then None else
    var digits := raw[bracket.value + 1..|raw| - 1];
    if AllDigits(digits) then Some(ValueOf(digits)) else None
  }

  predicate Small(raw: string) {
    Numeral(raw).Some? ==> Numeral(raw).value < 0x8000_0000_0000_0000
  }

  lemma {:induction false} WrapSmall(n: nat)
    ensures Wrap(n) == n <==> n < TWO_TO_THE_63
  {
  }

  // An index is its numeral's number in 64 signed bits.
  lemma {:induction false} IndexMeans(field: string, digits: string)
    requires Field(field) && IsNumeral(digits)
    ensures var r := SegmentOf(Bracketed(field, digits));
      && r.Ok? && r.value.field == field && r.value.index.Some?
      && -0x8000_0000_0000_0000 <= r.value.index.value < 0x8000_0000_0000_0000
      && (ValueOf(digits) - r.value.index.value) % 0x1_0000_0000_0000_0000 == 0
  {
    FieldIs(field);
    IndexedIs(field, digits);
    WrapMeans(ValueOf(digits));
  }

  lemma {:induction false} WrapMeans(n: int)
    ensures -0x8000_0000_0000_0000 <= Wrap(n) < 0x8000_0000_0000_0000
    ensures (n - Wrap(n)) % 0x1_0000_0000_0000_0000 == 0
  {
    var q := (n + TWO_TO_THE_63) / TWO_TO_THE_64;
    assert n - Wrap(n) == TWO_TO_THE_64 * q;
    ModUnique(n - Wrap(n), q, 0);
  }

  // A printed index is the numeral exactly when the number did not wrap.
  lemma {:induction false} IndexPrints(digits: string)
    requires IsNumeral(digits)
    ensures PrintIndex(Wrap(ValueOf(digits))) == digits <==> ValueOf(digits) < TWO_TO_THE_63
  {
    var n := ValueOf(digits);
    NumeralBack(digits);
    WrapSmall(n);
    if n >= TWO_TO_THE_63 {
      if Wrap(n) < 0 {
        assert PrintIndex(Wrap(n))[0] == '-';
      } else if PrintIndex(Wrap(n)) == digits {
        ItoaInjective(Wrap(n), n);
      }
    }
  }

  lemma {:induction false} SegmentPrints(raw: string)
    requires SegmentOf(raw).Ok?
    ensures Print(SegmentOf(raw).value) == raw <==> Small(raw)
  {
    var digits := AcceptedSegment(raw);
    var s := SegmentOf(raw).value;
    if s.index.Some? {
      IndexPrints(digits);
      NumeralIs(raw, s.field, digits);
      SameBrackets(s.field, PrintIndex(s.index.value), digits);
    } else {
      FieldHasNo(raw);
    }
  }

  lemma {:induction false} SameBrackets(field: string, a: string, b: string)
    ensures Bracketed(field, a) == Bracketed(field, b) <==> a == b
  {
    var x, y := Bracketed(field, a), Bracketed(field, b);
    if x == y {
      assert |a| == |b|;
      assert a == x[|field| + 1..|x| - 1] && b == y[|field| + 1..|y| - 1];
    }
  }

  lemma {:induction false} NumeralIs(raw: string, field: string, digits: string)
    requires IsField(field) && IsNumeral(digits) && raw == Bracketed(field, digits)
    ensures Numeral(raw) == Some(ValueOf(digits))
  {
    BracketAt(field, digits);
    assert raw[|field| + 1..|raw| - 1] == digits;
  }

  lemma {:induction false} PrintNoDot(s: Segment)
    requires IsField(s.field)
    ensures '.' !in Print(s)
  {
    FieldHasNo(s.field);
  }

  lemma {:induction false} PartsPrint(parts: seq<string>, segments: seq<Segment>)
    requires SegmentsOf(parts) == Ok(segments)
    ensures PrintAll(segments) == parts <==> forall raw | raw in parts :: Small(raw)
    ensures forall s | s in PrintAll(segments) :: '.' !in s
  {
    SegmentsAccept(parts);
    forall i | 0 <= i < |parts|
      ensures PrintAll(segments)[i] == parts[i] <==> Small(parts[i])
      ensures '.' !in PrintAll(segments)[i]
    {
      SegmentPrints(parts[i]);
      var digits := AcceptedSegment(parts[i]);
      PrintNoDot(segments[i]);
    }
    if PrintAll(segments) == parts {
      forall raw | raw in parts ensures Small(raw) {
        var i :| 0 <= i < |parts| && parts[i] == raw;
        assert PrintAll(segments)[i] == parts[i];
      }
    }
  }

  // Printing the segments of an accepted path gives back the path exactly when every index
  // is below 2^63.
  lemma {:induction false} PathPrints(path: string)
    requires ParsesPath(path)
    ensures PathOf(path).value != []
    ensures Join(PrintAll(PathOf(path).value)) == path <==> forall raw | raw in Split(path) :: Small(raw)
  {
    var segments := PathOf(path).value;
    SegmentsAccept(Split(path));
    PartsPrint(Split(path), segments);
    JoinSplit(path);
    SplitJoin(PrintAll(segments));
  }

  // Two accepted paths with the same segments are the same path.
  lemma {:induction false} PathInjective(p: string, q: string)
    requires ParsesPath(p) && PathOf(p) == PathOf(q)
    requires forall raw | raw in Split(p) + Split(q) :: Small(raw)
    ensures p == q
  {
    forall raw | raw in Split(p) ensures Small(raw) { assert raw in Split(p) + Split(q); }
    forall raw | raw in Split(q) ensures Small(raw) { assert raw in Split(p) + Split(q); }
    PathPrints(p);
    PathPrints(q);
  }
}
