// The property path grammar and its hand-written parser.
//
//   path    := segment ( "." segment )*
//   segment := field ( "[" index "]" )?
//   field   := a letter or '_', then letters, digits and '_'
//   index   := a decimal numeral without a leading zero
module PropPath {
  import opened Wrappers
  import opened Decimal
  import opened Dotted

  // -- The grammar -----------------------------------------------------------

  predicate Letter(c: char) {
    c in {'A', 'B', 'C', 'D', 'E', 'F', 'G', 'H', 'I', 'J', 'K', 'L', 'M', 'N', 'O', 'P', 'Q', 'R', 'S', 'T', 'U', 'V',
          'W', 'X', 'Y', 'Z', 'a', 'b', 'c', 'd', 'e', 'f', 'g', 'h', 'i', 'j', 'k', 'l', 'm', 'n', 'o', 'p', 'q', 'r',
          's', 't', 'u', 'v', 'w', 'x', 'y', 'z', '_'}
  }

  predicate Numeric(c: char) {
    c in {'0', '1', '2', '3', '4', '5', '6', '7', '8', '9'}
  }

  predicate Field(s: string) {
    s != [] && Letter(s[0]) && forall i | 0 <= i < |s| :: Letter(s[i]) || Numeric(s[i])
  }

  function Bracketed(field: string, digits: string): string {
    field + "[" + digits + "]"
  }

  ghost predicate IsSegment(s: string) {
    Field(s) || exists field, digits :: Field(field) && IsNumeral(digits) && s == Bracketed(field, digits)
  }

  ghost predicate IsPath(path: string) {
    exists parts: seq<string> :: parts != [] && path == Join(parts) && forall s | s in parts :: IsSegment(s)
  }

  // -- The parser ------------------------------------------------------------

  predicate IsFieldStart(c: char) {
    'A' <= c <= 'Z' || 'a' <= c <= 'z' || c == '_'
  }

  predicate IsFieldChar(c: char) {
    IsFieldStart(c) || '0' <= c <= '9'
  }

  predicate IsField(s: string) {
    s != [] && IsFieldStart(s[0]) && forall i | 0 <= i < |s| :: IsFieldChar(s[i])
  }

  lemma {:induction false} FieldIs(s: string)
    ensures IsField(s) <==> Field(s)
  {
    forall i | 0 <= i < |s|
      ensures IsFieldStart(s[i]) <==> Letter(s[i])
      ensures IsFieldChar(s[i]) <==> Letter(s[i]) || Numeric(s[i])
    {
      CharIs(s[i]);
    }
  }

  lemma {:induction false} CharIs(c: char)
    ensures IsFieldStart(c) <==> Letter(c)
    ensures IsFieldChar(c) <==> Letter(c) || Numeric(c)
  {
  }

  datatype Segment = Segment(field: string, index: Option<int>)

  datatype Reason = EmptyPath | EmptySegment | NotAFieldName | MalformedIndex | NotDecimal | LeadingZero

  const TWO_TO_THE_63: int := 0x8000_0000_0000_0000
  const TWO_TO_THE_64: int := 0x1_0000_0000_0000_0000

  // A 64-bit signed integer's value after wrap-around.
  function Wrap(x: int): int {
    (x + TWO_TO_THE_63) % TWO_TO_THE_64 - TWO_TO_THE_63
  }

  function IndexByte(s: string, c: char): (r: Option<nat>)
    ensures r.Some? ==> r.value < |s| && s[r.value] == c && c !in s[..r.value]
    ensures r.None? ==> c !in s
  {
    if s == [] then None
    else if s[0] == c then Some(0)
    else
      match IndexByte(s[1..], c)
      case None => None
      case Some(i) => assert s[..i + 1] == [s[0]] + s[1..][..i]; Some(i + 1)
  }

  function SegmentOf(raw: string): Result<Segment, Reason> {
    if raw == "" then Err(EmptySegment) else
    var bracket := IndexByte(raw, '[');
    var fieldPart := if bracket.Some? then raw[..bracket.value] else raw;
    if !IsField(fieldPart) then Err(NotAFieldName)
    else if bracket.None? then Ok(Segment(fieldPart, None))
    else
      var indexPart := raw[bracket.value..];
      if |indexPart| < 3 || indexPart[|indexPart| - 1] != ']' then Err(MalformedIndex) else
      var digits := indexPart[1..|indexPart| - 1];
      if !AllDigits(digits) then Err(NotDecimal)
      else if |digits| > 1 && digits[0] == '0' then Err(LeadingZero)
      else Ok(Segment(fieldPart, Some(Wrap(ValueOf(digits)))))
  }

  function SegmentsOf(parts: seq<string>): Result<seq<Segment>, Reason> {
    if parts == [] then Ok([]) else
    match SegmentOf(parts[0])
    case Err(reason) => Err(reason)
    case Ok(segment) =>
      match SegmentsOf(parts[1..])
      case Err(reason) => Err(reason)
      case Ok(segments) => Ok([segment] + segments)
  }

  // The characters of the White_Space property.
  predicate IsSpace(c: char) {
    || c == ' ' || '\t' <= c <= '\r' || c == '\U{85}' || c == '\U{A0}' || c == '\U{1680}'
    || '\U{2000}' <= c <= '\U{200A}' || c == '\U{2028}' || c == '\U{2029}' || c == '\U{202F}'
    || c == '\U{205F}' || c == '\U{3000}'
  }

  predicate IsBlank(s: string) {
    forall i | 0 <= i < |s| :: IsSpace(s[i])
  }

  function PathOf(path: string): Result<seq<Segment>, Reason> {
    if IsBlank(path) then Err(EmptyPath) else SegmentsOf(Split(path))
  }

  predicate ParsesPath(path: string) {
    PathOf(path).Ok?
  }

  lemma {:induction false} WrapStep(a: int, d: int)
    ensures Wrap(Wrap(a) * 10 + d) == Wrap(a * 10 + d)
  {
    var q := (a + TWO_TO_THE_63) / TWO_TO_THE_64;
    assert Wrap(a) == a - TWO_TO_THE_64 * q;
    var x := a * 10 + d + TWO_TO_THE_63;
    assert Wrap(a) * 10 + d + TWO_TO_THE_63 == x + TWO_TO_THE_64 * (-10 * q);
    ModShift(x, -10 * q);
  }

  lemma {:induction false} ModShift(x: int, k: int)
    ensures (x + TWO_TO_THE_64 * k) % TWO_TO_THE_64 == x % TWO_TO_THE_64
  {
    var q, r := x / TWO_TO_THE_64, x % TWO_TO_THE_64;
    var y := x + TWO_TO_THE_64 * k;
    assert y == TWO_TO_THE_64 * (q + k) + r;
    ModUnique(y, q + k, r);
  }

  lemma {:induction false} ModUnique(y: int, q: int, r: int)
    requires 0 <= r < TWO_TO_THE_64 && y == TWO_TO_THE_64 * q + r
    ensures y % TWO_TO_THE_64 == r
  {
  }

  method ParseSegment(raw: string) returns (r: Result<Segment, Reason>)
    ensures r == SegmentOf(raw)
  {
    if raw == "" {
      return Err(EmptySegment);
    }
    var bracket := IndexByte(raw, '[');
    var fieldPart := raw;
    if bracket.Some? {
      fieldPart := raw[..bracket.value];
    }
    if fieldPart == "" || !IsFieldStart(fieldPart[0]) {
      return Err(NotAFieldName);
    }
    for i := 1 to |fieldPart|
      invariant forall k | 0 <= k < i :: IsFieldChar(fieldPart[k])
    {
      if !IsFieldChar(fieldPart[i]) {
        return Err(NotAFieldName);
      }
    }
    if bracket.None? {
      return Ok(Segment(fieldPart, None));
    }
    var indexPart := raw[bracket.value..];
    if |indexPart| < 3 || indexPart[|indexPart| - 1] != ']' {
      return Err(MalformedIndex);
    }
    var digits := indexPart[1..|indexPart| - 1];
    var index := 0;
    for i := 0 to |digits|
      invariant AllDigits(digits[..i]) && index == Wrap(ValueOf(digits[..i]))
    {
      var c := digits[i];
      if c < '0' || c > '9' {
        return Err(NotDecimal);
      }
      assert digits[..i + 1][..i] == digits[..i];
      WrapStep(ValueOf(digits[..i]), DigitValue(c));
      index := Wrap(index * 10 + DigitValue(c));
    }
    assert digits[..|digits|] == digits;
    if |digits| > 1 && digits[0] == '0' {
      return Err(LeadingZero);
    }
    r := Ok(Segment(fieldPart, Some(index)));
  }

  method ParsePath(path: string) returns (r: Result<seq<Segment>, Reason>)
    ensures r == PathOf(path)
  {
    if IsBlank(path) {
      return Err(EmptyPath);
    }
    var parts := Split(path);
    var segments := [];
    assert parts[0..] == parts;
    AfterNone(SegmentsOf(parts));
    for i := 0 to |parts|
      invariant SegmentsOf(parts) == After(segments, SegmentsOf(parts[i..]))
    {
      assert parts[i..][1..] == parts[i + 1..];
      var segment := ParseSegment(parts[i]);
      if segment.Err? {
        return Err(segment.error);
      }
      AfterOne(segments, segment.value, SegmentsOf(parts[i + 1..]));
      segments := segments + [segment.value];
    }
    assert parts[|parts|..] == [] && segments + [] == segments;
    r := Ok(segments);
  }

  function After(front: seq<Segment>, r: Result<seq<Segment>, Reason>): Result<seq<Segment>, Reason> {
    match r case Err(reason) => Err(reason) case Ok(rest) => Ok(front + rest)
  }

  lemma {:induction false} AfterNone(r: Result<seq<Segment>, Reason>)
    ensures After([], r) == r
  {
    if r.Ok? { assert [] + r.value == r.value; }
  }

  lemma {:induction false} AfterOne(front: seq<Segment>, s: Segment, r: Result<seq<Segment>, Reason>)
    ensures After(front, After([s], r)) == After(front + [s], r)
  {
    if r.Ok? { assert front + ([s] + r.value) == (front + [s]) + r.value; }
  }
}
