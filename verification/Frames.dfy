// The WebSocket frame codec of RFC 6455: one unfragmented frame written, one read.
module Frames {
  import opened Wrappers

  type byte = x: int | 0 <= x < 256

  type Key = k: seq<byte> | |k| == 4 witness [0, 0, 0, 0]

  const OP_CLOSE: byte := 8
  const MAX_CONTROL_FRAME_BYTES: nat := 125
  const CLOSE_PROTOCOL_ERROR: nat := 1002
  const CLOSE_MESSAGE_TOO_BIG: nat := 1009
  const TWO_TO_THE_63: nat := 0x8000_0000_0000_0000

  // -- Byte arithmetic -------------------------------------------------------

  function Power(k: nat): nat {
    if k == 0 then 1 else 256 * Power(k - 1)
  }

  function BigEndian(n: nat, k: nat): (r: seq<byte>)
    ensures |r| == k
  {
    if k == 0 then [] else BigEndian(n / 256, k - 1) + [n % 256]
  }

  function FromBigEndian(bs: seq<byte>): nat {
    if bs == [] then 0 else 256 * FromBigEndian(bs[..|bs| - 1]) + bs[|bs| - 1]
  }

  lemma {:induction false} BigEndianBack(n: nat, k: nat)
    requires n < Power(k)
    ensures FromBigEndian(BigEndian(n, k)) == n
    decreases k
  {
    if k > 0 {
      var bs := BigEndian(n, k);
      assert bs[..k - 1] == BigEndian(n / 256, k - 1);
      BigEndianBack(n / 256, k - 1);
    }
  }

  lemma {:induction false} Powers()
    ensures Power(2) == 0x1_0000 && Power(8) == 0x1_0000_0000_0000_0000
  {
    assert Power(1) == 256 && Power(2) == 0x1_0000;
    assert Power(3) == 256 * Power(2) && Power(4) == 256 * Power(3);
    assert Power(5) == 256 * Power(4) && Power(6) == 256 * Power(5);
    assert Power(7) == 256 * Power(6) && Power(8) == 256 * Power(7);
  }

  // Bitwise exclusive or, bit by bit.
  function XorBits(a: nat, b: nat, bits: nat): nat {
    if bits == 0 then 0 else (a + b) % 2 + 2 * XorBits(a / 2, b / 2, bits - 1)
  }

  lemma {:induction false} XorBitsBound(a: nat, b: nat, bits: nat, top: nat)
    requires top == Pow2(bits)
    ensures XorBits(a, b, bits) < top
    decreases bits
  {
    if bits > 0 {
      XorBitsBound(a / 2, b / 2, bits - 1, Pow2(bits - 1));
    }
  }

  function Pow2(bits: nat): nat {
    if bits == 0 then 1 else 2 * Pow2(bits - 1)
  }

  lemma {:induction false} XorBitsTwice(a: nat, b: nat, bits: nat)
    requires a < Pow2(bits)
    ensures XorBits(XorBits(a, b, bits), b, bits) == a
    decreases bits
  {
    if bits > 0 {
      var x := XorBits(a, b, bits);
      var y := XorBits(a / 2, b / 2, bits - 1);
      assert x == (a + b) % 2 + 2 * y;
      Halves(x, (a + b) % 2, y);
      XorBitsTwice(a / 2, b / 2, bits - 1);
      Parity(a, b, x);
    }
  }

  lemma {:induction false} Halves(x: nat, low: nat, y: nat)
    requires x == low + 2 * y && low < 2
    ensures x / 2 == y && x % 2 == low
  {
  }

  lemma {:induction false} Parity(a: nat, b: nat, x: nat)
    requires x % 2 == (a + b) % 2
    ensures (x + b) % 2 == a % 2
  {
  }

  // Bit `k` of a number, and byte `k`, from the low end.
  function Bit(x: nat, k: nat): nat {
    if k == 0 then x % 2 else Bit(x / 2, k - 1)
  }

  function ByteAt(x: nat, k: nat): byte {
    if k == 0 then x % 256 else ByteAt(x / 256, k - 1)
  }

  // A bit of an exclusive or is set where exactly one of the two has it set.
  lemma {:induction false} XorBitIs(a: nat, b: nat, bits: nat, k: nat)
    requires k < bits
    ensures Bit(XorBits(a, b, bits), k) == 1 <==> Bit(a, k) != Bit(b, k)
    decreases k
  {
    var x, y := XorBits(a, b, bits), XorBits(a / 2, b / 2, bits - 1);
    Halves(x, (a + b) % 2, y);
    if k > 0 {
      XorBitIs(a / 2, b / 2, bits - 1, k - 1);
    } else {
      OneBit(a, b);
    }
  }

  lemma {:induction false} OneBit(a: nat, b: nat)
    ensures (a + b) % 2 == 1 <==> a % 2 != b % 2
  {
  }

  lemma {:induction false} XorIs(a: byte, b: byte, k: nat)
    requires k < 8
    ensures Bit(Xor(a, b), k) == 1 <==> Bit(a, k) != Bit(b, k)
  {
    XorBitIs(a, b, 8, k);
  }

  // The high byte comes first.
  lemma {:induction false} BigEndianAt(n: nat, k: nat, i: nat)
    requires i < k
    ensures BigEndian(n, k)[i] == ByteAt(n, k - 1 - i)
  {
    if i < k - 1 {
      BigEndianAt(n / 256, k - 1, i);
    }
  }

  lemma {:induction false} FromBigEndianAt(bs: seq<byte>, i: nat)
    requires i < |bs|
    ensures bs[i] == ByteAt(FromBigEndian(bs), |bs| - 1 - i)
    decreases |bs|
  {
    var front, n := bs[..|bs| - 1], FromBigEndian(bs);
    Quotient(n, FromBigEndian(front), bs[|bs| - 1]);
    if i < |bs| - 1 {
      FromBigEndianAt(front, i);
    }
  }

  lemma {:induction false} Quotient(n: nat, high: nat, low: byte)
    requires n == 256 * high + low
    ensures n / 256 == high && n % 256 == low
  {
  }

  lemma {:induction false} FromBigEndianBound(bs: seq<byte>)
    ensures FromBigEndian(bs) < Power(|bs|)
    decreases |bs|
  {
    if bs != [] {
      FromBigEndianBound(bs[..|bs| - 1]);
    }
  }

  function Xor(a: byte, b: byte): byte {
    assert Pow2(4) == 16 && Pow2(8) == 256;
    XorBitsBound(a, b, 8, 256);
    XorBits(a, b, 8)
  }

  lemma {:induction false} XorTwice(a: byte, b: byte)
    ensures Xor(Xor(a, b), b) == a
  {
    assert Pow2(4) == 16 && Pow2(8) == 256;
    XorBitsTwice(a, b, 8);
  }

  // -- The format ------------------------------------------------------------

  // The payload length on the wire: 7 bits, or 16, or 64 behind a marker.
  function LengthBytes(n: nat, maskBit: nat): (r: seq<byte>)
    requires maskBit in {0, 128}
    ensures |r| >= 1
  {
    if n < 126 then [maskBit + n]
    else if n < 65536 then [maskBit + 126] + BigEndian(n, 2)
    else [maskBit + 127] + BigEndian(n, 8)
  }

  // The final-frame bit set on an opcode byte.
  function FirstByte(opcode: byte): byte {
    if opcode < 128 then opcode + 128 else opcode
  }

  function Masked(payload: seq<byte>, key: Key): (r: seq<byte>)
    ensures |r| == |payload|
  {
    seq(|payload|, i requires 0 <= i < |payload| => Xor(payload[i], key[i % 4]))
  }

  lemma {:induction false} MaskedTwice(payload: seq<byte>, key: Key)
    ensures Masked(Masked(payload, key), key) == payload
  {
    forall i | 0 <= i < |payload| ensures Masked(Masked(payload, key), key)[i] == payload[i] {
      XorTwice(payload[i], key[i % 4]);
    }
  }

  // A frame as the server writes it, or, with a key, as a client does.
  function Encode(opcode: byte, payload: seq<byte>, key: Option<Key>): seq<byte>
  {
    match key
    case None => [FirstByte(opcode)] + LengthBytes(|payload|, 0) + payload
    case Some(k) => [FirstByte(opcode)] + LengthBytes(|payload|, 128) + k + Masked(payload, k)
  }

  // The bytes of section 5.2 of RFC 6455 for an unmasked final frame: the opcode with the top
  // bit set; the length in seven bits, or 126 and two bytes, or 127 and eight; the payload.
  ghost predicate IsFrame(frame: seq<byte>, opcode: byte, payload: seq<byte>) {
    var n := |payload|;
    var at := if n <= 125 then 2 else if n <= 65535 then 4 else 10;
    && |frame| == at + n && frame[at..] == payload
    && frame[0] == 128 + opcode % 128
    && frame[1] == (if n <= 125 then n else if n <= 65535 then 126 else 127)
    && forall i | 2 <= i < at :: frame[i] == ByteAt(n, at - 1 - i)
  }

  lemma {:induction false} EncodeIs(opcode: byte, payload: seq<byte>)
    ensures IsFrame(Encode(opcode, payload, None), opcode, payload)
  {
    var n, frame := |payload|, Encode(opcode, payload, None);
    var length := LengthBytes(n, 0);
    assert frame == [FirstByte(opcode)] + length + payload;
    assert frame[1] == length[0] && frame[1 + |length|..] == payload;
    forall i | 2 <= i < 1 + |length| ensures frame[i] == ByteAt(n, |length| - i) {
      assert frame[i] == length[i - 1];
      BigEndianAt(n, |length| - 1, i - 2);
    }
  }

  // A peer that takes `room` more bytes and then fails, or never fails.
  class Writer {
    var out: seq<byte>
    var room: Option<nat>

    constructor (room: Option<nat>)
      ensures out == [] && this.room == room
    {
      out, this.room := [], room;
    }

    method Write(bytes: seq<byte>) returns (ok: bool)
      modifies this
      ensures ok <==> Takes(old(room), |bytes|)
      ensures out == old(out) + if ok then bytes else bytes[..old(room).value]
      ensures room == if old(room).None? then None else Some(if ok then old(room).value - |bytes| else 0)
    {
      if room.Some? && room.value < |bytes| {
        out, room := out + bytes[..room.value], Some(0);
        return false;
      }
      out := out + bytes;
      if room.Some? {
        room := Some(room.value - |bytes|);
      }
      ok := true;
    }
  }

  predicate Takes(room: Option<nat>, n: nat) {
    room.None? || n <= room.value
  }

  // A payload length is below 2^63, as every slice's is. A write that fails leaves a prefix
  // of the frame behind.
  method WriteFrame(w: Writer, opcode: byte, payload: seq<byte>) returns (ok: bool)
    requires |payload| < TWO_TO_THE_63
    modifies w
    ensures var frame := Encode(opcode, payload, None);
      && IsFrame(frame, opcode, payload)
      && (ok <==> Takes(old(w.room), |frame|))
      && w.out == old(w.out) + (if ok then frame else frame[..old(w.room).value])
  {
    EncodeIs(opcode, payload);
    var header: seq<byte> := [FirstByte(opcode)];
    var n := |payload|;
    if n < 126 {
      header := header + [n];
    } else if n < 65536 {
      header := header + [126];
      header := header + BigEndian(n, 2);
    } else {
      header := header + [127];
      header := header + BigEndian(n, 8);
    }
    assert Encode(opcode, payload, None) == header + payload;
    ok := w.Write(header);
    if !ok {
      return;
    }
    ok := w.Write(payload);
  }

  // -- Reading ---------------------------------------------------------------

  datatype Outcome =
    | Frame(opcode: byte, payload: seq<byte>)
    | Closed(payload: seq<byte>)
    | ShortRead
    | Refused(closeCode: nat)
    | Crash

  class Reader {
    const input: seq<byte>
    var pos: nat

    ghost predicate Valid()
      reads this
    {
      pos <= |input|
    }

    constructor (input: seq<byte>)
      ensures this.input == input && pos == 0
    {
      this.input, pos := input, 0;
    }

    // Exactly `n` bytes, or an error with what there was used up.
    method ReadFull(n: nat) returns (bytes: Option<seq<byte>>)
      requires Valid()
      modifies this
      ensures Valid()
      ensures old(pos) + n <= |input| ==> pos == old(pos) + n && bytes == Some(input[old(pos)..pos])
      ensures old(pos) + n > |input| ==> pos == |input| && bytes == None
    {
      if pos + n > |input| {
        pos := |input|;
        return None;
      }
      bytes := Some(input[pos..pos + n]);
      pos := pos + n;
    }
  }

  // The declared length after the two head bytes, and where it ends.
  function DeclaredLength(bs: seq<byte>): Option<(nat, nat)>
    requires |bs| >= 2
  {
    var short := bs[1] % 128;
    if short == 126 then
      if |bs| < 4 then None else Some((FromBigEndian(bs[2..4]), 4))
    else if short == 127 then
      if |bs| < 10 then None else Some((FromBigEndian(bs[2..10]), 10))
    else Some((short, 2))
  }

  predicate IsControl(opcode: byte) {
    opcode / 8 % 2 == 1
  }

  // Why a frame with a readable header is turned away before its payload.
  function Refusal(opcode: byte, masked: bool, declared: nat, maxPayload: int, clientToServer: bool): Option<nat> {
    if IsControl(opcode) && declared > MAX_CONTROL_FRAME_BYTES then Some(CLOSE_PROTOCOL_ERROR)
    else if clientToServer && !masked then Some(CLOSE_PROTOCOL_ERROR)
    else if maxPayload > 0 && declared > maxPayload then Some(CLOSE_MESSAGE_TOO_BIG)
    else None
  }

  // One frame off the front of a stream, and what is left after it.
  function Parse(bs: seq<byte>, maxPayload: int, clientToServer: bool): (Outcome, seq<byte>) {
    if |bs| < 2 then (ShortRead, [])
    else if bs[0] < 128 then (Refused(CLOSE_PROTOCOL_ERROR), bs[2..]) else
    match DeclaredLength(bs)
    case None => (ShortRead, [])
    case Some((declared, at)) =>
      match Refusal(bs[0] % 16, bs[1] >= 128, declared, maxPayload, clientToServer)
      case Some(code) => (Refused(code), bs[at..])
      case None => ParseBody(bs[at..], bs[0] % 16, bs[1] >= 128, declared)
  }

  // The mask key, if any, and the payload.
  function ParseBody(bs: seq<byte>, opcode: byte, masked: bool, declared: nat): (Outcome, seq<byte>) {
    if masked && |bs| < 4 then (ShortRead, []) else
    var body := if masked then bs[4..] else bs;
    if declared >= TWO_TO_THE_63 then (Crash, body)
    else if declared > |body| then (ShortRead, [])
    else
      var payload := if masked then Masked(body[..declared], bs[..4]) else body[..declared];
      (if opcode == OP_CLOSE then Closed(payload) else Frame(opcode, payload), body[declared..])
  }

  // -- What a read answers, field by field -----------------------------------

  // Where the header without the key ends, and with it.
  function HeaderEnd(bs: seq<byte>): nat
    requires |bs| >= 2
  {
    if bs[1] % 128 == 126 then 4 else if bs[1] % 128 == 127 then 10 else 2
  }

  function BodyStart(bs: seq<byte>): nat
    requires |bs| >= 2
  {
    HeaderEnd(bs) + if bs[1] >= 128 then 4 else 0
  }

  // The length the header declares: seven bits, or the two or eight bytes after them.
  ghost predicate Declares(bs: seq<byte>, n: nat)
    requires |bs| >= 2 && |bs| >= HeaderEnd(bs)
  {
    if HeaderEnd(bs) == 2 then n == bs[1] % 128
    else if HeaderEnd(bs) == 4 then n == 256 * (bs[2] as int) + bs[3] as int
    else n < 0x1_0000_0000_0000_0000 && forall i | 2 <= i < 10 :: bs[i] == ByteAt(n, 9 - i)
  }

  // Turned away on its header: a control frame past 125 bytes or a client's frame without a
  // mask as a protocol error, a payload past the limit as too big.
  predicate TurnedAway(opcode: int, masked: bool, n: nat, maxPayload: int, clientToServer: bool, code: nat) {
    if (opcode >= 8 && n > 125) || (clientToServer && !masked) then code == 1002
    else code == 1009 && maxPayload > 0 && n > maxPayload
  }

  // The payload: what follows the header, each byte combined with a key byte when masked.
  predicate Carries(bs: seq<byte>, n: nat, payload: seq<byte>)
    requires |bs| >= 2 && |bs| >= BodyStart(bs) + n
  {
    && |payload| == n
    && forall i | 0 <= i < n ::
         payload[i] ==
         if bs[1] >= 128 then Xor(bs[BodyStart(bs) + i], bs[HeaderEnd(bs) + i % 4]) else bs[BodyStart(bs) + i]
  }

  ghost predicate ReadsAs(
    bs: seq<byte>, maxPayload: int, clientToServer: bool, outcome: Outcome, after: seq<byte>, n: nat)
    requires |bs| >= 2 && |bs| >= HeaderEnd(bs)
  {
    var opcode, masked := bs[0] % 16, bs[1] >= 128;
    && Declares(bs, n)
    && match outcome
       case Refused(code) =>
         TurnedAway(opcode, masked, n, maxPayload, clientToServer, code) && after == bs[HeaderEnd(bs)..]
       case ShortRead =>
         && after == [] && (forall code: nat :: !TurnedAway(opcode, masked, n, maxPayload, clientToServer, code))
         && (|bs| < BodyStart(bs) || (n < TWO_TO_THE_63 && |bs| < BodyStart(bs) + n))
       case Crash =>
         && (forall code: nat :: !TurnedAway(opcode, masked, n, maxPayload, clientToServer, code))
         && |bs| >= BodyStart(bs) && n >= TWO_TO_THE_63 && after == bs[BodyStart(bs)..]
       case Closed(payload) =>
         && opcode == 8 && (forall code: nat :: !TurnedAway(opcode, masked, n, maxPayload, clientToServer, code))
         && |bs| >= BodyStart(bs) + n && Carries(bs, n, payload) && after == bs[BodyStart(bs) + n..]
       case Frame(op, payload) =>
         && op == opcode != 8 && (forall code: nat :: !TurnedAway(opcode, masked, n, maxPayload, clientToServer, code))
         && |bs| >= BodyStart(bs) + n && Carries(bs, n, payload) && after == bs[BodyStart(bs) + n..]
  }

  // One frame off the front: short without a whole header, refused without the final bit, and
  // else as its fields say.
  ghost predicate Reads(bs: seq<byte>, maxPayload: int, clientToServer: bool, outcome: Outcome, after: seq<byte>) {
    if |bs| < 2 then outcome == ShortRead && after == []
    else if bs[0] < 128 then outcome == Refused(1002) && after == bs[2..]
    else if |bs| < HeaderEnd(bs) then outcome == ShortRead && after == []
    else exists n :: ReadsAs(bs, maxPayload, clientToServer, outcome, after, n)
  }

  lemma {:induction false} LengthDeclared(bs: seq<byte>)
    requires |bs| >= 2
    ensures DeclaredLength(bs).None? <==> |bs| < HeaderEnd(bs)
    ensures |bs| >= HeaderEnd(bs) ==>
      DeclaredLength(bs).value.1 == HeaderEnd(bs) && Declares(bs, DeclaredLength(bs).value.0)
  {
    if |bs| >= HeaderEnd(bs) && HeaderEnd(bs) == 4 {
      TwoBytes(bs[2..4]);
    } else if |bs| >= HeaderEnd(bs) == 10 {
      Powers();
      FromBigEndianBound(bs[2..10]);
      forall i | 2 <= i < 10 ensures bs[i] == ByteAt(FromBigEndian(bs[2..10]), 9 - i) {
        FromBigEndianAt(bs[2..10], i - 2);
      }
    }
  }

  lemma {:induction false} TwoBytes(bs: seq<byte>)
    requires |bs| == 2
    ensures FromBigEndian(bs) == 256 * (bs[0] as int) + bs[1] as int
  {
    var front := bs[..1];
    assert front[..0] == [] && FromBigEndian([]) == 0;
    assert FromBigEndian(front) == 256 * FromBigEndian(front[..0]) + front[0];
  }

  lemma {:induction false} RefusalIs(
    opcode: byte, masked: bool, n: nat, maxPayload: int, clientToServer: bool, code: nat)
    requires opcode < 16
    ensures Refusal(opcode, masked, n, maxPayload, clientToServer) == Some(code) <==>
      TurnedAway(opcode, masked, n, maxPayload, clientToServer, code)
  {
  }

  lemma {:induction false} BodyCarried(bs: seq<byte>, n: nat)
    requires |bs| >= 2 && |bs| >= BodyStart(bs) && n < TWO_TO_THE_63
    ensures var (outcome, after) := ParseBody(bs[HeaderEnd(bs)..], bs[0] % 16, bs[1] >= 128, n);
      if |bs| < BodyStart(bs) + n then outcome == ShortRead && after == []
      else
        && after == bs[BodyStart(bs) + n..]
        && match outcome
           case Closed(payload) => bs[0] % 16 == 8 && Carries(bs, n, payload)
           case Frame(opcode, payload) => opcode == bs[0] % 16 != 8 && Carries(bs, n, payload)
           case _ => false
  {
    var rest := bs[HeaderEnd(bs)..];
    var body := if bs[1] >= 128 then rest[4..] else rest;
    assert body == bs[BodyStart(bs)..];
    if |bs| >= BodyStart(bs) + n {
      assert body[n..] == bs[BodyStart(bs) + n..];
      forall i | 0 <= i < n ensures body[..n][i] == bs[BodyStart(bs) + i] {
      }
    }
  }

  lemma {:induction false} ParseReads(bs: seq<byte>, maxPayload: int, clientToServer: bool)
    ensures var (outcome, after) := Parse(bs, maxPayload, clientToServer);
      Reads(bs, maxPayload, clientToServer, outcome, after)
  {
    if |bs| >= 2 && bs[0] >= 128 {
      LengthDeclared(bs);
      if |bs| >= HeaderEnd(bs) {
        var (outcome, after) := Parse(bs, maxPayload, clientToServer);
        var n := DeclaredLength(bs).value.0;
        forall code: nat ensures Refusal(bs[0] % 16, bs[1] >= 128, n, maxPayload, clientToServer) == Some(code) <==>
          TurnedAway(bs[0] % 16, bs[1] >= 128, n, maxPayload, clientToServer, code)
        {
          RefusalIs(bs[0] % 16, bs[1] >= 128, n, maxPayload, clientToServer, code);
        }
        if |bs| >= BodyStart(bs) && n < TWO_TO_THE_63 {
          BodyCarried(bs, n);
        }
        assert ReadsAs(bs, maxPayload, clientToServer, outcome, after, n);
      }
    }
  }

  // The extended length, when the head asks for one.
  method ReadLength(r: Reader, short: nat) returns (declared: Option<nat>)
    requires r.Valid() && 2 <= r.pos && r.input[r.pos - 1] % 128 == short
    modifies r
    ensures r.Valid() && old(r.pos) <= r.pos
    ensures var d := DeclaredLength(r.input[old(r.pos) - 2..]);
      if d.None? then declared == None && r.pos == |r.input|
      else declared == Some(d.value.0) && r.pos == old(r.pos) - 2 + d.value.1
  {
    ghost var bs := r.input[r.pos - 2..];
    declared := Some(short);
    if short == 126 {
      var ext := r.ReadFull(2);
      if ext.None? {
        return None;
      }
      assert ext.value == bs[2..4];
      declared := Some(FromBigEndian(ext.value));
    } else if short == 127 {
      var ext := r.ReadFull(8);
      if ext.None? {
        return None;
      }
      assert ext.value == bs[2..10];
      declared := Some(FromBigEndian(ext.value));
    }
  }

  // The key, then the payload into a buffer made for it, unmasked in place.
  method ReadBody(r: Reader, opcode: byte, masked: bool, declared: nat)
    returns (outcome: Outcome, ghost buffered: nat)
    requires r.Valid()
    modifies r
    ensures r.Valid()
    ensures (outcome, r.input[r.pos..]) == ParseBody(r.input[old(r.pos)..], opcode, masked, declared)
    ensures buffered <= declared && (outcome == Crash ==> declared >= TWO_TO_THE_63)
  {
    ghost var bs := r.input[r.pos..];
    ghost var end := r.input[|r.input|..];
    assert end == [];
    var maskKey: Key := [0, 0, 0, 0];
    if masked {
      var key := r.ReadFull(4);
      if key.None? {
        return ShortRead, 0;
      }
      maskKey := key.value;
      assert maskKey == bs[..4] && r.input[r.pos..] == bs[4..];
    }
    if declared >= TWO_TO_THE_63 {
      return Crash, 0;
    }
    ghost var body := r.input[r.pos..];
    var payload := new byte[declared];
    var raw := r.ReadFull(declared);
    if raw.None? {
      return ShortRead, declared;
    }
    assert raw.value == body[..declared] && r.input[r.pos..] == body[declared..];
    Fill(payload, raw.value);
    if masked {
      Unmask(payload, maskKey);
    }
    buffered := declared;
    outcome := if opcode == OP_CLOSE then Closed(payload[..]) else Frame(opcode, payload[..]);
  }

  method Fill(payload: array<byte>, raw: seq<byte>)
    requires payload.Length == |raw|
    modifies payload
    ensures payload[..] == raw
  {
    forall i | 0 <= i < payload.Length {
      payload[i] := raw[i];
    }
  }

  // Read one frame. `buffered` is the size of the payload buffer made for it.
  method ReadFrame(r: Reader, maxPayload: int, clientToServer: bool) returns (outcome: Outcome, ghost buffered: nat)
    requires r.Valid()
    modifies r
    ensures r.Valid()
    ensures (outcome, r.input[r.pos..]) == Parse(r.input[old(r.pos)..], maxPayload, clientToServer)
    ensures Reads(r.input[old(r.pos)..], maxPayload, clientToServer, outcome, r.input[r.pos..])
    ensures 0 < maxPayload < TWO_TO_THE_63 ==> buffered <= maxPayload && outcome != Crash
  {
    buffered := 0;
    ghost var bs := r.input[r.pos..];
    ParseReads(bs, maxPayload, clientToServer);
    ghost var end := r.input[|r.input|..];
    assert end == [];
    var head := r.ReadFull(2);
    if head.None? {
      return ShortRead, 0;
    }
    assert head.value == bs[..2] && r.input[r.pos..] == bs[2..] && r.input[r.pos - 2..] == bs;
    var fin := head.value[0] >= 128;
    var opcode := head.value[0] % 16;
    var masked := head.value[1] >= 128;
    if !fin {
      return Refused(CLOSE_PROTOCOL_ERROR), 0;
    }
    var length := ReadLength(r, head.value[1] % 128);
    if length.None? {
      return ShortRead, 0;
    }
    var declared := length.value;
    ghost var at := DeclaredLength(bs).value.1;
    assert r.input[r.pos..] == bs[at..];
    if IsControl(opcode) && declared > MAX_CONTROL_FRAME_BYTES {
      return Refused(CLOSE_PROTOCOL_ERROR), 0;
    }
    if clientToServer && !masked {
      return Refused(CLOSE_PROTOCOL_ERROR), 0;
    }
    if maxPayload > 0 && declared > maxPayload {
      return Refused(CLOSE_MESSAGE_TOO_BIG), 0;
    }
    outcome, buffered := ReadBody(r, opcode, masked, declared);
  }

  // Exclusive-or with the key, in place.
  method Unmask(payload: array<byte>, key: Key)
    modifies payload
    ensures payload[..] == Masked(old(payload[..]), key)
  {
    for i := 0 to payload.Length
      invariant forall k | 0 <= k < i :: payload[k] == Xor(old(payload[k]), key[k % 4])
      invariant forall k | i <= k < payload.Length :: payload[k] == old(payload[k])
    {
      payload[i] := Xor(payload[i], key[i % 4]);
    }
  }

  // -- The round trip --------------------------------------------------------

  lemma {:induction false} LengthReadsBack(n: nat, maskBit: nat, first: byte, rest: seq<byte>)
    requires maskBit in {0, 128} && n < TWO_TO_THE_63
    ensures var bs := [first] + LengthBytes(n, maskBit) + rest;
      && DeclaredLength(bs) == Some((n, 1 + |LengthBytes(n, maskBit)|))
      && (bs[1] >= 128 <==> maskBit == 128)
  {
    if n < 126 {
      var bs := [first] + LengthBytes(n, maskBit) + rest;
      assert bs[1] == maskBit + n;
    } else if n < 65536 {
      LongLength(n, maskBit, 126, 2, first, rest);
    } else {
      LongLength(n, maskBit, 127, 8, first, rest);
    }
  }

  lemma {:induction false} LongLength(
    n: nat, maskBit: nat, marker: nat, width: nat, first: byte, rest: seq<byte>)
    requires maskBit in {0, 128} && n < TWO_TO_THE_63
    requires (marker == 126 && width == 2 && n < 65536) || (marker == 127 && width == 8)
    ensures var bs := [first] + ([maskBit + marker] + BigEndian(n, width)) + rest;
      DeclaredLength(bs) == Some((n, 2 + width)) && (bs[1] >= 128 <==> maskBit == 128)
  {
    Powers();
    BigEndianBack(n, width);
    AfterMarker(first, maskBit + marker, BigEndian(n, width), rest);
  }

  lemma {:induction false} AfterMarker(first: byte, marker: byte, length: seq<byte>, rest: seq<byte>)
    ensures var bs := [first] + ([marker] + length) + rest; bs[1] == marker && bs[2..2 + |length|] == length
  {
  }

  // Reading what was written gives it back, whatever follows, or refuses it for exactly the
  // reasons a header can be refused.
  lemma {:induction false} RoundTrip(
    opcode: byte, payload: seq<byte>, key: Option<Key>, rest: seq<byte>, maxPayload: int, clientToServer: bool)
    requires opcode < 16 && |payload| < TWO_TO_THE_63
    ensures var (outcome, after) := Parse(Encode(opcode, payload, key) + rest, maxPayload, clientToServer);
      match Refusal(opcode, key.Some?, |payload|, maxPayload, clientToServer)
      case Some(code) => outcome == Refused(code)
      case None =>
        && outcome == (if opcode == OP_CLOSE then Closed(payload) else Frame(opcode, payload))
        && after == rest
  {
    var n := |payload|;
    var first := FirstByte(opcode);
    var length := LengthBytes(n, if key.Some? then 128 else 0);
    var body := match key case None => payload case Some(k) => k + Masked(payload, k);
    var bs := Encode(opcode, payload, key) + rest;
    HeaderEnds(first, length, body, rest);
    assert bs == [first] + length + (body + rest);
    LengthReadsBack(n, if key.Some? then 128 else 0, first, body + rest);
    assert DeclaredLength(bs) == Some((n, 1 + |length|)) && bs[1 + |length|..] == body + rest;
    assert bs[0] == first && first >= 128 && first % 16 == opcode;
    BodyReadsBack(opcode, payload, key, rest);
  }

  lemma {:induction false} HeaderEnds(first: byte, length: seq<byte>, body: seq<byte>, rest: seq<byte>)
    ensures [first] + length + body + rest == [first] + length + (body + rest)
    ensures ([first] + length + (body + rest))[1 + |length|..] == body + rest
  {
  }

  lemma {:induction false} BodyReadsBack(opcode: byte, payload: seq<byte>, key: Option<Key>, rest: seq<byte>)
    requires |payload| < TWO_TO_THE_63
    ensures var body := match key case None => payload case Some(k) => k + Masked(payload, k);
      ParseBody(body + rest, opcode, key.Some?, |payload|)
      == (if opcode == OP_CLOSE then Closed(payload) else Frame(opcode, payload), rest)
  {
    match key
    case None =>
      assert (payload + rest)[..|payload|] == payload && (payload + rest)[|payload|..] == rest;
    case Some(k) =>
      var hidden := Masked(payload, k);
      var bs := k + hidden + rest;
      assert bs[..4] == k && bs[4..] == hidden + rest;
      assert (hidden + rest)[..|payload|] == hidden && (hidden + rest)[|payload|..] == rest;
      MaskedTwice(payload, k);
  }

  // -- Several frames --------------------------------------------------------

  datatype Message = Message(opcode: byte, payload: seq<byte>, key: Option<Key>)

  function EncodeAll(messages: seq<Message>): seq<byte>
  {
    if messages == [] then []
    else Encode(messages[0].opcode, messages[0].payload, messages[0].key) + EncodeAll(messages[1..])
  }

  // The first `n` frames of a stream.
  function ParseAll(bs: seq<byte>, n: nat, maxPayload: int, clientToServer: bool): (seq<Outcome>, seq<byte>)
    decreases n
  {
    if n == 0 then ([], bs) else
    var (outcome, after) := Parse(bs, maxPayload, clientToServer);
    var (outcomes, last) := ParseAll(after, n - 1, maxPayload, clientToServer);
    ([outcome] + outcomes, last)
  }

  function Received(m: Message): Outcome {
    if m.opcode == OP_CLOSE then Closed(m.payload) else Frame(m.opcode, m.payload)
  }

  function ReceivedAll(messages: seq<Message>): seq<Outcome> {
    if messages == [] then [] else [Received(messages[0])] + ReceivedAll(messages[1..])
  }

  predicate Sendable(m: Message, maxPayload: int, clientToServer: bool) {
    && m.opcode < 16 && |m.payload| < TWO_TO_THE_63
    && Refusal(m.opcode, m.key.Some?, |m.payload|, maxPayload, clientToServer).None?
  }

  // Concatenated frames come apart again, each where it began.
  lemma {:induction false} FramesComeApart(
    messages: seq<Message>, rest: seq<byte>, maxPayload: int, clientToServer: bool)
    requires forall m | m in messages :: Sendable(m, maxPayload, clientToServer)
    ensures ParseAll(EncodeAll(messages) + rest, |messages|, maxPayload, clientToServer)
         == (ReceivedAll(messages), rest)
  {
    if messages == [] {
      assert [] + rest == rest;
    } else {
      var m := messages[0];
      var first, others := Encode(m.opcode, m.payload, m.key), EncodeAll(messages[1..]);
      assert first + others + rest == first + (others + rest);
      assert Sendable(m, maxPayload, clientToServer);
      assert forall k | k in messages[1..] :: k in messages;
      OneApart(m, others + rest, maxPayload, clientToServer);
      FramesComeApart(messages[1..], rest, maxPayload, clientToServer);
    }
  }

  lemma {:induction false} OneApart(m: Message, after: seq<byte>, maxPayload: int, clientToServer: bool)
    requires Sendable(m, maxPayload, clientToServer)
    ensures Parse(Encode(m.opcode, m.payload, m.key) + after, maxPayload, clientToServer) == (Received(m), after)
  {
    RoundTrip(m.opcode, m.payload, m.key, after, maxPayload, clientToServer);
  }

  // The body of a close frame: the code, then as much of the reason as fits.
  function CloseBody(code: nat, reason: seq<byte>): seq<byte> {
    var body := BigEndian(code, 2) + reason;
    if |body| > MAX_CONTROL_FRAME_BYTES then body[..MAX_CONTROL_FRAME_BYTES] else body
  }

  // A close frame is readable whatever its reason, and carries the code.
  lemma {:induction false} CloseIsReadable(code: nat, reason: seq<byte>, rest: seq<byte>, maxPayload: int)
    requires code < 65536 && (maxPayload <= 0 || maxPayload >= MAX_CONTROL_FRAME_BYTES)
    ensures var body := CloseBody(code, reason);
      && Parse(Encode(OP_CLOSE, body, None) + rest, maxPayload, false) == (Closed(body), rest)
      && |body| == (if |reason| <= 123 then 2 + |reason| else 125)
      && 256 * (body[0] as int) + body[1] as int == code && body[2..] <= reason
  {
    var body := CloseBody(code, reason);
    RoundTrip(OP_CLOSE, body, None, rest, maxPayload, false);
    Powers();
    BigEndianBack(code, 2);
    assert body[..2] == BigEndian(code, 2);
    TwoBytes(body[..2]);
    var whole := BigEndian(code, 2) + reason;
    assert whole[2..] == reason;
    assert body[2..] == reason[..|body| - 2];
  }
}
