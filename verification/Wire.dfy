/** Bytes, the remaining-length codec of section 2.2.3 of MQTT 3.1.1, and the functions that
    write packet fields through an advancing pointer. */
module Wire {
  type Byte = b: int | 0 <= b < 256

  type Bytes = seq<Byte>

  /** Largest value of a remaining-length field of four bytes. */
  const MAX_REMAINING: nat := 268_435_455

  datatype PacketType =
    | CONNECT | CONNACK | PUBLISH | PUBACK | PUBREC | PUBREL | PUBCOMP | SUBSCRIBE | SUBACK
    | UNSUBSCRIBE | UNSUBACK | PINGREQ | PINGRESP | DISCONNECT

  datatype QoS = QOS0 | QOS1

  function TypeCode(t: PacketType): (c: nat)
    ensures 1 <= c <= 14
  {
    match t
    case CONNECT => 1
    case CONNACK => 2
    case PUBLISH => 3
    case PUBACK => 4
    case PUBREC => 5
    case PUBREL => 6
    case PUBCOMP => 7
    case SUBSCRIBE => 8
    case SUBACK => 9
    case UNSUBSCRIBE => 10
    case UNSUBACK => 11
    case PINGREQ => 12
    case PINGRESP => 13
    case DISCONNECT => 14
  }

  function QosCode(q: QoS): (c: nat)
    ensures c <= 1
  {
    if q == QOS1 then 1 else 0
  }

  /** init_header: type, dup, QoS and retain from the high bits down. */
  function Header(t: PacketType, q: QoS, dup: bool, retained: bool): Byte {
    16 * TypeCode(t) + (if dup then 8 else 0) + 2 * QosCode(q) + if retained then 1 else 0
  }

  function Uint16(n: nat): (bs: Bytes)
    requires n < 65536
    ensures |bs| == 2
  {
    [n / 256, n % 256]
  }

  /** The codes of section 2.2.1. */
  lemma TypeCodes()
    ensures [TypeCode(CONNECT), TypeCode(CONNACK), TypeCode(PUBLISH), TypeCode(PUBACK), TypeCode(PUBREC),
             TypeCode(PUBREL), TypeCode(PUBCOMP), TypeCode(SUBSCRIBE), TypeCode(SUBACK), TypeCode(UNSUBSCRIBE),
             TypeCode(UNSUBACK), TypeCode(PINGREQ), TypeCode(PINGRESP), TypeCode(DISCONNECT)] == seq(14, i => i + 1)
    ensures QosCode(QOS0) == 0 && QosCode(QOS1) == 1
  {
  }

  /** Where section 2.2 and section 3.3.1 put type, dup, QoS and retain. */
  lemma HeaderBits(t: PacketType, q: QoS, dup: bool, retained: bool)
    ensures var h := Header(t, q, dup, retained);
      && h / 16 == TypeCode(t) && h / 8 % 2 == (if dup then 1 else 0)
      && h / 2 % 4 == (if q == QOS1 then 1 else 0) && h % 2 == if retained then 1 else 0
  {
  }

  /** Section 1.5.2: the high byte comes first. */
  lemma BigEndian(n: nat)
    requires n < 65536
    ensures var high: int, low: int := Uint16(n)[0], Uint16(n)[1]; 256 * high + low == n
  {
  }

  /** A length-prefixed string. */
  function Utf8(s: Bytes): (bs: Bytes)
    requires |s| < 65536
    ensures |bs| == 2 + |s|
  {
    Uint16(|s|) + s
  }

  // ---------------------------------------------------------------------------
  // Remaining length

  /** Seven bits a byte, least significant first, the top bit set on all but the last. */
  function EncodeLen(n: nat): (f: Bytes)
    ensures 1 <= |f|
    decreases n
  {
    if n < 128 then [n] else [n % 128 + 128] + EncodeLen(n / 128)
  }

  /** A whole field: continuation bytes, then one byte below 128. */
  predicate IsField(f: Bytes) {
    f != [] && f[|f| - 1] < 128 && forall k :: 0 <= k < |f| - 1 ==> f[k] >= 128
  }

  /** The number a field of any length stands for. */
  function FieldValue(f: Bytes): nat
    decreases |f|
  {
    if f == [] then 0 else f[0] % 128 + 128 * FieldValue(f[1..])
  }

  datatype Decoded = Length(value: nat, used: nat) | TooLong | Unfinished

  /** At most `budget` bytes of a field at the head of bs. */
  function DecodeLen(bs: Bytes, budget: nat): (d: Decoded)
    ensures d.Length? ==> 0 < d.used <= budget && d.used <= |bs|
    decreases budget
  {
    if budget == 0 then TooLong
    else if bs == [] then Unfinished
    else if bs[0] < 128 then Length(bs[0], 1)
    else
      match DecodeLen(bs[1..], budget - 1)
      case Length(v, u) => Length(bs[0] % 128 + 128 * v, u + 1)
      case other => other
  }

  lemma {:induction false} EncodeIsField(n: nat)
    ensures IsField(EncodeLen(n)) && FieldValue(EncodeLen(n)) == n
  {
    if n >= 128 {
      EncodeIsField(n / 128);
      var rest := EncodeLen(n / 128);
      PrependIsField(n % 128, rest);
    } else {
      assert EncodeLen(n)[1..] == [];
    }
  }

  lemma PrependIsField(low: nat, rest: Bytes)
    requires low < 128 && IsField(rest)
    ensures var f := [low + 128] + rest; IsField(f) && FieldValue(f) == low + 128 * FieldValue(rest)
  {
    var f := [low + 128] + rest;
    assert f[1..] == rest;
    assert f[|f| - 1] == rest[|rest| - 1];
    forall k | 0 <= k < |f| - 1
      ensures f[k] >= 128
    {
      if k > 0 { assert f[k] == rest[k - 1]; }
    }
  }

  /** A field within the budget decodes to its value, using all its bytes and no more. */
  lemma {:induction false} DecodeField(f: Bytes, rest: Bytes, budget: nat)
    requires IsField(f)
    ensures DecodeLen(f + rest, budget) == if |f| <= budget then Length(FieldValue(f), |f|) else TooLong
    decreases |f|
  {
    if budget > 0 {
      assert (f + rest)[0] == f[0];
      if |f| > 1 {
        assert (f + rest)[1..] == f[1..] + rest;
        DecodeField(f[1..], rest, budget - 1);
      } else {
        assert f[1..] == [];
      }
    }
  }

  function Pow128(k: nat): nat {
    if k == 0 then 1 else 128 * Pow128(k - 1)
  }

  lemma {:induction false} FieldValueBound(f: Bytes)
    requires IsField(f)
    ensures FieldValue(f) < Pow128(|f|)
    decreases |f|
  {
    if |f| > 1 { FieldValueBound(f[1..]); } else { assert f[1..] == []; }
  }

  lemma {:induction false} EncodeSize(n: nat, k: nat)
    requires k > 0
    ensures |EncodeLen(n)| <= k <==> n < Pow128(k)
    decreases k
  {
    if n >= 128 {
      if k == 1 {
      } else {
        EncodeSize(n / 128, k - 1);
      }
    } else {
      PowAtLeast(k);
    }
  }

  lemma {:induction false} PowAtLeast(k: nat)
    requires k > 0
    ensures Pow128(k) >= 128
  {
    if k > 1 { PowAtLeast(k - 1); }
  }

  /** Decoding undoes encoding and uses the same bytes. */
  lemma LenRoundTrip(n: nat, rest: Bytes)
    ensures DecodeLen(EncodeLen(n) + rest, 4) == if n <= MAX_REMAINING then Length(n, |EncodeLen(n)|) else TooLong
  {
    EncodeIsField(n);
    DecodeField(EncodeLen(n), rest, 4);
    EncodeSize(n, 4);
    Pow128Of4();
  }

  /** The example of section 2.2.3, and the largest numbers of one, two, three and four bytes. */
  lemma LengthExamples()
    ensures EncodeLen(321) == [193, 2] && EncodeLen(127) == [0x7F] && EncodeLen(16_383) == [0xFF, 0x7F]
    ensures EncodeLen(2_097_151) == [0xFF, 0xFF, 0x7F] && EncodeLen(268_435_455) == [0xFF, 0xFF, 0xFF, 0x7F]
  {
    assert EncodeLen(2) == [2] && EncodeLen(127) == [127];
    assert EncodeLen(16_383) == [0xFF] + EncodeLen(127);
    assert EncodeLen(2_097_151) == [0xFF] + EncodeLen(16_383);
    assert EncodeLen(268_435_455) == [0xFF] + EncodeLen(2_097_151);
  }

  /** Taking a packet apart: header, length and body. */
  lemma SplitPacket(header: Byte, n: nat, body: Bytes)
    ensures var bs := [header] + EncodeLen(n) + body; var u := |EncodeLen(n)|;
      && bs != [] && bs[0] == header && bs[1 + u..] == body
      && DecodeLen(bs[1..], 4) == if n <= MAX_REMAINING then Length(n, u) else TooLong
  {
    hide EncodeLen, DecodeLen;
    var bs := [header] + EncodeLen(n) + body;
    assert bs[1..] == EncodeLen(n) + body;
    LenRoundTrip(n, body);
  }

  lemma Pow128Of4()
    ensures Pow128(1) == 128 && Pow128(2) == 16384 && Pow128(3) == 2097152 && Pow128(4) == MAX_REMAINING + 1
  {
    assert Pow128(2) == 128 * Pow128(1);
    assert Pow128(3) == 128 * Pow128(2);
    assert Pow128(4) == 128 * Pow128(3);
  }

  /** The encoding is minimal, and the only field of its length for that number. */
  lemma EncodeUnfolds(low: nat, high: nat)
    requires low < 128
    ensures var n := low + 128 * high;
      if n < 128 then EncodeLen(n) == [n] else EncodeLen(n) == [low + 128] + EncodeLen(high)
  {
    var n := low + 128 * high;
    assert n / 128 == high && n % 128 == low;
  }

  lemma FieldUnfolds(f: Bytes)
    requires f != []
    ensures FieldValue(f) == f[0] % 128 + 128 * FieldValue(f[1..])
    ensures |f| == 1 ==> FieldValue(f[1..]) == 0
  {
  }

  lemma FieldSplits(f: Bytes)
    requires IsField(f)
    ensures f != []
    ensures if |f| == 1 then f == [f[0]] && f[0] < 128 else f[0] % 128 + 128 == f[0] && IsField(f[1..])
  {
  }

  /** The encoding of a field's number agrees with the field in its first byte, if it goes on. */
  lemma EncodeField(f: Bytes)
    requires IsField(f)
    ensures |f| == 1 ==> EncodeLen(FieldValue(f)) == f
    ensures |f| > 1 && FieldValue(f) < 128 ==> |EncodeLen(FieldValue(f))| == 1
    ensures |f| > 1 && FieldValue(f) >= 128 ==> EncodeLen(FieldValue(f)) == [f[0]] + EncodeLen(FieldValue(f[1..]))
  {
    hide *;
    FieldSplits(f);
    FieldUnfolds(f);
    EncodeUnfolds(f[0] % 128, FieldValue(f[1..]));
  }

  lemma {:induction false} EncodeIsMinimal(f: Bytes)
    requires IsField(f)
    ensures |EncodeLen(FieldValue(f))| <= |f|
    ensures |EncodeLen(FieldValue(f))| == |f| ==> EncodeLen(FieldValue(f)) == f
    decreases |f|
  {
    hide *;
    FieldSplits(f);
    FieldValueBound(f);
    EncodeSize(FieldValue(f), |f|);
    EncodeField(f);
    if |f| > 1 {
      EncodeIsMinimal(f[1..]);
      assert f == [f[0]] + f[1..];
    }
  }

  /** get_final_packet_length_from_remaining_length, on 32-bit arithmetic. */
  function FinalLength(remaining: nat): nat {
    var n := (remaining + 1) % 0x1_0000_0000;
    (n + if n < 128 then 1 else if n < 16384 then 2 else if n < 2097152 then 3 else 4) % 0x1_0000_0000
  }

  /** Header byte, length field and what follows. */
  function TrueLength(remaining: nat): nat {
    1 + |EncodeLen(remaining)| + remaining
  }

  /** For every 32-bit remaining length: the predicted length covers the true one exactly up to
      the protocol's maximum, and exceeds it there, by one, at three values: the decision is made
      on the length plus the header byte.  The largest five lengths wrap around to a prediction
      of at most 4. */
  lemma FinalLengthCovers(n: nat)
    requires n < 0x1_0000_0000
    ensures FinalLength(n) >= TrueLength(n) <==> n <= MAX_REMAINING
    ensures n <= MAX_REMAINING ==>
      FinalLength(n) == TrueLength(n) + if n == 127 || n == 16383 || n == 2097151 then 1 else 0
    ensures FinalLength(n) <= 4 && n > 4 <==> n >= 0xFFFF_FFFB
  {
    EncodeSize(n, 1);
    EncodeSize(n, 2);
    EncodeSize(n, 3);
    EncodeSize(n, 4);
    Pow128Of4();
    hide EncodeLen, Pow128;
    if n >= 0xFFFF_FFFB {
      WrappedLength(n);
    } else {
      var guess := if n + 1 < 128 then 1 else if n + 1 < 16384 then 2 else if n + 1 < 2097152 then 3 else 4;
      assert FinalLength(n) == n + 1 + guess;
      hide FinalLength;
      assert TrueLength(n) == n + 1 + |EncodeLen(n)|;
    }
  }

  lemma WrappedLength(n: nat)
    requires 0xFFFF_FFFB <= n < 0x1_0000_0000
    ensures FinalLength(n) == if n == 0xFFFF_FFFF then 1 else n - 0xFFFF_FFFB
  {
  }

  // ---------------------------------------------------------------------------
  // Writing

  lemma Associate(a: Bytes, b: Bytes, c: Bytes)
    ensures a + b + c == a + (b + c)
  {
  }

  /** write_len_to_buffer */
  method WriteLen(buf: array<Byte>, at: nat, length: nat) returns (outLen: nat)
    requires at + |EncodeLen(length)| <= buf.Length
    modifies buf
    ensures outLen == |EncodeLen(length)|
    ensures buf[..at + outLen] == old(buf[..at]) + EncodeLen(length)
    ensures forall k :: at + outLen <= k < buf.Length ==> buf[k] == old(buf[k])
  {
    outLen := 0;
    var n := length;
    var more := true;
    ghost var rest := EncodeLen(length);
    while more
      invariant outLen + |rest| == |EncodeLen(length)|
      invariant more ==> rest == EncodeLen(n)
      invariant !more ==> rest == []
      invariant buf[..at + outLen] + rest == old(buf[..at]) + EncodeLen(length)
      invariant forall k :: at + outLen + |rest| <= k < buf.Length ==> buf[k] == old(buf[k])
      decreases n, more
    {
      var encodedByte := n % 128;
      n := n / 128;
      if n > 0 { encodedByte := encodedByte + 128; }
      ghost var before := buf[..at + outLen];
      assert rest == [encodedByte] + rest[1..];
      buf[at + outLen] := encodedByte;
      outLen := outLen + 1;
      assert buf[..at + outLen] == before + [encodedByte];
      rest := rest[1..];
      more := n > 0;
    }
  }

  method WriteChar(buf: array<Byte>, at: nat, c: Byte) returns (next: nat)
    requires at < buf.Length
    modifies buf
    ensures next == at + 1
    ensures buf[..next] == old(buf[..at]) + [c]
    ensures forall k :: next <= k < buf.Length ==> buf[k] == old(buf[k])
  {
    buf[at] := c;
    next := at + 1;
  }

  method WriteUint16(buf: array<Byte>, at: nat, n: nat) returns (next: nat)
    requires n < 65536 && at + 2 <= buf.Length
    modifies buf
    ensures next == at + 2
    ensures buf[..next] == old(buf[..at]) + Uint16(n)
    ensures forall k :: next <= k < buf.Length ==> buf[k] == old(buf[k])
  {
    buf[at] := n / 256;
    buf[at + 1] := n % 256;
    next := at + 2;
    assert buf[..next] == buf[..at] + [n / 256, n % 256];
  }

  method WriteBytes(buf: array<Byte>, at: nat, s: Bytes) returns (next: nat)
    requires at + |s| <= buf.Length
    modifies buf
    ensures next == at + |s|
    ensures buf[..next] == old(buf[..at]) + s
    ensures forall k :: next <= k < buf.Length ==> buf[k] == old(buf[k])
  {
    for i := 0 to |s|
      invariant buf[..at + i] == old(buf[..at]) + s[..i]
      invariant forall k :: at + |s| <= k < buf.Length ==> buf[k] == old(buf[k])
    {
      ghost var before := buf[..at + i];
      buf[at + i] := s[i];
      assert buf[..at + i + 1] == before + [s[i]];
    }
    next := at + |s|;
  }

  /** write_utf8_string */
  method WriteUtf8(buf: array<Byte>, at: nat, s: Bytes) returns (next: nat)
    requires |s| < 65536 && at + |s| + 2 <= buf.Length
    modifies buf
    ensures next == at + 2 + |s|
    ensures buf[..next] == old(buf[..at]) + Utf8(s)
    ensures forall k :: next <= k < buf.Length ==> buf[k] == old(buf[k])
  {
    next := WriteUint16(buf, at, |s|);
    next := WriteBytes(buf, next, s);
  }

  // ---------------------------------------------------------------------------
  // Reading from a buffer

  /** decode_remaining_length_from_buffer */
  method ReadLen(buf: array<Byte>, at: nat) returns (d: Decoded)
    requires at <= buf.Length && DecodeLen(buf[at..], 4) != Unfinished
    ensures d == DecodeLen(buf[at..], 4)
  {
    hide DecodeLen;
    var multiplier: nat, len: nat, value: nat := 1, 0, 0;
    while true
      invariant len <= 4 && at + len <= buf.Length
      invariant DecodeLen(buf[at..], 4) != Unfinished
      invariant Shift(value, multiplier, len, DecodeLen(buf[at + len..], 4 - len)) == DecodeLen(buf[at..], 4)
      decreases 4 - len
    {
      ShiftStep(value, multiplier, len, buf[at + len..], 4 - len);
      len := len + 1;
      if len > 4 { return TooLong; }
      assert buf[at + len - 1..][1..] == buf[at + len..];
      var encodedByte := buf[at + len - 1];
      value := value + encodedByte % 128 * multiplier;
      multiplier := multiplier * 128;
      if encodedByte < 128 { return Length(value, len); }
    }
  }

  /** The result of decoding when `len` bytes worth `value` have been read already. */
  function Shift(value: nat, multiplier: nat, len: nat, d: Decoded): Decoded {
    match d
    case Length(v, u) => Length(value + multiplier * v, len + u)
    case other => other
  }

  lemma ShiftStep(value: nat, m: nat, len: nat, bs: Bytes, budget: nat)
    ensures var d := Shift(value, m, len, DecodeLen(bs, budget));
      if budget == 0 then d == TooLong
      else if bs == [] then d == Unfinished
      else
        var value' := value + bs[0] % 128 * m;
        if bs[0] < 128 then d == Length(value', len + 1)
        else d == Shift(value', m * 128, len + 1, DecodeLen(bs[1..], budget - 1))
  {
    if budget > 0 && bs != [] && bs[0] >= 128 {
      var low: nat := bs[0] % 128;
      var more := DecodeLen(bs[1..], budget - 1);
      assert more.Length? ==> DecodeLen(bs, budget) == Length(low + 128 * more.value, more.used + 1);
      hide DecodeLen;
      if more.Length? { Distribute(m, low, more.value); }
    }
  }

  lemma Distribute(m: nat, low: nat, v: nat)
    ensures m * (low + 128 * v) == low * m + m * 128 * v
  {
  }

  /** read_uint16_t */
  function ReadUint16(hi: Byte, lo: Byte): (n: nat)
    ensures n < 65536
  {
    lo + 256 * hi
  }
}
