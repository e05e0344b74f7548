/** Reading packets from the byte stream into the receive buffer.

    The stream is what the TLS read will deliver in time: a read of n bytes takes exactly n of
    them, or, when fewer arrive, takes those and reports why. */
module PacketReader {
  import opened ReturnCodes
  import opened SizeT
  import opened Wire
  import opened Wrappers

  /** Index after the length field at the head of the stream, if it ends. */
  function FieldEnd(bs: Bytes): (r: Option<nat>)
    ensures r.Some? ==> 0 < r.value <= |bs| && IsField(bs[..r.value])
    decreases |bs|
  {
    if bs == [] then None
    else if bs[0] < 128 then Some(1)
    else
      match FieldEnd(bs[1..])
      case None => None
      case Some(k) =>
        assert bs[..k + 1][1..] == bs[1..][..k];
        Some(k + 1)
  }

  /** What a short read of a stream reports. */
  function ShortRead(bs: Bytes, closed: bool): Rc {
    if closed then NETWORK_SSL_READ_ERROR
    else if bs == [] then NETWORK_SSL_NOTHING_TO_READ
    else NETWORK_SSL_READ_TIMEOUT_ERROR
  }

  /** Outcome of reading one packet: the return code, the packet as stored in the buffer (empty
      unless the code is SUCCESS), and the rest of the stream. */
  datatype Read = Read(rc: Rc, stored: Bytes, rest: Bytes)

  /** read_packet on a stream. */
  function ReadPacket(bs: Bytes, closed: bool, bufSize: nat): Read {
    if bs == [] then Read(if closed then NETWORK_SSL_READ_ERROR else MQTT_NOTHING_TO_READ, [], [])
    else
      match FieldEnd(bs[1..])
      case None => Read(ShortRead([], closed), [], [])
      case Some(k) =>
        var len := FieldValue(bs[1..1 + k]) % SIZE_MOD;
        var body := bs[1 + k..];
        if len >= bufSize then Read(MQTT_RX_BUFFER_TOO_SHORT_ERROR, [], if len <= |body| then body[len..] else [])
        else if |body| < len then Read(FAILURE, [], [])
        else Read(SUCCESS, [bs[0]] + EncodeLen(len) + body[..len], body[len..])
  }

  // ---------------------------------------------------------------------------
  // Framing

  /** A packet on the wire: header byte, a length field of any length, and the body. */
  datatype Frame = Frame(header: Byte, field: Bytes, body: Bytes) {
    predicate WellFormed() {
      IsField(field) && FieldValue(field) % SIZE_MOD == |body|
    }

    function Bytes(): Bytes {
      [header] + field + body
    }

    /** The packet with its length encoded minimally. */
    function Canonical(): Bytes {
      [header] + EncodeLen(|body|) + body
    }
  }

  lemma {:induction false} FieldEndAt(f: Bytes, rest: Bytes)
    requires IsField(f)
    ensures FieldEnd(f + rest) == Some(|f|)
    decreases |f|
  {
    assert (f + rest)[0] == f[0];
    if |f| > 1 {
      assert (f + rest)[1..] == f[1..] + rest;
      FieldEndAt(f[1..], rest);
    }
  }

  /** One call consumes exactly one packet: one that fits is stored with its length re-encoded
      minimally, one that does not is drained and reported. */
  lemma ReadsOneFrame(f: Frame, rest: Bytes, closed: bool, bufSize: nat)
    requires f.WellFormed()
    ensures ReadPacket(f.Bytes() + rest, closed, bufSize) ==
      if |f.body| < bufSize then Read(SUCCESS, f.Canonical(), rest) else Read(MQTT_RX_BUFFER_TOO_SHORT_ERROR, [], rest)
  {
    var bs := f.Bytes() + rest;
    var k := |f.field|;
    assert bs[1..] == f.field + (f.body + rest);
    FieldEndAt(f.field, f.body + rest);
    assert bs[1..1 + k] == f.field;
    assert bs[1 + k..] == f.body + rest;
    assert (f.body + rest)[..|f.body|] == f.body;
    assert (f.body + rest)[|f.body|..] == rest;
  }

  lemma {:induction false} CutField(f: Bytes, k: nat)
    requires IsField(f) && k < |f|
    ensures FieldEnd(f[..k]) == None
    decreases k
  {
    if k > 0 {
      assert f[..k][1..] == f[1..][..k - 1];
      CutField(f[1..], k - 1);
    }
  }

  /** A packet that has not arrived as a whole is never stored, and the code says how far it came:
      nothing, the header, or part of the body, which for a packet too long for the buffer makes no
      difference. */
  lemma CutPacket(f: Frame, p: Bytes, closed: bool, bufSize: nat)
    requires f.WellFormed() && p < f.Bytes()
    ensures ReadPacket(p, closed, bufSize) == Read(
      if p == [] then (if closed then NETWORK_SSL_READ_ERROR else MQTT_NOTHING_TO_READ)
      else if |p| <= |f.field| then (if closed then NETWORK_SSL_READ_ERROR else NETWORK_SSL_NOTHING_TO_READ)
      else if |f.body| < bufSize then FAILURE else MQTT_RX_BUFFER_TOO_SHORT_ERROR, [], [])
  {
    var n := |f.field|;
    if p == [] {
    } else if |p| <= n {
      assert p[1..] == f.field[..|p| - 1];
      CutField(f.field, |p| - 1);
    } else {
      var part := p[1 + n..];
      assert p[1..] == f.field + part;
      FieldEndAt(f.field, part);
      assert p[1..1 + n] == f.field;
      hide FieldEnd, FieldValue, EncodeLen;
    }
  }

  function Concat(fs: seq<Frame>): Bytes
    decreases |fs|
  {
    if fs == [] then [] else fs[0].Bytes() + Concat(fs[1..])
  }

  /** What n calls deliver, and what they leave of the stream. */
  function ReadPackets(bs: Bytes, closed: bool, bufSize: nat, n: nat): (seq<(Rc, Bytes)>, Bytes)
    decreases n
  {
    if n == 0 then ([], bs)
    else
      var r := ReadPacket(bs, closed, bufSize);
      var more := ReadPackets(r.rest, closed, bufSize, n - 1);
      ([(r.rc, r.stored)] + more.0, more.1)
  }

  /** What a stream of packets should deliver. */
  function Deliveries(fs: seq<Frame>, bufSize: nat): seq<(Rc, Bytes)>
    decreases |fs|
  {
    if fs == [] then []
    else
      [if |fs[0].body| < bufSize then (SUCCESS, fs[0].Canonical()) else (MQTT_RX_BUFFER_TOO_SHORT_ERROR, [])]
      + Deliveries(fs[1..], bufSize)
  }

  /** Framing: for any sequence of packets, whatever their sizes and however their lengths are
      encoded, as many calls deliver exactly those packets in order and leave what follows. */
  lemma {:induction false} StreamIsFramed(fs: seq<Frame>, rest: Bytes, closed: bool, bufSize: nat)
    requires forall k :: 0 <= k < |fs| ==> fs[k].WellFormed()
    ensures ReadPackets(Concat(fs) + rest, closed, bufSize, |fs|) == (Deliveries(fs, bufSize), rest)
    decreases |fs|
  {
    if fs == [] {
      assert Concat(fs) + rest == rest;
    } else {
      var next := Concat(fs[1..]) + rest;
      assert Concat(fs) + rest == fs[0].Bytes() + next;
      ReadsOneFrame(fs[0], next, closed, bufSize);
      StreamIsFramed(fs[1..], rest, closed, bufSize);
    }
  }

  /** The stream decoder accepts fields of any length, the buffer decoder at most four bytes;
      where both accept they agree. */
  lemma DecodersAgree(f: Bytes, rest: Bytes)
    requires IsField(f)
    ensures FieldEnd(f + rest) == Some(|f|)
    ensures DecodeLen(f + rest, 4) == Length(FieldValue(f) % SIZE_MOD, |f|) <==> |f| <= 4
  {
    FieldEndAt(f, rest);
    DecodeField(f, rest, 4);
    if |f| <= 4 {
      FieldValueBound(f);
      Pow128Of4();
      Pow128Monotone(|f|, 4);
    }
  }

  /** A five-byte field for 0, which the stream decoder accepts and the buffer decoder rejects. */
  lemma DecodersDiffer(rest: Bytes)
    ensures var f := [0x80, 0x80, 0x80, 0x80, 0];
      IsField(f) && FieldEnd(f + rest) == Some(5) && DecodeLen(f + rest, 4) == TooLong
  {
    var f := [0x80, 0x80, 0x80, 0x80, 0];
    FieldEndAt(f, rest);
    DecodeField(f, rest, 4);
  }

  lemma {:induction false} Pow128Monotone(a: nat, b: nat)
    requires a <= b
    ensures Pow128(a) <= Pow128(b)
    decreases b
  {
    if a < b { Pow128Monotone(a, b - 1); }
  }

  /** What header byte and length field take of a buffer that is otherwise filled by the largest
      body that fits. */
  function HeaderRoom(bufSize: nat): nat {
    if bufSize < 130 then 2 else if bufSize < 16387 then 3 else if bufSize < 2097156 then 4
    else if bufSize < 268435461 then 5 else 6
  }

  /** For every buffer size, the bodies that pass the check of the code, which compares the body
      alone, without the whole packet fitting: a range that ends with the largest body let
      through. */
  lemma LargestBodies(len: nat, bufSize: nat)
    requires bufSize < 0x1_0000_0000
    ensures len < bufSize && TrueLength(len) > bufSize <==> bufSize - HeaderRoom(bufSize) < len < bufSize
  {
    EncodeSize(len, 1);
    EncodeSize(len, 2);
    EncodeSize(len, 3);
    EncodeSize(len, 4);
    EncodeSize(len, 5);
    Pow128Of4();
    assert Pow128(5) == 128 * Pow128(4);
    hide EncodeLen, Pow128;
    if bufSize < 130 { } else if bufSize < 16387 { } else if bufSize < 2097156 { } else { }
  }

  /** A packet reported as read stays inside the receive buffer if and only if its body leaves
      the room that header and length need in a buffer of this size. */
  lemma StoredPacketFits(bs: Bytes, closed: bool, bufSize: nat)
    requires bufSize < 0x1_0000_0000 && ReadPacket(bs, closed, bufSize).rc == SUCCESS
    ensures var len := FieldValue(bs[1..1 + FieldEnd(bs[1..]).value]) % SIZE_MOD;
      |ReadPacket(bs, closed, bufSize).stored| <= bufSize <==> len + HeaderRoom(bufSize) <= bufSize
  {
    var len := FieldValue(bs[1..1 + FieldEnd(bs[1..]).value]) % SIZE_MOD;
    LargestBodies(len, bufSize);
    hide EncodeLen, FieldValue, HeaderRoom;
  }

  /** A well-formed packet that is reported as read although it is written beyond a buffer of 512
      bytes. */
  lemma OverrunsBuffer(rest: Bytes, closed: bool)
    ensures var f := Frame(0x30, EncodeLen(510), seq(510, _ => 0));
      var r := ReadPacket(f.Bytes() + rest, closed, 512);
      f.WellFormed() && r.rc == SUCCESS && r.rest == rest && |r.stored| == 513
  {
    EncodeIsField(510);
    var f := Frame(0x30, EncodeLen(510), seq(510, _ => 0));
    ReadsOneFrame(f, rest, closed, 512);
    EncodeSize(510, 1);
    EncodeSize(510, 2);
    Pow128Of4();
    hide ReadPacket, EncodeLen;
  }

  // ---------------------------------------------------------------------------
  // The reader

  /** The client's receive buffer and the stream behind it.  The array is modelled with the cells
      that follow the buffer in memory, so that every write of the code falls inside it. */
  class Reader {
    const readBuf: array<Byte>
    const readBufSize: nat
    var stream: Bytes
    var closed: bool

    ghost predicate Valid()
      reads this
    {
      0 < readBufSize < 0x1_0000_0000 && readBuf.Length == readBufSize + 5
    }

    constructor (size: nat, bs: Bytes, isClosed: bool)
      requires 0 < size < 0x1_0000_0000
      ensures Valid() && fresh(readBuf) && readBufSize == size && stream == bs && closed == isClosed
    {
      readBufSize := size;
      readBuf := new Byte[size + 5](_ => 0);
      stream, closed := bs, isClosed;
    }

    /** iot_tls_read into the buffer. */
    method ReadInto(off: nat, len: nat) returns (rc: Rc, readLen: nat)
      requires off + len <= readBuf.Length
      modifies this`stream, readBuf
      ensures if len <= |old(stream)| then
          && rc == SUCCESS && readLen == len && stream == old(stream)[len..]
          && readBuf[off..off + len] == old(stream)[..len]
        else rc == ShortRead(old(stream), closed) && stream == []
      ensures readBuf[..off] == old(readBuf[..off]) && readBuf[off + len..] == old(readBuf[off + len..])
    {
      var n := if len <= |stream| then len else |stream|;
      for i := 0 to n
        invariant readBuf[..off] == old(readBuf[..off]) && readBuf[off + len..] == old(readBuf[off + len..])
        invariant stream == old(stream)
        invariant readBuf[off..off + i] == stream[..i]
      {
        readBuf[off + i] := stream[i];
        assert readBuf[off..off + i + 1] == readBuf[off..off + i] + [stream[i]];
      }
      if len <= |stream| {
        rc, readLen := SUCCESS, len;
      } else {
        rc, readLen := ShortRead(stream, closed), 0;
      }
      stream := stream[n..];
    }

    /** decode_packet_remaining_len: `len` is overwritten by each read, so its bound of four is
        never reached; the arithmetic is that of size_t. */
    method ReadRemainingLength() returns (rc: Rc, remLen: nat)
      modifies this`stream
      ensures match FieldEnd(old(stream))
        case Some(k) => rc == SUCCESS && remLen == FieldValue(old(stream)[..k]) % SIZE_MOD && stream == old(stream)[k..]
        case None => rc == ShortRead([], closed) && stream == []
    {
      var multiplier: nat, len: nat := 1, 0;
      remLen := 0;
      var more := true;
      ghost var whole: Bytes, read: Bytes := stream, [];
      while more
        invariant whole == read + stream && len <= 1
        invariant remLen == FieldValue(read) % SIZE_MOD
        invariant multiplier == Pow128(|read|) % SIZE_MOD
        invariant forall k :: 0 <= k < |read| ==> (read[k] >= 128 || (k == |read| - 1 && !more))
        invariant !more ==> IsField(read)
        decreases |stream|, more
      {
        len := len + 1;
        if len > 4 { return MQTT_DECODE_REMAINING_LENGTH_ERROR, remLen; }
        if stream == [] {
          NoFieldEnd(whole);
          assert whole == read;
          return ShortRead([], closed), remLen;
        }
        var encodedByte := stream[0];
        len := 1;
        stream := stream[1..];
        ValueStep(read, encodedByte);
        remLen := (remLen + encodedByte % 128 * multiplier) % SIZE_MOD;
        multiplier := multiplier * 128 % SIZE_MOD;
        read := read + [encodedByte];
        more := encodedByte >= 128;
      }
      FieldEndAt(read, stream);
      assert whole[..|read|] == read;
      rc := SUCCESS;
    }

    /** Reads and drops `remLen` bytes in pieces of at most the buffer's size. */
    method Drain(remLen: nat)
      requires Valid() && remLen >= readBufSize
      modifies this`stream, readBuf
      ensures Valid()
      ensures stream == if remLen <= |old(stream)| then old(stream)[remLen..] else []
    {
      var total, toRead := 0, readBufSize;
      var rc, readLen := ReadInto(0, toRead);
      if rc == SUCCESS {
        total := readLen;
        toRead := if remLen - total >= readBufSize then readBufSize else remLen - total;
      }
      while total < remLen && rc == SUCCESS
        invariant Valid() && total <= remLen
        invariant toRead == if remLen - total >= readBufSize then readBufSize else remLen - total
        invariant if rc == SUCCESS then total <= |old(stream)| && stream == old(stream)[total..]
                  else remLen > |old(stream)| && stream == []
        decreases remLen - total, rc == SUCCESS
      {
        rc, readLen := ReadInto(0, toRead);
        if rc == SUCCESS {
          total := total + readLen;
          toRead := if remLen - total >= readBufSize then readBufSize else remLen - total;
        }
      }
    }

    /** Stores a body that passed the size check behind the header byte and its length. */
    method StoreBody(remLen: nat) returns (rc: Rc)
      requires Valid() && remLen < readBufSize
      modifies this`stream, readBuf
      ensures Valid()
      ensures if remLen <= |old(stream)| then
          var stored := [old(readBuf[0])] + EncodeLen(remLen) + old(stream)[..remLen];
          && rc == SUCCESS && stream == old(stream)[remLen..]
          && |stored| <= readBuf.Length && readBuf[..|stored|] == stored
        else rc == FAILURE && stream == []
    {
      hide EncodeLen, Pow128;
      ghost var body := stream;
      ShortLength(remLen);
      var outLen := WriteLen(readBuf, 1, remLen);
      var len := 1 + outLen;
      ghost var head := readBuf[..len];
      assert head == [old(readBuf[0])] + EncodeLen(remLen);
      rc := SUCCESS;
      if remLen > 0 {
        var readLen;
        rc, readLen := ReadInto(len, remLen);
        if rc != SUCCESS || readLen != remLen { return FAILURE; }
        assert readBuf[..len + remLen] == head + body[..remLen];
      } else {
        assert head + body[..0] == head;
      }
    }

    /** read_packet */
    method ReadPacketInto() returns (rc: Rc, packetType: nat)
      requires Valid()
      modifies this`stream, readBuf
      ensures Valid()
      ensures var r := ReadPacket(old(stream), closed, readBufSize);
        && rc == r.rc && stream == r.rest
        && (rc == SUCCESS ==>
             && |r.stored| <= readBuf.Length && readBuf[..|r.stored|] == r.stored
             && packetType == r.stored[0] / 16)
    {
      hide EncodeLen, FieldEnd, FieldValue;
      packetType := 0;
      var readLen, remLen;
      ghost var bs := stream;
      rc, readLen := ReadInto(0, 1);
      if rc == NETWORK_SSL_NOTHING_TO_READ { return MQTT_NOTHING_TO_READ, 0; }
      if rc != SUCCESS { return; }
      assert readBuf[0] == bs[0] by { assert readBuf[0..1][0] == bs[..1][0]; }
      rc, remLen := ReadRemainingLength();
      if rc != SUCCESS { return; }
      ghost var k := FieldEnd(bs[1..]).value;
      assert bs[1..][..k] == bs[1..1 + k] && bs[1..][k..] == bs[1 + k..];
      rc, packetType := ReadBody(remLen);
    }

    /** The part of read_packet after the length. */
    method ReadBody(remLen: nat) returns (rc: Rc, packetType: nat)
      requires Valid()
      modifies this`stream, readBuf
      ensures Valid()
      ensures var body := old(stream);
        if remLen >= readBufSize then
          rc == MQTT_RX_BUFFER_TOO_SHORT_ERROR && stream == if remLen <= |body| then body[remLen..] else []
        else if |body| < remLen then rc == FAILURE && stream == []
        else
          var stored := [old(readBuf[0])] + EncodeLen(remLen) + body[..remLen];
          && rc == SUCCESS && stream == body[remLen..]
          && |stored| <= readBuf.Length && readBuf[..|stored|] == stored && packetType == stored[0] / 16
    {
      hide EncodeLen;
      if remLen >= readBufSize {
        Drain(remLen);
        return MQTT_RX_BUFFER_TOO_SHORT_ERROR, 0;
      }
      ghost var stored := if remLen <= |stream| then [readBuf[0]] + EncodeLen(remLen) + stream[..remLen] else [];
      rc := StoreBody(remLen);
      packetType := readBuf[0] / 16;
      if rc == SUCCESS {
        assert readBuf[..|stored|][0] == stored[0];
      }
    }
  }

  /** A length of 32 bits takes at most five bytes. */
  lemma ShortLength(len: nat)
    requires len < 0x1_0000_0000
    ensures |EncodeLen(len)| <= 5
  {
    EncodeSize(len, 5);
    Pow128Of4();
    assert Pow128(5) == 128 * Pow128(4);
  }

  lemma {:induction false} NoFieldEnd(bs: Bytes)
    requires forall k :: 0 <= k < |bs| ==> bs[k] >= 128
    ensures FieldEnd(bs) == None
    decreases |bs|
  {
    if bs != [] { NoFieldEnd(bs[1..]); }
  }

  /** One more byte adds its seven bits at the next power, also on 64-bit arithmetic. */
  lemma ValueStep(read: Bytes, b: Byte)
    ensures FieldValue(read + [b]) % SIZE_MOD ==
      (FieldValue(read) % SIZE_MOD + b % 128 * (Pow128(|read|) % SIZE_MOD)) % SIZE_MOD
    ensures Pow128(|read| + 1) % SIZE_MOD == Pow128(|read|) % SIZE_MOD * 128 % SIZE_MOD
  {
    hide FieldValue;
    ValueAppend(read, b);
    assert Pow128(|read| + 1) == 0 + 128 * Pow128(|read|);
    hide Pow128;
    ModAffine(FieldValue(read), b % 128, Pow128(|read|));
    ModAffine(0, 128, Pow128(|read|));
  }

  lemma {:induction false} ValueAppend(read: Bytes, b: Byte)
    ensures FieldValue(read + [b]) == FieldValue(read) + b % 128 * Pow128(|read|)
    decreases |read|
  {
    var f := read + [b];
    if read == [] {
      assert f[1..] == [];
    } else {
      assert f[1..] == read[1..] + [b];
      ValueAppend(read[1..], b);
      Rescale(b % 128, Pow128(|read| - 1));
    }
  }

  lemma Rescale(a: nat, p: nat)
    ensures 128 * (a * p) == a * (128 * p)
  {
  }

  lemma ModAffine(a: nat, c: nat, p: nat)
    ensures (a + c * p) % SIZE_MOD == (a % SIZE_MOD + c * (p % SIZE_MOD)) % SIZE_MOD
  {
    var q, r := a / SIZE_MOD, p / SIZE_MOD;
    assert c * p == c * (p % SIZE_MOD) + SIZE_MOD * (c * r) by { Spread(c, p % SIZE_MOD, r); }
    ModShift(a % SIZE_MOD + c * (p % SIZE_MOD), q + c * r);
  }

  lemma Spread(c: nat, x: nat, r: nat)
    ensures c * (x + SIZE_MOD * r) == c * x + SIZE_MOD * (c * r)
  {
  }

  lemma {:induction false} ModShift(x: nat, k: nat)
    ensures (x + SIZE_MOD * k) % SIZE_MOD == x % SIZE_MOD
    decreases k
  {
    if k > 0 {
      ModShift(x, k - 1);
      assert x + SIZE_MOD * k == x + SIZE_MOD * (k - 1) + SIZE_MOD;
    }
  }
}
