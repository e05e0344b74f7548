/** PUBLISH and acknowledgement packets: serializing, deserializing, and the round trip through
    the packet reader (section 3.3 of MQTT 3.1.1). */
module Publish {
  import opened ReturnCodes
  import opened SizeT
  import opened Wire
  import opened Wrappers

  import PacketReader

  datatype Message = Message(dup: bool, qos: QoS, retained: bool, id: nat, topic: Bytes, payload: Bytes) {
    predicate Wf() {
      id < 65536 && |topic| < 65536
    }

    function Remaining(): nat {
      |topic| + |payload| + 2 + if qos == QOS1 then 2 else 0
    }

    /** The remaining length as the code has it, in 32 bits. */
    function Remaining32(): nat {
      Remaining() % 0x1_0000_0000
    }

    /** Within the length limits of the protocol. */
    predicate Conforms() {
      Wf() && Remaining() <= MAX_REMAINING
    }
  }

  function Body(m: Message): (b: Bytes)
    requires m.Wf()
    ensures |b| == m.Remaining()
  {
    Utf8(m.topic) + (if m.qos == QOS1 then Uint16(m.id) else []) + m.payload
  }

  /** The packet of a message. */
  function Encode(m: Message): (bs: Bytes)
    requires m.Wf()
    ensures |bs| == 1 + |EncodeLen(m.Remaining32())| + m.Remaining()
  {
    [Header(PUBLISH, m.qos, m.dup, m.retained)] + EncodeLen(m.Remaining32()) + Body(m)
  }

  /** A message of QoS 1 on topic "a/b" with id 10 and payload "hi", byte by byte (section 3.3). */
  lemma PublishBytes()
    ensures Encode(Message(false, QOS1, true, 10, [0x61, 0x2F, 0x62], [0x68, 0x69])) ==
            [0x33, 9, 0, 3, 0x61, 0x2F, 0x62, 0, 10, 0x68, 0x69]
  {
    assert EncodeLen(9) == [9] && Uint16(3) == [0, 3] && Uint16(10) == [0, 10];
  }

  /** The check made before writing is enough, for every buffer, exactly for messages within the
      limits of the protocol. */
  lemma CheckSuffices(m: Message)
    requires m.Wf()
    ensures FinalLength(m.Remaining32()) >= |Encode(m)| <==> m.Conforms()
  {
    FinalLengthCovers(m.Remaining32());
    if m.Remaining() >= 0x1_0000_0000 {
      assert FinalLength(m.Remaining32()) < 0x1_0000_0000;
    } else {
      hide FinalLength, EncodeLen;
      assert m.Remaining32() == m.Remaining();
    }
  }

  /** serialize_publish: checks the predicted length, then writes; nothing beyond the packet, and
      nothing at all on failure.  The array goes on behind the buffer of `txLen` bytes, for
      messages the check does not hold back. */
  method Serialize(tx: array<Byte>, txLen: nat, m: Message) returns (rc: Rc, len: nat)
    requires m.Wf() && txLen <= tx.Length && (FinalLength(m.Remaining32()) <= txLen ==> |Encode(m)| <= tx.Length)
    modifies tx
    ensures FinalLength(m.Remaining32()) > txLen ==> rc == MQTT_TX_BUFFER_TOO_SHORT_ERROR && tx[..] == old(tx[..])
    ensures FinalLength(m.Remaining32()) <= txLen ==>
      && rc == SUCCESS && len == |Encode(m)| % 0x1_0000_0000
      && tx[..|Encode(m)|] == Encode(m) && (forall k :: |Encode(m)| <= k < tx.Length ==> tx[k] == old(tx[k]))
    ensures rc == SUCCESS && m.Conforms() ==> len == |Encode(m)| <= txLen
  {
    hide FinalLength, EncodeLen;
    var remLen := |m.topic| + |m.payload| + 2;
    if m.qos != QOS0 { remLen := remLen + 2; }
    remLen := remLen % 0x1_0000_0000;
    if FinalLength(remLen) > txLen { return MQTT_TX_BUFFER_TOO_SHORT_ERROR, 0; }
    CheckSuffices(m);
    var ptr := Write(tx, m, remLen);
    if m.Conforms() { SmallLength(m); }
    rc, len := SUCCESS, ptr % 0x1_0000_0000;
  }

  lemma SmallLength(m: Message)
    requires m.Conforms()
    ensures |Encode(m)| < 0x1_0000_0000 && m.Remaining32() == m.Remaining()
  {
    hide EncodeLen, Header, Body;
    EncodeSize(m.Remaining(), 4);
    Pow128Of4();
  }

  /** The writing part, once the packet is known to fit. */
  method Write(tx: array<Byte>, m: Message, remLen: nat) returns (ptr: nat)
    requires m.Wf() && remLen == m.Remaining32() && |Encode(m)| <= tx.Length
    modifies tx
    ensures ptr == |Encode(m)| <= tx.Length && tx[..ptr] == Encode(m)
    ensures forall k :: ptr <= k < tx.Length ==> tx[k] == old(tx[k])
  {
    hide EncodeLen, Header, Uint16, Utf8;
    ghost var head := [Header(PUBLISH, m.qos, m.dup, m.retained)] + EncodeLen(remLen);
    ptr := WriteChar(tx, 0, Header(PUBLISH, m.qos, m.dup, m.retained));
    var n := WriteLen(tx, ptr, remLen);
    ptr := ptr + n;
    assert tx[..ptr] == head;
    ptr := WriteUtf8(tx, ptr, m.topic);
    ghost var written := Utf8(m.topic);
    if m.qos != QOS0 {
      ptr := WriteUint16(tx, ptr, m.id);
      written := written + Uint16(m.id);
    }
    assert tx[..ptr] == head + written;
    ptr := WriteBytes(tx, ptr, m.payload);
    Associate(head, written, m.payload);
    assert Body(m) == written + m.payload;
  }

  // ---------------------------------------------------------------------------
  // Sending

  /** send_packet: refuses a packet as long as the write buffer; otherwise the TLS write takes all
      of it, or fails. */
  method SendPacket(tx: array<Byte>, txLen: nat, length: nat, written: bool) returns (rc: Rc, sent: Bytes)
    requires length < txLen ==> length <= tx.Length
    ensures rc == if length >= txLen then MQTT_TX_BUFFER_TOO_SHORT_ERROR
                  else if written || length == 0 then SUCCESS else FAILURE
    ensures rc == SUCCESS ==> sent == tx[..length]
  {
    sent := [];
    if length >= txLen { return MQTT_TX_BUFFER_TOO_SHORT_ERROR, []; }
    while |sent| < length
      invariant sent == [] || (written && sent == tx[..length])
      decreases length - |sent|
    {
      if !written { break; }
      sent := sent + tx[|sent|..length];
      assert tx[0..length] == tx[..length];
    }
    rc := if |sent| == length then SUCCESS else FAILURE;
  }

  /** What internal_publish puts on the wire for a message, with a write buffer of `txLen` bytes. */
  function OnWire(m: Message, txLen: nat): Bytes
    requires m.Wf()
  {
    if FinalLength(m.Remaining32()) > txLen || |Encode(m)| >= txLen then [] else Encode(m)
  }

  /** The first half of internal_publish: serialize and send.  As many bytes are sent as the packet
      is long in 32 bits, which for messages within the limits of the protocol is all of it. */
  method Transmit(tx: array<Byte>, txLen: nat, m: Message, written: bool) returns (rc: Rc, sent: Bytes)
    requires m.Wf() && txLen <= tx.Length && (FinalLength(m.Remaining32()) <= txLen ==> |Encode(m)| <= tx.Length)
    modifies tx
    ensures var n := |Encode(m)| % 0x1_0000_0000;
      if FinalLength(m.Remaining32()) > txLen || n >= txLen then rc == MQTT_TX_BUFFER_TOO_SHORT_ERROR
      else if !written && n > 0 then rc == FAILURE
      else rc == SUCCESS && sent == Encode(m)[..n]
    ensures m.Conforms() ==> (rc == SUCCESS <==> written && OnWire(m, txLen) != [])
    ensures m.Conforms() && rc == SUCCESS ==> sent == OnWire(m, txLen) == Encode(m)
  {
    if m.Conforms() { SmallLength(m); }
    hide FinalLength, Encode;
    var len;
    rc, len := Serialize(tx, txLen, m);
    if rc != SUCCESS { return rc, []; }
    rc, sent := SendPacket(tx, txLen, len, written);
  }

  /** A message is serialized but never sent exactly when its packet, whose length is predicted
      right, fills the write buffer. */
  lemma NeverSent(m: Message, txLen: nat)
    requires m.Conforms()
    ensures FinalLength(m.Remaining()) <= txLen && OnWire(m, txLen) == [] <==>
            FinalLength(m.Remaining()) == TrueLength(m.Remaining()) == txLen
  {
    SmallLength(m);
    CheckSuffices(m);
  }

  /** Topic "a" without payload in a buffer of five bytes. */
  lemma FillsBuffer()
    ensures var m := Message(false, QOS0, false, 0, [97], []);
      m.Conforms() && FinalLength(m.Remaining()) <= 5 && OnWire(m, 5) == []
  {
  }

  // ---------------------------------------------------------------------------
  // Deserializing

  /** What is read from a PUBLISH packet.  The id is set only for a QoS other than 0; the payload
      length is a size_t. */
  datatype Received = Received(dup: bool, qos: nat, retained: bool, id: Option<nat>, topic: Bytes,
                               payloadLen: nat, payload: Bytes)

  datatype Result = Ok(r: Received) | Err(rc: Rc)

  /** The packet in a buffer lies inside it, if its length decodes. */
  predicate HoldsPacket(bs: Bytes) {
    && 4 <= |bs|
    && match DecodeLen(bs[1..], 4)
       case Length(v, u) => 1 + u + v <= |bs|
       case TooLong => true
       case Unfinished => false
  }

  /** The fields of a header byte. */
  function TypeOf(h: Byte): nat { h / 16 }

  predicate DupOf(h: Byte) { h / 8 % 2 == 1 }

  function QosOf(h: Byte): nat { h / 2 % 4 }

  predicate RetainOf(h: Byte) { h % 2 == 1 }

  /** The packet id, which is read without a bound, lies in memory. */
  predicate IdReadable(bs: Bytes, cur: nat, end: nat)
    requires 0 < cur <= end <= |bs|
  {
    2 <= end - cur && QosOf(bs[0]) != 0 ==>
      var after := cur + 2 + ReadUint16(bs[cur], bs[cur + 1]);
      after <= end ==> after + 2 <= |bs|
  }

  /** All that is read of the packet lies in memory. */
  predicate Readable(bs: Bytes) {
    && HoldsPacket(bs)
    && match DecodeLen(bs[1..], 4)
       case Length(v, u) => IdReadable(bs, 1 + u, 1 + u + v)
       case TooLong => true
  }

  /** deserialize_publish on the bytes of a buffer. */
  function Decode(bs: Bytes): Result
    requires Readable(bs)
  {
    if TypeOf(bs[0]) != TypeCode(PUBLISH) then Err(FAILURE)
    else
      match DecodeLen(bs[1..], 4)
      case TooLong => Err(MQTT_DECODE_REMAINING_LENGTH_ERROR)
      case Length(v, u) => DecodeBody(bs, 1 + u, 1 + u + v)
  }

  /** A pointer difference stored in a 64-bit size_t. */
  function Wrap64(i: int): nat {
    i % SIZE_MOD
  }

  /** The part after the length, from `cur` to `end`. */
  function DecodeBody(bs: Bytes, cur: nat, end: nat): Result
    requires 0 < cur <= end <= |bs| && IdReadable(bs, cur, end)
  {
    if end - cur <= 1 then Err(FAILURE)
    else
      var after := cur + 2 + ReadUint16(bs[cur], bs[cur + 1]);
      if after > end then Err(FAILURE) else Ok(Fields(bs, cur + 2, after, end))
  }

  /** The fields of a packet with its topic from `cur` to `after`. */
  function Fields(bs: Bytes, cur: nat, after: nat, end: nat): Received
    requires 0 < cur <= after <= end <= |bs| && (QosOf(bs[0]) != 0 ==> after + 2 <= |bs|)
  {
    var h := bs[0];
    if QosOf(h) == 0 then
      Received(DupOf(h), 0, RetainOf(h), None, bs[cur..after], Wrap64(end - after), bs[after..end])
    else
      Received(DupOf(h), QosOf(h), RetainOf(h), Some(ReadUint16(bs[after], bs[after + 1])), bs[cur..after],
               Wrap64(end - after - 2), if after + 2 <= end then bs[after + 2..end] else [])
  }

  method Deserialize(rx: array<Byte>, rxLen: nat) returns (r: Result)
    requires rxLen <= rx.Length && (4 <= rxLen ==> Readable(rx[..]))
    ensures r == if rxLen < 4 then Err(MQTT_RX_BUFFER_TOO_SHORT_ERROR) else Decode(rx[..])
  {
    hide DecodeLen, DecodeBody, IdReadable;
    if 4 > rxLen { return Err(MQTT_RX_BUFFER_TOO_SHORT_ERROR); }
    if TypeOf(rx[0]) != TypeCode(PUBLISH) { return Err(FAILURE); }
    assert rx[..][1..] == rx[1..];
    var d := ReadLen(rx, 1);
    if d.TooLong? { return Err(MQTT_DECODE_REMAINING_LENGTH_ERROR); }
    r := DeserializeBody(rx, 1 + d.used, 1 + d.used + d.value);
  }

  /** The part of deserialize_publish after the length. */
  method DeserializeBody(rx: array<Byte>, at: nat, end: nat) returns (r: Result)
    requires 0 < at <= end <= rx.Length && IdReadable(rx[..], at, end)
    ensures r == DecodeBody(rx[..], at, end)
  {
    hide ReadUint16, Fields;
    var cur := at;
    if end - cur <= 1 { return Err(FAILURE); }
    var n := ReadUint16(rx[cur], rx[cur + 1]);
    cur := cur + 2;
    if cur + n > end { return Err(FAILURE); }
    var fields := ReadFields(rx, cur, cur + n, end);
    r := Ok(fields);
  }

  method ReadFields(rx: array<Byte>, topicAt: nat, after: nat, end: nat) returns (r: Received)
    requires 0 < topicAt <= after <= end <= rx.Length && (QosOf(rx[0]) != 0 ==> after + 2 <= rx.Length)
    ensures r == Fields(rx[..], topicAt, after, end)
  {
    hide ReadUint16, Wrap64, DupOf, QosOf, RetainOf;
    var dup, qos, retained := DupOf(rx[0]), QosOf(rx[0]), RetainOf(rx[0]);
    ArraySlice(rx, topicAt, after);
    var cur := after;
    var id := None;
    if qos != 0 {
      id := Some(ReadUint16(rx[cur], rx[cur + 1]));
      cur := cur + 2;
    }
    var payload: Bytes := [];
    if cur <= end {
      payload := rx[cur..end];
      ArraySlice(rx, cur, end);
    }
    r := Received(dup, qos, retained, id, rx[topicAt..after], Wrap64(end - cur), payload);
  }

  lemma ArraySlice(rx: array<Byte>, lo: nat, hi: nat)
    requires lo <= hi <= rx.Length
    ensures rx[lo..hi] == rx[..][lo..hi]
  {
  }

  lemma SliceOfSuffix(s: Bytes, start: nat, a: nat, b: nat)
    requires a <= b && start + b <= |s|
    ensures s[start..][a..b] == s[start + a..start + b]
  {
  }

  /** What a receiver should get out of a message. */
  function AsReceived(m: Message): Received {
    Received(m.dup, QosCode(m.qos), m.retained, if m.qos == QOS1 then Some(m.id) else None, m.topic,
             |m.payload|, m.payload)
  }

  lemma Uint16RoundTrip(n: nat)
    requires n < 65536
    ensures ReadUint16(Uint16(n)[0], Uint16(n)[1]) == n
  {
  }

  lemma HeaderRoundTrip(t: PacketType, q: QoS, dup: bool, retained: bool)
    ensures var h := Header(t, q, dup, retained);
      TypeOf(h) == TypeCode(t) && (DupOf(h) <==> dup) && QosOf(h) == QosCode(q) && (RetainOf(h) <==> retained)
  {
  }

  /** Reading a length-prefixed string back. */
  lemma Utf8RoundTrip(s: Bytes, bs: Bytes, cur: nat, tail: Bytes)
    requires |s| < 65536 && cur <= |bs| && bs[cur..] == Utf8(s) + tail
    ensures cur + 2 + |s| <= |bs| && ReadUint16(bs[cur], bs[cur + 1]) == |s|
    ensures bs[cur + 2..cur + 2 + |s|] == s && bs[cur + 2 + |s|..] == tail
  {
    Uint16RoundTrip(|s|);
    hide ReadUint16, Uint16;
    var rest := bs[cur..];
    assert bs[cur] == rest[0] == Uint16(|s|)[0] && bs[cur + 1] == rest[1] == Uint16(|s|)[1];
    assert rest[2..2 + |s|] == s && rest[2 + |s|..] == tail;
    SliceOfSuffix(bs, cur, 2, 2 + |s|);
    assert bs[cur + 2 + |s|..] == rest[2 + |s|..];
  }

  /** Reading the packet id back, when there is one. */
  lemma IdRoundTrip(n: nat, bs: Bytes, cur: nat, tail: Bytes)
    requires n < 65536 && cur <= |bs| && bs[cur..] == Uint16(n) + tail
    ensures cur + 2 <= |bs| && ReadUint16(bs[cur], bs[cur + 1]) == n && bs[cur + 2..] == tail
  {
    Uint16RoundTrip(n);
    hide ReadUint16, Uint16;
    var rest := bs[cur..];
    assert bs[cur] == rest[0] == Uint16(n)[0] && bs[cur + 1] == rest[1] == Uint16(n)[1];
    assert rest[2..] == tail;
    assert bs[cur + 2..] == rest[2..];
  }

  lemma DecodeBodyOf(m: Message, bs: Bytes, cur: nat, tail: Bytes)
    requires m.Wf() && 0 < cur <= |bs| && bs[cur..] == Body(m) + tail
    requires bs[0] == Header(PUBLISH, m.qos, m.dup, m.retained) && m.Remaining() <= MAX_REMAINING
    ensures cur + m.Remaining() <= |bs| && IdReadable(bs, cur, cur + m.Remaining())
    ensures DecodeBody(bs, cur, cur + m.Remaining()) == Ok(AsReceived(m))
  {
    HeaderRoundTrip(PUBLISH, m.qos, m.dup, m.retained);
    FieldsOfBody(m, bs, cur, tail);
    FieldsAreThose(m, bs, cur, tail);
    hide ReadUint16, Uint16, Header, Body, Fields, QosOf;
  }

  lemma FieldsAreThose(m: Message, bs: Bytes, cur: nat, tail: Bytes)
    requires m.Wf() && 0 < cur <= |bs| && bs[cur..] == Body(m) + tail
    requires bs[0] == Header(PUBLISH, m.qos, m.dup, m.retained) && m.Remaining() <= MAX_REMAINING
    ensures cur + m.Remaining() <= |bs| && (QosOf(bs[0]) != 0 ==> cur + 4 + |m.topic| <= |bs|)
    ensures Fields(bs, cur + 2, cur + 2 + |m.topic|, cur + m.Remaining()) == AsReceived(m)
  {
    HeaderRoundTrip(PUBLISH, m.qos, m.dup, m.retained);
    SmallMod(|m.payload|);
    FieldsOfBody(m, bs, cur, tail);
    hide ReadUint16, Uint16, Header, Wrap64, Body, DupOf, QosOf, RetainOf;
  }

  /** Where the fields of a body are. */
  lemma FieldsOfBody(m: Message, bs: Bytes, cur: nat, tail: Bytes)
    requires m.Wf() && cur <= |bs| && bs[cur..] == Body(m) + tail
    ensures var after := cur + 2 + |m.topic|; var start := if m.qos == QOS1 then after + 2 else after;
      && start + |m.payload| + |tail| == |bs|
      && ReadUint16(bs[cur], bs[cur + 1]) == |m.topic| && bs[cur + 2..after] == m.topic
      && (m.qos == QOS1 ==> ReadUint16(bs[after], bs[after + 1]) == m.id)
      && bs[start..start + |m.payload|] == m.payload
  {
    hide ReadUint16, Uint16, Utf8;
    var after := cur + 2 + |m.topic|;
    var left := m.payload + tail;
    if m.qos == QOS1 {
      Regroup(Utf8(m.topic), Uint16(m.id), m.payload, tail);
      Utf8RoundTrip(m.topic, bs, cur, Uint16(m.id) + left);
      IdRoundTrip(m.id, bs, after, left);
      PrefixOfSuffix(bs, after + 2, m.payload, tail);
    } else {
      Regroup(Utf8(m.topic), [], m.payload, tail);
      assert [] + left == left;
      Utf8RoundTrip(m.topic, bs, cur, left);
      PrefixOfSuffix(bs, after, m.payload, tail);
    }
  }

  lemma Regroup(a: Bytes, b: Bytes, c: Bytes, d: Bytes)
    ensures a + b + c + d == a + (b + (c + d))
  {
  }

  lemma PrefixOfSuffix(bs: Bytes, start: nat, s: Bytes, tail: Bytes)
    requires start <= |bs| && bs[start..] == s + tail
    ensures start + |s| <= |bs| && bs[start..start + |s|] == s
  {
    assert bs[start..][..|s|] == s;
  }

  lemma SmallMod(n: nat)
    requires n <= MAX_REMAINING
    ensures Wrap64(n) == n
  {
  }

  /** Decoding undoes encoding, whatever follows the packet in memory. */
  lemma DecodeEncode(m: Message, tail: Bytes)
    requires m.Conforms()
    ensures var bs := Encode(m) + tail; Readable(bs) && Decode(bs) == Ok(AsReceived(m))
  {
    hide Decode, DecodeLen, Encode, EncodeLen, Header, Body, DecodeBody, IdReadable, Readable, TypeOf;
    var rem := m.Remaining();
    SmallLength(m);
    EncodeParts(m, tail);
    HeaderRoundTrip(PUBLISH, m.qos, m.dup, m.retained);
    LenRoundTrip(rem, Body(m) + tail);
    DecodeBodyOf(m, Encode(m) + tail, 1 + |EncodeLen(rem)|, tail);
    DecodeUnfolds(Encode(m) + tail, rem, |EncodeLen(rem)|);
  }

  lemma DecodeUnfolds(bs: Bytes, v: nat, u: nat)
    requires bs != [] && DecodeLen(bs[1..], 4) == Length(v, u) && TypeOf(bs[0]) == TypeCode(PUBLISH)
    requires 0 < u && 4 <= 1 + u + v <= |bs| && IdReadable(bs, 1 + u, 1 + u + v)
    ensures Readable(bs) && Decode(bs) == DecodeBody(bs, 1 + u, 1 + u + v)
  {
    hide IdReadable, DecodeBody;
  }

  lemma EncodeParts(m: Message, tail: Bytes)
    requires m.Conforms()
    ensures var bs, len := Encode(m) + tail, EncodeLen(m.Remaining());
      && 1 + |len| <= |bs| && bs[0] == Header(PUBLISH, m.qos, m.dup, m.retained)
      && bs[1..] == len + (Body(m) + tail) && bs[1 + |len|..] == Body(m) + tail
  {
    SmallLength(m);
    hide EncodeLen, Header, Body;
  }

  lemma EncodeIsFrame(m: Message) returns (f: PacketReader.Frame)
    requires m.Conforms()
    ensures f.WellFormed() && f.Bytes() == Encode(m) && f.Canonical() == Encode(m) && |f.body| == m.Remaining()
  {
    SmallLength(m);
    hide EncodeLen, Header;
    EncodeIsField(m.Remaining());
    f := PacketReader.Frame(Header(PUBLISH, m.qos, m.dup, m.retained), EncodeLen(m.Remaining()), Body(m));
  }

  /** Round trip over the wire: what a message puts on the wire is nothing, if its packet does not
      fit the write buffer or fills it; otherwise, read by the packet reader and deserialized, it
      comes back as it was, if its body is shorter than the receive buffer, and is dropped as too
      long if not; the stream goes on after it either way.  `tail` is what follows the packet in
      the receive buffer's memory. */
  lemma PublishRoundTrip(m: Message, txLen: nat, rest: Bytes, closed: bool, bufSize: nat, tail: Bytes)
    requires m.Conforms()
    ensures OnWire(m, txLen) != [] <==> FinalLength(m.Remaining()) <= txLen && TrueLength(m.Remaining()) < txLen
    ensures OnWire(m, txLen) != [] ==>
      var r := PacketReader.ReadPacket(OnWire(m, txLen) + rest, closed, bufSize);
      && r.rest == rest
      && if m.Remaining() < bufSize then
           && r.rc == SUCCESS
           && Readable(r.stored + tail)
           && Decode(r.stored + tail) == Ok(AsReceived(m))
         else r.rc == MQTT_RX_BUFFER_TOO_SHORT_ERROR
  {
    SmallLength(m);
    hide Decode, PacketReader.ReadPacket, FinalLength;
    var f := EncodeIsFrame(m);
    PacketReader.ReadsOneFrame(f, rest, closed, bufSize);
    DecodeEncode(m, tail);
    hide Encode, Readable;
  }

  /** For any received packet, the payload lies inside it if and only if the QoS is 0 or the
      packet has room for an id after the topic; otherwise the payload length wraps around. */
  lemma PayloadInside(bs: Bytes)
    requires Readable(bs) && Decode(bs).Ok?
    ensures var r := Decode(bs).r; var d := DecodeLen(bs[1..], 4);
      && d.Length?
      && (r.payloadLen <= d.value <==> r.qos == 0 || |r.topic| + 4 <= d.value)
      && (r.payloadLen <= d.value ==> r.payloadLen == |r.payload|)
  {
    LengthBound(bs[1..], 4);
    Pow128Of4();
    hide DecodeLen, Pow128, DecodeBody, IdReadable;
    var d := DecodeLen(bs[1..], 4);
    BodyPayloadInside(bs, 1 + d.used, 1 + d.used + d.value);
  }

  /** A QoS 1 packet that ends with its empty topic: its payload length comes out as 2^64 - 2. */
  lemma PayloadWraps()
    ensures var bs := [0x32, 2, 0, 0, 0, 0];
      && Readable(bs) && Decode(bs).Ok?
      && Decode(bs).r.payloadLen == SIZE_MOD - 2 && Decode(bs).r.payload == []
  {
    var bs := [0x32, 2, 0, 0, 0, 0];
    assert bs[1..][0] == 2;
    assert DecodeLen(bs[1..], 4) == Length(2, 1);
    SmallWrap(-2);
  }

  lemma BodyPayloadInside(bs: Bytes, cur: nat, end: nat)
    requires 0 < cur <= end <= |bs| && IdReadable(bs, cur, end)
    requires end - cur <= MAX_REMAINING && DecodeBody(bs, cur, end).Ok?
    ensures var r := DecodeBody(bs, cur, end).r; var v := end - cur;
      && (r.payloadLen <= v <==> r.qos == 0 || |r.topic| + 4 <= v)
      && (r.payloadLen <= v ==> r.payloadLen == |r.payload|)
  {
    var topicLen := ReadUint16(bs[cur], bs[cur + 1]);
    hide ReadUint16;
    SmallWrap(end - cur - 2 - topicLen);
    SmallWrap(end - cur - 4 - topicLen);
    hide Wrap64;
  }

  lemma SmallWrap(i: int)
    requires -4 <= i <= MAX_REMAINING
    ensures Wrap64(i) == if i >= 0 then i else SIZE_MOD + i
  {
  }

  lemma {:induction false} LengthBound(bs: Bytes, budget: nat)
    ensures var d := DecodeLen(bs, budget); d.Length? ==> d.value < Pow128(budget)
    decreases budget
  {
    if budget > 0 && bs != [] {
      if bs[0] < 128 { PowAtLeast(budget); } else { LengthBound(bs[1..], budget - 1); }
    }
  }

  // ---------------------------------------------------------------------------
  // Acknowledgements and empty packets

  /** PUBACK, PUBREC, PUBREL, PUBCOMP, UNSUBACK: a header, the length 2 and a packet id. */
  function EncodeAck(t: PacketType, dup: bool, id: nat): Bytes
    requires id < 65536
  {
    [Header(t, if t == PUBREL then QOS1 else QOS0, dup, false)] + EncodeLen(2) + Uint16(id)
  }

  /** The first bytes of sections 3.4 to 3.7 and 3.11. */
  lemma AckBytes(id: nat)
    requires id < 65536
    ensures forall t :: EncodeAck(t, false, id)[1..] == [2, id / 256, id % 256]
    ensures EncodeAck(PUBACK, false, id)[0] == 0x40 && EncodeAck(PUBREC, false, id)[0] == 0x50
    ensures EncodeAck(PUBREL, false, id)[0] == 0x62 && EncodeAck(PUBCOMP, false, id)[0] == 0x70
    ensures EncodeAck(UNSUBACK, false, id)[0] == 0xB0
  {
    assert EncodeLen(2) == [2];
    forall t
      ensures EncodeAck(t, false, id)[1..] == [2, id / 256, id % 256]
    {
      hide Header;
    }
  }

  method SerializeAck(tx: array<Byte>, txLen: nat, t: PacketType, dup: bool, id: nat) returns (rc: Rc, len: nat)
    requires id < 65536 && txLen <= tx.Length
    modifies tx
    ensures txLen < 4 ==> rc == MQTT_TX_BUFFER_TOO_SHORT_ERROR && tx[..] == old(tx[..])
    ensures txLen >= 4 ==> rc == SUCCESS && len == 4 && tx[..len] == EncodeAck(t, dup, id)
    ensures forall k :: 4 <= k < tx.Length ==> tx[k] == old(tx[k])
  {
    hide Header;
    if 4 > txLen { return MQTT_TX_BUFFER_TOO_SHORT_ERROR, 0; }
    var ptr := WriteChar(tx, 0, Header(t, if t == PUBREL then QOS1 else QOS0, dup, false));
    var n := WriteLen(tx, ptr, 2);
    ptr := ptr + n;
    ptr := WriteUint16(tx, ptr, id);
    rc, len := SUCCESS, ptr;
  }

  datatype AckResult = Ack(code: nat, dup: bool, id: nat) | AckErr(rc: Rc)

  /** deserialize_ack: any packet type is accepted. */
  function DecodeAck(bs: Bytes): AckResult
    requires HoldsPacket(bs)
  {
    match DecodeLen(bs[1..], 4)
    case TooLong => AckErr(MQTT_DECODE_REMAINING_LENGTH_ERROR)
    case Length(v, u) =>
      if v < 2 then AckErr(FAILURE)
      else Ack(TypeOf(bs[0]), DupOf(bs[0]), ReadUint16(bs[1 + u], bs[2 + u]))
  }

  method DeserializeAck(rx: array<Byte>, rxLen: nat) returns (r: AckResult)
    requires rxLen <= rx.Length && (4 <= rxLen ==> HoldsPacket(rx[..]))
    ensures r == if rxLen < 4 then AckErr(MQTT_RX_BUFFER_TOO_SHORT_ERROR) else DecodeAck(rx[..])
  {
    hide DecodeLen;
    if 4 > rxLen { return AckErr(MQTT_RX_BUFFER_TOO_SHORT_ERROR); }
    assert rx[..][1..] == rx[1..];
    var d := ReadLen(rx, 1);
    if d.TooLong? { return AckErr(MQTT_DECODE_REMAINING_LENGTH_ERROR); }
    if d.value < 2 { return AckErr(FAILURE); }
    var cur := 1 + d.used;
    r := Ack(TypeOf(rx[0]), DupOf(rx[0]), ReadUint16(rx[cur], rx[cur + 1]));
  }

  lemma AckRoundTrip(t: PacketType, dup: bool, id: nat, tail: Bytes)
    requires id < 65536
    ensures var bs := EncodeAck(t, dup, id) + tail;
      HoldsPacket(bs) && DecodeAck(bs) == Ack(TypeCode(t), dup, id)
  {
    hide DecodeLen, EncodeLen, Header;
    var bs := EncodeAck(t, dup, id) + tail;
    HeaderRoundTrip(t, if t == PUBREL then QOS1 else QOS0, dup, false);
    LenRoundTrip(2, Uint16(id) + tail);
    EncodeSize(2, 1);
    Pow128Of4();
    assert bs[1..] == EncodeLen(2) + (Uint16(id) + tail);
    Uint16RoundTrip(id);
  }

  /** serialize_zero: a packet without a body.  Four bytes of room are asked for, two written. */
  method SerializeZero(tx: array<Byte>, txLen: nat, t: PacketType) returns (rc: Rc, len: nat)
    requires txLen <= tx.Length
    modifies tx
    ensures txLen < 4 ==> rc == MQTT_TX_BUFFER_TOO_SHORT_ERROR && tx[..] == old(tx[..])
    ensures txLen >= 4 ==> rc == SUCCESS && len == 2 && tx[..len] == [Header(t, QOS0, false, false), 0]
    ensures forall k :: 2 <= k < tx.Length ==> tx[k] == old(tx[k])
  {
    hide Header;
    if 4 > txLen { return MQTT_TX_BUFFER_TOO_SHORT_ERROR, 0; }
    var ptr := WriteChar(tx, 0, Header(t, QOS0, false, false));
    var n := WriteLen(tx, ptr, 0);
    ptr := ptr + n;
    rc, len := SUCCESS, ptr;
  }
}
