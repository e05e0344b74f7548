/** CONNECT packets and the CONNACK reader (sections 3.1 and 3.2 of MQTT 3.1.1). */
module Connect {
  import opened Publish
  import opened ReturnCodes
  import opened TopicRequests
  import opened Wire
  import opened Wrappers

  datatype Will = Will(topic: Bytes, message: Bytes, qos: QoS, retained: bool)

  /** The connect options; None is a null pointer.  A null client id goes with length 0. */
  datatype Options = Options(version: nat, clientId: Option<Bytes>, keepAlive: nat, cleanSession: bool,
                             will: Option<Will>, username: Option<Bytes>, password: Option<Bytes>) {
    predicate Wf() {
      && keepAlive < 65536 && Short(clientId) && Short(username) && Short(password)
      && (will.Some? ==> |will.value.topic| < 65536 && |will.value.message| < 65536)
    }
  }

  const MQTT_3_1_1: nat := 4

  predicate Short(s: Option<Bytes>) {
    s.Some? ==> |s.value| < 65536
  }

  function OptionLength(s: Option<Bytes>): nat {
    if s.Some? then |s.value| + 2 else 0
  }

  function WillLength(w: Option<Will>): nat {
    if w.Some? then |w.value.topic| + 2 + |w.value.message| + 2 else 0
  }

  /** get_connect_packet_length */
  function Remaining(o: Options): nat {
    10 + (if o.clientId.Some? then |o.clientId.value| else 0) + 2 + WillLength(o.will)
    + OptionLength(o.username) + OptionLength(o.password)
  }

  /** Connect flags: username, password, will retain, will QoS, will, clean session, reserved. */
  function Flags(o: Options): Byte {
    (if o.cleanSession then 2 else 0)
    + (if o.will.Some? then 4 + 8 * QosCode(o.will.value.qos) + (if o.will.value.retained then 32 else 0) else 0)
    + (if o.password.Some? then 64 else 0) + if o.username.Some? then 128 else 0
  }

  /** "MQTT" */
  const PROTOCOL_NAME: Bytes := [77, 81, 84, 84]

  function OptionBytes(s: Option<Bytes>): (bs: Bytes)
    requires Short(s)
    ensures |bs| == OptionLength(s)
  {
    if s.Some? then Utf8(s.value) else []
  }

  function ClientIdBytes(s: Option<Bytes>): (bs: Bytes)
    requires Short(s)
    ensures |bs| == 2 + if s.Some? then |s.value| else 0
  {
    if s.Some? then Utf8(s.value) else Uint16(0)
  }

  function WillBytes(w: Option<Will>): (bs: Bytes)
    requires w.Some? ==> |w.value.topic| < 65536 && |w.value.message| < 65536
    ensures |bs| == WillLength(w)
  {
    if w.Some? then Utf8(w.value.topic) + Utf8(w.value.message) else []
  }

  function Payload(o: Options): Bytes
    requires o.Wf()
  {
    ClientIdBytes(o.clientId) + (WillBytes(o.will) + (OptionBytes(o.username) + OptionBytes(o.password)))
  }

  /** Protocol name and level, flags, keep-alive. */
  function VariableHeader(o: Options): (bs: Bytes)
    requires o.Wf()
    ensures |bs| == 10
  {
    Utf8(PROTOCOL_NAME) + [MQTT_3_1_1, Flags(o)] + Uint16(o.keepAlive)
  }

  function Encode(o: Options): (bs: Bytes)
    requires o.Wf()
    ensures |bs| == TrueLength(Remaining(o))
  {
    [Header(CONNECT, QOS0, false, false)] + EncodeLen(Remaining(o)) + (VariableHeader(o) + Payload(o))
  }

  datatype ConnectRc = Done(len: nat) | NullValue | UnacceptableVersion | TooShort

  /** serialize_connect.  The remaining length is always far below the protocol's maximum. */
  method Serialize(tx: array<Byte>, txLen: nat, o: Options) returns (r: ConnectRc)
    requires o.Wf() && txLen <= tx.Length
    modifies tx
    ensures r == if o.clientId == Some([]) then NullValue
      else if o.version != MQTT_3_1_1 then UnacceptableVersion
      else if FinalLength(Remaining(o)) > txLen then TooShort
      else Done(|Encode(o)|)
    ensures !r.Done? ==> tx[..] == old(tx[..])
    ensures r.Done? ==> r.len <= txLen && tx[..r.len] == Encode(o)
    ensures r.Done? ==> forall k :: r.len <= k < tx.Length ==> tx[k] == old(tx[k])
  {
    if o.clientId.Some? && |o.clientId.value| == 0 { return NullValue; }
    if o.version != MQTT_3_1_1 { return UnacceptableVersion; }
    var len := Remaining(o);
    FinalLengthCovers(len);
    if FinalLength(len) > txLen { return TooShort; }
    var ptr := Write(tx, o, len);
    r := Done(ptr);
  }

  /** The writing part, once the packet is known to fit. */
  method Write(tx: array<Byte>, o: Options, len: nat) returns (ptr: nat)
    requires o.Wf() && len == Remaining(o) && TrueLength(len) <= tx.Length
    modifies tx
    ensures ptr == |Encode(o)| <= tx.Length && tx[..ptr] == Encode(o)
    ensures forall k :: ptr <= k < tx.Length ==> tx[k] == old(tx[k])
  {
    PayloadLength(o);
    hide EncodeLen, Header, VariableHeader, Payload, Remaining, Options.Wf;
    ghost var head := [Header(CONNECT, QOS0, false, false)] + EncodeLen(len);
    ptr := WriteChar(tx, 0, Header(CONNECT, QOS0, false, false));
    var n := WriteLen(tx, ptr, len);
    ptr := ptr + n;
    assert tx[..ptr] == head;
    ptr := WriteVariableHeader(tx, ptr, o);
    ptr := WritePayload(tx, ptr, o);
    Associate(head, VariableHeader(o), Payload(o));
  }

  lemma PayloadLength(o: Options)
    requires o.Wf()
    ensures 10 + |Payload(o)| == Remaining(o) <= MAX_REMAINING
  {
  }

  method WriteVariableHeader(tx: array<Byte>, at: nat, o: Options) returns (ptr: nat)
    requires o.Wf() && at + 10 <= tx.Length
    modifies tx
    ensures ptr == at + 10 && tx[..ptr] == old(tx[..at]) + VariableHeader(o)
    ensures forall k :: ptr <= k < tx.Length ==> tx[k] == old(tx[k])
  {
    hide Flags, Uint16;
    ghost var before := tx[..at];
    ptr := WriteUtf8(tx, at, PROTOCOL_NAME);
    ptr := WriteChar(tx, ptr, MQTT_3_1_1);
    ptr := WriteChar(tx, ptr, Flags(o));
    ptr := WriteUint16(tx, ptr, o.keepAlive);
    assert tx[..ptr] == before + VariableHeader(o);
  }

  method WritePayload(tx: array<Byte>, at: nat, o: Options) returns (ptr: nat)
    requires o.Wf() && at + |Payload(o)| <= tx.Length
    modifies tx
    ensures ptr == at + |Payload(o)| && tx[..ptr] == old(tx[..at]) + Payload(o)
    ensures forall k :: ptr <= k < tx.Length ==> tx[k] == old(tx[k])
  {
    hide ClientIdBytes, WillBytes, OptionBytes;
    ghost var before := tx[..at];
    ptr := WriteClientId(tx, at, o.clientId);
    ptr := WriteWill(tx, ptr, o.will);
    ptr := WriteOption(tx, ptr, o.username);
    ptr := WriteOption(tx, ptr, o.password);
    Regroup(before, ClientIdBytes(o.clientId), WillBytes(o.will), OptionBytes(o.username), OptionBytes(o.password));
  }

  lemma Regroup(a: Bytes, b: Bytes, c: Bytes, d: Bytes, e: Bytes)
    ensures a + b + c + d + e == a + (b + (c + (d + e)))
  {
  }

  method WriteClientId(tx: array<Byte>, at: nat, s: Option<Bytes>) returns (ptr: nat)
    requires Short(s) && at + |ClientIdBytes(s)| <= tx.Length
    modifies tx
    ensures ptr == at + |ClientIdBytes(s)| && tx[..ptr] == old(tx[..at]) + ClientIdBytes(s)
    ensures forall k :: ptr <= k < tx.Length ==> tx[k] == old(tx[k])
  {
    if s.None? {
      ptr := WriteUint16(tx, at, 0);
    } else {
      ptr := WriteUtf8(tx, at, s.value);
    }
  }

  method WriteWill(tx: array<Byte>, at: nat, w: Option<Will>) returns (ptr: nat)
    requires (w.Some? ==> |w.value.topic| < 65536 && |w.value.message| < 65536) && at + WillLength(w) <= tx.Length
    modifies tx
    ensures ptr == at + WillLength(w) && tx[..ptr] == old(tx[..at]) + WillBytes(w)
    ensures forall k :: ptr <= k < tx.Length ==> tx[k] == old(tx[k])
  {
    hide Utf8;
    ptr := at;
    if w.Some? {
      ghost var before := tx[..at];
      ptr := WriteUtf8(tx, ptr, w.value.topic);
      ptr := WriteUtf8(tx, ptr, w.value.message);
      assert before + Utf8(w.value.topic) + Utf8(w.value.message) ==
             before + (Utf8(w.value.topic) + Utf8(w.value.message));
    }
  }

  method WriteOption(tx: array<Byte>, at: nat, s: Option<Bytes>) returns (ptr: nat)
    requires Short(s) && at + OptionLength(s) <= tx.Length
    modifies tx
    ensures ptr == at + OptionLength(s) && tx[..ptr] == old(tx[..at]) + OptionBytes(s)
    ensures forall k :: ptr <= k < tx.Length ==> tx[k] == old(tx[k])
  {
    ptr := at;
    if s.Some? { ptr := WriteUtf8(tx, at, s.value); }
  }

  // ---------------------------------------------------------------------------
  // A reference parser

  datatype ParsedOptions = ParsedOptions(clientId: Bytes, keepAlive: nat, cleanSession: bool, will: Option<ParsedWill>,
                           username: Option<Bytes>, password: Option<Bytes>)

  datatype ParsedWill = ParsedWill(topic: Bytes, message: Bytes, qos: nat, retained: bool)

  /** A string that is present when the flag says so, and what follows. */
  function TakeOption(present: bool, bs: Bytes): Option<(Option<Bytes>, Bytes)> {
    if !present then Some((None, bs))
    else
      match TakeString(bs)
      case None => None
      case Some((s, rest)) => Some((Some(s), rest))
  }

  /** Section 3.1.2.3: the reserved bit is 0; without a will its QoS and retain bits are 0; the
      will QoS is not 3; a password needs a user name. */
  predicate FlagsValid(f: Byte) {
    && f % 2 == 0
    && (f / 4 % 2 == 0 ==> f / 8 % 4 == 0 && f / 32 % 2 == 0)
    && f / 8 % 4 != 3
    && (f / 128 == 0 ==> f / 64 % 2 == 0)
  }

  /** Section 3.1.3: client id, will topic, will message, user name, password, and nothing after;
      an empty client id needs a clean session. */
  function ParsePayload(f: Byte, keepAlive: nat, bs: Bytes): Option<ParsedOptions> {
    match TakeString(bs)
    case None => None
    case Some((id, a)) =>
      match TakeOption(f / 4 % 2 == 1, a)
      case None => None
      case Some((topic, b)) =>
        match TakeOption(f / 4 % 2 == 1, b)
        case None => None
        case Some((message, c)) =>
          match TakeOption(f / 128 == 1, c)
          case None => None
          case Some((user, d)) =>
            match TakeOption(f / 64 % 2 == 1, d)
            case None => None
            case Some((password, e)) =>
              if e != [] || (id == [] && f / 2 % 2 == 0) then None
              else
                var will := if topic.Some? && message.Some?
                            then Some(ParsedWill(topic.value, message.value, f / 8 % 4, f / 32 % 2 == 1)) else None;
                Some(ParsedOptions(id, keepAlive, f / 2 % 2 == 1, will, user, password))
  }

  function Parse(bs: Bytes): Option<ParsedOptions> {
    if bs == [] || bs[0] != 0x10 then None
    else
      match DecodeLen(bs[1..], 4)
      case Length(v, u) =>
        var body := bs[1 + u..];
        if |body| != v then None else ParseBody(body)
      case _ => None
  }

  /** Section 3.1.2: protocol name and level, flags and keep-alive, then the payload. */
  function ParseBody(body: Bytes): Option<ParsedOptions> {
    if |body| < 10 || body[..7] != [0, 4, 77, 81, 84, 84, 4] || !FlagsValid(body[7]) then None
    else ParsePayload(body[7], ReadUint16(body[8], body[9]), body[10..])
  }

  /** What the protocol asks of the options, beyond what the serializer checks. */
  predicate Conforms(o: Options) {
    && (o.password.Some? ==> o.username.Some?)
    && (o.clientId.None? || o.clientId.value == [] ==> o.cleanSession)
  }

  function Wanted(o: Options): ParsedOptions {
    ParsedOptions(if o.clientId.Some? then o.clientId.value else [], o.keepAlive, o.cleanSession,
           if o.will.Some? then
             Some(ParsedWill(o.will.value.topic, o.will.value.message, QosCode(o.will.value.qos),
                             o.will.value.retained))
           else None,
           o.username, o.password)
  }

  lemma FlagsRoundTrip(o: Options)
    ensures var f := Flags(o);
      && (FlagsValid(f) <==> (o.password.Some? ==> o.username.Some?))
      && (f / 2 % 2 == 1 <==> o.cleanSession) && (f / 4 % 2 == 1 <==> o.will.Some?)
      && (f / 128 == 1 <==> o.username.Some?) && (f / 64 % 2 == 1 <==> o.password.Some?)
      && (o.will.Some? ==> f / 8 % 4 == QosCode(o.will.value.qos) && (f / 32 % 2 == 1 <==> o.will.value.retained))
  {
    var qos := if o.will.Some? then QosCode(o.will.value.qos) else 0;
    var retained := if o.will.Some? && o.will.value.retained then 1 else 0;
    FlagBits(if o.cleanSession then 1 else 0, if o.will.Some? then 1 else 0, qos, retained,
             if o.password.Some? then 1 else 0, if o.username.Some? then 1 else 0);
  }

  lemma FlagBits(clean: nat, will: nat, qos: nat, retained: nat, password: nat, user: nat)
    requires clean <= 1 && will <= 1 && qos <= 1 && retained <= 1 && password <= 1 && user <= 1
    ensures var f := 2 * clean + 4 * will + 8 * qos + 32 * retained + 64 * password + 128 * user;
      && f % 2 == 0 && f / 2 % 2 == clean && f / 4 % 2 == will && f / 8 % 4 == qos && f / 32 % 2 == retained
      && f / 64 % 2 == password && f / 128 == user
  {
    var f := 2 * clean + 4 * will + 8 * qos + 32 * retained + 64 * password + 128 * user;
    assert f / 2 == clean + 2 * (will + 2 * qos + 8 * retained + 16 * password + 32 * user);
    assert f / 4 == will + 2 * (qos + 4 * retained + 8 * password + 16 * user);
    assert f / 8 == qos + 4 * (retained + 2 * password + 4 * user);
    assert f / 32 == retained + 2 * (password + 2 * user);
    assert f / 64 == password + 2 * user;
  }

  lemma TakeOptionOf(s: Option<Bytes>, rest: Bytes)
    requires Short(s)
    ensures TakeOption(s.Some?, OptionBytes(s) + rest) == Some((s, rest))
  {
    if s.Some? { TakeUtf8(s.value, rest); } else { assert [] + rest == rest; }
  }

  lemma ParsePayloadOf(o: Options)
    requires o.Wf()
    ensures ParsePayload(Flags(o), o.keepAlive, Payload(o)) ==
      if o.clientId.None? || o.clientId.value == [] ==> o.cleanSession then Some(Wanted(o)) else None
  {
    FlagsRoundTrip(o);
    hide Flags, Utf8, TakeString;
    var d := OptionBytes(o.password);
    var c := OptionBytes(o.username) + d;
    var a := WillBytes(o.will) + c;
    TakeUtf8(if o.clientId.Some? then o.clientId.value else [], a);
    assert o.clientId.None? ==> ClientIdBytes(o.clientId) == Utf8([]) by { EmptyUtf8(); }
    var topic := if o.will.Some? then Some(o.will.value.topic) else None;
    var message := if o.will.Some? then Some(o.will.value.message) else None;
    assert a == OptionBytes(topic) + (OptionBytes(message) + c);
    TakeOptionOf(topic, OptionBytes(message) + c);
    TakeOptionOf(message, c);
    TakeOptionOf(o.username, d);
    assert d == d + [];
    TakeOptionOf(o.password, []);
  }

  lemma EmptyUtf8()
    ensures Uint16(0) == Utf8([])
  {
  }

  /** A written CONNECT packet parses back, by the protocol's rules, to the options it was made
      from, if and only if they conform; otherwise the packet is malformed. */
  lemma ParseEncode(o: Options)
    requires o.Wf()
    ensures Parse(Encode(o)) == if Conforms(o) then Some(Wanted(o)) else None
  {
    hide EncodeLen, DecodeLen, ParseBody, Payload, VariableHeader, Wanted, Conforms, Options.Wf;
    PayloadLength(o);
    assert Header(CONNECT, QOS0, false, false) == 0x10;
    SplitPacket(0x10, Remaining(o), VariableHeader(o) + Payload(o));
    ParseBodyOf(o);
  }

  /** A password without a user name is written, and makes the packet malformed. */
  lemma WritesLonePassword()
    ensures var o := Options(4, Some([97]), 60, true, None, None, Some([98]));
      o.Wf() && Parse(Encode(o)) == None
  {
    ParseEncode(Options(4, Some([97]), 60, true, None, None, Some([98])));
    hide Encode;
  }

  lemma ParseBodyOf(o: Options)
    requires o.Wf()
    ensures ParseBody(VariableHeader(o) + Payload(o)) == if Conforms(o) then Some(Wanted(o)) else None
  {
    FlagsRoundTrip(o);
    ParsePayloadOf(o);
    hide ParsePayload, Payload, Flags, FlagsValid, VariableHeader, Wanted, ReadUint16, Options.Wf;
    var body := VariableHeader(o) + Payload(o);
    assert body[10..] == Payload(o);
    VariableHeaderIs(o, body);
  }

  lemma VariableHeaderIs(o: Options, body: Bytes)
    requires o.Wf() && |body| >= 10 && body[..10] == VariableHeader(o)
    ensures body[..7] == [0, 4, 77, 81, 84, 84, 4] && body[7] == Flags(o) && ReadUint16(body[8], body[9]) == o.keepAlive
  {
    var h := VariableHeader(o);
    assert forall k :: 0 <= k < 10 ==> body[k] == h[k];
    Uint16RoundTrip(o.keepAlive);
    assert Utf8(PROTOCOL_NAME) == [0, 4, 77, 81, 84, 84];
  }

  // ---------------------------------------------------------------------------
  // CONNACK

  datatype Connack = Answer(sessionPresent: bool, code: nat) | ConnackErr(rc: Rc)

  /** deserialize_connack.  The session flag is taken from the top bit of its byte, where the
      bit-field layout of the code puts it; section 3.2.2.1 has it in the lowest bit.  A code
      above 5 is reported as unknown, written 6 here. */
  function DecodeConnack(bs: Bytes): Connack
    requires HoldsPacket(bs)
  {
    if bs[0] / 16 != TypeCode(CONNACK) then ConnackErr(FAILURE)
    else
      match DecodeLen(bs[1..], 4)
      case TooLong => ConnackErr(MQTT_DECODE_REMAINING_LENGTH_ERROR)
      case Length(v, u) =>
        if v != 2 then ConnackErr(MQTT_DECODE_REMAINING_LENGTH_ERROR)
        else Answer(bs[1 + u] / 128 == 1, if bs[2 + u] <= 5 then bs[2 + u] else 6)
  }

  method DeserializeConnack(rx: array<Byte>, rxLen: nat) returns (r: Connack)
    requires rxLen <= rx.Length && (4 <= rxLen ==> HoldsPacket(rx[..]))
    ensures r == if rxLen < 4 then ConnackErr(MQTT_RX_BUFFER_TOO_SHORT_ERROR) else DecodeConnack(rx[..])
  {
    hide DecodeLen;
    if 4 > rxLen { return ConnackErr(MQTT_RX_BUFFER_TOO_SHORT_ERROR); }
    if rx[0] / 16 != TypeCode(CONNACK) { return ConnackErr(FAILURE); }
    assert rx[..][1..] == rx[1..];
    var d := ReadLen(rx, 1);
    if d.TooLong? || d.value != 2 { return ConnackErr(MQTT_DECODE_REMAINING_LENGTH_ERROR); }
    var cur := 1 + d.used;
    r := Answer(rx[cur] / 128 == 1, if rx[cur + 1] <= 5 then rx[cur + 1] else 6);
  }

  /** What is read from every CONNACK packet of two bytes: the top bit, and the code, or 6 beyond 5. */
  lemma ConnackReads(flags: Byte, code: Byte, tail: Bytes)
    ensures var bs := [0x20, 2, flags, code] + tail;
      HoldsPacket(bs) && DecodeConnack(bs) == Answer(flags >= 128, if code > 5 then 6 else code)
  {
    var bs: Bytes := [0x20, 2, flags, code] + tail;
    assert bs[1..][0] == 2;
    assert DecodeLen(bs[1..], 4) == Length(2, 1);
  }

  /** Of the CONNACK packets the protocol allows (section 3.2), the return code is read back
      always, the session flag exactly when it is not set. */
  lemma ConnackRoundTrip(session: bool, code: nat, tail: Bytes)
    requires code <= 5
    ensures var bs := [0x20, 2, if session then 1 else 0, code] + tail;
      && HoldsPacket(bs)
      && DecodeConnack(bs).Answer? && DecodeConnack(bs).code == code
      && (DecodeConnack(bs).sessionPresent == session <==> !session)
  {
    var bs: Bytes := [0x20, 2, if session then 1 else 0, code] + tail;
    assert bs[1..][0] == 2;
    assert DecodeLen(bs[1..], 4) == Length(2, 1);
  }
}
