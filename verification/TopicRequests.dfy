/** SUBSCRIBE and UNSUBSCRIBE packets, which differ in the requested QoS after each filter, and
    the SUBACK reader (sections 3.8 to 3.10 of MQTT 3.1.1). */
module TopicRequests {
  import opened Publish
  import opened ReturnCodes
  import opened Wire
  import opened Wrappers

  datatype Kind = Subscribe | Unsubscribe

  datatype Topic = Topic(filter: Bytes, qos: QoS)

  datatype Request = Request(kind: Kind, dup: bool, id: nat, topics: seq<Topic>) {
    predicate Wf() {
      id < 65536 && forall k :: 0 <= k < |topics| ==> |topics[k].filter| < 65536
    }

    function Remaining(): nat {
      2 + ItemsLength(kind, topics)
    }

    /** The remaining length as the code has it, in 32 bits. */
    function Remaining32(): nat {
      Remaining() % 0x1_0000_0000
    }
  }

  function ItemLength(kind: Kind, t: Topic): nat {
    |t.filter| + 2 + if kind == Subscribe then 1 else 0
  }

  function ItemsLength(kind: Kind, ts: seq<Topic>): nat
    decreases |ts|
  {
    if ts == [] then 0 else ItemsLength(kind, ts[..|ts| - 1]) + ItemLength(kind, ts[|ts| - 1])
  }

  function Item(kind: Kind, t: Topic): (bs: Bytes)
    requires |t.filter| < 65536
    ensures |bs| == ItemLength(kind, t)
  {
    if kind == Subscribe then Utf8(t.filter) + [QosCode(t.qos)] else Utf8(t.filter)
  }

  function Items(kind: Kind, ts: seq<Topic>): (bs: Bytes)
    requires forall k :: 0 <= k < |ts| ==> |ts[k].filter| < 65536
    ensures |bs| == ItemsLength(kind, ts)
    decreases |ts|
  {
    if ts == [] then [] else Items(kind, ts[..|ts| - 1]) + Item(kind, ts[|ts| - 1])
  }

  function TypeOf(kind: Kind): PacketType {
    if kind == Subscribe then SUBSCRIBE else UNSUBSCRIBE
  }

  function Encode(r: Request): (bs: Bytes)
    requires r.Wf()
    ensures |bs| == 1 + |EncodeLen(r.Remaining32())| + r.Remaining()
  {
    [Header(TypeOf(r.kind), QOS1, r.dup, false)] + EncodeLen(r.Remaining32())
    + (Uint16(r.id) + Items(r.kind, r.topics))
  }

  lemma {:induction false} ItemsLengthMonotone(kind: Kind, ts: seq<Topic>, k: nat)
    requires k <= |ts|
    ensures ItemsLength(kind, ts[..k]) <= ItemsLength(kind, ts)
    decreases |ts|
  {
    if k < |ts| {
      assert ts[..k] == ts[..|ts| - 1][..k];
      ItemsLengthMonotone(kind, ts[..|ts| - 1], k);
    } else {
      assert ts[..k] == ts;
    }
  }

  /** The check made before writing is enough, for every buffer, exactly for requests within the
      length limit of the protocol. */
  lemma CheckSuffices(r: Request)
    requires r.Wf()
    ensures FinalLength(r.Remaining32()) >= |Encode(r)| <==> r.Remaining() <= MAX_REMAINING
  {
    FinalLengthCovers(r.Remaining32());
    if r.Remaining() >= 0x1_0000_0000 {
      assert FinalLength(r.Remaining32()) < 0x1_0000_0000;
    } else {
      hide FinalLength, EncodeLen;
      assert r.Remaining32() == r.Remaining();
    }
  }

  /** serialize_subscribe and serialize_unsubscribe.  The array goes on behind the buffer of
      `txLen` bytes, for requests the check does not hold back. */
  method Serialize(tx: array<Byte>, txLen: nat, r: Request) returns (rc: Rc, len: nat)
    requires r.Wf() && txLen <= tx.Length && (FinalLength(r.Remaining32()) <= txLen ==> |Encode(r)| <= tx.Length)
    modifies tx
    ensures FinalLength(r.Remaining32()) > txLen ==> rc == MQTT_TX_BUFFER_TOO_SHORT_ERROR && tx[..] == old(tx[..])
    ensures FinalLength(r.Remaining32()) <= txLen ==>
      && rc == SUCCESS && len == |Encode(r)| % 0x1_0000_0000
      && tx[..|Encode(r)|] == Encode(r) && (forall k :: |Encode(r)| <= k < tx.Length ==> tx[k] == old(tx[k]))
    ensures rc == SUCCESS && r.Remaining() <= MAX_REMAINING ==> len == |Encode(r)| <= txLen
  {
    hide FinalLength, Encode;
    var remLen := RemainingLength(r);
    if FinalLength(remLen) > txLen { return MQTT_TX_BUFFER_TOO_SHORT_ERROR, 0; }
    CheckSuffices(r);
    var ptr := Write(tx, r, remLen);
    if r.Remaining() <= MAX_REMAINING { SmallLength(r); }
    rc, len := SUCCESS, ptr % 0x1_0000_0000;
  }

  /** The loop that adds up the remaining length, in 32 bits. */
  method RemainingLength(r: Request) returns (remLen: nat)
    ensures remLen == r.Remaining32()
  {
    hide ItemsLength;
    remLen := 2;
    assert r.topics[..0] == [] && ItemsLength(r.kind, []) == 0 by { ItemsOfNone(r.kind, []); }
    for i := 0 to |r.topics|
      invariant remLen == (2 + ItemsLength(r.kind, r.topics[..i])) % 0x1_0000_0000
    {
      LengthGrows(r.kind, r.topics, i);
      AddMod(2 + ItemsLength(r.kind, r.topics[..i]), ItemLength(r.kind, r.topics[i]));
      remLen := (remLen + |r.topics[i].filter| + 2 + if r.kind == Subscribe then 1 else 0) % 0x1_0000_0000;
    }
    assert r.topics[..|r.topics|] == r.topics;
  }

  lemma LengthGrows(kind: Kind, ts: seq<Topic>, i: nat)
    requires i < |ts|
    ensures ItemsLength(kind, ts[..i + 1]) == ItemsLength(kind, ts[..i]) + ItemLength(kind, ts[i])
  {
    assert ts[..i + 1][..i] == ts[..i];
  }

  lemma AddMod(a: nat, b: nat)
    ensures (a % 0x1_0000_0000 + b) % 0x1_0000_0000 == (a + b) % 0x1_0000_0000
  {
  }

  lemma SmallLength(r: Request)
    requires r.Wf() && r.Remaining() <= MAX_REMAINING
    ensures |Encode(r)| < 0x1_0000_0000 && r.Remaining32() == r.Remaining()
  {
    EncodeSize(r.Remaining(), 4);
    Pow128Of4();
  }

  /** The writing part, once the packet is known to fit. */
  method Write(tx: array<Byte>, r: Request, remLen: nat) returns (ptr: nat)
    requires r.Wf() && remLen == r.Remaining32() && |Encode(r)| <= tx.Length
    modifies tx
    ensures ptr == |Encode(r)| <= tx.Length && tx[..ptr] == Encode(r)
    ensures forall k :: ptr <= k < tx.Length ==> tx[k] == old(tx[k])
  {
    hide EncodeLen, Header, Uint16, Utf8, Item, Items, ItemLength, ItemsLength;
    ghost var head := [Header(TypeOf(r.kind), QOS1, r.dup, false)] + EncodeLen(remLen);
    ptr := WriteChar(tx, 0, Header(TypeOf(r.kind), QOS1, r.dup, false));
    var n := WriteLen(tx, ptr, remLen);
    ptr := ptr + n;
    ptr := WriteUint16(tx, ptr, r.id);
    ghost var start := head;
    head := head + Uint16(r.id);
    ItemsOfNone(r.kind, r.topics[..0]);
    assert tx[..ptr] == head + Items(r.kind, r.topics[..0]);
    for i := 0 to |r.topics|
      invariant ptr == |head| + ItemsLength(r.kind, r.topics[..i]) <= tx.Length
      invariant tx[..ptr] == head + Items(r.kind, r.topics[..i])
      invariant forall k :: |Encode(r)| <= k < tx.Length ==> tx[k] == old(tx[k])
    {
      ItemsGrow(r.kind, r.topics, i, head);
      ptr := WriteItem(tx, ptr, r.kind, r.topics[i]);
    }
    assert r.topics[..|r.topics|] == r.topics;
    Associate(start, Uint16(r.id), Items(r.kind, r.topics));
  }

  lemma ItemsOfNone(kind: Kind, ts: seq<Topic>)
    requires ts == []
    ensures Items(kind, ts) == [] && ItemsLength(kind, ts) == 0
  {
  }

  lemma ItemsGrow(kind: Kind, ts: seq<Topic>, i: nat, head: Bytes)
    requires i < |ts| && forall k :: 0 <= k < |ts| ==> |ts[k].filter| < 65536
    ensures head + Items(kind, ts[..i]) + Item(kind, ts[i]) == head + Items(kind, ts[..i + 1])
    ensures ItemsLength(kind, ts[..i + 1]) == ItemsLength(kind, ts[..i]) + ItemLength(kind, ts[i])
    ensures ItemsLength(kind, ts[..i + 1]) <= ItemsLength(kind, ts)
  {
    hide Item, ItemLength;
    ItemsLengthMonotone(kind, ts, i + 1);
    var front := ts[..i + 1];
    assert front[..|front| - 1] == ts[..i] && front[|front| - 1] == ts[i];
    assert Items(kind, front) == Items(kind, ts[..i]) + Item(kind, ts[i]);
    assert ItemsLength(kind, front) == ItemsLength(kind, ts[..i]) + ItemLength(kind, ts[i]);
    hide Items, ItemsLength;
    Associate(head, Items(kind, ts[..i]), Item(kind, ts[i]));
  }

  /** One filter, and for SUBSCRIBE its requested QoS. */
  method WriteItem(tx: array<Byte>, at: nat, kind: Kind, t: Topic) returns (ptr: nat)
    requires |t.filter| < 65536 && at + ItemLength(kind, t) <= tx.Length
    modifies tx
    ensures ptr == at + ItemLength(kind, t)
    ensures tx[..ptr] == old(tx[..at]) + Item(kind, t)
    ensures forall k :: ptr <= k < tx.Length ==> tx[k] == old(tx[k])
  {
    hide Utf8;
    ptr := WriteUtf8(tx, at, t.filter);
    if kind == Subscribe { ptr := WriteChar(tx, ptr, QosCode(t.qos)); }
  }

  // ---------------------------------------------------------------------------
  // A reference parser

  /** A length-prefixed string at the head of bs, and what follows it. */
  function TakeString(bs: Bytes): Option<(Bytes, Bytes)> {
    if |bs| < 2 then None
    else
      var n := ReadUint16(bs[0], bs[1]);
      if |bs| < 2 + n then None else Some((bs[2..2 + n], bs[2 + n..]))
  }

  lemma TakeUtf8(s: Bytes, rest: Bytes)
    requires |s| < 65536
    ensures TakeString(Utf8(s) + rest) == Some((s, rest))
  {
    Uint16RoundTrip(|s|);
    var bs := Utf8(s) + rest;
    assert bs[0] == Uint16(|s|)[0] && bs[1] == Uint16(|s|)[1];
    hide Uint16, ReadUint16;
    assert bs[2..2 + |s|] == s && bs[2 + |s|..] == rest;
  }

  /** Section 3.8.3 and 3.10.3: filters of at least one character (section 4.7.3), each followed
      for SUBSCRIBE by a byte that holds a QoS of 0, 1 or 2. */
  function ParseItems(kind: Kind, bs: Bytes): Option<seq<(Bytes, nat)>>
    decreases |bs|
  {
    if bs == [] then Some([])
    else
      match TakeString(bs)
      case None => None
      case Some((s, rest)) =>
        if s == [] || (kind == Subscribe && (rest == [] || rest[0] > 2)) then None
        else
          var qos := if kind == Subscribe then rest[0] else 0;
          match ParseItems(kind, if kind == Subscribe then rest[1..] else rest)
          case None => None
          case Some(more) => Some([(s, qos)] + more)
  }

  datatype Parsed = Parsed(id: nat, items: seq<(Bytes, nat)>)

  /** A whole packet: the fixed header with its reserved bits, the exact remaining length, a
      packet id that is not 0 (section 2.3.1), and at least one filter. */
  function Parse(kind: Kind, bs: Bytes): Option<Parsed> {
    if bs == [] || bs[0] != (if kind == Subscribe then 0x82 else 0xA2) then None
    else
      match DecodeLen(bs[1..], 4)
      case Length(v, u) =>
        var body := bs[1 + u..];
        if |body| != v || v < 2 || ReadUint16(body[0], body[1]) == 0 then None
        else (
          match ParseItems(kind, body[2..])
          case None => None
          case Some(items) => if items == [] then None else Some(Parsed(ReadUint16(body[0], body[1]), items)))
      case _ => None
  }

  predicate NoEmptyFilter(ts: seq<Topic>) {
    forall k :: 0 <= k < |ts| ==> ts[k].filter != []
  }

  lemma NoEmptySplit(ts: seq<Topic>)
    requires ts != []
    ensures NoEmptyFilter(ts) <==> ts[0].filter != [] && NoEmptyFilter(ts[1..])
  {
    forall k | 1 <= k < |ts|
      ensures ts[k] == ts[1..][k - 1]
    {
    }
  }

  /** What the protocol asks of a request. */
  predicate Conforms(r: Request) {
    !r.dup && r.id != 0 && r.topics != [] && NoEmptyFilter(r.topics) && r.Remaining() <= MAX_REMAINING
  }

  /** A filter and the QoS requested for it, 0 for UNSUBSCRIBE. */
  function WantedItem(kind: Kind, t: Topic): (Bytes, nat) {
    (t.filter, if kind == Subscribe then QosCode(t.qos) else 0)
  }

  function Wanted(kind: Kind, ts: seq<Topic>): seq<(Bytes, nat)>
    decreases |ts|
  {
    if ts == [] then []
    else [WantedItem(kind, ts[0])] + Wanted(kind, ts[1..])
  }

  lemma {:induction false} ItemsPrepend(kind: Kind, t: Topic, ts: seq<Topic>)
    requires |t.filter| < 65536 && forall k :: 0 <= k < |ts| ==> |ts[k].filter| < 65536
    ensures forall k :: 0 <= k < |[t] + ts| ==> |([t] + ts)[k].filter| < 65536
    ensures Items(kind, [t] + ts) == Item(kind, t) + Items(kind, ts)
    decreases |ts|
  {
    hide Item, ItemsLength, ItemLength;
    var all := [t] + ts;
    if ts == [] {
      assert all[..0] == [];
    } else {
      var n := |ts| - 1;
      assert all[..n + 1] == [t] + ts[..n] && all[n + 1] == ts[n];
      ItemsPrepend(kind, t, ts[..n]);
      assert Items(kind, all) == Items(kind, [t] + ts[..n]) + Item(kind, ts[n]);
      assert Items(kind, ts) == Items(kind, ts[..n]) + Item(kind, ts[n]);
      hide Items;
      Associate(Item(kind, t), Items(kind, ts[..n]), Item(kind, ts[n]));
    }
  }

  lemma {:induction false} ParseItemsOf(kind: Kind, ts: seq<Topic>)
    requires forall k :: 0 <= k < |ts| ==> |ts[k].filter| < 65536
    ensures ParseItems(kind, Items(kind, ts)) ==
      if NoEmptyFilter(ts) then Some(Wanted(kind, ts)) else None
    decreases |ts|
  {
    if ts != [] {
      assert ts == [ts[0]] + ts[1..];
      ItemsPrepend(kind, ts[0], ts[1..]);
      ParseItemsOf(kind, ts[1..]);
      hide ParseItems, Items, Item, NoEmptyFilter;
      NoEmptySplit(ts);
      ParseOne(kind, ts[0], Items(kind, ts[1..]));
    }
  }

  lemma ParseOne(kind: Kind, t: Topic, rest: Bytes)
    requires |t.filter| < 65536
    ensures ParseItems(kind, Item(kind, t) + rest) ==
      if t.filter == [] || ParseItems(kind, rest).None? then None
      else Some([WantedItem(kind, t)] + ParseItems(kind, rest).value)
  {
    hide Utf8, TakeString;
    var bs := Item(kind, t) + rest;
    if kind == Subscribe {
      var q: Bytes := [QosCode(t.qos)];
      assert bs == Utf8(t.filter) + (q + rest);
      TakeUtf8(t.filter, q + rest);
      assert (q + rest)[1..] == rest;
    } else {
      TakeUtf8(t.filter, rest);
    }
  }

  /** A written request parses back, by the protocol's own rules, to what was asked for, if and
      only if it conforms to them; otherwise the packet is malformed. */
  lemma ParseEncode(r: Request)
    requires r.Wf()
    ensures Parse(r.kind, Encode(r)) ==
      if Conforms(r) then Some(Parsed(r.id, Wanted(r.kind, r.topics))) else None
  {
    hide EncodeLen, DecodeLen, Header, ParseItems, Items, ItemsLength, Wanted, Uint16, ReadUint16;
    var body := Uint16(r.id) + Items(r.kind, r.topics);
    HeaderIs(r.kind, r.dup);
    SplitPacket(Header(TypeOf(r.kind), QOS1, r.dup, false), r.Remaining32(), body);
    assert body[2..] == Items(r.kind, r.topics) && body[0] == Uint16(r.id)[0] && body[1] == Uint16(r.id)[1];
    Uint16RoundTrip(r.id);
    ParseItemsOf(r.kind, r.topics);
    WantedLength(r.kind, r.topics);
  }

  /** An empty filter is written, and makes the packet malformed. */
  lemma WritesEmptyFilter()
    ensures var r := Request(Subscribe, false, 1, [Topic([], QOS0)]);
      r.Wf() && r.Remaining() == 5 && Parse(Subscribe, Encode(r)) == None
  {
    var r := Request(Subscribe, false, 1, [Topic([], QOS0)]);
    ParseEncode(r);
    assert r.topics[0].filter == [];
    hide Encode;
    assert r.topics[..0] == [];
  }

  lemma HeaderIs(kind: Kind, dup: bool)
    ensures Header(TypeOf(kind), QOS1, dup, false) == (if kind == Subscribe then 0x82 else 0xA2) + if dup then 8 else 0
  {
  }

  lemma {:induction false} WantedLength(kind: Kind, ts: seq<Topic>)
    ensures |Wanted(kind, ts)| == |ts|
    decreases |ts|
  {
    if ts != [] { WantedLength(kind, ts[1..]); }
  }

  // ---------------------------------------------------------------------------
  // SUBACK

  datatype Suback = Granted(id: nat, codes: Bytes) | SubackErr(rc: Rc)

  /** deserialize_suback with room for `max` expected codes. */
  function DecodeSuback(bs: Bytes, max: nat): Suback
    requires HoldsPacket(bs)
  {
    if bs[0] / 16 != TypeCode(SUBACK) then SubackErr(FAILURE)
    else
      match DecodeLen(bs[1..], 4)
      case TooLong => SubackErr(MQTT_DECODE_REMAINING_LENGTH_ERROR)
      case Length(v, u) =>
        if v < 2 then SubackErr(FAILURE)
        // The count is compared before it is incremented, so one code more than expected passes.
        else if v - 2 > max + 1 then SubackErr(FAILURE)
        else Granted(ReadUint16(bs[1 + u], bs[2 + u]), bs[3 + u..1 + u + v])
  }

  method DeserializeSuback(rx: array<Byte>, rxLen: nat, max: nat, granted: array<Byte>)
    returns (rc: Rc, id: nat, count: nat)
    requires rxLen <= rx.Length && (5 <= rxLen ==> HoldsPacket(rx[..])) && max + 1 <= granted.Length && granted != rx
    modifies granted
    ensures rxLen < 5 ==> rc == MQTT_RX_BUFFER_TOO_SHORT_ERROR
    ensures rxLen >= 5 ==>
      match DecodeSuback(rx[..], max)
      case SubackErr(e) => rc == e
      case Granted(i, codes) =>
        rc == SUCCESS && id == i && count == |codes| <= granted.Length && granted[..count] == codes
  {
    hide DecodeLen;
    id, count := 0, 0;
    if 5 > rxLen { return MQTT_RX_BUFFER_TOO_SHORT_ERROR, 0, 0; }
    if rx[0] / 16 != TypeCode(SUBACK) { return FAILURE, 0, 0; }
    assert rx[..][1..] == rx[1..];
    var d := ReadLen(rx, 1);
    if d.TooLong? { return MQTT_DECODE_REMAINING_LENGTH_ERROR, 0, 0; }
    var cur := 1 + d.used;
    var end := cur + d.value;
    if end - cur < 2 { return FAILURE, 0, 0; }
    id := ReadUint16(rx[cur], rx[cur + 1]);
    cur := cur + 2;
    ghost var first := cur;
    while cur < end
      invariant first <= cur <= end && count == cur - first <= max + 1
      invariant granted[..count] == rx[first..cur]
    {
      if count > max { return FAILURE, id, count; }
      granted[count] := rx[cur];
      count := count + 1;
      cur := cur + 1;
      assert rx[first..cur] == rx[first..cur - 1] + [rx[cur - 1]];
    }
    rc := SUCCESS;
  }

  /** A SUBACK packet with up to one code more than expected reads back. */
  lemma SubackReads(id: nat, codes: Bytes, tail: Bytes, max: nat)
    requires id < 65536 && |codes| <= max + 1 && |codes| + 2 <= MAX_REMAINING
    ensures var bs: Bytes := [0x90] + EncodeLen(2 + |codes|) + (Uint16(id) + codes + tail);
      HoldsPacket(bs) && DecodeSuback(bs, max) == Granted(id, codes)
  {
    hide EncodeLen, DecodeLen, Uint16, ReadUint16, HoldsPacket, DecodeSuback;
    var n, body := 2 + |codes|, Uint16(id) + codes + tail;
    var bs: Bytes := [0x90] + EncodeLen(n) + body;
    SplitPacket(0x90, n, body);
    SubackBody(bs, 1 + |EncodeLen(n)|, id, codes, tail);
    SubackUnfolds(bs, n, |EncodeLen(n)|, max);
  }

  lemma SubackUnfolds(bs: Bytes, v: nat, u: nat, max: nat)
    requires bs != [] && bs[0] == 0x90 && DecodeLen(bs[1..], 4) == Length(v, u)
    requires 2 <= v <= max + 3 && 1 + u + v <= |bs|
    ensures HoldsPacket(bs)
    ensures DecodeSuback(bs, max) == Granted(ReadUint16(bs[1 + u], bs[2 + u]), bs[3 + u..1 + u + v])
  {
    hide DecodeLen, ReadUint16;
  }

  /** Id and codes at index `cur` of the bytes. */
  lemma SubackBody(bs: Bytes, cur: nat, id: nat, codes: Bytes, tail: Bytes)
    requires id < 65536 && cur <= |bs| && bs[cur..] == Uint16(id) + codes + tail
    ensures cur + 2 + |codes| <= |bs| && ReadUint16(bs[cur], bs[cur + 1]) == id
    ensures bs[cur + 2..cur + 2 + |codes|] == codes
  {
    Uint16RoundTrip(id);
    hide Uint16, ReadUint16;
    var rest := bs[cur..];
    assert bs[cur] == rest[0] == Uint16(id)[0] && bs[cur + 1] == rest[1] == Uint16(id)[1];
    assert rest[2..2 + |codes|] == codes;
    SliceOfSuffix(bs, cur, 2, 2 + |codes|);
  }

  /** For the single-topic requests the client makes: an acknowledgement is accepted exactly when
      it carries at most two codes. */
  lemma SubackCodes(bs: Bytes)
    requires HoldsPacket(bs) && bs[0] / 16 == TypeCode(SUBACK) && DecodeLen(bs[1..], 4).Length?
    ensures DecodeSuback(bs, 1).Granted? <==> 2 <= DecodeLen(bs[1..], 4).value <= 4
  {
  }
}
