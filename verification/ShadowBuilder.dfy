/** The functions that write a shadow document into a character buffer, and the one that
    parses a received document in place over the static token array. */
module ShadowBuilder {
  import opened JsonTokens
  import opened Jsmn
  import opened JsmnStack
  import opened ShadowJson
  import opened SizeT
  import opened Wrappers

  datatype Status = SUCCESS | SHADOW_JSON_ERROR | SHADOW_JSON_BUFFER_TRUNCATED

  predicate NoNul(s: string) {
    forall k :: 0 <= k < |s| ==> s[k] != '\0'
  }

  /** The buffer holds the C string `text`. */
  ghost predicate Holds(buf: array<char>, text: string)
    reads buf
  {
    |text| < buf.Length && buf[..|text|] == text && buf[|text|] == '\0' && NoNul(text)
  }

  method StrLen(buf: array<char>, ghost text: string) returns (n: nat)
    requires Holds(buf, text)
    ensures n == |text|
  {
    assert forall k :: 0 <= k < |text| ==> buf[k] == buf[..|text|][k] == text[k];
    n := 0;
    while buf[n] != '\0'
      invariant n <= |text|
      decreases |text| - n
    {
      n := n + 1;
    }
  }

  /** snprintf(buf + at, size, "%s", text): at most size-1 characters and a NUL are stored; the
      length the text would need is returned. */
  method Snprintf(buf: array<char>, at: nat, size: nat, text: string) returns (n: nat)
    requires size > 0 ==> at + size <= buf.Length || at + |text| < buf.Length
    modifies buf
    ensures n == |text|
    ensures size == 0 ==> buf[..] == old(buf[..])
    ensures size > 0 ==> var k := if |text| < size then |text| else size - 1;
      && buf[..at] == old(buf[..at]) && buf[at..at + k] == text[..k] && buf[at + k] == '\0'
      && buf[at + k + 1..] == old(buf[at + k + 1..])
  {
    if size > 0 {
      var k := if |text| < size then |text| else size - 1;
      for i := 0 to k
        invariant buf[..at] == old(buf[..at]) && buf[at..at + i] == text[..i]
        invariant buf[at + i..] == old(buf[at + i..])
      {
        buf[at + i] := text[i];
        assert buf[at..at + i + 1] == buf[at..at + i] + [text[i]];
      }
      assert buf[at + k + 1..] == buf[at + k..][1..];
      buf[at + k] := '\0';
    }
    n := |text|;
  }

  /** checkReturnValueOfSnPrintf; the modelled snprintf has no encoding errors. */
  function CheckPrinted(printed: nat, size: nat): Status {
    if printed >= size then SHADOW_JSON_BUFFER_TRUNCATED else SUCCESS
  }

  /** The room left in a document of size `max`, as a size_t: beyond the end it wraps around. */
  function Room(max: nat, length: nat): nat {
    (max - length) % SIZE_MOD
  }

  function Fitting(piece: string, size: nat): string
    requires size > 0
  {
    if |piece| < size then piece else piece[..size - 1]
  }

  /** Outcome of a step of the builder: its status, the text it leaves, and the room it used. */
  datatype Built = Built(status: Status, text: string, room: nat)

  /** Printing a piece at index `at` of the text. */
  function Printed(text: string, at: nat, size: nat, piece: string): Built
    requires at <= |text| && size > 0
  {
    Built(CheckPrinted(|piece|, size), text[..at] + Fitting(piece, size), size)
  }

  /** Replaces what follows index `at` of the held string by `piece`, cut to `size`. */
  method Put(buf: array<char>, at: nat, size: nat, piece: string, ghost text: string) returns (r: Status)
    requires Holds(buf, text) && at <= |text| && NoNul(piece) && size > 0
    requires |Printed(text, at, size, piece).text| < buf.Length
    modifies buf
    ensures r == Printed(text, at, size, piece).status && Holds(buf, Printed(text, at, size, piece).text)
  {
    ghost var cut := Fitting(piece, size);
    var n := Snprintf(buf, at, size, piece);
    r := CheckPrinted(n, size);
    ghost var after := text[..at] + cut;
    assert buf[..at] == text[..at] by { assert old(buf[..at]) == old(buf[..|text|])[..at]; }
    assert buf[..|after|] == buf[..at] + buf[at..at + |cut|];
  }

  /** aws_iot_shadow_init_json_document: truncation is reported, not avoided. */
  method InitDocument(buf: array<char>, max: nat) returns (r: Status)
    requires max <= buf.Length
    modifies buf
    ensures r == if max <= |HEAD| then SHADOW_JSON_BUFFER_TRUNCATED else SUCCESS
    ensures max > 0 ==> Holds(buf, Fitting(HEAD, max))
  {
    var n := Snprintf(buf, 0, max, HEAD);
    r := CheckPrinted(n, max);
    if max > 0 {
      ghost var k := if |HEAD| < max then |HEAD| else max - 1;
      assert buf[..k] == buf[0..k];
    }
  }

  /** The fields of a section as they are written, each followed by a comma. */
  function Trail(fs: seq<Field>): string
    decreases |fs|
  {
    if fs == [] then "" else Trail(fs[..|fs| - 1]) + FieldText(fs[|fs| - 1]) + ","
  }

  /** Text of the sections written so far, each followed by a comma. */
  function Building(ss: seq<Section>): string
    decreases |ss|
  {
    if ss == [] then HEAD else Building(ss[..|ss| - 1]) + SectionText(ss[|ss| - 1]) + ","
  }

  lemma {:induction false} TrailPrepend(f: Field, fs: seq<Field>)
    ensures Trail([f] + fs) == FieldText(f) + "," + Trail(fs)
    decreases |fs|
  {
    hide FieldText;
    var all := [f] + fs;
    if fs == [] {
      assert all[..0] == [];
      assert Trail(all) == Trail([]) + FieldText(f) + ",";
    } else {
      var n := |fs| - 1;
      assert all[..|all| - 1] == [f] + fs[..n] && all[|all| - 1] == fs[n];
      TrailPrepend(f, fs[..n]);
      var a, b, c := FieldText(f) + ",", Trail(fs[..n]), FieldText(fs[n]) + ",";
      assert Trail(all) == Trail([f] + fs[..n]) + FieldText(fs[n]) + ",";
      assert a + b + FieldText(fs[n]) + "," == a + (b + FieldText(fs[n]) + ",");
    }
  }

  /** Trailing commas are separators plus one comma. */
  lemma {:induction false} TrailIsFields(fs: seq<Field>)
    requires fs != []
    ensures Trail(fs) == FieldsText(fs) + ","
    decreases |fs|
  {
    hide FieldText;
    assert fs == [fs[0]] + fs[1..];
    TrailPrepend(fs[0], fs[1..]);
    if |fs| > 1 {
      TrailIsFields(fs[1..]);
    } else {
      assert fs[1..] == [];
    }
  }

  lemma {:induction false} BuildingIsSections(ss: seq<Section>)
    requires ss != []
    ensures Building(ss) == HEAD + SectionsText(ss) + ","
    decreases |ss|
  {
    hide SectionText, HEAD;
    var n := |ss| - 1;
    var last := SectionText(ss[n]);
    assert Building(ss) == Building(ss[..n]) + last + ",";
    if n == 0 {
      assert ss[..0] == [];
    } else {
      var front := SectionsText(ss[..n]);
      BuildingIsSections(ss[..n]);
      SectionsAppend(ss[..n], ss[n]);
      assert ss[..n] + [ss[n]] == ss;
      assert HEAD + front + "," + last + "," == HEAD + (front + "," + last) + ",";
    }
  }

  lemma {:induction false} SectionsAppend(ss: seq<Section>, s: Section)
    requires ss != []
    ensures SectionsText(ss + [s]) == SectionsText(ss) + "," + SectionText(s)
    decreases |ss|
  {
    var all := ss + [s];
    if |ss| == 1 {
      assert all[1..] == [s];
    } else {
      assert all[1..] == ss[1..] + [s];
      SectionsAppend(ss[1..], s);
      assert SectionText(ss[0]) + "," + (SectionsText(ss[1..]) + "," + SectionText(s)) ==
        SectionText(ss[0]) + "," + SectionsText(ss[1..]) + "," + SectionText(s);
    }
  }

  predicate NoNulField(f: Field) {
    NoNul(f.key) && (f.value.StringValue? ==> NoNul(f.value.s))
  }

  function KeyText(f: Field): string {
    "\"" + f.key + "\":"
  }

  /** One round of the loop: the key, then the value, whose size check still uses the room there
      was before the key. */
  function FieldAdded(max: nat, text: string, f: Field): (b: Built)
    ensures |text| <= |b.text| && (b.status == SUCCESS ==> b.room > 1)
  {
    var room := Room(max, |text|);
    if room <= 1 then Built(SHADOW_JSON_ERROR, text, room)
    else
      var k := Printed(text, |text|, room, KeyText(f));
      if k.status != SUCCESS then k else Printed(k.text, |k.text|, room, ValueText(f.value) + ",")
  }

  function FieldsAdded(max: nat, text: string, room: nat, fs: seq<Field>): (b: Built)
    requires room > 1
    ensures |text| <= |b.text| && (b.status == SUCCESS ==> b.room > 1)
    decreases |fs|
  {
    if fs == [] then Built(SUCCESS, text, room)
    else
      var b := FieldAdded(max, text, fs[0]);
      if b.status != SUCCESS then b else FieldsAdded(max, b.text, b.room, fs[1..])
  }

  /** `"name":{` */
  function SectionHead(s: Section): string {
    "\"" + s.name + "\":{"
  }

  /** add_desired and add_reported: the head, the fields, and the closing brace over the last
      comma, checked with the room there was before the last key. */
  function SectionAdded(max: nat, text: string, s: Section): Built {
    var room := Room(max, |text|);
    if room <= 1 then Built(SHADOW_JSON_ERROR, text, room)
    else
      var h := Printed(text, |text|, room, SectionHead(s));
      if h.status != SUCCESS then h
      else
        var b := FieldsAdded(max, h.text, room, s.fields);
        if b.status != SUCCESS then b else Printed(b.text, |b.text| - 1, b.room, "},")
  }

  method AddField(buf: array<char>, max: nat, f: Field, ghost text: string) returns (r: Status, room: nat)
    requires Holds(buf, text) && NoNulField(f) && |FieldAdded(max, text, f).text| < buf.Length
    modifies buf
    ensures var b := FieldAdded(max, text, f); r == b.status && room == b.room && Holds(buf, b.text)
  {
    hide Holds, Room, Printed, ValueText;
    var len := StrLen(buf, text);
    room := Room(max, len);
    if room <= 1 { return SHADOW_JSON_ERROR, room; }
    ghost var k := Printed(text, |text|, room, KeyText(f));
    PrintedSize(text, |text|, room, KeyText(f));
    if k.status == SUCCESS { PrintedSize(k.text, |k.text|, room, ValueText(f.value) + ","); }
    r := Put(buf, len, room, KeyText(f), text);
    if r != SUCCESS { return; }
    len := StrLen(buf, k.text);
    NoNulValue(f);
    r := Put(buf, len, room, ValueText(f.value) + ",", k.text);
  }

  lemma PrintedSize(text: string, at: nat, size: nat, piece: string)
    requires at <= |text| && size > 0
    ensures var b := Printed(text, at, size, piece);
      b.room == size && |b.text| == at + if |piece| < size then |piece| else size - 1
    ensures Printed(text, at, size, piece).status == SUCCESS <==> |piece| < size
    ensures |piece| < size ==> Printed(text, at, size, piece).text == text[..at] + piece
  {
  }

  lemma NoNulValue(f: Field)
    requires NoNulField(f)
    ensures NoNul(ValueText(f.value) + ",")
  {
  }

  /** aws_iot_shadow_add_desired and aws_iot_shadow_add_reported, which differ in the name.  The
      array goes on behind the document's buffer, as far as the code writes. */
  method AddSection(buf: array<char>, max: nat, s: Section, ghost text: string) returns (r: Status)
    requires Holds(buf, text) && |s.fields| < 128 && NoNul(s.name)
    requires forall k :: 0 <= k < |s.fields| ==> NoNulField(s.fields[k])
    requires |SectionAdded(max, text, s).text| < buf.Length
    modifies buf
    ensures var b := SectionAdded(max, text, s); r == b.status && Holds(buf, b.text)
  {
    hide Holds, Room, Printed, FieldAdded, NoNulField;
    var len := StrLen(buf, text);
    var room := Room(max, len);
    if room <= 1 { return SHADOW_JSON_ERROR; }
    ghost var cur := Printed(text, |text|, room, SectionHead(s)).text;
    ghost var whole := FieldsAdded(max, cur, room, s.fields);
    PrintedSize(text, |text|, room, SectionHead(s));
    if |SectionHead(s)| < room && whole.status == SUCCESS {
      PrintedSize(whole.text, |whole.text| - 1, whole.room, "},");
    }
    r := Put(buf, len, room, SectionHead(s), text);
    if r != SUCCESS { return; }
    assert s.fields[0..] == s.fields;
    for i := 0 to |s.fields|
      invariant r == SUCCESS && Holds(buf, cur) && room > 1 && cur != ""
      invariant FieldsAdded(max, cur, room, s.fields[i..]) == whole
    {
      ghost var next := FieldAdded(max, cur, s.fields[i]);
      assert s.fields[i..][0] == s.fields[i] && s.fields[i..][1..] == s.fields[i + 1..];
      r, room := AddField(buf, max, s.fields[i], cur);
      cur := next.text;
      if r != SUCCESS { return; }
    }
    len := StrLen(buf, cur);
    r := Put(buf, len - 1, room, "},", cur);
  }

  // ---------------------------------------------------------------------------
  // When a section fits

  /** A field is reported as written if and only if key and value fit the room before the key one
      by one; then all of it has been written, whether or not both together fit. */
  lemma FieldSucceeds(max: nat, text: string, f: Field)
    requires max < SIZE_MOD
    ensures var b, room := FieldAdded(max, text, f), Room(max, |text|);
      && (b.status == SUCCESS <==> 1 < room && |KeyText(f)| < room && |ValueText(f.value)| + 1 < room)
      && (b.status == SUCCESS ==> b.text == text + FieldText(f) + "," && b.room == room > 2)
      && (|text| + |FieldText(f)| + 1 < max ==> b.status == SUCCESS)
  {
    var key, value, room := KeyText(f), ValueText(f.value) + ",", Room(max, |text|);
    FieldPieces(text, f);
    if |text| < max { RoomInside(max, |text|); }
    hide Room, Printed, KeyText, ValueText, FieldText;
    if room > 1 {
      var k := Printed(text, |text|, room, key);
      PrintedSize(text, |text|, room, key);
      if k.status == SUCCESS {
        assert k.text == text + key && k.text[..|k.text|] == k.text;
        PrintedSize(k.text, |k.text|, room, value);
      }
    }
  }

  /** A field that fails inside the buffer is an error if there is no room for a character, and cut off
      otherwise. */
  lemma FieldFails(max: nat, text: string, f: Field)
    requires |text| <= max < SIZE_MOD
    ensures FieldAdded(max, text, f).status ==
      if max <= |text| + 1 then SHADOW_JSON_ERROR
      else if max <= |text| + |KeyText(f)| || max <= |text| + |ValueText(f.value)| + 1 then SHADOW_JSON_BUFFER_TRUNCATED
      else SUCCESS
  {
    var key, value, room := KeyText(f), ValueText(f.value) + ",", Room(max, |text|);
    RoomInside(max, |text|);
    hide Room, KeyText, ValueText;
    if room > 1 {
      PrintedSize(text, |text|, room, key);
      if |key| < room { PrintedSize(text[..|text|] + key, |text + key|, room, value); }
    }
  }

  lemma FieldPieces(text: string, f: Field)
    ensures text[..|text|] + KeyText(f) + (ValueText(f.value) + ",") == text + FieldText(f) + ","
    ensures |FieldText(f)| == |KeyText(f)| + |ValueText(f.value)| && |KeyText(f)| >= 3 && text[..|text|] == text
  {
  }

  /** After the head of a document and of its section, key and value fit the ten characters left
      one by one, and take twelve together. */
  lemma FieldOverruns()
    ensures var text := HEAD + SectionHead(Section("desired", []));
      var b := FieldAdded(31, text, Field("aaaa", BoolValue(true)));
      b.status == SUCCESS && |b.text| == 33
  {
    var text := HEAD + SectionHead(Section("desired", []));
    assert |text| == 21;
    hide SectionHead;
    FieldSucceeds(31, text, Field("aaaa", BoolValue(true)));
    hide FieldAdded;
  }

  lemma {:induction false} FieldsSucceed(max: nat, text: string, room: nat, fs: seq<Field>)
    requires max < SIZE_MOD && room > 1
    ensures var b := FieldsAdded(max, text, room, fs);
      && (b.status == SUCCESS ==> b.text == text + Trail(fs) && (fs != [] ==> b.room > 2))
      && (|text| + |Trail(fs)| < max ==> b.status == SUCCESS)
    decreases |fs|
  {
    if fs == [] {
      assert text + "" == text;
    } else {
      var f, rest := fs[0], fs[1..];
      assert fs == [f] + rest;
      TrailPrepend(f, rest);
      FieldSucceeds(max, text, f);
      var b := FieldAdded(max, text, f);
      hide FieldAdded, FieldText, Trail, Room, KeyText, ValueText;
      if b.status == SUCCESS {
        FieldsSucceed(max, b.text, b.room, rest);
        Regroup(text, FieldText(f), Trail(rest));
      }
    }
  }

  lemma Regroup(text: string, field: string, rest: string)
    ensures text + field + "," + rest == text + (field + "," + rest)
  {
  }

  /** The stages of a section: its head, its fields, its closing brace. */
  lemma SectionStages(max: nat, text: string, s: Section)
    requires max < SIZE_MOD
    ensures var b, room, head := SectionAdded(max, text, s), Room(max, |text|), text + SectionHead(s);
      if room <= 1 || |SectionHead(s)| >= room then b.status != SUCCESS
      else
        var fs := FieldsAdded(max, head, room, s.fields);
        b == if fs.status != SUCCESS then fs else Printed(fs.text, |fs.text| - 1, fs.room, "},")
  {
    hide Room, SectionHead, FieldsAdded;
    if Room(max, |text|) > 1 { PrintedSize(text, |text|, Room(max, |text|), SectionHead(s)); }
    assert text[..|text|] == text;
  }

  /** A section with fields that is reported as written has been written whole.  It is reported as
      written and stays inside the document's buffer if and only if its text and one comma fit. */
  lemma SectionSucceeds(max: nat, text: string, s: Section)
    requires max < SIZE_MOD && s.fields != []
    ensures var b := SectionAdded(max, text, s);
      && (b.status == SUCCESS ==> b.text == text + SectionText(s) + ",")
      && (b.status == SUCCESS && |b.text| < max <==> |text| + |SectionText(s)| + 1 < max)
  {
    hide *;
    SectionPieces(text, s);
    SectionStages(max, text, s);
    RoomInside(max, |text|);
    var room, head := Room(max, |text|), text + SectionHead(s);
    if room > 1 && |SectionHead(s)| < room {
      FieldsSucceed(max, head, room, s.fields);
      var b := FieldsAdded(max, head, room, s.fields);
      if b.status == SUCCESS { PrintedSize(b.text, |b.text| - 1, b.room, "},"); }
    }
  }

  lemma SectionPieces(text: string, s: Section)
    requires s.fields != []
    ensures var written := text + SectionHead(s) + Trail(s.fields); var n := |written|;
      && n == |text| + |SectionText(s)| && 0 < n
      && written[..n - 1] + "}," == text + SectionText(s) + ","
  {
    hide FieldsText;
    TrailIsFields(s.fields);
    var written := text + SectionHead(s) + Trail(s.fields);
    assert written == (text + SectionHead(s) + FieldsText(s.fields)) + ",";
    assert SectionText(s) == SectionHead(s) + FieldsText(s.fields) + "}";
    assert written[..|written| - 1] == text + SectionHead(s) + FieldsText(s.fields);
  }

  /** A section without fields loses its opening brace. */
  lemma EmptySection(max: nat, text: string, name: string)
    requires |text| + |name| + 5 < max < SIZE_MOD
    ensures var b := SectionAdded(max, text, Section(name, []));
      b.status == SUCCESS && b.text == text + ("\"" + name + "\":},")
  {
    var s := Section(name, []);
    var room, head := Room(max, |text|), SectionHead(s);
    RoomInside(max, |text|);
    EmptyPieces(text, name);
    hide Room, Printed, SectionHead;
    PrintedSize(text, |text|, room, head);
    assert text[..|text|] == text;
    PrintedSize(text + head, |text + head| - 1, room, "},");
  }

  lemma EmptyPieces(text: string, name: string)
    ensures var head := SectionHead(Section(name, [])); var whole := text + head;
      |head| == |name| + 4 && whole[..|whole| - 1] + "}," == text + ("\"" + name + "\":},")
  {
    var head := SectionHead(Section(name, []));
    assert head == "\"" + name + "\":" + "{";
    assert (text + head)[..|text + head| - 1] == text + ("\"" + name + "\":");
  }

  /** The 32-bit signed reading of an unsigned counter, as printf's %d takes it. */
  function AsInt32(n: nat): int
    requires n < 0x1_0000_0000
  {
    if n < 0x8000_0000 then n else n - 0x1_0000_0000
  }

  /** "<client id>-<sequence number>" */
  function ClientToken(id: string, n: nat): string
    requires n < 0x1_0000_0000
  {
    id + "-" + IntText(AsInt32(n))
  }

  function Power10(e: nat): nat {
    if e == 0 then 1 else 10 * Power10(e - 1)
  }

  lemma {:induction false} DecimalLength(n: nat, digits: nat)
    requires 0 < digits
    ensures |Decimal(n)| <= digits <==> n < Power10(digits)
    decreases digits
  {
    if digits == 1 {
      assert Power10(1) == 10 * Power10(0);
    } else if n >= 10 {
      DecimalLength(n / 10, digits - 1);
      assert Power10(digits) == 10 * Power10(digits - 1);
    } else {
      TenAtLeast(digits);
    }
  }

  lemma {:induction false} TenAtLeast(digits: nat)
    requires 0 < digits
    ensures Power10(digits) >= 10
  {
    if digits > 1 { TenAtLeast(digits - 1); }
  }

  /** Size of the buffers that hold an extracted client token and that of a waiting record. */
  const MAX_SIZE_CLIENT_ID_WITH_SEQUENCE := 90

  /** A plain client id gives a plain token.  With its terminator it fits the buffers of waiting
      records if and only if the sequence number, as printed, lies in a range that depends on the
      length of the id. */
  lemma TokenFits(id: string, n: nat)
    requires n < 0x1_0000_0000 && |id| < 80
    ensures Plain(id) ==> Plain(ClientToken(id, n))
    ensures |ClientToken(id, n)| < MAX_SIZE_CLIENT_ID_WITH_SEQUENCE <==>
            AsInt32(n) < Power10(88 - |id|) && AsInt32(n) + Power10(87 - |id|) > 0
    ensures |ClientToken(id, n)| <= 91
  {
    var i := AsInt32(n);
    var m: nat := if i < 0 then -i else i;
    DecimalLength(m, 87 - |id|);
    DecimalLength(m, 88 - |id|);
    DecimalLength(m, 10);
    TenToTheTenth();
    if i < 0 { TenAtLeast(88 - |id|); } else { TenAtLeast(87 - |id|); }
    TokenParts(id, n);
    hide ClientToken, Decimal, Power10, Plain;
  }

  lemma TokenParts(id: string, n: nat)
    requires n < 0x1_0000_0000
    ensures Plain(id) ==> Plain(ClientToken(id, n))
    ensures var i := AsInt32(n);
      |ClientToken(id, n)| == |id| + 1 + if i < 0 then 1 + |Decimal(-i)| else |Decimal(i)|
  {
    hide Decimal;
  }

  lemma TenToTheTenth()
    ensures Power10(10) == 10_000_000_000 && Power10(9) == 1_000_000_000
  {
    assert Power10(3) == 1000;
    assert Power10(6) == 1_000_000;
    assert Power10(9) == 1_000_000_000;
    assert Power10(10) == 10 * Power10(9);
  }

  /** Client ids of at most 77 characters give tokens that always fit. */
  lemma ShortIdsFit(id: string, n: nat)
    requires n < 0x1_0000_0000 && |id| <= 77
    ensures |ClientToken(id, n)| < MAX_SIZE_CLIENT_ID_WITH_SEQUENCE
  {
    var i := AsInt32(n);
    var m: nat := if i < 0 then -i else i;
    DecimalLength(m, 10);
    TenToTheTenth();
  }

  /** An id of 79 characters with the sequence number 1000000000 gives a token of 90. */
  lemma TokenOverflows()
    ensures var id := seq(79, _ => 'c');
      Plain(id) && |id| < 80 && |ClientToken(id, 1_000_000_000)| == MAX_SIZE_CLIENT_ID_WITH_SEQUENCE
  {
    DecimalLength(1_000_000_000, 9);
    DecimalLength(1_000_000_000, 10);
    TenToTheTenth();
  }

  /** The token a client appends is the one extracted from the finished document if and only if
      the document has the size the parser takes and the token is what follows the first string
      that spells its key; so always, within that size, if no key and no string value does. */
  lemma ExtractsOwnToken(id: string, n: nat, ss: seq<Section>)
    requires n < 0x1_0000_0000 && Plain(id) && |id| < 80 && ss != [] && PlainSections(ss)
    ensures var own := ClientToken(id, n); var js := Document(ss, own);
      && !KeyDangles(js, MAX_TOKENS)
      && (Extracted(js, MAX_TOKENS) == Some(own) <==>
           DocumentSize(ss) <= MAX_TOKENS && Cut8(AfterKey(ss, own)) == own)
      && (DocumentSize(ss) > MAX_TOKENS ==> Extracted(js, MAX_TOKENS) == None)
      && (NoTokenKey(ss) ==> Cut8(AfterKey(ss, own)) == own)
  {
    TokenFits(id, n);
    ExtractsAfterKey(ss, ClientToken(id, n));
    ExtractsWhatWasBuilt(ss, ClientToken(id, n));
    hide Document, Extracted, AfterKey, KeyDangles, NoTokenKey;
  }

  // ---------------------------------------------------------------------------
  // Finalizing

  lemma DocumentPieces(ss: seq<Section>, token: string)
    requires ss != []
    ensures var text := Building(ss);
      && text != "" && NoNul(TAIL) && NoNul(CLOSE)
      && |text| + |TAIL| + |token| + 1 == |Document(ss, token)|
      && text[..|text| - 1] + TAIL + token + CLOSE == Document(ss, token)
  {
    hide SectionsText;
    BuildingIsSections(ss);
    var text := Building(ss);
    assert text[..|text| - 1] == HEAD + SectionsText(ss);
  }

  /** The three steps of finalize_json_document, each checked with the room left before it; the
      flag says whether the token was printed. */
  function Finalized(max: nat, text: string, token: string): (Built, bool)
    requires text != ""
  {
    var room := Room(max, |text|);
    if room <= 1 then (Built(SHADOW_JSON_ERROR, text, room), false)
    else
      var a := Printed(text, |text| - 1, room, TAIL);
      var roomA := Room(max, |a.text|);
      if a.status != SUCCESS then (a, false)
      else if roomA <= 1 then (Built(SHADOW_JSON_ERROR, a.text, roomA), false)
      else
        var b := Printed(a.text, |a.text|, roomA, token);
        var roomB := Room(max, |b.text|);
        if b.status != SUCCESS then (b, true)
        else if roomB <= 1 then (Built(SHADOW_JSON_ERROR, b.text, roomB), true)
        else (Printed(b.text, |b.text|, roomB, CLOSE), true)
  }

  /** A document reported as finished is the whole document; when the sections lie inside the
      buffer, it is so reported if and only if the whole document does. */
  lemma FinalizeSucceeds(max: nat, ss: seq<Section>, token: string)
    requires max < SIZE_MOD && ss != [] && Building(ss) != ""
    ensures var f := Finalized(max, Building(ss), token);
      && (f.0.status == SUCCESS ==> f.0.text == Document(ss, token) && f.1)
      && (|Building(ss)| <= max ==> (f.0.status == SUCCESS <==> |Document(ss, token)| < max))
  {
    DocumentPieces(ss, token);
    var text := Building(ss);
    var a := text[..|text| - 1] + TAIL;
    var b := a + token;
    RoomInside(max, |text|);
    RoomInside(max, |a|);
    RoomInside(max, |b|);
    hide Building, Document, Room, Printed, SectionsText, TAIL, CLOSE;
    var room, roomA, roomB := Room(max, |text|), Room(max, |a|), Room(max, |b|);
    assert |TAIL| == 18 && |CLOSE| == 2 by { TailSizes(); }
    if room > 1 {
      PrintedSize(text, |text| - 1, room, TAIL);
      if |TAIL| < room && roomA > 1 {
        assert a[..|a|] == a;
        PrintedSize(a, |a|, roomA, token);
        if |token| < roomA && roomB > 1 {
          assert b[..|b|] == b;
          PrintedSize(b, |b|, roomB, CLOSE);
        }
      }
    }
  }

  /** Finalizing a text inside the buffer is an error if there is no room for a character, or if the
      client token ends just where the buffer has one character left. */
  lemma FinalizeFails(max: nat, text: string, token: string)
    requires 0 < |text| <= max < SIZE_MOD && token != ""
    ensures Finalized(max, text, token).0.status == SHADOW_JSON_ERROR <==>
            max <= |text| + 1 || max == |text| + 18 + |token|
  {
    var a := text[..|text| - 1] + TAIL;
    var b := a + token;
    RoomInside(max, |text|);
    RoomInside(max, |a|);
    RoomInside(max, |b|);
    TailSizes();
    var room, roomA, roomB := Room(max, |text|), Room(max, |a|), Room(max, |b|);
    hide Room, Printed, TAIL, CLOSE;
    if room > 1 {
      PrintedSize(text, |text| - 1, room, TAIL);
      PrintedStatus(text, |text| - 1, room, TAIL);
      if |TAIL| < room && roomA > 1 {
        assert a[..|a|] == a;
        PrintedSize(a, |a|, roomA, token);
        PrintedStatus(a, |a|, roomA, token);
        if |token| < roomA && roomB > 1 {
          PrintedSize(b, |b|, roomB, CLOSE);
          PrintedStatus(b, |b|, roomB, CLOSE);
        }
      }
    }
  }

  lemma PrintedStatus(text: string, at: nat, size: nat, piece: string)
    requires at <= |text| && size > 0
    ensures Printed(text, at, size, piece).status != SHADOW_JSON_ERROR
  {
  }

  lemma TailSizes()
    ensures |TAIL| == 18 && |CLOSE| == 2
  {
  }

  lemma PlainEnds()
    ensures NoNul(TAIL) && NoNul(CLOSE)
  {
  }

  /** No step of finalize leaves more text than the last, nor than the whole of it. */
  lemma FinalizedGrows(max: nat, text: string, token: string)
    requires text != ""
    ensures |Finalized(max, text, token).0.text| <= |text| + |TAIL| + |token| + 1
    ensures var n, room := |Finalized(max, text, token).0.text|, Room(max, |text|);
      room > 1 ==>
        var a := Printed(text, |text| - 1, room, TAIL); var roomA := Room(max, |a.text|);
        && |a.text| <= n
        && (a.status == SUCCESS && roomA > 1 ==> |Printed(a.text, |a.text|, roomA, token).text| <= n)
  {
    TailSizes();
    var room := Room(max, |text|);
    hide Room, Printed, TAIL, CLOSE;
    if room > 1 {
      PrintedSize(text, |text| - 1, room, TAIL);
      var a := Printed(text, |text| - 1, room, TAIL).text;
      var roomA := Room(max, |a|);
      if |TAIL| < room && roomA > 1 {
        PrintedSize(a, |a|, roomA, token);
        var b := Printed(a, |a|, roomA, token).text;
        if |token| < roomA && Room(max, |b|) > 1 { PrintedSize(b, |b|, Room(max, |b|), CLOSE); }
      }
    }
  }

  /** No step of a section leaves more text than the whole section. */
  lemma SectionBound(max: nat, text: string, s: Section)
    requires s.fields != []
    ensures |SectionAdded(max, text, s).text| <= |text| + |SectionText(s)| + 1
  {
    SectionPieces(text, s);
    var room := Room(max, |text|);
    hide Room, Printed, Trail, SectionText, FieldsAdded;
    if room > 1 {
      PrintedSize(text, |text|, room, SectionHead(s));
      var h := Printed(text, |text|, room, SectionHead(s)).text;
      if |SectionHead(s)| < room {
        FieldsBound(max, h, room, s.fields);
        var b := FieldsAdded(max, h, room, s.fields);
        if b.status == SUCCESS { PrintedSize(b.text, |b.text| - 1, b.room, "},"); }
      }
    }
  }

  lemma {:induction false} FieldsBound(max: nat, text: string, room: nat, fs: seq<Field>)
    requires room > 1
    ensures |FieldsAdded(max, text, room, fs).text| <= |text| + |Trail(fs)|
    decreases |fs|
  {
    if fs != [] {
      var f, rest := fs[0], fs[1..];
      assert fs == [f] + rest;
      TrailPrepend(f, rest);
      FieldBound(max, text, f);
      var b := FieldAdded(max, text, f);
      hide FieldAdded, FieldText, Trail;
      if b.status == SUCCESS { FieldsBound(max, b.text, b.room, rest); }
    }
  }

  lemma FieldBound(max: nat, text: string, f: Field)
    ensures |FieldAdded(max, text, f).text| <= |text| + |FieldText(f)| + 1
  {
    var room := Room(max, |text|);
    hide Room, Printed, ValueText;
    if room > 1 {
      PrintedSize(text, |text|, room, KeyText(f));
      var k := Printed(text, |text|, room, KeyText(f)).text;
      if |KeyText(f)| < room { PrintedSize(k, |k|, room, ValueText(f.value) + ","); }
    }
  }

  lemma BuildingAppends(ss: seq<Section>, i: nat)
    requires i < |ss|
    ensures Building(ss[..i + 1]) == Building(ss[..i]) + SectionText(ss[i]) + ","
  {
    assert ss[..i + 1][..i] == ss[..i];
  }

  lemma {:induction false} BuildingGrows(ss: seq<Section>, i: nat, token: string)
    requires i <= |ss| && ss != []
    ensures |Building(ss[..i])| <= |Building(ss)| < |Document(ss, token)|
    decreases |ss| - i
  {
    hide *;
    if i < |ss| {
      BuildingAppends(ss, i);
      BuildingGrows(ss, i + 1, token);
    } else {
      assert ss[..i] == ss;
      DocumentPieces(ss, token);
      TailSizes();
    }
  }

  lemma HeadFits(max: nat, ss: seq<Section>, token: string)
    requires max <= |HEAD|
    ensures max <= |Document(ss, token)|
  {
  }

  lemma RoomInside(max: nat, length: nat)
    requires max < SIZE_MOD
    ensures length <= max ==> Room(max, length) == max - length
  {
  }

  /** The file-level state of the shadow client: the MQTT client id, the sequence number of the
      next token, and the parser with its token array. */
  class ShadowClient {
    var clientId: string
    var clientTokenNum: nat
    const tokens: array<Token>
    const parser: Parser

    /** The array is modelled with one cell more than the parser is given. */
    ghost predicate Valid()
      reads this
    {
      && clientTokenNum < 0x1_0000_0000 && NoNul(clientId) && |clientId| < 80
      && tokens.Length == MAX_TOKENS + 1 && parser.dialect == Current
    }

    constructor (id: string)
      requires NoNul(id) && |id| < 80
      ensures Valid() && fresh(tokens) && fresh(parser) && clientId == id && clientTokenNum == 0
    {
      clientId := id;
      clientTokenNum := 0;
      tokens := new Token[MAX_TOKENS + 1](_ => Token(Primitive, -1, -1, 0));
      parser := new Parser(Current);
    }

    /** The token that will be printed next. */
    ghost function NextToken(): string
      requires Valid()
      reads this
    {
      ClientToken(clientId, clientTokenNum)
    }

    /** FillWithClientTokenSize: prints the token and advances the sequence number. */
    method FillWithClientToken(buf: array<char>, at: nat, size: nat, ghost text: string) returns (r: Status)
      requires Valid() && Holds(buf, text) && at == |text| && size > 0
      requires |Printed(text, at, size, NextToken()).text| < buf.Length
      modifies buf, this`clientTokenNum
      ensures Valid() && clientTokenNum == (old(clientTokenNum) + 1) % 0x1_0000_0000
      ensures var b := Printed(text, at, size, old(NextToken())); r == b.status && Holds(buf, b.text)
    {
      var token := ClientToken(clientId, clientTokenNum);
      clientTokenNum := (clientTokenNum + 1) % 0x1_0000_0000;
      r := Put(buf, at, size, token, text);
    }

    /** aws_iot_finalize_json_document */
    method FinalizeDocument(buf: array<char>, max: nat, ghost text: string) returns (r: Status)
      requires Valid() && Holds(buf, text) && text != "" && |Finalized(max, text, NextToken()).0.text| < buf.Length
      modifies buf, this`clientTokenNum
      ensures Valid()
      ensures var (b, used) := Finalized(max, text, old(NextToken()));
        && r == b.status && Holds(buf, b.text)
        && clientTokenNum == if used then (old(clientTokenNum) + 1) % 0x1_0000_0000 else old(clientTokenNum)
    {
      FinalizedGrows(max, text, NextToken());
      hide Holds, ClientToken, Room, Printed, NoNul;
      ghost var token := NextToken();
      PlainEnds();
      var len := StrLen(buf, text);
      var room := Room(max, len);
      if room <= 1 { return SHADOW_JSON_ERROR; }
      r := Put(buf, len - 1, room, TAIL, text);
      if r != SUCCESS { return; }
      ghost var a := Printed(text, |text| - 1, room, TAIL).text;
      len := StrLen(buf, a);
      room := Room(max, len);
      if room <= 1 { return SHADOW_JSON_ERROR; }
      r := FillWithClientToken(buf, len, room, a);
      if r != SUCCESS { return; }
      ghost var b := Printed(a, |a|, room, token).text;
      len := StrLen(buf, b);
      room := Room(max, len);
      if room <= 1 { return SHADOW_JSON_ERROR; }
      r := Put(buf, len, room, CLOSE, b);
    }

    /** jsmn_init and jsmn_parse over the static array, then the check of the root. */
    method ParseReceived(js: string) returns (count: int)
      requires Valid()
      modifies parser, tokens
      ensures Valid()
      ensures match ParsedObject(js, MAX_TOKENS)
        case Some(toks) =>
          && count == |toks| && 0 < count <= MAX_TOKENS && tokens[..count] == toks
          && forall k :: count <= k < tokens.Length ==> tokens[k] == old(tokens[k])
        case None => count == -1
    {
      parser.pos, parser.toknext, parser.toksuper := 0, 0, -1;
      assert parser.View(tokens) == INITIAL;
      count := parser.Parse(js, tokens, MAX_TOKENS);
      Succeeds(js);
      if count < 1 { return -1; }
      if tokens[0].kind != Object { return -1; }
    }

    /** What extractClientToken returns: when the key is the text's last token, the code reads the
        array entry after the tokens, left over from earlier parses. */
    ghost function ExtractedNow(js: string): Option<string>
      requires Valid()
      reads this, tokens
    {
      if KeyDangles(js, MAX_TOKENS) then
        var n := |ParsedObject(js, MAX_TOKENS).value|;
        if n < tokens.Length then Some(TokenText8(js, tokens[n])) else None
      else Extracted(js, MAX_TOKENS)
    }

    /** extractClientToken */
    method ExtractClientToken(js: string) returns (token: Option<string>)
      requires Valid()
      modifies parser, tokens
      ensures Valid() && token == old(ExtractedNow(js))
    {
      var count := ParseReceived(js);
      if count < 0 { return None; }
      ghost var toks := ParsedObject(js, MAX_TOKENS).value;
      var i := 1;
      while i < count
        invariant 1 <= i <= count
        invariant FindKey(js, toks, 1, TOKEN_KEY) == FindKey(js, toks, i, TOKEN_KEY)
      {
        assert tokens[i] == toks[i];
        if Spells(js, tokens[i], TOKEN_KEY) {
          if i + 1 < count { assert tokens[i + 1] == toks[i + 1]; }
          return Some(TokenText8(js, tokens[i + 1]));
        }
        i := i + 1;
      }
      token := None;
    }

    /** A whole document: init, one call for each section, finalize, stopping at the first step
        that fails.  Reported as finished, it is the whole document, and it is whenever the
        document fits. */
    method BuildDocument(buf: array<char>, max: nat, ss: seq<Section>) returns (r: Status)
      requires Valid() && ss != [] && max <= buf.Length && max < SIZE_MOD && Buildable(ss)
      requires |Document(ss, NextToken())| < buf.Length
      modifies buf, this`clientTokenNum
      ensures Valid()
      ensures r == SUCCESS ==> Holds(buf, Document(ss, old(NextToken())))
      ensures |Document(ss, old(NextToken()))| < max ==> r == SUCCESS
    {
      hide Holds, Document, SectionAdded, Finalized, SectionText, NextToken, NoNulField;
      ghost var token := NextToken();
      r := InitDocument(buf, max);
      if r != SUCCESS { HeadFits(max, ss, token); return; }
      assert Building(ss[..0]) == HEAD == Fitting(HEAD, max) by { assert ss[..0] == []; }
      for i := 0 to |ss|
        invariant r == SUCCESS && Valid() && NextToken() == token
        invariant Holds(buf, Building(ss[..i]))
      {
        ghost var text := Building(ss[..i]);
        assert ss[..i + 1][..i] == ss[..i];
        SectionSucceeds(max, text, ss[i]);
        SectionBound(max, text, ss[i]);
        BuildingGrows(ss, i + 1, token);
        r := AddSection(buf, max, ss[i], text);
        if r != SUCCESS { return; }
      }
      assert ss[..|ss|] == ss;
      BuildingGrows(ss, |ss|, token);
      FinalizeSucceeds(max, ss, token);
      FinalizedGrows(max, Building(ss), token);
      DocumentPieces(ss, token);
      r := FinalizeDocument(buf, max, Building(ss));
    }

    /** The round trip: what is extracted from the text in the buffer of a document reported as
        finished. */
    method BuildAndExtract(buf: array<char>, max: nat, ss: seq<Section>) returns (r: Status, token: Option<string>)
      requires Valid() && PlainSections(ss) && Plain(clientId)
      requires ss != [] && max <= buf.Length && max < SIZE_MOD && Buildable(ss)
      requires |Document(ss, NextToken())| < buf.Length
      modifies buf, this`clientTokenNum, parser, tokens
      ensures |Document(ss, old(NextToken()))| < max ==> r == SUCCESS
      ensures r == SUCCESS ==>
        && (token == Some(old(NextToken())) <==>
             DocumentSize(ss) <= MAX_TOKENS && Cut8(AfterKey(ss, old(NextToken()))) == old(NextToken()))
        && (NoTokenKey(ss) && DocumentSize(ss) <= MAX_TOKENS ==> token == Some(old(NextToken())))
    {
      hide Document, AfterKey, DocumentSize, PlainSections, NoTokenKey, Extracted, KeyDangles;
      ghost var own := NextToken();
      TokenFits(clientId, clientTokenNum);
      r := BuildDocument(buf, max, ss);
      if r != SUCCESS { return r, None; }
      var len := StrLen(buf, Document(ss, own));
      ExtractsAfterKey(ss, own);
      ExtractsWhatWasBuilt(ss, own);
      token := ExtractClientToken(buf[..len]);
    }
  }

  /** Sections that add_desired and add_reported can be called with. */
  predicate Buildable(ss: seq<Section>) {
    forall k :: 0 <= k < |ss| ==>
      && 0 < |ss[k].fields| < 128 && NoNul(ss[k].name)
      && forall j :: 0 <= j < |ss[k].fields| ==> NoNulField(ss[k].fields[j])
  }

  lemma Succeeds(js: string)
    ensures var o := Run(Current, js, INITIAL, MAX_TOKENS); o.Halt? && (o.rc >= 0 ==> o.rc == |o.st.toks| <= MAX_TOKENS)
  {
    TokensNest(Current, js, MAX_TOKENS);
  }
}
