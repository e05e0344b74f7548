/** A reader of shadow documents that knows nothing of how they are written: it takes the tokens of
    the parsed text for keys and values.  What the builder writes, it reads back. */
module ShadowReader {
  import opened JsonTokens
  import opened Jsmn
  import opened JsmnStack
  import opened ShadowJson
  import opened Wrappers

  import ShadowBuilder

  // ---------------------------------------------------------------------------
  // Reading

  function DigitOf(c: char): nat
    requires '0' <= c <= '9'
  {
    c as nat - '0' as nat
  }

  /** The number that decimal digits stand for. */
  function Digits(s: string): Option<nat>
    decreases |s|
  {
    if s == "" then Some(0)
    else
      var c, high := s[|s| - 1], Digits(s[..|s| - 1]);
      if '0' <= c <= '9' && high.Some? then Some(10 * high.value + DigitOf(c)) else None
  }

  /** A sign and digits. */
  function Integer(s: string): Option<int> {
    if s == "" || s == "-" then None
    else
      var n := Digits(if s[0] == '-' then s[1..] else s);
      if n.None? then None else Some(if s[0] == '-' then 0 - n.value else n.value)
  }

  /** A JSON string, `true`, `false` or an integer. */
  function ValueOf(i: Item): Option<Value> {
    if i.kind == String then Some(StringValue(i.text))
    else if i.kind != Primitive then None
    else if i.text == "true" then Some(BoolValue(true))
    else if i.text == "false" then Some(BoolValue(false))
    else
      match Integer(i.text)
      case Some(n) => Some(IntValue(n))
      case None => None
  }

  /** The pairs of a key and a value at the head of the items, and the items after them. */
  function FieldsOf(items: seq<Item>): (r: (seq<Field>, seq<Item>))
    ensures |r.1| <= |items|
    decreases |items|
  {
    if |items| < 2 || items[0].kind != String || ValueOf(items[1]).None? then ([], items)
    else
      var rest := FieldsOf(items[2..]);
      ([Field(items[0].text, ValueOf(items[1]).value)] + rest.0, rest.1)
  }

  /** Each section is a name, an object, and its fields. */
  function SectionsOf(items: seq<Item>): Option<seq<Section>>
    decreases |items|
  {
    if items == [] then Some([])
    else if |items| < 2 || items[0].kind != String || items[1].kind != Object then None
    else
      var fs := FieldsOf(items[2..]);
      match SectionsOf(fs.1)
      case Some(ss) => Some([Section(items[0].text, fs.0)] + ss)
      case None => None
  }

  /** The sections of the state, and the client token after it. */
  function DocumentOf(items: seq<Item>): Option<(seq<Section>, string)> {
    var n := |items|;
    if n < 5 || items[..3] != [Item(Object, ""), Item(String, "state"), Item(Object, "")] then None
    else if items[n - 2] != Item(String, "clientToken") || items[n - 1].kind != String then None
    else
      match SectionsOf(items[3..n - 2])
      case Some(ss) => Some((ss, items[n - 1].text))
      case None => None
  }

  /** What a text says, parsed with room for `cap` tokens. */
  function ReadBack(js: string, cap: nat): Option<(seq<Section>, string)> {
    var o := Run(Current, js, INITIAL, cap);
    if o.Go? || o.rc < 0 then None else DocumentOf(Spell(js, Abs(o.st).shapes))
  }

  // ---------------------------------------------------------------------------
  // What is written is read back

  lemma {:induction false} DigitsOfDecimal(n: nat)
    ensures Digits(Decimal(n)) == Some(n)
  {
    var s := Decimal(n);
    if n < 10 {
      assert s[..0] == "";
      assert Digits(s[..|s| - 1]) == Some(0);
    } else {
      DigitsOfDecimal(n / 10);
      assert s[..|s| - 1] == Decimal(n / 10);
    }
  }

  lemma IntegerOfText(i: int)
    ensures Integer(IntText(i)) == Some(i)
  {
    DigitsOfDecimal(if i < 0 then -i else i);
    hide Digits, Decimal;
    if i < 0 { assert ("-" + Decimal(-i))[1..] == Decimal(-i); }
  }

  /** No zero stands before another digit, and a sign only before a negative number. */
  lemma IntIsCanonical(i: int)
    ensures IntText(0) == "0"
    ensures i > 0 ==> IntText(i)[0] != '0' && IntText(i)[0] != '-'
    ensures i < 0 ==> IntText(i)[0] == '-' && IntText(i)[1..] == IntText(-i)
  {
    if i > 0 { NoLeadingZero(i); }
  }

  lemma {:induction false} NoLeadingZero(n: nat)
    requires n > 0
    ensures Decimal(n)[0] != '0'
  {
    if n >= 10 { NoLeadingZero(n / 10); }
  }

  lemma IntIsNoWord(i: int)
    ensures IntText(i) != "true" && IntText(i) != "false"
  {
    var s := IntText(i);
    hide IntText;
    assert s[0] == '-' || '0' <= s[0] <= '9';
    assert "true"[0] == 't' && "false"[0] == 'f';
  }

  /** Every value is recovered from what is written for it. */
  lemma ValueReadBack(v: Value)
    ensures ValueOf(ValueItem(v)) == Some(v)
  {
    match v
    case IntValue(i) =>
      IntegerOfText(i);
      IntIsNoWord(i);
      hide Integer, IntText;
    case BoolValue(b) =>
      assert "true"[0] != "false"[0];
    case StringValue(_) =>
  }

  lemma {:induction false} FieldsReadBack(fs: seq<Field>, rest: seq<Item>)
    requires FieldsOf(rest) == ([], rest)
    ensures FieldsOf(FieldsItems(fs) + rest) == (fs, rest)
    decreases |fs|
  {
    var items := FieldsItems(fs) + rest;
    if fs == [] {
      assert items == rest;
    } else {
      FieldsReadBack(fs[1..], rest);
      ValueReadBack(fs[0].value);
      hide ValueOf, ValueItem;
      assert items == [Item(String, fs[0].key), ValueItem(fs[0].value)] + (FieldsItems(fs[1..]) + rest);
      assert items[2..] == FieldsItems(fs[1..]) + rest;
      assert [Field(fs[0].key, fs[0].value)] + fs[1..] == fs;
    }
  }

  /** No field begins where a section does. */
  lemma NoFieldAhead(ss: seq<Section>)
    ensures FieldsOf(SectionsItems(ss)) == ([], SectionsItems(ss))
  {
    if ss != [] {
      var items := SectionsItems(ss);
      assert items[1] == Item(Object, "");
      assert ValueOf(items[1]) == None;
    }
  }

  lemma SectionsSplit(ss: seq<Section>)
    requires ss != []
    ensures SectionsItems(ss) ==
      [Item(String, ss[0].name), Item(Object, "")] + (FieldsItems(ss[0].fields) + SectionsItems(ss[1..]))
    ensures [Section(ss[0].name, ss[0].fields)] + ss[1..] == ss
  {
    hide FieldsItems;
  }

  lemma SectionAhead(name: string, rest: seq<Item>)
    ensures var fs := FieldsOf(rest);
      SectionsOf([Item(String, name), Item(Object, "")] + rest) ==
      match SectionsOf(fs.1)
      case Some(ss) => Some([Section(name, fs.0)] + ss)
      case None => None
  {
    hide FieldsOf;
    var items := [Item(String, name), Item(Object, "")] + rest;
    assert items[2..] == rest;
  }

  lemma {:induction false} SectionsReadBack(ss: seq<Section>)
    ensures SectionsOf(SectionsItems(ss)) == Some(ss)
    decreases |ss|
  {
    if ss != [] {
      hide *;
      SectionsSplit(ss);
      SectionsReadBack(ss[1..]);
      NoFieldAhead(ss[1..]);
      FieldsReadBack(ss[0].fields, SectionsItems(ss[1..]));
      SectionAhead(ss[0].name, FieldsItems(ss[0].fields) + SectionsItems(ss[1..]));
    }
  }

  lemma DocumentReadBack(ss: seq<Section>, token: string)
    ensures DocumentOf(DocumentItems(ss, token)) == Some((ss, token))
  {
    SectionsReadBack(ss);
    hide SectionsItems, SectionsOf;
    var items, n := DocumentItems(ss, token), |DocumentItems(ss, token)|;
    assert items[..3] == [Item(Object, ""), Item(String, "state"), Item(Object, "")];
    assert items[3..n - 2] == SectionsItems(ss);
  }

  /** With enough tokens, parsing a built document gives back the very sections, keys and values it
      was built from, and its client token. */
  lemma BuiltIsReadBack(ss: seq<Section>, token: string, cap: nat)
    requires ss != [] && PlainSections(ss) && Plain(token) && DocumentSize(ss) <= cap
    ensures ReadBack(Document(ss, token), cap) == Some((ss, token))
  {
    var m' := ReadDocument(ss, token, cap);
    var js := Document(ss, token);
    RunValid(Current, js, INITIAL, cap);
    RunRefines(Current, js, INITIAL, cap);
    DocumentReadBack(ss, token);
    hide Document, DocumentItems, DocumentOf, Execute, Spell, Run, Abs, DocumentSize;
  }

  /** A client token is the id, a hyphen, and the sequence number as a 32-bit integer with a sign; so
      tokens of the same id and different numbers differ. */
  lemma TokenReadBack(id: string, n: nat)
    requires n < 0x1_0000_0000
    ensures var t := ShadowBuilder.ClientToken(id, n); var k := |id|;
      && k < |t| && t[..k] == id && t[k] == '-'
      && var i := Integer(t[k + 1..]);
         i.Some? && -0x8000_0000 <= i.value < 0x8000_0000 && (i.value == n || i.value == n - 0x1_0000_0000)
  {
    var i := ShadowBuilder.AsInt32(n);
    IntegerOfText(i);
    var t := ShadowBuilder.ClientToken(id, n);
    assert t[|id| + 1..] == IntText(i);
    hide Integer, IntText;
  }
}
