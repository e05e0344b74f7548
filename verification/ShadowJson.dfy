/** The shadow document builder and the extraction of the client token.

    A document is written by init, any number of desired/reported sections, and finalize; each
    step overwrites the trailing comma of the one before.  The main theorem parses the text
    back with the tokenizer. */
module ShadowJson {
  import opened JsonTokens
  import opened Jsmn
  import opened JsmnStack
  import opened JsmnAccept
  import opened Wrappers

  // ---------------------------------------------------------------------------
  // What is written

  /** The value types of jsonStruct_t that are modelled: integers of any width, booleans, strings. */
  datatype Value = IntValue(i: int) | BoolValue(b: bool) | StringValue(s: string)

  datatype Field = Field(key: string, value: Value)

  /** name is "desired" or "reported". */
  datatype Section = Section(name: string, fields: seq<Field>)

  const TOKEN_KEY := "clientToken"

  function Digit(d: nat): char
    requires d < 10
  {
    '0' + d as char
  }

  function Decimal(n: nat): (s: string)
    ensures s != "" && forall k :: 0 <= k < |s| ==> '0' <= s[k] <= '9'
  {
    if n < 10 then [Digit(n)] else Decimal(n / 10) + [Digit(n % 10)]
  }

  /** Integer conversion of printf. */
  function IntText(i: int): (s: string)
    ensures s != "" && forall k :: 0 <= k < |s| ==> s[k] == '-' || '0' <= s[k] <= '9'
  {
    if i < 0 then "-" + Decimal(-i) else Decimal(i)
  }

  function ValueText(v: Value): string {
    match v
    case IntValue(i) => IntText(i)
    case BoolValue(b) => if b then "true" else "false"
    case StringValue(s) => "\"" + s + "\""
  }

  function FieldText(f: Field): string {
    "\"" + f.key + "\":" + ValueText(f.value)
  }

  /** The fields of a section, separated by commas. */
  function FieldsText(fs: seq<Field>): string
    decreases |fs|
  {
    if fs == [] then ""
    else if |fs| == 1 then FieldText(fs[0])
    else FieldText(fs[0]) + "," + FieldsText(fs[1..])
  }

  function SectionText(s: Section): string {
    "\"" + s.name + "\":{" + FieldsText(s.fields) + "}"
  }

  function SectionsText(ss: seq<Section>): string
    decreases |ss|
  {
    if ss == [] then ""
    else if |ss| == 1 then SectionText(ss[0])
    else SectionText(ss[0]) + "," + SectionsText(ss[1..])
  }

  const HEAD := "{\"state\":{"
  const TAIL := "}, \"clientToken\":\""
  const CLOSE := "\"}"

  function Document(ss: seq<Section>, token: string): string {
    HEAD + SectionsText(ss) + TAIL + token + CLOSE
  }

  /** A string the builder can embed as it is. */
  predicate Plain(s: string) {
    forall k :: 0 <= k < |s| ==> s[k] != '"' && s[k] != '\\' && s[k] != '\0'
  }

  predicate PlainField(f: Field) {
    Plain(f.key) && (f.value.StringValue? ==> Plain(f.value.s))
  }

  predicate PlainSection(s: Section) {
    && (s.name == "desired" || s.name == "reported")
    && s.fields != []
    && forall k :: 0 <= k < |s.fields| ==> PlainField(s.fields[k])
  }

  predicate PlainSections(ss: seq<Section>) {
    forall k :: 0 <= k < |ss| ==> PlainSection(ss[k])
  }

  // ---------------------------------------------------------------------------
  // What is read back

  /** A token as a reader sees it: its kind and, unless it is a container, its text. */
  datatype Item = Item(kind: Kind, text: string)

  function ItemOf(js: string, s: Shape): Item {
    if s.kind.IsContainer() then Item(s.kind, "")
    else if 0 <= s.start <= s.end <= |js| then Item(s.kind, js[s.start..s.end])
    else Item(s.kind, "")
  }

  function Spell(js: string, shapes: seq<Shape>): (r: seq<Item>)
    ensures |r| == |shapes|
    ensures forall k :: 0 <= k < |shapes| ==> r[k] == ItemOf(js, shapes[k])
    decreases |shapes|
  {
    if shapes == [] then [] else Spell(js, shapes[..|shapes| - 1]) + [ItemOf(js, shapes[|shapes| - 1])]
  }

  function ValueItem(v: Value): Item {
    match v
    case StringValue(s) => Item(String, s)
    case _ => Item(Primitive, ValueText(v))
  }

  function FieldItems(f: Field): seq<Item> {
    [Item(String, f.key), ValueItem(f.value)]
  }

  function FieldsItems(fs: seq<Field>): seq<Item>
    decreases |fs|
  {
    if fs == [] then [] else FieldItems(fs[0]) + FieldsItems(fs[1..])
  }

  function SectionItems(s: Section): seq<Item> {
    [Item(String, s.name), Item(Object, "")] + FieldsItems(s.fields)
  }

  function SectionsItems(ss: seq<Section>): seq<Item>
    decreases |ss|
  {
    if ss == [] then [] else SectionItems(ss[0]) + SectionsItems(ss[1..])
  }

  /** Everything a document says, in order. */
  function DocumentItems(ss: seq<Section>, token: string): seq<Item> {
    [Item(Object, ""), Item(String, "state"), Item(Object, "")]
    + SectionsItems(ss)
    + [Item(String, TOKEN_KEY), Item(String, token)]
  }

  // ---------------------------------------------------------------------------
  // Reading one piece of text

  /** The text t stands at position p. */
  predicate At(js: string, p: nat, t: string) {
    p + |t| <= |js| && js[p..p + |t|] == t
  }

  lemma AtSplit(js: string, p: nat, a: string, b: string)
    requires At(js, p, a + b)
    ensures At(js, p, a) && At(js, p + |a|, b)
  {
    var t := a + b;
    assert js[p..p + |a|] == t[..|a|];
    assert js[p + |a|..p + |t|] == t[|a|..];
  }

  lemma AtChar(js: string, p: nat, t: string)
    requires At(js, p, t) && t != ""
    ensures p < |js| && js[p] == t[0]
  {
    assert js[p] == js[p..p + |t|][0];
  }

  lemma {:induction false} ScanPlain(js: string, p: nat, s: string)
    requires At(js, p, s + "\"") && Plain(s)
    ensures ScanString(Current, js, p) == Found(p + |s|)
    decreases |s|
  {
    AtChar(js, p, s + "\"");
    if s != "" {
      assert s + "\"" == [s[0]] + (s[1..] + "\"");
      AtSplit(js, p, [s[0]], s[1..] + "\"");
      assert Plain(s[1..]);
      ScanPlain(js, p + 1, s[1..]);
    }
  }

  /** A character of a number or of a truth value. */
  predicate Bare(c: char) {
    c == '-' || '0' <= c <= '9' || 'a' <= c <= 'z'
  }

  lemma {:induction false} ScanBare(js: string, p: nat, s: string, stop: char)
    requires At(js, p, s + [stop]) && (stop == ',' || stop == '}')
    requires forall k :: 0 <= k < |s| ==> Bare(s[k])
    ensures ScanPrimitive(Current, js, p) == Found(p + |s|)
    decreases |s|
  {
    AtChar(js, p, s + [stop]);
    if s != "" {
      assert s + [stop] == [s[0]] + (s[1..] + [stop]);
      AtSplit(js, p, [s[0]], s[1..] + [stop]);
      ScanBare(js, p + 1, s[1..], stop);
    }
  }

  /** m' continues the run of m, having read up to `pos` and recorded `items`. */
  ghost predicate Reads(js: string, cap: nat, m: Machine, m': Machine, pos: nat, items: seq<Item>) {
    && m.Wf() && m'.Wf()
    && m'.pos == pos && m'.stack == m.stack
    && |m.shapes| <= |m'.shapes| && m'.shapes[..|m.shapes|] == m.shapes
    && Spell(js, m'.shapes) == Spell(js, m.shapes) + items
    && Execute(Current, js, m, cap) == Execute(Current, js, m', cap)
  }

  lemma ReadsTrans(js: string, cap: nat, a: Machine, b: Machine, c: Machine, p: nat, i: seq<Item>, q: nat, j: seq<Item>)
    requires Reads(js, cap, a, b, p, i) && Reads(js, cap, b, c, q, j)
    ensures Reads(js, cap, a, c, q, i + j)
  {
    hide Execute, Spell;
    assert c.shapes[..|a.shapes|] == c.shapes[..|b.shapes|][..|a.shapes|];
    assert Spell(js, a.shapes) + i + j == Spell(js, a.shapes) + (i + j);
  }

  /** One move of the machine that appends at most one token. */
  lemma Moves(js: string, cap: nat, m: Machine, l: Lexeme)
    requires m.Wf() && !AtEnd(js, m.pos) && l == Lex(Current, js, m.pos) && AdvanceOn(l, m, cap).Next?
    ensures Execute(Current, js, m, cap) == Execute(Current, js, AdvanceOn(l, m, cap).m, cap)
  {
    hide Lex;
  }

  lemma SpellAppend(js: string, shapes: seq<Shape>, s: Shape)
    ensures Spell(js, shapes + [s]) == Spell(js, shapes) + [ItemOf(js, s)]
  {
    assert (shapes + [s])[..|shapes|] == shapes;
  }

  lemma ReadString(js: string, cap: nat, m: Machine, s: string) returns (m': Machine)
    requires m.Wf() && |m.shapes| < cap && At(js, m.pos, "\"" + s + "\"") && Plain(s)
    ensures m'.Wf() && m'.pos == m.pos + |s| + 2
    ensures Reads(js, cap, m, m', m.pos + |s| + 2, [Item(String, s)])
    ensures |m'.shapes| == |m.shapes| + 1
  {
    var p := m.pos + 1;
    assert "\"" + s + "\"" == "\"" + (s + "\"");
    AtSplit(js, m.pos, "\"", s + "\"");
    AtSplit(js, p, s, "\"");
    ScanPlain(js, p, s);
    var l := Atom(String, p, p + |s|, p + |s| + 1);
    AtChar(js, m.pos, "\"");
    assert Lex(Current, js, m.pos) == l;
    Moves(js, cap, m, l);
    m' := AdvanceOn(l, m, cap).m;
    SpellAppend(js, m.shapes, Shape(String, p, p + |s|));
  }

  lemma BareLexes(js: string, p: nat, l: Lexeme)
    requires !AtEnd(js, p) && Bare(js[p])
    requires l.Atom? && ScanPrimitive(Current, js, p) == Found(l.end) && l == Atom(Primitive, p, l.end, l.end)
    ensures Lex(Current, js, p) == l
  {
  }

  lemma ReadBare(js: string, cap: nat, m: Machine, s: string, stop: char) returns (m': Machine)
    requires m.Wf() && |m.shapes| < cap && At(js, m.pos, s + [stop]) && s != "" && (stop == ',' || stop == '}')
    requires forall k :: 0 <= k < |s| ==> Bare(s[k])
    ensures m'.Wf() && m'.pos == m.pos + |s|
    ensures Reads(js, cap, m, m', m.pos + |s|, [Item(Primitive, s)])
    ensures |m'.shapes| == |m.shapes| + 1
  {
    var p := m.pos;
    AtSplit(js, p, s, [stop]);
    AtChar(js, p, s);
    ScanBare(js, p, s, stop);
    var l := Atom(Primitive, p, p + |s|, p + |s|);
    BareLexes(js, p, l);
    hide ScanPrimitive, Lex, ScanString, Execute;
    Moves(js, cap, m, l);
    m' := AdvanceOn(l, m, cap).m;
    SpellAppend(js, m.shapes, Shape(Primitive, p, p + |s|));
  }

  lemma ReadSkip(js: string, cap: nat, m: Machine, c: char) returns (m': Machine)
    requires m.Wf() && At(js, m.pos, [c]) && (c == ':' || c == ',' || c == ' ')
    ensures m'.Wf() && m'.pos == m.pos + 1
    ensures Reads(js, cap, m, m', m.pos + 1, []) && m'.shapes == m.shapes
  {
    AtChar(js, m.pos, [c]);
    Moves(js, cap, m, Lex(Current, js, m.pos));
    m' := m.(pos := m.pos + 1);
  }

  /** Braces around a piece of text that reads as `items`. */
  lemma ReadBraces(js: string, cap: nat, m: Machine, inner: Machine, items: seq<Item>) returns (m': Machine)
    requires m.Wf() && |m.shapes| < cap && At(js, m.pos, "{")
    requires Reads(js, cap, Push(m, Object), inner, inner.pos, items) && At(js, inner.pos, "}")
    ensures m'.Wf() && m'.pos == inner.pos + 1
    ensures Reads(js, cap, m, m', inner.pos + 1, [Item(Object, "")] + items)
    ensures |m'.shapes| == |inner.shapes|
  {
    hide Spell;
    var n := |m.shapes|;
    var start := Push(m, Object);
    AtChar(js, m.pos, "{");
    AtChar(js, inner.pos, "}");
    assert Lex(Current, js, m.pos) == Open(Object);
    Moves(js, cap, m, Open(Object));
    SpellAppend(js, m.shapes, Shape(Object, m.pos, -1));
    assert inner.shapes[n] == start.shapes[n] by { assert inner.shapes[..n + 1][n] == start.shapes[n]; }
    assert inner.stack[..|inner.stack| - 1] == m.stack;
    assert Lex(Current, js, inner.pos) == Close(Object);
    Moves(js, cap, inner, Close(Object));
    m' := Pop(inner);
    assert m'.shapes[..n] == m.shapes by {
      assert inner.shapes[..n + 1][..n] == m.shapes;
    }
    assert Spell(js, m'.shapes) == Spell(js, inner.shapes);
    assert Spell(js, m.shapes) + [Item(Object, "")] + items == Spell(js, m.shapes) + ([Item(Object, "")] + items);
  }

  // ---------------------------------------------------------------------------
  // Reading the document

  lemma ReadValue(js: string, cap: nat, m: Machine, v: Value, stop: char) returns (m': Machine)
    requires m.Wf() && |m.shapes| < cap && At(js, m.pos, ValueText(v) + [stop]) && (stop == ',' || stop == '}')
    requires v.StringValue? ==> Plain(v.s)
    ensures m'.Wf() && m'.pos == m.pos + |ValueText(v)|
    ensures Reads(js, cap, m, m', m.pos + |ValueText(v)|, [ValueItem(v)])
    ensures |m'.shapes| == |m.shapes| + 1
  {
    AtSplit(js, m.pos, ValueText(v), [stop]);
    match v
    case StringValue(s) => m' := ReadString(js, cap, m, s);
    case _ => m' := ReadBare(js, cap, m, ValueText(v), stop);
  }

  lemma ReadField(js: string, cap: nat, m: Machine, f: Field, stop: char) returns (m': Machine)
    requires m.Wf() && |m.shapes| + 2 <= cap && At(js, m.pos, FieldText(f) + [stop]) && (stop == ',' || stop == '}')
    requires PlainField(f)
    ensures m'.Wf() && m'.pos == m.pos + |FieldText(f)|
    ensures Reads(js, cap, m, m', m.pos + |FieldText(f)|, FieldItems(f))
    ensures |m'.shapes| == |m.shapes| + 2
  {
    hide Reads, At, ValueText, Spell, Execute;
    var key := "\"" + f.key + "\"";
    assert FieldText(f) + [stop] == key + (":" + (ValueText(f.value) + [stop]));
    AtSplit(js, m.pos, key, ":" + (ValueText(f.value) + [stop]));
    AtSplit(js, m.pos + |key|, ":", ValueText(f.value) + [stop]);
    var a := ReadString(js, cap, m, f.key);
    var b := ReadSkip(js, cap, a, ':');
    m' := ReadValue(js, cap, b, f.value, stop);
    ReadsTrans(js, cap, m, a, b, a.pos, [Item(String, f.key)], b.pos, []);
    ReadsTrans(js, cap, m, b, m', b.pos, [Item(String, f.key)] + [], m'.pos, [ValueItem(f.value)]);
    assert [Item(String, f.key)] + [] + [ValueItem(f.value)] == FieldItems(f);
  }

  lemma {:induction false} ReadFields(js: string, cap: nat, m: Machine, fs: seq<Field>) returns (m': Machine)
    requires m.Wf() && fs != [] && |m.shapes| + 2 * |fs| <= cap && At(js, m.pos, FieldsText(fs) + "}")
    requires forall k :: 0 <= k < |fs| ==> PlainField(fs[k])
    ensures m'.Wf() && m'.pos == m.pos + |FieldsText(fs)|
    ensures Reads(js, cap, m, m', m.pos + |FieldsText(fs)|, FieldsItems(fs))
    ensures |m'.shapes| == |m.shapes| + 2 * |fs|
    decreases |fs|
  {
    hide Reads, At, Spell, FieldText, Execute, PlainField;
    if |fs| == 1 {
      m' := ReadField(js, cap, m, fs[0], '}');
      assert FieldsItems(fs[1..]) == [];
      assert FieldsItems(fs) == FieldItems(fs[0]);
    } else {
      var first, rest := FieldText(fs[0]), FieldsText(fs[1..]);
      assert FieldsText(fs) + "}" == (first + ",") + (rest + "}");
      AtSplit(js, m.pos, first + ",", rest + "}");
      AtSplit(js, m.pos, first, ",");
      var a := ReadField(js, cap, m, fs[0], ',');
      var b := ReadSkip(js, cap, a, ',');
      m' := ReadFields(js, cap, b, fs[1..]);
      ReadsTrans(js, cap, m, a, b, a.pos, FieldItems(fs[0]), b.pos, []);
      ReadsTrans(js, cap, m, b, m', b.pos, FieldItems(fs[0]) + [], m'.pos, FieldsItems(fs[1..]));
      assert FieldItems(fs[0]) + [] + FieldsItems(fs[1..]) == FieldsItems(fs);
    }
  }

  /** How many tokens a section asks for. */
  function SectionSize(s: Section): nat {
    2 + 2 * |s.fields|
  }

  function SectionsSize(ss: seq<Section>): nat
    decreases |ss|
  {
    if ss == [] then 0 else SectionSize(ss[0]) + SectionsSize(ss[1..])
  }

  /** How many tokens a document asks for. */
  function DocumentSize(ss: seq<Section>): nat {
    5 + SectionsSize(ss)
  }

  lemma ReadSection(js: string, cap: nat, m: Machine, s: Section) returns (m': Machine)
    requires m.Wf() && |m.shapes| + SectionSize(s) <= cap && At(js, m.pos, SectionText(s)) && PlainSection(s)
    ensures m'.Wf() && m'.pos == m.pos + |SectionText(s)|
    ensures Reads(js, cap, m, m', m.pos + |SectionText(s)|, SectionItems(s))
    ensures |m'.shapes| == |m.shapes| + SectionSize(s)
  {
    hide Reads, At, Spell, Execute, FieldsText, FieldsItems, PlainField;
    var key, body := "\"" + s.name + "\"", FieldsText(s.fields) + "}";
    assert SectionText(s) == key + (":" + ("{" + body));
    AtSplit(js, m.pos, key, ":" + ("{" + body));
    AtSplit(js, m.pos + |key|, ":", "{" + body);
    AtSplit(js, m.pos + |key| + 1, "{", body);
    AtSplit(js, m.pos + |key| + 2, FieldsText(s.fields), "}");
    var a := ReadString(js, cap, m, s.name);
    var b := ReadSkip(js, cap, a, ':');
    var inner := ReadFields(js, cap, Push(b, Object), s.fields);
    m' := ReadBraces(js, cap, b, inner, FieldsItems(s.fields));
    ReadsTrans(js, cap, m, a, b, a.pos, [Item(String, s.name)], b.pos, []);
    ReadsTrans(js, cap, m, b, m', b.pos, [Item(String, s.name)] + [],
               m'.pos, [Item(Object, "")] + FieldsItems(s.fields));
    assert [Item(String, s.name)] + [] + ([Item(Object, "")] + FieldsItems(s.fields)) == SectionItems(s);
  }

  lemma {:induction false} ReadSections(js: string, cap: nat, m: Machine, ss: seq<Section>) returns (m': Machine)
    requires m.Wf() && ss != [] && |m.shapes| + SectionsSize(ss) <= cap && At(js, m.pos, SectionsText(ss))
    requires PlainSections(ss)
    ensures m'.Wf() && m'.pos == m.pos + |SectionsText(ss)|
    ensures Reads(js, cap, m, m', m.pos + |SectionsText(ss)|, SectionsItems(ss))
    ensures |m'.shapes| == |m.shapes| + SectionsSize(ss)
    decreases |ss|
  {
    hide Reads, At, Spell, Execute, SectionText, SectionItems, PlainSection;
    if |ss| == 1 {
      m' := ReadSection(js, cap, m, ss[0]);
      assert SectionsItems(ss[1..]) == [] && SectionsSize(ss[1..]) == 0;
      assert SectionsItems(ss) == SectionItems(ss[0]);
    } else {
      var first, rest := SectionText(ss[0]), SectionsText(ss[1..]);
      assert SectionsText(ss) == first + ("," + rest);
      AtSplit(js, m.pos, first, "," + rest);
      AtSplit(js, m.pos + |first|, ",", rest);
      var a := ReadSection(js, cap, m, ss[0]);
      var b := ReadSkip(js, cap, a, ',');
      m' := ReadSections(js, cap, b, ss[1..]);
      ReadsTrans(js, cap, m, a, b, a.pos, SectionItems(ss[0]), b.pos, []);
      ReadsTrans(js, cap, m, b, m', b.pos, SectionItems(ss[0]) + [], m'.pos, SectionsItems(ss[1..]));
      assert SectionItems(ss[0]) + [] + SectionsItems(ss[1..]) == SectionsItems(ss);
    }
  }

  /** The member "clientToken" and its value. */
  lemma ReadTokenPair(js: string, cap: nat, m: Machine, token: string) returns (m': Machine)
    requires m.Wf() && |m.shapes| + 2 <= cap && Plain(token)
    requires At(js, m.pos, ", " + ("\"clientToken\"" + (":" + ("\"" + token + "\""))))
    ensures m'.Wf() && m'.pos == m.pos + |token| + 18
    ensures Reads(js, cap, m, m', m.pos + |token| + 18, [Item(String, TOKEN_KEY), Item(String, token)])
    ensures |m'.shapes| == |m.shapes| + 2
  {
    hide Reads, At, Spell, Execute;
    var value := "\"" + token + "\"";
    var key := "\"" + TOKEN_KEY + "\"";
    assert key == "\"clientToken\"";
    assert ", " + (key + (":" + value)) == "," + (" " + (key + (":" + value)));
    AtSplit(js, m.pos, ",", " " + (key + (":" + value)));
    AtSplit(js, m.pos + 1, " ", key + (":" + value));
    AtSplit(js, m.pos + 2, key, ":" + value);
    AtSplit(js, m.pos + 15, ":", value);
    var a := ReadSkip(js, cap, m, ',');
    var b := ReadSkip(js, cap, a, ' ');
    var c := ReadString(js, cap, b, TOKEN_KEY);
    var d := ReadSkip(js, cap, c, ':');
    m' := ReadString(js, cap, d, token);
    ReadsTrans(js, cap, m, a, b, a.pos, [], b.pos, []);
    ReadsTrans(js, cap, m, b, c, b.pos, [] + [], c.pos, [Item(String, TOKEN_KEY)]);
    ReadsTrans(js, cap, m, c, d, c.pos, [] + [] + [Item(String, TOKEN_KEY)], d.pos, []);
    ReadsTrans(js, cap, m, d, m', d.pos, [] + [] + [Item(String, TOKEN_KEY)] + [], m'.pos, [Item(String, token)]);
    assert [] + [] + [Item(String, TOKEN_KEY)] + [] + [Item(String, token)] ==
           [Item(String, TOKEN_KEY), Item(String, token)];
  }

  /** "state" and the object that holds the sections. */
  lemma ReadState(js: string, cap: nat, m: Machine, ss: seq<Section>) returns (m': Machine)
    requires m.Wf() && |m.shapes| + 2 + SectionsSize(ss) <= cap && ss != [] && PlainSections(ss)
    requires At(js, m.pos, "\"state\"" + (":" + ("{" + (SectionsText(ss) + "}"))))
    ensures m'.Wf() && m'.pos == m.pos + |SectionsText(ss)| + 10
    ensures Reads(js, cap, m, m', m'.pos, [Item(String, "state"), Item(Object, "")] + SectionsItems(ss))
    ensures |m'.shapes| == |m.shapes| + 2 + SectionsSize(ss)
  {
    hide Reads, At, Spell, Execute, SectionsText, SectionsItems, SectionsSize, PlainSections;
    var key, body := "\"" + "state" + "\"", SectionsText(ss) + "}";
    assert key == "\"state\"";
    AtSplit(js, m.pos, key, ":" + ("{" + body));
    AtSplit(js, m.pos + 7, ":", "{" + body);
    AtSplit(js, m.pos + 8, "{", body);
    AtSplit(js, m.pos + 9, SectionsText(ss), "}");
    var a := ReadString(js, cap, m, "state");
    var b := ReadSkip(js, cap, a, ':');
    var inner := ReadSections(js, cap, Push(b, Object), ss);
    m' := ReadBraces(js, cap, b, inner, SectionsItems(ss));
    ReadsTrans(js, cap, m, a, b, a.pos, [Item(String, "state")], b.pos, []);
    ReadsTrans(js, cap, m, b, m', b.pos, [Item(String, "state")] + [], m'.pos, [Item(Object, "")] + SectionsItems(ss));
    assert [Item(String, "state")] + [] + ([Item(Object, "")] + SectionsItems(ss)) ==
      [Item(String, "state"), Item(Object, "")] + SectionsItems(ss);
  }

  function StateText(ss: seq<Section>): string {
    "\"state\"" + (":" + ("{" + (SectionsText(ss) + "}")))
  }

  function TokenText(token: string): string {
    ", " + ("\"clientToken\"" + (":" + ("\"" + token + "\"")))
  }

  lemma DocumentParts(ss: seq<Section>, token: string)
    ensures var js := Document(ss, token); var p := 1 + |StateText(ss)|; var q := p + |TokenText(token)|;
      && At(js, 0, "{") && At(js, 1, StateText(ss)) && At(js, p, TokenText(token)) && At(js, q, "}")
      && q + 1 == |js|
  {
    hide SectionsText;
    var js, state, pair := Document(ss, token), StateText(ss), TokenText(token);
    assert HEAD == "{" + ("\"state\"" + (":" + "{"));
    assert TAIL == "}" + (", " + ("\"clientToken\"" + (":" + "\"")));
    assert js == "{" + (state + (pair + "}"));
    AtSplit(js, 0, "{", state + (pair + "}"));
    AtSplit(js, 1, state, pair + "}");
    AtSplit(js, 1 + |state|, pair, "}");
  }

  /** With enough tokens, parsing a document succeeds and reads back everything it says. */
  lemma ReadDocument(ss: seq<Section>, token: string, cap: nat) returns (m': Machine)
    requires ss != [] && PlainSections(ss) && Plain(token) && DocumentSize(ss) <= cap
    ensures var js := Document(ss, token);
      && m'.Wf()
      && Execute(Current, js, Abs(INITIAL), cap) == Stop(m', DocumentSize(ss))
      && |m'.shapes| == DocumentSize(ss)
      && Spell(js, m'.shapes) == DocumentItems(ss, token)
  {
    hide Reads, At, Spell, SectionsText, SectionsItems, SectionsSize, PlainSections, Document, Execute;
    var js := Document(ss, token);
    DocumentParts(ss, token);
    var m := Machine(0, [], []);
    assert Abs(INITIAL) == m;
    var top := Push(m, Object);
    var a := ReadState(js, cap, top, ss);
    var b := ReadTokenPair(js, cap, a, token);
    var items := [Item(String, "state"), Item(Object, "")] + SectionsItems(ss);
    var last := [Item(String, TOKEN_KEY), Item(String, token)];
    ReadsTrans(js, cap, top, a, b, a.pos, items, b.pos, last);
    m' := ReadBraces(js, cap, m, b, items + last);
    FinishDocument(js, cap, m, m', [Item(Object, "")] + (items + last));
    assert [Item(Object, "")] + (items + last) == DocumentItems(ss, token);
  }

  lemma FinishDocument(js: string, cap: nat, m: Machine, m': Machine, items: seq<Item>)
    requires m == Machine(0, [], []) && Reads(js, cap, m, m', |js|, items)
    ensures Execute(Current, js, m, cap) == Stop(m', |m'.shapes|) && Spell(js, m'.shapes) == items
  {
  }

  // ---------------------------------------------------------------------------
  // Extracting the client token

  /** Size of the static token array of the shadow parser. */
  const MAX_TOKENS: nat := 120

  /** jsoneq: the token is a string that spells the key. */
  predicate Spells(js: string, t: Token, key: string) {
    && t.kind == String && t.end - t.start == |key|
    && 0 <= t.start <= t.end <= |js| && js[t.start..t.end] == key
  }

  /** First index from i on whose token spells the key, or |toks|. */
  function FindKey(js: string, toks: seq<Token>, i: nat, key: string): (k: nat)
    requires i <= |toks|
    ensures i <= k <= |toks|
    ensures k < |toks| ==> Spells(js, toks[k], key)
    ensures forall j :: i <= j < k ==> !Spells(js, toks[j], key)
    decreases |toks| - i
  {
    if i == |toks| || Spells(js, toks[i], key) then i else FindKey(js, toks, i + 1, key)
  }

  /** The tokens of a fresh parse if it succeeds with an object at the root. */
  function ParsedObject(js: string, cap: nat): Option<seq<Token>> {
    var o := Run(Current, js, INITIAL, cap);
    if o.Go? || o.rc < 1 || o.st.toks == [] || o.st.toks[0].kind != Object then None else Some(o.st.toks)
  }

  /** The smallest text that is accepted. */
  lemma EmptyObject(cap: nat)
    requires cap > 0
    ensures ParsedObject("{}", cap) == Some([Token(Object, 0, 2, 0)])
  {
    var js := "{}";
    var a, b := State(1, 0, [Token(Object, 0, -1, 0)]), State(2, -1, [Token(Object, 0, 2, 0)]);
    assert Step(Current, js, INITIAL, cap) == Go(a) by {
      assert Lex(Current, js, 0) == Open(Object);
    }
    assert Step(Current, js, a, cap) == Go(b) by {
      assert Lex(Current, js, 1) == Close(Object);
    }
    assert Run(Current, js, b, cap) == Halt(b, 1);
    hide Step;
    assert Run(Current, js, a, cap) == Halt(b, 1);
    assert Run(Current, js, INITIAL, cap) == Halt(b, 1);
  }

  /** The token after the key; its length passes through an 8-bit variable. */
  function TokenText8(js: string, t: Token): string {
    var length := (t.end - t.start) % 256;
    if 0 <= t.start && t.start + length <= |js| then js[t.start..t.start + length] else ""
  }

  /** The key is found, but as the last token of the document. */
  predicate KeyDangles(js: string, cap: nat) {
    var p := ParsedObject(js, cap);
    p.Some? && FindKey(js, p.value, 1, TOKEN_KEY) == |p.value| - 1
  }

  /** extractClientToken, unless the key dangles. */
  function Extracted(js: string, cap: nat): Option<string> {
    var p := ParsedObject(js, cap);
    if p.None? then None
    else
      var i := FindKey(js, p.value, 1, TOKEN_KEY);
      if i + 1 < |p.value| then Some(TokenText8(js, p.value[i + 1])) else None
  }

  /** No key and no string value is the token key itself. */
  predicate NoTokenKey(ss: seq<Section>) {
    forall j, k :: 0 <= j < |ss| && 0 <= k < |ss[j].fields| ==>
      ss[j].fields[k].key != TOKEN_KEY && ss[j].fields[k].value != StringValue(TOKEN_KEY)
  }

  lemma {:induction false} NoKeyInFields(fs: seq<Field>)
    requires forall k :: 0 <= k < |fs| ==> fs[k].key != TOKEN_KEY && fs[k].value != StringValue(TOKEN_KEY)
    ensures forall k :: 0 <= k < |FieldsItems(fs)| ==> FieldsItems(fs)[k] != Item(String, TOKEN_KEY)
    decreases |fs|
  {
    if fs != [] { NoKeyInFields(fs[1..]); }
  }

  lemma {:induction false} NoKeyInSections(ss: seq<Section>)
    requires PlainSections(ss) && NoTokenKey(ss)
    ensures forall k :: 0 <= k < |SectionsItems(ss)| ==> SectionsItems(ss)[k] != Item(String, TOKEN_KEY)
    decreases |ss|
  {
    if ss != [] {
      assert PlainSection(ss[0]);
      NoKeyInFields(ss[0].fields);
      NoKeyInSections(ss[1..]);
    }
  }

  lemma {:induction false} FieldsItemsSize(fs: seq<Field>)
    ensures |FieldsItems(fs)| == 2 * |fs|
    decreases |fs|
  {
    if fs != [] { FieldsItemsSize(fs[1..]); }
  }

  lemma {:induction false} SectionsItemsSize(ss: seq<Section>)
    ensures |SectionsItems(ss)| == SectionsSize(ss)
    decreases |ss|
  {
    if ss != [] {
      FieldsItemsSize(ss[0].fields);
      SectionsItemsSize(ss[1..]);
    }
  }

  /** What the parser's tokens spell is what the document says. */
  lemma ParseDocument(ss: seq<Section>, token: string, cap: nat)
    requires ss != [] && PlainSections(ss) && Plain(token)
    ensures var js := Document(ss, token); var p := ParsedObject(js, cap);
      && (p.Some? <==> DocumentSize(ss) <= cap)
      && (p.Some? ==> |p.value| == DocumentSize(ss) && Spell(js, Shapes(p.value)) == DocumentItems(ss, token))
  {
    hide Document, DocumentItems, Spell, Execute, SectionsSize, Shapes, PlainSections;
    var js := Document(ss, token);
    var room := if DocumentSize(ss) <= cap then cap else DocumentSize(ss);
    var m' := ReadDocument(ss, token, room);
    var o := Run(Current, js, INITIAL, room);
    RunValid(Current, js, INITIAL, room);
    RunRefines(Current, js, INITIAL, room);
    assert Abs(o.st) == m' && o.rc == DocumentSize(ss);
    if DocumentSize(ss) <= cap {
      RootIsObject(ss, token, js, m'.shapes);
    } else {
      CountingAgrees(Current, js, room);
      CountingAgrees(Current, js, cap);
    }
  }

  lemma RootIsObject(ss: seq<Section>, token: string, js: string, shapes: seq<Shape>)
    requires Spell(js, shapes) == DocumentItems(ss, token)
    ensures shapes != [] && shapes[0].kind == Object
  {
    assert Spell(js, shapes)[0] == ItemOf(js, shapes[0]);
  }

  /** Index from i on of the first item that is the token key, or |items|. */
  function FirstKey(items: seq<Item>, i: nat): (k: nat)
    requires i <= |items|
    ensures i <= k <= |items|
    ensures k < |items| ==> items[k] == Item(String, TOKEN_KEY)
    ensures forall j :: i <= j < k ==> items[j] != Item(String, TOKEN_KEY)
    decreases |items| - i
  {
    if i == |items| || items[i] == Item(String, TOKEN_KEY) then i else FirstKey(items, i + 1)
  }

  /** What is left of a text whose length passes through an 8-bit variable. */
  function Cut8(s: string): string {
    s[..|s| % 256]
  }

  /** What follows the first string of the document that spells the token key, be it a key, a
      value or the key written by finalize. */
  function AfterKey(ss: seq<Section>, token: string): string {
    var items := DocumentItems(ss, token);
    var k := FirstKey(items, 1);
    if k + 1 < |items| then items[k + 1].text else ""
  }

  /** No object follows the token key. */
  predicate NamesObjects(items: seq<Item>) {
    forall i :: 0 <= i < |items| && items[i].kind.IsContainer() ==> i > 0 && items[i - 1] != Item(String, TOKEN_KEY)
  }

  lemma NamesObjectsConcat(a: seq<Item>, b: seq<Item>)
    requires NamesObjects(a) && NamesObjects(b)
    ensures NamesObjects(a + b)
  {
    var c := a + b;
    forall i | 0 <= i < |c| && c[i].kind.IsContainer()
      ensures i > 0 && c[i - 1] != Item(String, TOKEN_KEY)
    {
      if i < |a| {
        assert c[i] == a[i];
      } else {
        assert c[i] == b[i - |a|];
      }
    }
  }

  lemma {:induction false} FieldsNameObjects(fs: seq<Field>)
    ensures NamesObjects(FieldsItems(fs))
    decreases |fs|
  {
    if fs != [] {
      FieldsNameObjects(fs[1..]);
      NamesObjectsConcat(FieldItems(fs[0]), FieldsItems(fs[1..]));
    }
  }

  lemma {:induction false} SectionsNameObjects(ss: seq<Section>)
    requires PlainSections(ss)
    ensures NamesObjects(SectionsItems(ss))
    decreases |ss|
  {
    if ss != [] {
      assert PlainSection(ss[0]);
      var head := [Item(String, ss[0].name), Item(Object, "")];
      assert NamesObjects(head);
      FieldsNameObjects(ss[0].fields);
      NamesObjectsConcat(head, FieldsItems(ss[0].fields));
      SectionsNameObjects(ss[1..]);
      NamesObjectsConcat(SectionItems(ss[0]), SectionsItems(ss[1..]));
    }
  }

  /** The token key occurs in a document, and what follows it is a string or a primitive. */
  lemma KeyHasText(ss: seq<Section>, token: string)
    requires PlainSections(ss)
    ensures var items := DocumentItems(ss, token); var k := FirstKey(items, 1);
      && |items| == DocumentSize(ss) && k + 1 < |items| && !items[k + 1].kind.IsContainer()
  {
    SectionsItemsSize(ss);
    SectionsNameObjects(ss);
    var items := DocumentItems(ss, token);
    var start := [Item(String, "state"), Item(Object, "")];
    var end := [Item(String, TOKEN_KEY), Item(String, token)];
    assert NamesObjects(start) && NamesObjects(end);
    NamesObjectsConcat(start, SectionsItems(ss));
    NamesObjectsConcat(start + SectionsItems(ss), end);
    var rest := start + SectionsItems(ss) + end;
    assert items == [Item(Object, "")] + rest;
    var k := FirstKey(items, 1);
    assert items[|items| - 2] == Item(String, TOKEN_KEY);
    assert items[k + 1] == rest[k] && items[k] == rest[k - 1];
  }

  /** The extraction on any built document: it returns what follows the first string that spells
      the token key, cut to its length modulo 256, if the document asks for no more tokens than
      the parser has; otherwise nothing is extracted. */
  lemma ExtractsAfterKey(ss: seq<Section>, token: string)
    requires ss != [] && PlainSections(ss) && Plain(token)
    ensures var js := Document(ss, token);
      && !KeyDangles(js, MAX_TOKENS)
      && Extracted(js, MAX_TOKENS) ==
         if DocumentSize(ss) <= MAX_TOKENS then Some(Cut8(AfterKey(ss, token))) else None
  {
    hide Document, Run, Shapes, Spell, DocumentItems;
    var js := Document(ss, token);
    ParseDocument(ss, token, MAX_TOKENS);
    if DocumentSize(ss) <= MAX_TOKENS {
      var toks, items := ParsedObject(js, MAX_TOKENS).value, DocumentItems(ss, token);
      TokensNest(Current, js, MAX_TOKENS);
      KeyHasText(ss, token);
      forall k | 0 <= k < |toks|
        ensures ItemOf(js, ShapeOf(toks[k])) == items[k]
      {
        assert Spell(js, Shapes(toks))[k] == ItemOf(js, Shapes(toks)[k]);
      }
      FindsFirstKey(js, toks, items, 1);
      TextOfItem(js, toks[FirstKey(items, 1) + 1]);
    }
  }

  /** Round trip.  The extraction returns exactly the client token if and only if the document
      asks for no more tokens than the parser has and the token is what follows the first string
      that spells the key; so always, within that size, if no key and no string value does. */
  lemma ExtractsWhatWasBuilt(ss: seq<Section>, token: string)
    requires ss != [] && PlainSections(ss) && Plain(token)
    ensures var js := Document(ss, token);
      && (Extracted(js, MAX_TOKENS) == Some(token) <==>
           DocumentSize(ss) <= MAX_TOKENS && Cut8(AfterKey(ss, token)) == token)
      && (NoTokenKey(ss) && |token| < 256 ==> Cut8(AfterKey(ss, token)) == token)
  {
    hide Document, Extracted;
    ExtractsAfterKey(ss, token);
    if NoTokenKey(ss) { OnlyLastKey(ss, token); }
  }

  /** The token key occurs in a document once, before its last item. */
  lemma OnlyLastKey(ss: seq<Section>, token: string)
    requires PlainSections(ss) && NoTokenKey(ss)
    ensures var items := DocumentItems(ss, token); var n := |items|;
      && n == DocumentSize(ss)
      && items[n - 2] == Item(String, TOKEN_KEY) && items[n - 1] == Item(String, token)
      && forall k :: 1 <= k < n - 2 ==> items[k] != Item(String, TOKEN_KEY)
    ensures AfterKey(ss, token) == token
  {
    NoKeyInSections(ss);
    SectionsItemsSize(ss);
    var items := DocumentItems(ss, token);
    forall k | 1 <= k < |items| - 2
      ensures items[k] != Item(String, TOKEN_KEY)
    {
      if k >= 3 { assert items[k] == SectionsItems(ss)[k - 3]; }
    }
    var k := FirstKey(items, 1);
    assert items[|items| - 2] == Item(String, TOKEN_KEY);
    assert k == |items| - 2;
  }

  lemma {:induction false} FindsFirstKey(js: string, toks: seq<Token>, items: seq<Item>, i: nat)
    requires i <= |toks| == |items| && forall k :: 0 <= k < |toks| ==> ItemOf(js, ShapeOf(toks[k])) == items[k]
    ensures FindKey(js, toks, i, TOKEN_KEY) == FirstKey(items, i)
    decreases |toks| - i
  {
    hide ItemOf, Spells;
    if i < |toks| {
      SpellsItem(js, toks, items, i);
      FindsFirstKey(js, toks, items, i + 1);
    }
  }

  lemma SpellsItem(js: string, toks: seq<Token>, items: seq<Item>, k: nat)
    requires k < |toks| == |items| && ItemOf(js, ShapeOf(toks[k])) == items[k]
    ensures Spells(js, toks[k], TOKEN_KEY) <==> items[k] == Item(String, TOKEN_KEY)
  {
  }

  lemma TextOfItem(js: string, t: Token)
    requires !t.kind.IsContainer() && 0 <= t.start <= t.end <= |js|
    ensures TokenText8(js, t) == Cut8(ItemOf(js, ShapeOf(t)).text)
  {
  }

  // ---------------------------------------------------------------------------
  // Where the extraction goes wrong

  /** A field called "clientToken" is taken for the token. */
  lemma TakesEarlierKey()
    ensures var ss := [Section("desired", [Field(TOKEN_KEY, BoolValue(true))])];
      PlainSections(ss) && Plain("c-0") && Extracted(Document(ss, "c-0"), MAX_TOKENS) == Some("true")
  {
    var f := Field(TOKEN_KEY, BoolValue(true));
    var ss := [Section("desired", [f])];
    assert PlainSection(ss[0]);
    ExtractsAfterKey(ss, "c-0");
    SmallDocument(f, "c-0");
    hide Document, Extracted, DocumentItems, FirstKey;
    assert Cut8("true") == "true";
  }

  lemma SmallDocument(f: Field, token: string)
    requires f.key == TOKEN_KEY
    ensures var ss := [Section("desired", [f])];
      DocumentSize(ss) == 9 && AfterKey(ss, token) == ValueItem(f.value).text
  {
    var ss := [Section("desired", [f])];
    assert ss[1..] == [] && ss[0].fields[1..] == [];
    assert SectionsSize(ss) == SectionSize(ss[0]) + SectionsSize(ss[1..]);
    assert FieldsItems(ss[0].fields) == FieldItems(f) + FieldsItems(ss[0].fields[1..]);
    assert SectionsItems(ss) == SectionItems(ss[0]) + SectionsItems(ss[1..]);
    var items := DocumentItems(ss, token);
    assert items[1].text == "state" && items[3].text == "desired" && items[5] == Item(String, f.key);
    assert items[6] == ValueItem(f.value);
    hide DocumentItems;
    var k := FirstKey(items, 1);
    assert "state" != TOKEN_KEY && "desired"[0] != TOKEN_KEY[0];
    assert k == 5;
  }

  /** A document of 57 fields is built, but not accepted. */
  lemma TooManyFields()
    ensures var ss := [Section("desired", seq(57, _ => Field("k", IntValue(1))))];
      && PlainSections(ss) && DocumentSize(ss) == 121
      && Extracted(Document(ss, "c-0"), MAX_TOKENS) == None
  {
    var ss := [Section("desired", seq(57, _ => Field("k", IntValue(1))))];
    assert PlainSection(ss[0]);
    assert ss[1..] == [];
    assert SectionsSize(ss) == SectionSize(ss[0]) + SectionsSize(ss[1..]);
    ExtractsAfterKey(ss, "c-0");
  }

  /** A text whose last token is the key. */
  lemma KeyAlone()
    ensures KeyDangles("{" + ("\"" + TOKEN_KEY + "\"" + "}"), MAX_TOKENS)
  {
    var m' := ReadObject(TOKEN_KEY);
    hide Spell, Execute, KeyDangles;
    LastKeyDangles("{" + ("\"" + TOKEN_KEY + "\"" + "}"), m');
  }

  /** An object with one string in it. */
  lemma ReadObject(s: string) returns (m': Machine)
    requires Plain(s)
    ensures var js := "{" + ("\"" + s + "\"" + "}");
      && Execute(Current, js, Machine(0, [], []), MAX_TOKENS) == Stop(m', 2)
      && Spell(js, m'.shapes) == [Item(Object, ""), Item(String, s)]
  {
    hide Spell, Execute;
    var key := "\"" + s + "\"";
    var js := "{" + (key + "}");
    var m := Machine(0, [], []);
    AtWhole(js);
    AtSplit(js, 0, "{", key + "}");
    AtSplit(js, 1, key, "}");
    var inner := ReadString(js, MAX_TOKENS, Push(m, Object), s);
    m' := ReadBraces(js, MAX_TOKENS, m, inner, [Item(String, s)]);
    var items := [Item(Object, "")] + [Item(String, s)];
    FinishDocument(js, MAX_TOKENS, m, m', items);
    assert |Spell(js, m'.shapes)| == 2;
  }

  lemma LastKeyDangles(js: string, m': Machine)
    requires Execute(Current, js, Machine(0, [], []), MAX_TOKENS) == Stop(m', 2)
    requires Spell(js, m'.shapes) == [Item(Object, ""), Item(String, TOKEN_KEY)]
    ensures KeyDangles(js, MAX_TOKENS)
  {
    hide Spell, Shapes;
    var items := [Item(Object, ""), Item(String, TOKEN_KEY)];
    assert Abs(INITIAL) == Machine(0, [], []);
    RunValid(Current, js, INITIAL, MAX_TOKENS);
    RunRefines(Current, js, INITIAL, MAX_TOKENS);
    hide Run, Execute;
    var toks := Run(Current, js, INITIAL, MAX_TOKENS).st.toks;
    ShapesAre(js, toks, items);
    FindsFirstKey(js, toks, items, 1);
    hide FindKey;
    assert FirstKey(items, 1) == 1;
  }

  lemma AtWhole(js: string)
    ensures At(js, 0, js)
  {
  }

  lemma ShapesAre(js: string, toks: seq<Token>, items: seq<Item>)
    requires Spell(js, Shapes(toks)) == items
    ensures |toks| == |items| && forall k :: 0 <= k < |toks| ==> ItemOf(js, ShapeOf(toks[k])) == items[k]
  {
    forall k | 0 <= k < |toks|
      ensures ItemOf(js, ShapeOf(toks[k])) == items[k]
    {
      assert Spell(js, Shapes(toks))[k] == ItemOf(js, Shapes(toks)[k]);
    }
  }
}
