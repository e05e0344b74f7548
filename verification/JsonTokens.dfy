/** Tokens and lexical rules shared by the two jsmn tokenizers.

    `Current` is the tokenizer built by default in the 2-1-1 SDK (non-strict, no parent links).
    `Strict` is the older tokenizer, whose header defines JSMN_STRICT.  The older code reads one
    character beyond `len`; its callers pass a NUL-terminated text, so that read yields NUL. */
module JsonTokens {
  datatype Dialect = Current | Strict

  datatype Kind = Object | Array | String | Primitive {
    predicate IsContainer() {
      this == Object || this == Array
    }
  }

  datatype Token = Token(kind: Kind, start: int, end: int, size: nat) {
    /** A container whose closing bracket has not been seen. */
    predicate IsOpen() {
      start != -1 && end == -1
    }
  }

  const NOMEM := -1
  const INVAL := -2
  const PART := -3

  /** The loops of the tokenizer stop at `len` or at a NUL, whichever comes first. */
  predicate AtEnd(js: string, i: nat) {
    i >= |js| || js[i] == '\0'
  }

  predicate IsHex(c: char) {
    '0' <= c <= '9' || 'A' <= c <= 'F' || 'a' <= c <= 'f'
  }

  predicate IsSimpleEscape(c: char) {
    c == '"' || c == '/' || c == '\\' || c == 'b' || c == 'f' || c == 'r' || c == 'n' || c == 't'
  }

  predicate IsBlank(c: char) {
    c == '\t' || c == '\r' || c == '\n' || c == ' '
  }

  /** Characters that end a bare primitive. */
  predicate IsDelimiter(d: Dialect, c: char) {
    IsBlank(c) || c == ',' || c == ']' || c == '}' || (d == Current && c == ':')
  }

  predicate IsPrintable(c: char) {
    32 <= c as int < 127
  }

  /** First characters the strict tokenizer accepts for a bare primitive. */
  predicate StartsStrictPrimitive(c: char) {
    c == '-' || '0' <= c <= '9' || c == 't' || c == 'f' || c == 'n'
  }

  /** Outcome of scanning one string or primitive: the index where it ends, an invalid
      character, or the end of the input before it was complete. */
  datatype Scan = Found(end: nat) | Bad | Cut

  /** At most `n` hexadecimal digits from `i` on; stops early only at the end of the input. */
  function ScanHex(js: string, i: nat, n: nat): (r: Scan)
    ensures r.Found? ==> i <= r.end <= i + n && (i <= |js| ==> r.end <= |js|)
    ensures !r.Cut?
    decreases n
  {
    if n == 0 || AtEnd(js, i) then Found(i)
    else if IsHex(js[i]) then ScanHex(js, i + 1, n - 1)
    else Bad
  }

  /** Scans the body of a string from `i`; `Found(e)` is the index of its closing quote. */
  function ScanString(d: Dialect, js: string, i: nat): (r: Scan)
    ensures r.Found? ==> i <= r.end < |js| && js[r.end] == '"'
    decreases |js| - i
  {
    if AtEnd(js, i) then Cut
    else if js[i] == '"' then Found(i)
    else if js[i] == '\\' && (d == Strict || i + 1 < |js|) then
      if i + 1 >= |js| then Bad
      else if IsSimpleEscape(js[i + 1]) then ScanString(d, js, i + 2)
      else if js[i + 1] == 'u' then
        var h := ScanHex(js, i + 2, 4);
        if h.Found? then ScanString(d, js, h.end) else Bad
      else Bad
    else ScanString(d, js, i + 1)
  }

  /** Scans a bare primitive; `Found(e)` is the index just after its last character. */
  function ScanPrimitive(d: Dialect, js: string, i: nat): (r: Scan)
    requires i <= |js|
    ensures r.Found? ==> i <= r.end <= |js|
    ensures r.Found? ==> forall k :: i <= k < r.end ==> IsPrintable(js[k]) && !IsDelimiter(d, js[k])
    ensures d == Current ==> !r.Cut? && (r.Found? ==> AtEnd(js, r.end) || IsDelimiter(d, js[r.end]))
    decreases |js| - i
  {
    if AtEnd(js, i) then (if d == Strict then Cut else Found(i))
    else if IsDelimiter(d, js[i]) then Found(i)
    else if !IsPrintable(js[i]) then Bad
    else ScanPrimitive(d, js, i + 1)
  }

  /** What one iteration of the main loop sees at a position that is not the end. */
  datatype Lexeme =
    | Open(kind: Kind)
    | Close(kind: Kind)
    | Blank
    | Colon
    | Comma
    | Atom(kind: Kind, start: nat, end: nat, next: nat)
    | Broken(rc: int)

  function Lex(d: Dialect, js: string, pos: nat): (l: Lexeme)
    requires !AtEnd(js, pos)
    ensures l.Open? || l.Close? ==> l.kind.IsContainer()
    ensures l.Atom? ==> !l.kind.IsContainer() && pos <= l.start <= l.end <= l.next <= |js| && pos < l.next
    ensures l.Broken? ==> l.rc == INVAL || l.rc == PART
  {
    var c := js[pos];
    if c == '{' then Open(Object)
    else if c == '[' then Open(Array)
    else if c == '}' then Close(Object)
    else if c == ']' then Close(Array)
    else if c == '"' then
      match ScanString(d, js, pos + 1)
      case Found(e) => Atom(String, pos + 1, e, e + 1)
      case Bad => Broken(INVAL)
      case Cut => Broken(PART)
    else if IsBlank(c) then Blank
    else if c == ':' then (if d == Strict then Blank else Colon)
    else if c == ',' then (if d == Strict then Blank else Comma)
    else if d == Strict && !StartsStrictPrimitive(c) then Broken(INVAL)
    else
      match ScanPrimitive(d, js, pos)
      case Found(e) => assert e != pos; Atom(Primitive, pos, e, e)
      case Bad => Broken(INVAL)
      case Cut => Broken(PART)
  }

  // ---------------------------------------------------------------------------
  // The characters of RFC 8259

  /** Outside of strings and primitives: the white space of section 2, and the six structural
      characters. */
  lemma CharactersLexed(js: string, pos: nat)
    requires !AtEnd(js, pos)
    ensures Lex(Current, js, pos).Blank? <==> js[pos] as int in {0x20, 0x09, 0x0A, 0x0D}
    ensures Lex(Current, js, pos) == Open(Object) <==> js[pos] as int == 0x7B
    ensures Lex(Current, js, pos) == Close(Object) <==> js[pos] as int == 0x7D
    ensures Lex(Current, js, pos) == Open(Array) <==> js[pos] as int == 0x5B
    ensures Lex(Current, js, pos) == Close(Array) <==> js[pos] as int == 0x5D
    ensures Lex(Current, js, pos).Colon? <==> js[pos] as int == 0x3A
    ensures Lex(Current, js, pos).Comma? <==> js[pos] as int == 0x2C
  {
    hide ScanString, ScanPrimitive;
  }

  /** Section 7: anything but a quote and a backslash, or a backslash and one of eight characters, or
      a backslash, a `u` and four hexadecimal digits.  Control characters are let through, but for
      the NUL. */
  predicate IsStringBody(s: string)
    decreases |s|
  {
    if s == "" then true
    else if s[0] == '\\' then
      if |s| >= 2 && IsEscaped(s[1]) then IsStringBody(s[2..])
      else
        && |s| >= 6 && s[1] == 'u' && IsDigit(s[2]) && IsDigit(s[3]) && IsDigit(s[4]) && IsDigit(s[5])
        && IsStringBody(s[6..])
    else s[0] != '"' && s[0] != '\0' && IsStringBody(s[1..])
  }

  predicate IsEscaped(c: char) {
    c in "\"\\/bfnrt"
  }

  predicate IsDigit(c: char) {
    c in "0123456789abcdefABCDEF"
  }

  lemma HexDigits(c: char)
    ensures IsHex(c) <==> IsDigit(c)
    ensures IsSimpleEscape(c) <==> IsEscaped(c)
  {
  }

  predicate FourHexAt(js: string, k: nat) {
    k + 4 <= |js| && IsHex(js[k]) && IsHex(js[k + 1]) && IsHex(js[k + 2]) && IsHex(js[k + 3])
  }

  /** Four digits before the end, or none are found. */
  lemma FourHex(js: string, i: nat, e: nat)
    requires i <= e < |js| && js[e] == '"'
    ensures var h := ScanHex(js, i, 4);
      if i + 4 <= e && FourHexAt(js, i) then h == Found(i + 4) else h.Bad? || AtEnd(js, h.end)
  {
    OneHex(js, i, 4);
    OneHex(js, i + 1, 3);
    OneHex(js, i + 2, 2);
    OneHex(js, i + 3, 1);
    assert ScanHex(js, i + 4, 0) == Found(i + 4);
    hide ScanHex;
    assert !IsHex('"');
  }

  lemma OneHex(js: string, i: nat, n: nat)
    requires n > 0
    ensures ScanHex(js, i, n) ==
      if AtEnd(js, i) then Found(i) else if IsHex(js[i]) then ScanHex(js, i + 1, n - 1) else Bad
  {
  }

  /** One character or escape of a string, scanned, */
  lemma ScanAt(js: string, i: nat, e: nat)
    requires i < e < |js| && js[e] == '"'
    ensures ScanString(Current, js, i) == Found(e) <==>
      if js[i] == '\\' then
        if IsSimpleEscape(js[i + 1]) then ScanString(Current, js, i + 2) == Found(e)
        else js[i + 1] == 'u' && i + 6 <= e && FourHexAt(js, i + 2) && ScanString(Current, js, i + 6) == Found(e)
      else js[i] != '"' && js[i] != '\0' && ScanString(Current, js, i + 1) == Found(e)
  {
    if js[i + 1] == 'u' && i + 2 <= e { FourHex(js, i + 2, e); }
    hide ScanHex, IsSimpleEscape, FourHexAt;
  }

  /** and as part of a body. */
  lemma BodyAt(js: string, i: nat, e: nat)
    requires i < e < |js|
    ensures IsStringBody(js[i..e]) <==>
      if js[i] == '\\' then
        if i + 2 <= e && IsSimpleEscape(js[i + 1]) then IsStringBody(js[i + 2..e])
        else i + 6 <= e && js[i + 1] == 'u' && FourHexAt(js, i + 2) && IsStringBody(js[i + 6..e])
      else js[i] != '"' && js[i] != '\0' && IsStringBody(js[i + 1..e])
  {
    var s := js[i..e];
    assert s[1..] == js[i + 1..e];
    if i + 2 <= e {
      assert s[2..] == js[i + 2..e];
      HexDigits(js[i + 1]);
    }
    if i + 6 <= e {
      assert s[6..] == js[i + 6..e];
      assert s[2] == js[i + 2] && s[3] == js[i + 3] && s[4] == js[i + 4] && s[5] == js[i + 5];
      HexDigits(js[i + 2]);
      HexDigits(js[i + 3]);
      HexDigits(js[i + 4]);
      HexDigits(js[i + 5]);
    }
    hide IsHex, IsSimpleEscape, IsEscaped, IsDigit;
  }

  /** The string that begins before index i ends at the quote at index e exactly when what stands
      between is the body of a string. */
  lemma {:induction false} StringsAreScanned(js: string, i: nat, e: nat)
    requires i <= e < |js| && js[e] == '"'
    ensures ScanString(Current, js, i) == Found(e) <==> IsStringBody(js[i..e])
    decreases e - i
  {
    if i < e {
      ScanAt(js, i, e);
      BodyAt(js, i, e);
      ScanBeyond(js, e);
      assert IsSimpleEscape('"');
      hide ScanString, IsStringBody, FourHexAt, IsSimpleEscape;
      StringsAreScanned(js, i + 1, e);
      if i + 2 <= e { StringsAreScanned(js, i + 2, e); }
      if i + 6 <= e { StringsAreScanned(js, i + 6, e); }
    }
  }

  lemma ScanBeyond(js: string, e: nat)
    ensures ScanString(Current, js, e + 1) != Found(e)
  {
  }

  /** A printable character that is neither white space nor structural. */
  predicate IsInside(c: char) {
    0x21 <= c as int <= 0x7E && c as int !in {0x2C, 0x3A, 0x5D, 0x7D}
  }

  /** The end of the text, white space, a comma, a colon or a closing bracket. */
  predicate IsEnd(js: string, e: nat) {
    e >= |js| || js[e] as int in {0, 0x09, 0x0A, 0x0D, 0x20, 0x2C, 0x3A, 0x5D, 0x7D}
  }

  /** A primitive goes on to the first character that ends it, and has only printable ones. */
  lemma {:induction false} PrimitivesAreScanned(js: string, i: nat, e: nat)
    requires i <= e <= |js|
    ensures ScanPrimitive(Current, js, i) == Found(e) <==>
            IsEnd(js, e) && forall k :: i <= k < e ==> IsInside(js[k])
    decreases e - i
  {
    if i < e { PrimitivesAreScanned(js, i + 1, e); }
  }

  /** The older tokenizer looks at the first character as well. */
  lemma StrictPrimitives(js: string, pos: nat)
    requires !AtEnd(js, pos) && js[pos] != '"' && IsInside(js[pos]) && js[pos] !in "{["
    ensures Lex(Strict, js, pos) == Broken(INVAL) <==>
            js[pos] !in "-0123456789tfn" || ScanPrimitive(Strict, js, pos).Bad?
  {
    hide ScanPrimitive;
  }
}
