/** The tokenizer as a step function on (position, toksuper, used tokens), and the in-place
    parser that computes it over a token array. */
module Jsmn {
  import opened JsonTokens

  /** `toks` is the used prefix of the token array, so `toknext` is |toks|. */
  datatype State = State(pos: nat, super: int, toks: seq<Token>)

  const INITIAL := State(0, -1, [])

  datatype Outcome = Go(st: State) | Halt(st: State, rc: int)

  /** Largest index below `n` of an open token, or -1. */
  function LastOpen(toks: seq<Token>, n: nat): (i: int)
    requires n <= |toks|
    ensures -1 <= i < n
    ensures i >= 0 ==> toks[i].IsOpen()
    ensures forall k :: i < k < n ==> !toks[k].IsOpen()
  {
    if n == 0 then -1 else if toks[n - 1].IsOpen() then n - 1 else LastOpen(toks, n - 1)
  }

  /** Largest index below `n` of an open object or array, or -1. */
  function LastOpenContainer(toks: seq<Token>, n: nat): (i: int)
    requires n <= |toks|
    ensures -1 <= i < n
    ensures i >= 0 ==> toks[i].IsOpen() && toks[i].kind.IsContainer()
    ensures forall k :: i < k < n ==> !(toks[k].IsOpen() && toks[k].kind.IsContainer())
  {
    if n == 0 then -1
    else if toks[n - 1].IsOpen() && toks[n - 1].kind.IsContainer() then n - 1
    else LastOpenContainer(toks, n - 1)
  }

  /** tokens[i].size++ when i is a token; nothing when i is -1. */
  function Bump(toks: seq<Token>, i: int): (r: seq<Token>)
    ensures |r| == |toks|
    ensures forall k :: 0 <= k < |toks| ==>
      r[k] == if k == i then toks[k].(size := toks[k].size + 1) else toks[k]
  {
    if 0 <= i < |toks| then toks[i := toks[i].(size := toks[i].size + 1)] else toks
  }

  /** One iteration of the main loop with room for `cap` tokens. */
  function Step(d: Dialect, js: string, st: State, cap: nat): Outcome
    requires !AtEnd(js, st.pos)
  {
    StepOn(Lex(d, js, st.pos), st, cap)
  }

  function StepOn(l: Lexeme, st: State, cap: nat): Outcome {
    var n := |st.toks|;
    match l
    case Open(kind) =>
      if n >= cap then Halt(st, NOMEM)
      else Go(State(st.pos + 1, n, Bump(st.toks, st.super) + [Token(kind, st.pos, -1, 0)]))
    case Close(kind) =>
      var i := LastOpen(st.toks, n);
      if i < 0 || st.toks[i].kind != kind then Halt(st, INVAL)
      else Go(State(st.pos + 1, LastOpen(st.toks, i), st.toks[i := st.toks[i].(end := st.pos + 1)]))
    case Blank => Go(st.(pos := st.pos + 1))
    case Colon => Go(State(st.pos + 1, n - 1, st.toks))
    case Comma =>
      var i := LastOpenContainer(st.toks, n);
      var leave := 0 <= st.super < n && !st.toks[st.super].kind.IsContainer() && i >= 0;
      Go(State(st.pos + 1, if leave then i else st.super, st.toks))
    case Atom(kind, start, end, next) =>
      if n >= cap then Halt(st, NOMEM)
      else Go(State(next, st.super, Bump(st.toks + [Token(kind, start, end, 0)], st.super)))
    case Broken(rc) => Halt(st, rc)
  }

  /** The whole call: the state it leaves behind and its return code. */
  function Run(d: Dialect, js: string, st: State, cap: nat): Outcome
    decreases |js| - st.pos
  {
    if AtEnd(js, st.pos) then Halt(st, if LastOpen(st.toks, |st.toks|) >= 0 then PART else |st.toks|)
    else
      var o := Step(d, js, st, cap);
      if o.Halt? then o else Run(d, js, o.st, cap)
  }

  /** The call without a token array: brackets are counted, not matched. */
  function CountRun(d: Dialect, js: string, pos: nat, count: nat): (nat, int)
    decreases |js| - pos
  {
    if AtEnd(js, pos) then (pos, count)
    else
      match Lex(d, js, pos)
      case Open(_) => CountRun(d, js, pos + 1, count + 1)
      case Atom(_, _, _, next) => CountRun(d, js, next, count + 1)
      case Broken(rc) => (pos, rc)
      case _ => CountRun(d, js, pos + 1, count)
  }

  /** Whether that call comes past a colon. */
  predicate SeesColon(d: Dialect, js: string, pos: nat)
    decreases |js| - pos
  {
    if AtEnd(js, pos) then false
    else
      match Lex(d, js, pos)
      case Colon => true
      case Atom(_, _, _, next) => SeesColon(d, js, next)
      case Broken(_) => false
      case _ => SeesColon(d, js, pos + 1)
  }

  lemma CountUnfolds(d: Dialect, js: string, pos: nat, count: nat)
    requires !AtEnd(js, pos)
    ensures var l := Lex(d, js, pos);
      && CountRun(d, js, pos, count) ==
         (match l
          case Open(_) => CountRun(d, js, pos + 1, count + 1)
          case Atom(_, _, _, next) => CountRun(d, js, next, count + 1)
          case Broken(rc) => (pos, rc)
          case _ => CountRun(d, js, pos + 1, count))
      && SeesColon(d, js, pos) ==
         (match l
          case Colon => true
          case Atom(_, _, _, next) => SeesColon(d, js, next)
          case Broken(_) => false
          case _ => SeesColon(d, js, pos + 1))
  {
    hide Lex;
  }

  lemma CountStops(d: Dialect, js: string, pos: nat, count: nat)
    requires AtEnd(js, pos)
    ensures CountRun(d, js, pos, count) == (pos, count) && !SeesColon(d, js, pos)
  {
  }

  /** What every call keeps, and what `jsmn_init` establishes. */
  ghost predicate Valid(st: State) {
    && -1 <= st.super < |st.toks|
    && forall k :: 0 <= k < |st.toks| ==>
         && 0 <= st.toks[k].start
         && (st.toks[k].IsOpen() ==> st.toks[k].kind.IsContainer())
  }

  /** Later iterations keep a token's kind and start, and its end once it is closed. */
  ghost predicate Keeps(a: seq<Token>, b: seq<Token>) {
    && |a| <= |b|
    && forall k :: 0 <= k < |a| ==>
         a[k].kind == b[k].kind && a[k].start == b[k].start && (a[k].end != -1 ==> b[k].end == a[k].end)
  }

  lemma StepKeeps(l: Lexeme, st: State, cap: nat)
    ensures Keeps(st.toks, StepOn(l, st, cap).st.toks)
  {
  }

  lemma StepValid(d: Dialect, js: string, st: State, cap: nat)
    requires !AtEnd(js, st.pos) && Valid(st)
    ensures Valid(Step(d, js, st, cap).st)
    ensures var o := Step(d, js, st, cap);
      && |st.toks| <= |o.st.toks| <= |st.toks| + 1
      && Keeps(st.toks, o.st.toks)
      && (o.Go? ==> st.pos < o.st.pos)
      && (o.Halt? ==> o.rc < 0)
  {
    StepKeeps(Lex(d, js, st.pos), st, cap);
  }

  lemma {:induction false} RunValid(d: Dialect, js: string, st: State, cap: nat)
    requires Valid(st)
    ensures Run(d, js, st, cap).Halt? && Valid(Run(d, js, st, cap).st)
    decreases |js| - st.pos
  {
    if !AtEnd(js, st.pos) {
      StepValid(d, js, st, cap);
      var o := Step(d, js, st, cap);
      if o.Go? { RunValid(d, js, o.st, cap); }
    }
  }

  /** jsmn_parser together with the functions that update it and the token array in place. */
  class Parser {
    const dialect: Dialect
    var pos: nat
    var toknext: nat
    var toksuper: int

    ghost predicate Fits(tokens: array<Token>, num: nat)
      reads this
    {
      toknext <= num <= tokens.Length
    }

    /** The abstract state held by the fields and the used part of the array. */
    ghost function View(tokens: array<Token>): State
      reads this, tokens
      requires toknext <= tokens.Length
    {
      State(pos, toksuper, tokens[..toknext])
    }

    constructor (d: Dialect)
      ensures dialect == d && pos == 0 && toknext == 0 && toksuper == -1
    {
      dialect := d;
      pos, toknext, toksuper := 0, 0, -1;
    }

    /** Takes the next unused token; -1 when the array is full. */
    method AllocToken(tokens: array<Token>, num: nat) returns (i: int)
      requires Fits(tokens, num)
      modifies this`toknext, tokens
      ensures Fits(tokens, num)
      ensures old(toknext) == num ==> i == -1 && toknext == num && tokens[..] == old(tokens[..])
      ensures old(toknext) < num ==> i == old(toknext) && toknext == i + 1
      ensures old(toknext) < num ==>
        tokens[..] == old(tokens[..])[i := old(tokens[toknext]).(start := -1, end := -1, size := 0)]
    {
      if toknext >= num { return -1; }
      i := toknext;
      toknext := toknext + 1;
      tokens[i] := tokens[i].(start := -1, end := -1, size := 0);
    }

    /** The scanning loop of jsmn_parse_primitive: moves `pos` past the last character, or
        back to the start on failure. */
    method SkipPrimitive(js: string) returns (r: int)
      requires !AtEnd(js, pos)
      modifies this`pos
      ensures match ScanPrimitive(dialect, js, old(pos))
        case Found(e) => r == 0 && pos == e
        case Bad => r == INVAL && pos == old(pos)
        case Cut => r == PART && pos == old(pos)
    {
      var start := pos;
      while !AtEnd(js, pos) && !IsDelimiter(dialect, js[pos])
        invariant start <= pos <= |js|
        invariant ScanPrimitive(dialect, js, start) == ScanPrimitive(dialect, js, pos)
        decreases |js| - pos
      {
        if !IsPrintable(js[pos]) {
          pos := start;
          return INVAL;
        }
        pos := pos + 1;
      }
      if AtEnd(js, pos) && dialect == Strict {
        pos := start;
        return PART;
      }
      r := 0;
    }

    /** Scans up to four hexadecimal digits in place; false on any other character. */
    method SkipHex(js: string) returns (ok: bool)
      requires pos <= |js|
      modifies this`pos
      ensures match ScanHex(js, old(pos), 4)
        case Found(e) => ok && pos == e
        case _ => !ok
    {
      var i := 0;
      while i < 4 && !AtEnd(js, pos)
        invariant 0 <= i <= 4 && old(pos) <= pos <= |js|
        invariant ScanHex(js, old(pos), 4) == ScanHex(js, pos, 4 - i)
      {
        if !IsHex(js[pos]) { return false; }
        pos := pos + 1;
        i := i + 1;
      }
      ok := true;
    }

    /** The scanning loop of jsmn_parse_string: moves `pos` from the opening quote to the
        closing one, or leaves it at the opening quote on failure. */
    method SkipString(js: string) returns (r: int)
      requires !AtEnd(js, pos) && js[pos] == '"'
      modifies this`pos
      ensures match ScanString(dialect, js, old(pos) + 1)
        case Found(e) => r == 0 && pos == e
        case Bad => r == INVAL && pos == old(pos)
        case Cut => r == PART && pos == old(pos)
    {
      var start := pos;
      pos := pos + 1;
      while !AtEnd(js, pos)
        invariant start < pos <= |js|
        invariant ScanString(dialect, js, start + 1) == ScanString(dialect, js, pos)
        decreases |js| - pos
      {
        var c := js[pos];
        if c == '"' { return 0; }
        if c == '\\' && (dialect == Strict || pos + 1 < |js|) {
          pos := pos + 1;
          var e := if pos < |js| then js[pos] else '\0';
          if e == 'u' {
            pos := pos + 1;
            var ok := SkipHex(js);
            if !ok {
              pos := start;
              return INVAL;
            }
            pos := pos - 1;
          } else if !IsSimpleEscape(e) {
            pos := start;
            return INVAL;
          }
        }
        pos := pos + 1;
      }
      pos := start;
      r := PART;
    }

    /** Takes the next token and fills it, if there is one. */
    method EmitToken(tokens: array<Token>, num: nat, kind: Kind, start: nat, end: nat) returns (i: int)
      requires Fits(tokens, num)
      modifies this`toknext, tokens
      ensures Fits(tokens, num)
      ensures forall k :: toknext <= k < tokens.Length ==> tokens[k] == old(tokens[k])
      ensures if old(toknext) == num then i == -1 && toknext == num && tokens[..] == old(tokens[..])
              else i == old(toknext) && toknext == i + 1
      ensures old(toknext) < num ==>
        tokens[..toknext] == old(tokens[..toknext]) + [Token(kind, start, end, 0)]
    {
      i := AllocToken(tokens, num);
      if i < 0 { return; }
      ghost var before := tokens[..i];
      tokens[i] := Token(kind, start, end, 0);
      assert tokens[..toknext] == before + [tokens[i]];
    }

    /** jsmn_parse_primitive or jsmn_parse_string, by the character at `pos`, then the increment
        of the parent's size; leaves `pos` on the last character of the lexeme. */
    method ParseAtom(js: string, tokens: array<Token>, num: nat) returns (r: int)
      requires !AtEnd(js, pos) && Fits(tokens, num) && Valid(View(tokens))
      requires Lex(dialect, js, pos).Atom? || Lex(dialect, js, pos).Broken?
      requires js[pos] == '"' || dialect == Current || StartsStrictPrimitive(js[pos])
      modifies this`pos, this`toknext, tokens
      ensures Fits(tokens, num)
      ensures forall k :: toknext <= k < tokens.Length ==> tokens[k] == old(tokens[k])
      ensures r == 0 ==> Step(dialect, js, old(View(tokens)), num) == Go(View(tokens).(pos := pos + 1))
      ensures r != 0 ==> Step(dialect, js, old(View(tokens)), num) == Halt(View(tokens), r)
    {
      var start := pos;
      var isString := js[pos] == '"';
      if isString { r := SkipString(js); } else { r := SkipPrimitive(js); }
      if r < 0 { return; }
      ghost var l := if isString then Atom(String, start + 1, pos, pos + 1) else Atom(Primitive, start, pos, pos);
      assert Lex(dialect, js, start) == l;
      hide Lex, ScanString, ScanPrimitive;
      var kind, from := if isString then String else Primitive, if isString then start + 1 else start;
      var i := EmitToken(tokens, num, kind, from, pos);
      if i < 0 {
        pos := start;
        return NOMEM;
      }
      hide Bump;
      if !isString { pos := pos - 1; }
      BumpSuper(tokens);
    }

    /** Scans backwards from index `n` for an open token. */
    method FindOpen(tokens: array<Token>, n: nat) returns (i: int)
      requires n <= toknext <= tokens.Length
      ensures i == LastOpen(tokens[..toknext], n)
    {
      i := n - 1;
      while i >= 0
        invariant -1 <= i < n
        invariant LastOpen(tokens[..toknext], n) == LastOpen(tokens[..toknext], i + 1)
      {
        if tokens[i].start != -1 && tokens[i].end == -1 { return; }
        i := i - 1;
      }
    }

    /** Scans backwards for an open object or array. */
    method FindOpenContainer(tokens: array<Token>) returns (i: int)
      requires toknext <= tokens.Length
      ensures i == LastOpenContainer(tokens[..toknext], toknext)
    {
      i := toknext - 1;
      while i >= 0
        invariant -1 <= i < toknext
        invariant LastOpenContainer(tokens[..toknext], toknext) == LastOpenContainer(tokens[..toknext], i + 1)
      {
        if tokens[i].kind.IsContainer() {
          if tokens[i].start != -1 && tokens[i].end == -1 { return; }
        }
        i := i - 1;
      }
    }

    /** tokens[toksuper].size++ unless toksuper is -1. */
    method BumpSuper(tokens: array<Token>)
      requires -1 <= toksuper < toknext <= tokens.Length
      modifies tokens
      ensures tokens[..toknext] == Bump(old(tokens[..toknext]), toksuper)
      ensures forall k :: toknext <= k < tokens.Length ==> tokens[k] == old(tokens[k])
    {
      if toksuper != -1 {
        tokens[toksuper] := tokens[toksuper].(size := tokens[toksuper].size + 1);
      }
    }

    /** The case of an opening bracket. */
    method OpenBracket(js: string, tokens: array<Token>, num: nat) returns (r: int)
      requires !AtEnd(js, pos) && Fits(tokens, num) && Valid(View(tokens))
      requires js[pos] == '{' || js[pos] == '['
      modifies this`toknext, this`toksuper, tokens
      ensures Fits(tokens, num)
      ensures forall k :: toknext <= k < tokens.Length ==> tokens[k] == old(tokens[k])
      ensures r == 0 ==> Step(dialect, js, old(View(tokens)), num) == Go(View(tokens).(pos := pos + 1))
      ensures r != 0 ==> Step(dialect, js, old(View(tokens)), num) == Halt(View(tokens), r)
    {
      ghost var before := tokens[..toknext];
      var i := AllocToken(tokens, num);
      if i < 0 { return NOMEM; }
      assert tokens[..i] == before;
      if toksuper != -1 {
        tokens[toksuper] := tokens[toksuper].(size := tokens[toksuper].size + 1);
      }
      assert tokens[..i] == Bump(before, toksuper);
      tokens[i] := tokens[i].(kind := if js[pos] == '{' then Object else Array, start := pos);
      assert tokens[..toknext] == Bump(before, toksuper) + [tokens[i]];
      toksuper := toknext - 1;
      r := 0;
    }

    /** The case of a closing bracket. */
    method CloseBracket(js: string, tokens: array<Token>, ghost num: nat) returns (r: int)
      requires !AtEnd(js, pos) && Fits(tokens, num) && Valid(View(tokens))
      requires js[pos] == '}' || js[pos] == ']'
      modifies this`toksuper, tokens
      ensures forall k :: toknext <= k < tokens.Length ==> tokens[k] == old(tokens[k])
      ensures r == 0 ==> Step(dialect, js, old(View(tokens)), num) == Go(View(tokens).(pos := pos + 1))
      ensures r != 0 ==> Step(dialect, js, old(View(tokens)), num) == Halt(View(tokens), r)
    {
      var kind := if js[pos] == '}' then Object else Array;
      ghost var before := tokens[..toknext];
      var i := FindOpen(tokens, toknext);
      if i < 0 { return INVAL; }
      if tokens[i].kind != kind { return INVAL; }
      toksuper := -1;
      tokens[i] := tokens[i].(end := pos + 1);
      assert tokens[..toknext] == before[i := before[i].(end := pos + 1)];
      LastOpenUnchanged(before, tokens[..toknext], i);
      toksuper := FindOpen(tokens, i + 1);
      r := 0;
    }

    /** The body of the main loop up to and excluding `pos++`; 0 means go on. */
    method Dispatch(js: string, tokens: array<Token>, num: nat) returns (r: int)
      requires !AtEnd(js, pos) && Fits(tokens, num) && Valid(View(tokens))
      modifies this, tokens
      ensures Fits(tokens, num)
      ensures forall k :: toknext <= k < tokens.Length ==> tokens[k] == old(tokens[k])
      ensures r == 0 ==> Step(dialect, js, old(View(tokens)), num) == Go(View(tokens).(pos := pos + 1))
      ensures r != 0 ==> Step(dialect, js, old(View(tokens)), num) == Halt(View(tokens), r)
    {
      var c := js[pos];
      r := 0;
      if c == '{' || c == '[' {
        r := OpenBracket(js, tokens, num);
      } else if c == '}' || c == ']' {
        r := CloseBracket(js, tokens, num);
      } else if IsBlank(c) {
      } else if c == ':' {
        if dialect == Current { toksuper := toknext - 1; }
      } else if c == ',' {
        if dialect == Current && toksuper != -1 && tokens[toksuper].kind != Array && tokens[toksuper].kind != Object {
          var i := FindOpenContainer(tokens);
          if i >= 0 { toksuper := i; }
        }
      } else if dialect == Strict && c != '"' && !StartsStrictPrimitive(c) {
        return INVAL;
      } else {
        r := ParseAtom(js, tokens, num);
      }
    }

    /** jsmn_parse with a token array.  The older tokenizer counts from zero, the newer one
        from the tokens already used. */
    method Parse(js: string, tokens: array<Token>, num: nat) returns (r: int)
      requires Fits(tokens, num) && Valid(View(tokens))
      modifies this, tokens
      ensures Fits(tokens, num) && Valid(View(tokens))
      ensures forall k :: toknext <= k < tokens.Length ==> tokens[k] == old(tokens[k])
      ensures var o := Run(dialect, js, old(View(tokens)), num);
        && o.Halt?
        && View(tokens) == o.st
        && r == if o.rc >= 0 && dialect == Strict then o.rc - old(toknext) else o.rc
    {
      hide Lex, StepOn;
      var count := if dialect == Strict then 0 else toknext;
      RunValid(dialect, js, View(tokens), num);
      ghost var o := Run(dialect, js, View(tokens), num);
      while !AtEnd(js, pos)
        invariant Fits(tokens, num) && Valid(View(tokens))
        invariant Run(dialect, js, View(tokens), num) == o
        invariant forall k :: toknext <= k < tokens.Length ==> tokens[k] == old(tokens[k])
        invariant old(toknext) <= toknext
        invariant count == toknext - if dialect == Strict then old(toknext) else 0
        decreases |js| - pos
      {
        var used := toknext;
        StepValid(dialect, js, View(tokens), num);
        r := Dispatch(js, tokens, num);
        if r != 0 { return; }
        pos := pos + 1;
        if toknext > used { count := count + 1; }
      }
      var i := FindOpen(tokens, toknext);
      if i >= 0 { return PART; }
      r := count;
    }

    /** jsmn_parse with a null token array. */
    method CountTokens(js: string) returns (r: int)
      modifies this
      ensures (pos, r) == CountRun(dialect, js, old(pos), if dialect == Strict then 0 else old(toknext))
      ensures toknext == old(toknext)
      ensures toksuper == if SeesColon(dialect, js, old(pos)) then toknext - 1 else old(toksuper)
    {
      hide CountRun, SeesColon;
      var count: nat := if dialect == Strict then 0 else toknext;
      ghost var o := CountRun(dialect, js, pos, count);
      while !AtEnd(js, pos)
        invariant CountRun(dialect, js, pos, count) == o
        invariant toknext == old(toknext)
        invariant (if SeesColon(dialect, js, pos) then toknext - 1 else toksuper) ==
                  (if SeesColon(dialect, js, old(pos)) then toknext - 1 else old(toksuper))
        decreases |js| - pos
      {
        CountUnfolds(dialect, js, pos, count);
        var c := js[pos];
        if c == '{' || c == '[' {
          count := count + 1;
        } else if c == '}' || c == ']' || IsBlank(c) {
        } else if c == ':' {
          if dialect == Current { toksuper := toknext - 1; }
        } else if c == ',' {
        } else if c == '"' {
          r := SkipString(js);
          if r < 0 { return; }
          count := count + 1;
        } else if dialect == Strict && !StartsStrictPrimitive(c) {
          return INVAL;
        } else {
          r := SkipPrimitive(js);
          if r < 0 { return; }
          pos := pos - 1;
          count := count + 1;
        }
        pos := pos + 1;
      }
      CountStops(dialect, js, pos, count);
      r := count;
    }
  }

  /** Closing token i leaves the search below it unchanged. */
  lemma {:induction false} LastOpenUnchanged(a: seq<Token>, b: seq<Token>, i: nat)
    requires |a| == |b| && i < |a|
    requires !b[i].IsOpen() && forall k :: 0 <= k < i ==> a[k] == b[k]
    ensures LastOpen(b, i + 1) == LastOpen(a, i)
  {
    LastOpenPrefix(a, b, i);
  }

  /** The search only looks at the tokens below its bound. */
  lemma {:induction false} LastOpenPrefix(a: seq<Token>, b: seq<Token>, n: nat)
    requires n <= |a| && n <= |b| && forall k :: 0 <= k < n ==> a[k].IsOpen() == b[k].IsOpen()
    ensures LastOpen(b, n) == LastOpen(a, n)
  {
    if n > 0 { LastOpenPrefix(a, b, n - 1); }
  }
}
