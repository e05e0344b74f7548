/** Which inputs the tokenizer accepts, stated without tokens: the brackets outside strings form
    a Dyck word over two bracket types and every string and primitive is well formed. */
module JsmnAccept {
  import opened JsonTokens
  import opened Jsmn
  import opened JsmnStack
  import opened Wrappers

  datatype Bracket = Bracket(opens: bool, kind: Kind)

  /** How lexing from a position ends: at the end of the input or at a lexical error. */
  datatype Ending = Clean | Failed(rc: int)

  /** Position after a lexeme read at `pos`. */
  function After(l: Lexeme, pos: nat): nat {
    if l.Atom? then l.next else pos + 1
  }

  function BracketsOf(l: Lexeme): seq<Bracket> {
    if l.Open? then [Bracket(true, l.kind)] else if l.Close? then [Bracket(false, l.kind)] else []
  }

  /** The brackets outside strings, up to the first lexical error. */
  function Brackets(d: Dialect, js: string, pos: nat): (seq<Bracket>, Ending)
    decreases |js| - pos
  {
    if AtEnd(js, pos) then ([], Clean)
    else
      var l := Lex(d, js, pos);
      if l.Broken? then ([], Failed(l.rc))
      else
        var rest := Brackets(d, js, After(l, pos));
        (BracketsOf(l) + rest.0, rest.1)
  }

  /** How many tokens the input asks for, up to the first lexical error. */
  function Wanted(d: Dialect, js: string, pos: nat): (n: nat)
    ensures pos <= |js| ==> n <= |js| - pos
    decreases |js| - pos
  {
    if AtEnd(js, pos) then 0
    else
      var l := Lex(d, js, pos);
      if l.Broken? then 0
      else (if l.Open? || l.Atom? then 1 else 0) + Wanted(d, js, After(l, pos))
  }

  /** Balanced words: empty, or a matching pair around a balanced word, then a balanced word. */
  ghost predicate Dyck(w: seq<Bracket>)
    decreases |w|
  {
    w == [] ||
    (w[0].opens && exists i | 0 < i < |w| :: w[i] == Bracket(false, w[0].kind) && Dyck(w[1..i]) && Dyck(w[i + 1..]))
  }

  /** Stack of types after the word, or None at the first bracket that does not match. */
  function Reduce(w: seq<Bracket>, stack: seq<Kind>): Option<seq<Kind>>
    decreases |w|
  {
    if w == [] then Some(stack)
    else if w[0].opens then Reduce(w[1..], stack + [w[0].kind])
    else if stack == [] || stack[|stack| - 1] != w[0].kind then None
    else Reduce(w[1..], stack[..|stack| - 1])
  }

  lemma {:induction false} ReduceConcat(a: seq<Bracket>, b: seq<Bracket>, stack: seq<Kind>)
    ensures Reduce(a + b, stack) ==
      match Reduce(a, stack) case None => None case Some(s) => Reduce(b, s)
    decreases |a|
  {
    if a == [] {
      assert a + b == b;
    } else {
      assert (a + b)[1..] == a[1..] + b;
      if a[0].opens {
        ReduceConcat(a[1..], b, stack + [a[0].kind]);
      } else if stack != [] {
        ReduceConcat(a[1..], b, stack[..|stack| - 1]);
      }
    }
  }

  /** A closing bracket pops the entry it matches. */
  lemma PopReduces(w: seq<Bracket>, stack: seq<Kind>)
    requires w != [] && !w[0].opens
    ensures Reduce(w, stack + [w[0].kind]) == Reduce(w[1..], stack)
  {
    assert (stack + [w[0].kind])[..|stack|] == stack;
  }

  /** An opening bracket, with what comes before position i reduced. */
  lemma PushReduces(w: seq<Bracket>, i: nat, stack: seq<Kind>)
    requires 0 < i <= |w| && w[0].opens
    requires Reduce(w[1..i], stack + [w[0].kind]) == Some(stack + [w[0].kind])
    ensures Reduce(w, stack) == Reduce(w[i..], stack + [w[0].kind])
  {
    ReduceConcat(w[1..i], w[i..], stack + [w[0].kind]);
    assert w[1..i] + w[i..] == w[1..];
  }

  lemma {:induction false} DyckReduces(w: seq<Bracket>, stack: seq<Kind>)
    requires Dyck(w)
    ensures Reduce(w, stack) == Some(stack)
    decreases |w|
  {
    if w != [] {
      var i :| 0 < i < |w| && w[i] == Bracket(false, w[0].kind) && Dyck(w[1..i]) && Dyck(w[i + 1..]);
      var inner := stack + [w[0].kind];
      DyckReduces(w[1..i], inner);
      DyckReduces(w[i + 1..], stack);
      hide Dyck;
      PopReduces(w[i..], stack);
      PushReduces(w, i, stack);
    }
  }

  /** A word that empties a non-empty stack splits where the bottom entry is popped. */
  lemma {:induction false} SplitAtPop(w: seq<Bracket>, bottom: Kind, above: seq<Kind>) returns (i: nat)
    requires Reduce(w, [bottom] + above) == Some([])
    ensures i < |w| && w[i] == Bracket(false, bottom)
    ensures Reduce(w[..i], above) == Some([]) && Reduce(w[i + 1..], []) == Some([])
    decreases |w|
  {
    var stack := [bottom] + above;
    if w[0].opens {
      assert stack + [w[0].kind] == [bottom] + (above + [w[0].kind]);
      var j := SplitAtPop(w[1..], bottom, above + [w[0].kind]);
      i := j + 1;
      assert w[..i][1..] == w[1..][..j];
      assert w[1..][j + 1..] == w[i + 1..];
    } else if above == [] {
      assert stack[..|stack| - 1] == [];
      i := 0;
      assert w[..0] == [];
    } else {
      assert stack[..|stack| - 1] == [bottom] + above[..|above| - 1];
      var j := SplitAtPop(w[1..], bottom, above[..|above| - 1]);
      i := j + 1;
      assert w[..i][1..] == w[1..][..j];
      assert w[1..][j + 1..] == w[i + 1..];
    }
  }

  lemma {:induction false} ReduceIsDyck(w: seq<Bracket>)
    ensures Reduce(w, []) == Some([]) <==> Dyck(w)
    decreases |w|
  {
    if Dyck(w) { DyckReduces(w, []); }
    if w != [] && Reduce(w, []) == Some([]) {
      assert w[0].opens;
      assert [] + [w[0].kind] == [w[0].kind] + [];
      var j := SplitAtPop(w[1..], w[0].kind, []);
      var i := j + 1;
      assert w[1..][..j] == w[1..i] && w[1..][j + 1..] == w[i + 1..];
      ReduceIsDyck(w[1..i]);
      ReduceIsDyck(w[i + 1..]);
      assert w[i] == Bracket(false, w[0].kind);
    }
  }

  /** Types of the open containers. */
  function Kinds(m: Machine): seq<Kind>
    requires m.Wf()
  {
    seq(|m.stack|, k requires 0 <= k < |m.stack| => m.shapes[m.stack[k]].kind)
  }

  /** The return code the brackets and the lexical ending call for. */
  function Verdict(w: (seq<Bracket>, Ending), stack: seq<Kind>, count: nat): int {
    match Reduce(w.0, stack)
    case None => INVAL
    case Some(rest) =>
      match w.1
      case Failed(rc) => rc
      case Clean => if rest == [] then count else PART
  }

  lemma MoveReduces(l: Lexeme, m: Machine, cap: nat)
    requires m.Wf() && m.Ordered()
    requires !l.Broken? && (l.Open? || l.Atom? ==> |m.shapes| < cap)
    ensures match AdvanceOn(l, m, cap)
      case Next(m') =>
        && m'.Ordered()
        && |m'.shapes| == |m.shapes| + (if l.Open? || l.Atom? then 1 else 0)
        && Reduce(BracketsOf(l), Kinds(m)) == Some(Kinds(m'))
      case Stop(_, rc) => rc == INVAL && Reduce(BracketsOf(l), Kinds(m)) == None
  {
    match AdvanceOn(l, m, cap)
    case Next(m') =>
      if l.Open? {
        assert Kinds(m') == Kinds(m) + [l.kind];
      } else if l.Close? {
        assert Kinds(m') == Kinds(m)[..|m.stack| - 1];
      } else {
        assert Kinds(m') == Kinds(m);
      }
    case Stop(_, _) =>
      assert l.Close?;
      if m.stack != [] { assert Kinds(m)[|m.stack| - 1] != l.kind; }
  }

  /** Reading a lexeme leaves the verdict to the rest of the input, or settles it. */
  lemma VerdictStep(l: Lexeme, m: Machine, cap: nat, rest: (seq<Bracket>, Ending), wanted: nat)
    requires m.Wf() && m.Ordered()
    requires !l.Broken? && (l.Open? || l.Atom? ==> |m.shapes| < cap)
    ensures var n := |m.shapes| + (if l.Open? || l.Atom? then 1 else 0) + wanted;
      var v := Verdict((BracketsOf(l) + rest.0, rest.1), Kinds(m), n);
      match AdvanceOn(l, m, cap)
      case Next(m') => v == Verdict(rest, Kinds(m'), |m'.shapes| + wanted)
      case Stop(_, rc) => v == rc
  {
    MoveReduces(l, m, cap);
    ReduceConcat(BracketsOf(l), rest.0, Kinds(m));
  }

  /** With room for every token the machine returns the verdict on the rest of the input. */
  lemma {:induction false} ExecuteVerdict(d: Dialect, js: string, m: Machine, cap: nat)
    requires m.Wf() && m.Ordered()
    requires |m.shapes| + Wanted(d, js, m.pos) <= cap
    ensures Execute(d, js, m, cap).rc ==
      Verdict(Brackets(d, js, m.pos), Kinds(m), |m.shapes| + Wanted(d, js, m.pos))
    decreases |js| - m.pos
  {
    hide *;
    if AtEnd(js, m.pos) {
      EndVerdict(d, js, m, cap);
    } else {
      var l := Lex(d, js, m.pos);
      ExecuteUnfolds(d, js, m, cap, l);
      RestUnfolds(d, js, m.pos, l);
      if l.Broken? {
        BrokenVerdict(l, m, cap, Kinds(m), |m.shapes| + Wanted(d, js, m.pos));
      } else {
        var pos' := After(l, m.pos);
        MoveReduces(l, m, cap);
        VerdictStep(l, m, cap, Brackets(d, js, pos'), Wanted(d, js, pos'));
        var o := AdvanceOn(l, m, cap);
        if o.Next? { ExecuteVerdict(d, js, o.m, cap); }
      }
    }
  }

  lemma EndVerdict(d: Dialect, js: string, m: Machine, cap: nat)
    requires m.Wf() && AtEnd(js, m.pos)
    ensures Execute(d, js, m, cap).rc ==
      Verdict(Brackets(d, js, m.pos), Kinds(m), |m.shapes| + Wanted(d, js, m.pos))
  {
    assert (m.stack == []) == (Kinds(m) == []);
  }

  lemma ExecuteUnfolds(d: Dialect, js: string, m: Machine, cap: nat, l: Lexeme)
    requires m.Wf() && !AtEnd(js, m.pos) && l == Lex(d, js, m.pos)
    ensures var o := AdvanceOn(l, m, cap);
      if o.Stop? then Execute(d, js, m, cap) == o
      else Execute(d, js, m, cap) == Execute(d, js, o.m, cap) && o.m.pos == After(l, m.pos) > m.pos
    ensures m.pos < |js|
  {
    hide Lex;
  }

  lemma RestUnfolds(d: Dialect, js: string, pos: nat, l: Lexeme)
    requires !AtEnd(js, pos) && l == Lex(d, js, pos)
    ensures var rest := Brackets(d, js, After(l, pos));
      Brackets(d, js, pos) == if l.Broken? then ([], Failed(l.rc)) else (BracketsOf(l) + rest.0, rest.1)
    ensures Wanted(d, js, pos) ==
      if l.Broken? then 0 else (if l.Open? || l.Atom? then 1 else 0) + Wanted(d, js, After(l, pos))
  {
    hide Lex;
  }

  lemma BrokenVerdict(l: Lexeme, m: Machine, cap: nat, stack: seq<Kind>, count: nat)
    requires m.Wf() && l.Broken?
    ensures AdvanceOn(l, m, cap) == Stop(m, l.rc) && Verdict(([], Failed(l.rc)), stack, count) == l.rc
  {
  }

  lemma {:induction false} LexicalErrors(d: Dialect, js: string, pos: nat)
    ensures var e := Brackets(d, js, pos).1; e.Failed? ==> e.rc == INVAL || e.rc == PART
    decreases |js| - pos
  {
    if !AtEnd(js, pos) && !Lex(d, js, pos).Broken? {
      LexicalErrors(d, js, After(Lex(d, js, pos), pos));
    }
  }

  /** With as many tokens as the input asks for, a fresh parse never runs out.  It succeeds if and
      only if lexing reaches the end and the brackets are balanced; a mismatched bracket before
      any lexical error is INVAL, a lexical error is returned as it is, and input that ends
      with brackets still open is PART. */
  lemma AcceptsExactly(d: Dialect, js: string, cap: nat)
    requires cap >= Wanted(d, js, 0)
    ensures var o := Run(d, js, INITIAL, cap); var w := Brackets(d, js, 0);
      && o.Halt?
      && o.rc != NOMEM
      && (o.rc >= 0 <==> w.1 == Clean && Dyck(w.0))
      && (o.rc >= 0 ==> o.rc == Wanted(d, js, 0))
      && (o.rc == INVAL <==> Reduce(w.0, []).None? || w.1 == Failed(INVAL))
      && (o.rc == PART <==> Reduce(w.0, []).Some? && (w.1 == Failed(PART) || (w.1 == Clean && !Dyck(w.0))))
  {
    var m := Abs(INITIAL);
    RunValid(d, js, INITIAL, cap);
    RunRefines(d, js, INITIAL, cap);
    LexicalErrors(d, js, 0);
    ExecuteVerdict(d, js, m, cap);
    assert Kinds(m) == [];
    ReduceIsDyck(Brackets(d, js, 0).0);
  }

  /** The counting call returns what the input asks for, or its lexical error. */
  lemma {:induction false} CountIsWanted(d: Dialect, js: string, pos: nat, count: nat)
    ensures CountRun(d, js, pos, count).1 ==
      match Brackets(d, js, pos).1 case Clean => count + Wanted(d, js, pos) case Failed(rc) => rc
    decreases |js| - pos
  {
    if !AtEnd(js, pos) {
      var l := Lex(d, js, pos);
      if !l.Broken? { CountIsWanted(d, js, After(l, pos), count + if l.Open? || l.Atom? then 1 else 0); }
    }
  }

  /** With room for fewer tokens than the input asks for, no parse succeeds. */
  lemma {:induction false} ExecuteShort(d: Dialect, js: string, m: Machine, cap: nat)
    requires m.Wf() && |m.shapes| <= cap < |m.shapes| + Wanted(d, js, m.pos)
    ensures Execute(d, js, m, cap).rc < 0
    decreases |js| - m.pos
  {
    var l := Lex(d, js, m.pos);
    var o := AdvanceOn(l, m, cap);
    if o.Next? { ExecuteShort(d, js, o.m, cap); }
  }

  /** Counting mode agrees with token mode: if a fresh parse with tokens returns n >= 0 then so
      does the counting call; if the counting call returns n then a parse with at least n
      tokens does not return NOMEM, and one with fewer does not succeed. */
  lemma CountingAgrees(d: Dialect, js: string, cap: nat)
    ensures var o := Run(d, js, INITIAL, cap); var count := CountRun(d, js, 0, 0).1;
      && o.Halt?
      && (o.rc >= 0 ==> count == o.rc)
      && (0 <= count <= cap ==> o.rc != NOMEM)
      && (count > cap ==> o.rc < 0)
  {
    RunValid(d, js, INITIAL, cap);
    CountIsWanted(d, js, 0, 0);
    LexicalErrors(d, js, 0);
    if cap >= Wanted(d, js, 0) {
      AcceptsExactly(d, js, cap);
    } else {
      RunRefines(d, js, INITIAL, cap);
      ExecuteShort(d, js, Abs(INITIAL), cap);
    }
  }
}
