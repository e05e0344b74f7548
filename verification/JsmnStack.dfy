/** The tokenizer keeps no stack: it finds the innermost open container by scanning its tokens
    backwards.  Here it is shown to refine a machine with an explicit stack, and from that
    follow the nesting of token intervals and the exact condition for success. */
module JsmnStack {
  import opened JsonTokens
  import opened Jsmn

  /** A token without its child count. */
  datatype Shape = Shape(kind: Kind, start: int, end: int)

  /** The reference machine: `stack` holds the indices of the containers not yet closed. */
  datatype Machine = Machine(pos: nat, stack: seq<nat>, shapes: seq<Shape>) {
    predicate Wf() {
      forall k :: 0 <= k < |stack| ==> stack[k] < |shapes|
    }

    /** Inner containers come after outer ones. */
    predicate Ordered() {
      forall j, k :: 0 <= j < k < |stack| ==> stack[j] < stack[k]
    }
  }

  datatype Move = Next(m: Machine) | Stop(m: Machine, rc: int)

  function Push(m: Machine, kind: Kind): Machine {
    Machine(m.pos + 1, m.stack + [|m.shapes|], m.shapes + [Shape(kind, m.pos, -1)])
  }

  function Pop(m: Machine): Machine
    requires m.Wf() && m.stack != []
  {
    var top := m.stack[|m.stack| - 1];
    Machine(m.pos + 1, m.stack[..|m.stack| - 1], m.shapes[top := m.shapes[top].(end := m.pos + 1)])
  }

  /** Opening brackets push, closing brackets pop a bracket of the same type, atoms are
      recorded, everything else is skipped. */
  function Advance(d: Dialect, js: string, m: Machine, cap: nat): (o: Move)
    requires !AtEnd(js, m.pos) && m.Wf()
    ensures o.m.Wf()
    ensures o.Next? ==> m.pos < o.m.pos
  {
    AdvanceOn(Lex(d, js, m.pos), m, cap)
  }

  function AdvanceOn(l: Lexeme, m: Machine, cap: nat): (o: Move)
    requires m.Wf()
    ensures o.m.Wf()
  {
    match l
    case Open(kind) => if |m.shapes| >= cap then Stop(m, NOMEM) else Next(Push(m, kind))
    case Close(kind) =>
      if m.stack == [] || m.shapes[m.stack[|m.stack| - 1]].kind != kind then Stop(m, INVAL) else Next(Pop(m))
    case Atom(kind, start, end, next) =>
      if |m.shapes| >= cap then Stop(m, NOMEM)
      else Next(Machine(next, m.stack, m.shapes + [Shape(kind, start, end)]))
    case Broken(rc) => Stop(m, rc)
    case _ => Next(m.(pos := m.pos + 1))
  }

  function Execute(d: Dialect, js: string, m: Machine, cap: nat): (o: Move)
    requires m.Wf()
    ensures o.Stop?
    decreases |js| - m.pos
  {
    if AtEnd(js, m.pos) then Stop(m, if m.stack == [] then |m.shapes| else PART)
    else
      var o := Advance(d, js, m, cap);
      if o.Stop? then o else Execute(d, js, o.m, cap)
  }

  /** Indices below n of the open tokens, in increasing order. */
  function OpenBelow(toks: seq<Token>, n: nat): (s: seq<nat>)
    requires n <= |toks|
    ensures forall k :: 0 <= k < |s| ==> s[k] < n && toks[s[k]].IsOpen()
  {
    if n == 0 then []
    else if toks[n - 1].IsOpen() then OpenBelow(toks, n - 1) + [n - 1]
    else OpenBelow(toks, n - 1)
  }

  function ShapeOf(t: Token): Shape {
    Shape(t.kind, t.start, t.end)
  }

  function Shapes(toks: seq<Token>): (s: seq<Shape>)
    ensures |s| == |toks|
    ensures forall k :: 0 <= k < |toks| ==> s[k] == ShapeOf(toks[k])
    decreases |toks|
  {
    if toks == [] then [] else Shapes(toks[..|toks| - 1]) + [ShapeOf(toks[|toks| - 1])]
  }

  function Abs(st: State): (m: Machine)
    ensures m.Wf()
  {
    Machine(st.pos, OpenBelow(st.toks, |st.toks|), Shapes(st.toks))
  }

  /** The backward scan finds the top of the stack, and scanning on below it the rest. */
  lemma {:induction false} ScanIsTop(toks: seq<Token>, n: nat)
    requires n <= |toks|
    ensures var i := LastOpen(toks, n); var s := OpenBelow(toks, n);
      if i < 0 then s == [] else s == OpenBelow(toks, i) + [i]
  {
    if n > 0 && !toks[n - 1].IsOpen() { ScanIsTop(toks, n - 1); }
  }

  lemma {:induction false} OpenBelowPrefix(a: seq<Token>, b: seq<Token>, n: nat)
    requires n <= |a| && n <= |b| && forall k :: 0 <= k < n ==> a[k].IsOpen() == b[k].IsOpen()
    ensures OpenBelow(a, n) == OpenBelow(b, n)
  {
    if n > 0 { OpenBelowPrefix(a, b, n - 1); }
  }

  /** With nothing open in [m, n) the stack is the one at m. */
  lemma {:induction false} OpenBelowSkip(toks: seq<Token>, m: nat, n: nat)
    requires m <= n <= |toks| && forall k :: m <= k < n ==> !toks[k].IsOpen()
    ensures OpenBelow(toks, n) == OpenBelow(toks, m)
  {
    if m < n { OpenBelowSkip(toks, m, n - 1); }
  }

  /** Bump changes only sizes. */
  lemma BumpKeepsAbs(toks: seq<Token>, i: int)
    ensures Shapes(Bump(toks, i)) == Shapes(toks)
    ensures OpenBelow(Bump(toks, i), |toks|) == OpenBelow(toks, |toks|)
  {
    hide Shapes, Bump;
    OpenBelowPrefix(Bump(toks, i), toks, |toks|);
    assert Shapes(Bump(toks, i)) == Shapes(toks);
  }

  lemma AppendShape(toks: seq<Token>, t: Token)
    ensures Shapes(toks + [t]) == Shapes(toks) + [ShapeOf(t)]
  {
    assert (toks + [t])[..|toks|] == toks;
  }

  lemma AppendAbs(toks: seq<Token>, t: Token)
    ensures Shapes(toks + [t]) == Shapes(toks) + [ShapeOf(t)]
    ensures var open := OpenBelow(toks, |toks|);
      OpenBelow(toks + [t], |toks| + 1) == if t.IsOpen() then open + [|toks|] else open
  {
    AppendShape(toks, t);
    hide Shapes;
    var toks' := toks + [t];
    OpenBelowPrefix(toks', toks, |toks|);
    assert toks'[|toks|] == t;
  }

  lemma CloseAbs(toks: seq<Token>, i: nat, end: nat)
    requires i == LastOpen(toks, |toks|)
    ensures var toks' := toks[i := toks[i].(end := end)];
      && Shapes(toks') == Shapes(toks)[i := Shapes(toks)[i].(end := end)]
      && OpenBelow(toks', |toks|) == OpenBelow(toks, i)
  {
    hide Shapes;
    var toks' := toks[i := toks[i].(end := end)];
    assert Shapes(toks') == Shapes(toks)[i := Shapes(toks)[i].(end := end)];
    OpenBelowSkip(toks', i, |toks|);
    OpenBelowPrefix(toks', toks, i);
  }

  function AbsMove(o: Outcome): Move {
    match o
    case Go(st) => Next(Abs(st))
    case Halt(st, rc) => Stop(Abs(st), rc)
  }

  lemma OpenRefines(kind: Kind, st: State, cap: nat)
    requires kind.IsContainer()
    ensures AbsMove(StepOn(Open(kind), st, cap)) == AdvanceOn(Open(kind), Abs(st), cap)
  {
    hide Shapes, Bump, OpenBelow, LastOpen, LastOpenContainer;
    BumpKeepsAbs(st.toks, st.super);
    AppendAbs(Bump(st.toks, st.super), Token(kind, st.pos, -1, 0));
  }

  lemma CloseRefines(kind: Kind, st: State, cap: nat)
    ensures AbsMove(StepOn(Close(kind), st, cap)) == AdvanceOn(Close(kind), Abs(st), cap)
  {
    hide Shapes, OpenBelow, LastOpen, LastOpenContainer, Bump;
    var i := LastOpen(st.toks, |st.toks|);
    ScanIsTop(st.toks, |st.toks|);
    if i >= 0 {
      var m := Abs(st);
      assert m.stack[..|m.stack| - 1] == OpenBelow(st.toks, i);
      if st.toks[i].kind == kind { CloseAbs(st.toks, i, st.pos + 1); }
    }
  }

  lemma AtomRefines(kind: Kind, start: nat, end: nat, next: nat, st: State, cap: nat)
    ensures AbsMove(StepOn(Atom(kind, start, end, next), st, cap)) ==
      AdvanceOn(Atom(kind, start, end, next), Abs(st), cap)
  {
    hide Shapes, Bump, OpenBelow, LastOpen, LastOpenContainer;
    AppendAbs(st.toks, Token(kind, start, end, 0));
    BumpKeepsAbs(st.toks + [Token(kind, start, end, 0)], st.super);
  }

  /** One iteration of the tokenizer is one move of the stack machine. */
  lemma {:induction false} StepRefines(d: Dialect, js: string, st: State, cap: nat)
    requires !AtEnd(js, st.pos)
    ensures AbsMove(Step(d, js, st, cap)) == Advance(d, js, Abs(st), cap)
  {
    match Lex(d, js, st.pos)
    case Open(kind) => OpenRefines(kind, st, cap);
    case Close(kind) => CloseRefines(kind, st, cap);
    case Atom(kind, start, end, next) => AtomRefines(kind, start, end, next, st, cap);
    case _ =>
  }

  /** A whole call of the tokenizer, from any state, is a run of the stack machine: same
      return code, same tokens, and the open tokens are exactly the stack. */
  lemma {:induction false} RunRefines(d: Dialect, js: string, st: State, cap: nat)
    requires Valid(st)
    ensures AbsMove(Run(d, js, st, cap)) == Execute(d, js, Abs(st), cap)
    decreases |js| - st.pos
  {
    if AtEnd(js, st.pos) {
      ScanIsTop(st.toks, |st.toks|);
    } else {
      StepRefines(d, js, st, cap);
      StepValid(d, js, st, cap);
      var o := Step(d, js, st, cap);
      if o.Go? { RunRefines(d, js, o.st, cap); }
    }
  }

  // ---------------------------------------------------------------------------
  // Nesting of token intervals

  function OpenChar(kind: Kind): char {
    if kind == Object then '{' else '['
  }

  function CloseChar(kind: Kind): char {
    if kind == Object then '}' else ']'
  }

  /** A token sits on its own delimiters, inside the text read so far. */
  ghost predicate Placed(js: string, pos: nat, s: Shape) {
    match s.kind
    case String => 1 <= s.start <= s.end < pos <= |js| && js[s.start - 1] == '"' && js[s.end] == '"'
    case Primitive => 0 <= s.start < s.end <= pos <= |js|
    case _ =>
      && 0 <= s.start < pos <= |js|
      && js[s.start] == OpenChar(s.kind)
      && (s.end != -1 ==> s.start + 1 < s.end <= pos && js[s.end - 1] == CloseChar(s.kind))
  }

  /** `a` comes before `b`: it has ended by then, or it is a container holding `b`. */
  ghost predicate ApartOrHolds(a: Shape, b: Shape) {
    && a.start < b.start
    && ((a.end != -1 && a.end <= b.start)
        || (a.kind.IsContainer() && (a.end == -1 || -1 < b.end < a.end)))
  }

  ghost predicate Nested(js: string, m: Machine) {
    && m.pos <= |js|
    && (forall k :: 0 <= k < |m.stack| ==> m.stack[k] < |m.shapes|)
    && m.Ordered()
    && (forall k :: 0 <= k < |m.shapes| ==> (m.shapes[k].end == -1 <==> k in m.stack))
    && (forall k :: 0 <= k < |m.shapes| ==> Placed(js, m.pos, m.shapes[k]))
    && (forall j, k :: 0 <= j < k < |m.shapes| ==> ApartOrHolds(m.shapes[j], m.shapes[k]))
  }

  /** The stack after appending a token. */
  function StackWith(m: Machine, s: Shape): seq<nat> {
    if s.end == -1 then m.stack + [|m.shapes|] else m.stack
  }

  lemma AppendNests(js: string, m: Machine, s: Shape, pos: nat)
    requires Nested(js, m) && m.pos <= s.start && m.pos < pos <= |js| && Placed(js, pos, s)
    ensures Nested(js, Machine(pos, StackWith(m, s), m.shapes + [s]))
  {
    var m' := Machine(pos, StackWith(m, s), m.shapes + [s]);
    forall k | 0 <= k < |m'.shapes|
      ensures m'.shapes[k].end == -1 <==> k in m'.stack
      ensures Placed(js, pos, m'.shapes[k])
    {
      if k < |m.shapes| { assert Placed(js, m.pos, m.shapes[k]); }
    }
    forall j, k | 0 <= j < k < |m'.shapes|
      ensures ApartOrHolds(m'.shapes[j], m'.shapes[k])
    {
      assert Placed(js, m.pos, m.shapes[j]);
      if k < |m.shapes| { assert ApartOrHolds(m.shapes[j], m.shapes[k]); }
    }
  }

  lemma PopNests(js: string, m: Machine)
    requires Nested(js, m) && m.stack != [] && m.pos < |js|
    requires var top := m.shapes[m.stack[|m.stack| - 1]]; js[m.pos] == CloseChar(top.kind) && top.kind.IsContainer()
    ensures Nested(js, Pop(m))
  {
    var t := m.stack[|m.stack| - 1];
    var m' := Pop(m);
    assert m.stack == m'.stack + [t];
    assert Placed(js, m.pos, m.shapes[t]);
    forall k | 0 <= k < |m.shapes|
      ensures m'.shapes[k].end == -1 <==> k in m'.stack
      ensures Placed(js, m'.pos, m'.shapes[k])
    {
      assert Placed(js, m.pos, m.shapes[k]);
      assert k in m.stack <==> k in m'.stack || k == t;
    }
    forall j, k | 0 <= j < k < |m.shapes|
      ensures ApartOrHolds(m'.shapes[j], m'.shapes[k])
    {
      assert ApartOrHolds(m.shapes[j], m.shapes[k]);
      assert Placed(js, m.pos, m.shapes[k]);
      if j == t { assert k !in m.stack; }
    }
  }

  /** A lexeme read at `pos` describes the characters there. */
  ghost predicate Reads(js: string, pos: nat, l: Lexeme) {
    match l
    case Open(kind) => kind.IsContainer() && pos < |js| && js[pos] == OpenChar(kind)
    case Close(kind) => kind.IsContainer() && pos < |js| && js[pos] == CloseChar(kind)
    case Atom(kind, start, end, next) => pos <= start && pos < next <= |js| && Placed(js, next, Shape(kind, start, end))
    case _ => pos < |js|
  }

  lemma LexReads(d: Dialect, js: string, pos: nat)
    requires !AtEnd(js, pos)
    ensures Reads(js, pos, Lex(d, js, pos))
  {
  }

  lemma AdvanceNestsOn(js: string, l: Lexeme, m: Machine, cap: nat)
    requires Nested(js, m) && Reads(js, m.pos, l)
    ensures Nested(js, AdvanceOn(l, m, cap).m)
  {
    assert m.Wf();
    hide Nested;
    if AdvanceOn(l, m, cap).Next? {
      match l
      case Open(kind) => AppendNests(js, m, Shape(kind, m.pos, -1), m.pos + 1);
      case Close(kind) => PopNests(js, m);
      case Atom(kind, start, end, next) => AppendNests(js, m, Shape(kind, start, end), next);
      case _ => SkipNests(js, m);
    }
  }

  lemma SkipNests(js: string, m: Machine)
    requires Nested(js, m) && m.pos < |js|
    ensures Nested(js, m.(pos := m.pos + 1))
  {
    forall k | 0 <= k < |m.shapes|
      ensures Placed(js, m.pos + 1, m.shapes[k])
    {
      assert Placed(js, m.pos, m.shapes[k]);
    }
  }

  lemma {:induction false} ExecuteNests(d: Dialect, js: string, m: Machine, cap: nat)
    requires Nested(js, m)
    ensures Nested(js, Execute(d, js, m, cap).m)
    decreases |js| - m.pos
  {
    if !AtEnd(js, m.pos) {
      LexReads(d, js, m.pos);
      AdvanceNestsOn(js, Lex(d, js, m.pos), m, cap);
      var o := Advance(d, js, m, cap);
      if o.Next? { ExecuteNests(d, js, o.m, cap); }
    }
  }

  /** For every input and every outcome of a fresh parse, starts increase with the index and any
      two token intervals are disjoint or nested; after success every token is closed, lies
      within the input and sits on its own delimiters. */
  lemma TokensNest(d: Dialect, js: string, cap: nat)
    ensures var o := Run(d, js, INITIAL, cap); var toks := o.st.toks;
      && o.Halt?
      && (forall j, k :: 0 <= j < k < |toks| ==> ApartOrHolds(ShapeOf(toks[j]), ShapeOf(toks[k])))
      && (forall k :: 0 <= k < |toks| ==> Placed(js, o.st.pos, ShapeOf(toks[k])))
      && (o.rc >= 0 ==> o.rc == |toks| <= cap)
      && (o.rc >= 0 ==> forall k :: 0 <= k < |toks| ==> 0 <= toks[k].start <= toks[k].end <= |js|)
  {
    var o := Run(d, js, INITIAL, cap);
    RunValid(d, js, INITIAL, cap);
    RunRefines(d, js, INITIAL, cap);
    ExecuteNests(d, js, Abs(INITIAL), cap);
    ExecuteCount(d, js, Abs(INITIAL), cap);
    var m := Abs(o.st);
    forall k | 0 <= k < |o.st.toks|
      ensures m.shapes[k] == ShapeOf(o.st.toks[k])
    {
    }
    forall k | 0 <= k < |o.st.toks|
      ensures Placed(js, o.st.pos, ShapeOf(o.st.toks[k]))
    {
      assert Placed(js, m.pos, m.shapes[k]);
    }
    forall j, k | 0 <= j < k < |o.st.toks|
      ensures ApartOrHolds(ShapeOf(o.st.toks[j]), ShapeOf(o.st.toks[k]))
    {
      assert ApartOrHolds(m.shapes[j], m.shapes[k]);
    }
  }

  /** A non-negative return code is the number of tokens, and then no container is open. */
  lemma {:induction false} ExecuteCount(d: Dialect, js: string, m: Machine, cap: nat)
    requires m.Wf() && |m.shapes| <= cap
    ensures var o := Execute(d, js, m, cap);
      && (o.rc >= 0 ==> o.rc == |o.m.shapes| && o.m.stack == [])
      && |o.m.shapes| <= cap
    decreases |js| - m.pos
  {
    if !AtEnd(js, m.pos) {
      var o := Advance(d, js, m, cap);
      if o.Next? { ExecuteCount(d, js, o.m, cap); }
    }
  }
}
