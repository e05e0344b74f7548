/** What the `size` fields count. */
module JsmnSizes {
  import opened JsonTokens
  import opened Jsmn
  import opened JsmnStack

  function SumSizes(toks: seq<Token>): nat
    decreases |toks|
  {
    if toks == [] then 0 else SumSizes(toks[..|toks| - 1]) + toks[|toks| - 1].size
  }

  lemma {:induction false} SumBump(toks: seq<Token>, i: int)
    ensures SumSizes(Bump(toks, i)) == SumSizes(toks) + if 0 <= i < |toks| then 1 else 0
    decreases |toks|
  {
    if toks != [] {
      var n := |toks| - 1;
      SumBump(toks[..n], i);
      assert Bump(toks, i)[..n] == Bump(toks[..n], i);
    }
  }

  lemma {:induction false} SumSame(a: seq<Token>, b: seq<Token>)
    requires |a| == |b| && forall k :: 0 <= k < |a| ==> a[k].size == b[k].size
    ensures SumSizes(a) == SumSizes(b)
    decreases |a|
  {
    if a != [] { SumSame(a[..|a| - 1], b[..|b| - 1]); }
  }

  lemma SumAppend(toks: seq<Token>, t: Token)
    ensures SumSizes(toks + [t]) == SumSizes(toks) + t.size
  {
    assert (toks + [t])[..|toks|] == toks;
  }

  /** Tokens emitted from `st` on while `toksuper` was -1. */
  function Rootless(d: Dialect, js: string, st: State, cap: nat): nat
    decreases |js| - st.pos
  {
    if AtEnd(js, st.pos) || Step(d, js, st, cap).Halt? || Step(d, js, st, cap).st.pos <= st.pos then 0
    else
      var o := Step(d, js, st, cap);
      (if |o.st.toks| > |st.toks| && st.super == -1 then 1 else 0) + Rootless(d, js, o.st, cap)
  }

  lemma StepConserves(l: Lexeme, st: State, cap: nat)
    requires Valid(st)
    ensures var st' := StepOn(l, st, cap).st;
      && |st.toks| <= |st'.toks|
      && SumSizes(st'.toks) + (if |st'.toks| > |st.toks| && st.super == -1 then 1 else 0) - SumSizes(st.toks)
        == |st'.toks| - |st.toks|
  {
    hide LastOpen, LastOpenContainer, Bump, SumSizes;
    match l
    case Open(kind) =>
      SumBump(st.toks, st.super);
      SumAppend(Bump(st.toks, st.super), Token(kind, st.pos, -1, 0));
    case Close(kind) => SumSame(st.toks, StepOn(l, st, cap).st.toks);
    case Atom(kind, start, end, next) =>
      SumAppend(st.toks, Token(kind, start, end, 0));
      SumBump(st.toks + [Token(kind, start, end, 0)], st.super);
    case _ =>
  }

  /** Every token is counted once, by its parent's size or as rootless: over any run the sizes
      grow by the number of tokens emitted less the rootless ones. */
  lemma {:induction false} SizesConserved(d: Dialect, js: string, st: State, cap: nat)
    requires Valid(st)
    ensures var end := Run(d, js, st, cap).st;
      && Valid(end) && |st.toks| <= |end.toks|
      && SumSizes(end.toks) + Rootless(d, js, st, cap) - SumSizes(st.toks) == |end.toks| - |st.toks|
    decreases |js| - st.pos
  {
    if !AtEnd(js, st.pos) {
      StepConserves(Lex(d, js, st.pos), st, cap);
      StepValid(d, js, st, cap);
      var o := Step(d, js, st, cap);
      if o.Go? { SizesConserved(d, js, o.st, cap); }
    }
  }

  // ---------------------------------------------------------------------------
  // The older tokenizer: size is the number of children

  /** Token `t` is a container and position `start` lies inside it. */
  predicate Encloses(t: Token, start: int) {
    t.kind.IsContainer() && t.start < start && (t.end == -1 || start < t.end)
  }

  /** Innermost container among the first n tokens that encloses `start`, or -1. */
  function Innermost(toks: seq<Token>, n: nat, start: int): (i: int)
    requires n <= |toks|
    ensures -1 <= i < n
    ensures i >= 0 ==> Encloses(toks[i], start)
    ensures forall k :: i < k < n ==> !Encloses(toks[k], start)
  {
    if n == 0 then -1
    else if Encloses(toks[n - 1], start) then n - 1
    else Innermost(toks, n - 1, start)
  }

  /** How many of the first n tokens have token i as their innermost enclosing container. */
  function Children(toks: seq<Token>, n: nat, i: int): nat
    requires n <= |toks|
  {
    if n == 0 then 0
    else Children(toks, n - 1, i) + if Innermost(toks, n - 1, toks[n - 1].start) == i then 1 else 0
  }

  lemma {:induction false} ChildrenSame(a: seq<Token>, b: seq<Token>, n: nat, i: int)
    requires n <= |a| && n <= |b|
    requires forall k :: 0 <= k < n ==> a[k].start == b[k].start
    requires forall j, k :: 0 <= j < k < n ==> Encloses(a[j], a[k].start) == Encloses(b[j], a[k].start)
    ensures Children(a, n, i) == Children(b, n, i)
  {
    if n > 0 {
      ChildrenSame(a, b, n - 1, i);
      var s := a[n - 1].start;
      var x, y := Innermost(a, n - 1, s), Innermost(b, n - 1, s);
      if x >= 0 { assert Encloses(b[x], s); }
      if y >= 0 { assert Encloses(a[y], s); }
    }
  }

  lemma {:induction false} ChildrenOfAtom(toks: seq<Token>, n: nat, i: nat)
    requires n <= |toks| && i < |toks| && !toks[i].kind.IsContainer()
    ensures Children(toks, n, i) == 0
  {
    if n > 0 { ChildrenOfAtom(toks, n - 1, i); }
  }

  /** `toksuper` is the innermost open container, and sizes count children. */
  ghost predicate Counted(st: State) {
    && st.super == LastOpen(st.toks, |st.toks|)
    && forall i :: 0 <= i < |st.toks| ==> st.toks[i].size == Children(st.toks, |st.toks|, i)
  }

  /** What nesting says about the tokens themselves. */
  ghost predicate Spread(pos: nat, toks: seq<Token>) {
    && (forall k :: 0 <= k < |toks| ==> -1 < toks[k].start < pos && toks[k].end <= pos)
    && (forall k :: 0 <= k < |toks| ==> toks[k].end == -1 ==> toks[k].kind.IsContainer())
    && (forall j, k :: 0 <= j < k < |toks| ==> toks[j].start < toks[k].start)
  }

  lemma NestedSpreads(js: string, st: State)
    requires Nested(js, Abs(st)) && Valid(st)
    ensures Spread(st.pos, st.toks)
  {
    var m := Abs(st);
    forall k | 0 <= k < |st.toks|
      ensures -1 < st.toks[k].start < st.pos && st.toks[k].end <= st.pos
    {
      assert Placed(js, m.pos, m.shapes[k]);
    }
    forall j, k | 0 <= j < k < |st.toks|
      ensures st.toks[j].start < st.toks[k].start
    {
      assert ApartOrHolds(m.shapes[j], m.shapes[k]);
    }
  }

  /** A token that starts at or after `pos` lies in the innermost open container. */
  lemma {:induction false} NewParent(pos: nat, toks: seq<Token>, n: nat, start: nat)
    requires Spread(pos, toks) && n <= |toks| && pos <= start
    ensures Innermost(toks, n, start) == LastOpen(toks, n)
  {
    if n > 0 {
      assert Encloses(toks[n - 1], start) == toks[n - 1].IsOpen();
      NewParent(pos, toks, n - 1, start);
    }
  }

  /** Appending a token to `toks`, whose parent is p, adds one child to p. */
  lemma ChildAdded(toks: seq<Token>, toks': seq<Token>, i: nat)
    requires |toks'| == |toks| + 1 && i <= |toks|
    requires forall k :: 0 <= k < |toks| ==> toks'[k] == toks[k].(size := toks'[k].size)
    ensures Children(toks', |toks'|, i) ==
      (if i < |toks| then Children(toks, |toks|, i) else 0) +
      (if Innermost(toks, |toks|, toks'[|toks|].start) == i then 1 else 0)
  {
    var n := |toks|;
    SameInnermost(toks, toks', n, toks'[n].start);
    if i < n { ChildrenSame(toks, toks', n, i); } else { NoEarlyChildren(toks', n, i); }
  }

  /** Emitting a token: its parent is `toksuper`, whose size is incremented. */
  lemma EmitCounts(st: State, t: Token, toks': seq<Token>)
    requires Valid(st) && Spread(st.pos, st.toks) && Counted(st) && st.pos <= t.start && t.size == 0
    requires toks' == Bump(st.toks, st.super) + [t]
    ensures forall i :: 0 <= i < |toks'| ==> toks'[i].size == Children(toks', |toks'|, i)
  {
    hide Children, Bump;
    NewParent(st.pos, st.toks, |st.toks|, t.start);
    forall i | 0 <= i < |toks'|
      ensures toks'[i].size == Children(toks', |toks'|, i)
    {
      ChildAdded(st.toks, toks', i);
    }
  }

  lemma {:induction false} SameInnermost(a: seq<Token>, b: seq<Token>, n: nat, start: int)
    requires n <= |a| && n <= |b| && forall k :: 0 <= k < n ==> Encloses(a[k], start) == Encloses(b[k], start)
    ensures Innermost(a, n, start) == Innermost(b, n, start)
  {
    if n > 0 { SameInnermost(a, b, n - 1, start); }
  }

  /** No token among the first n has a parent at or after index n. */
  lemma {:induction false} NoEarlyChildren(toks: seq<Token>, n: nat, i: nat)
    requires n <= |toks| && n <= i
    ensures Children(toks, n, i) == 0
  {
    if n > 0 { NoEarlyChildren(toks, n - 1, i); }
  }

  /** Closing a container moves no token to another parent. */
  lemma CloseCounts(st: State, i: nat, st': State)
    requires Valid(st) && Spread(st.pos, st.toks) && Counted(st) && i == LastOpen(st.toks, |st.toks|)
    requires st'.toks == st.toks[i := st.toks[i].(end := st.pos + 1)] && st'.super == LastOpen(st.toks, i)
    ensures Counted(st')
  {
    var n := |st.toks|;
    forall k | 0 <= k < n
      ensures st'.toks[k].size == Children(st'.toks, n, k)
    {
      ChildrenSame(st.toks, st'.toks, n, k);
    }
    LastOpenUnchanged(st.toks, st'.toks, i);
    NothingOpenAbove(st'.toks, i, n);
  }

  lemma {:induction false} NothingOpenAbove(toks: seq<Token>, i: nat, n: nat)
    requires i < n <= |toks| && forall k :: i <= k < n ==> !toks[k].IsOpen()
    ensures LastOpen(toks, n) == LastOpen(toks, i)
  {
    if i + 1 < n { NothingOpenAbove(toks, i, n - 1); }
  }

  lemma LastOpenAppend(a: seq<Token>, b: seq<Token>)
    requires |b| == |a| + 1 && forall k :: 0 <= k < |a| ==> a[k].IsOpen() == b[k].IsOpen()
    ensures LastOpen(b, |b|) == if b[|a|].IsOpen() then |a| else LastOpen(a, |a|)
  {
    LastOpenPrefix(a, b, |a|);
  }

  lemma StepCounts(js: string, l: Lexeme, st: State, cap: nat)
    requires Valid(st) && Nested(js, Abs(st)) && Counted(st)
    requires Reads(js, st.pos, l) && !l.Colon? && !l.Comma?
    ensures Counted(StepOn(l, st, cap).st)
  {
    hide Children, Nested, Spread, Bump, LastOpen;
    NestedSpreads(js, st);
    var o := StepOn(l, st, cap);
    var n := |st.toks|;
    if o.Go? {
      match l
      case Open(kind) =>
        EmitCounts(st, Token(kind, st.pos, -1, 0), o.st.toks);
        LastOpenAppend(st.toks, o.st.toks);
      case Close(kind) =>
        CloseCounts(st, LastOpen(st.toks, n), o.st);
      case Atom(kind, start, end, next) =>
        var t := Token(kind, start, end, 0);
        assert Bump(st.toks + [t], st.super) == Bump(st.toks, st.super) + [t];
        EmitCounts(st, t, o.st.toks);
        LastOpenAppend(st.toks, o.st.toks);
      case _ =>
    }
  }

  lemma {:induction false} RunCounts(js: string, st: State, cap: nat)
    requires Valid(st) && Nested(js, Abs(st)) && Counted(st)
    ensures Counted(Run(Strict, js, st, cap).st)
    decreases |js| - st.pos
  {
    if !AtEnd(js, st.pos) {
      var l := Lex(Strict, js, st.pos);
      LexReads(Strict, js, st.pos);
      StepCounts(js, l, st, cap);
      StepRefines(Strict, js, st, cap);
      AdvanceNestsOn(js, l, Abs(st), cap);
      StepValid(Strict, js, st, cap);
      var o := Step(Strict, js, st, cap);
      if o.Go? { RunCounts(js, o.st, cap); }
    }
  }

  /** The older tokenizer, for every input and every outcome: `toksuper` is the innermost open
      container or -1, every container's size is the number of tokens whose innermost enclosing
      container it is, and strings and primitives have size 0. */
  lemma StrictSizesCountChildren(js: string, cap: nat)
    ensures var st := Run(Strict, js, INITIAL, cap).st; var toks := st.toks;
      && st.super == LastOpen(toks, |toks|)
      && forall i :: 0 <= i < |toks| ==>
           && toks[i].size == Children(toks, |toks|, i)
           && (!toks[i].kind.IsContainer() ==> toks[i].size == 0)
  {
    RunCounts(js, INITIAL, cap);
    var toks := Run(Strict, js, INITIAL, cap).st.toks;
    forall i | 0 <= i < |toks| && !toks[i].kind.IsContainer()
      ensures toks[i].size == 0
    {
      ChildrenOfAtom(toks, |toks|, i);
    }
  }
}
