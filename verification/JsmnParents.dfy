/** What the `size` fields of the default tokenizer count.  The parent of a token is read off the
    text and the token intervals: after a colon it is the token before the colon, up to the next
    comma or bracket; otherwise it is the innermost container the token lies in. */
module JsmnParents {
  import opened JsonTokens
  import opened Jsmn
  import opened JsmnResume
  import opened JsmnSizes
  import opened JsmnStack

  /** Where the text of a token begins and ends, quotes included. */
  function Begin(t: Token): int {
    if t.kind == String then t.start - 1 else t.start
  }

  function Finish(t: Token): int {
    if t.kind == String then t.end + 1 else t.end
  }

  /** Position p belongs to a string or a primitive. */
  predicate InAtom(toks: seq<Token>, p: int) {
    exists k :: 0 <= k < |toks| && !toks[k].kind.IsContainer() && Begin(toks[k]) <= p < Finish(toks[k])
  }

  /** What stands before a position: the colon it is governed by, or -1 if a bracket came after the
      last colon, and whether a comma follows the colon. */
  datatype Sign = Sign(colon: int, comma: bool)

  function Look(js: string, toks: seq<Token>, p: nat): (s: Sign)
    requires p <= |js|
    ensures -1 <= s.colon < p
  {
    if p == 0 then Sign(-1, false)
    else if InAtom(toks, p - 1) then Look(js, toks, p - 1)
    else Passed(js[p - 1], p - 1, Look(js, toks, p - 1))
  }

  function Passed(c: char, p: nat, s: Sign): Sign {
    if c == '{' || c == '}' || c == '[' || c == ']' then Sign(-1, false)
    else if c == ':' then Sign(p, false)
    else if c == ',' then s.(comma := true)
    else s
  }

  /** The last of the first n tokens that starts before position q, or -1. */
  function Before(toks: seq<Token>, n: nat, q: int): (i: int)
    requires n <= |toks|
    ensures -1 <= i < n
    ensures i >= 0 ==> toks[i].start < q
    ensures forall k :: i < k < n ==> toks[k].start >= q
  {
    if n == 0 then -1 else if toks[n - 1].start < q then n - 1 else Before(toks, n - 1, q)
  }

  /** Whose size counts a token that begins at p.  A comma ends the reach of a colon, unless the token
      before the colon is a container, or there is none, or no container is open. */
  function Parent(js: string, toks: seq<Token>, p: nat): int
    requires p <= |js|
  {
    var s, inner := Look(js, toks, p), Innermost(toks, |toks|, p);
    if s.colon < 0 then inner
    else
      var key := Before(toks, |toks|, s.colon);
      if s.comma && key >= 0 && !toks[key].kind.IsContainer() && inner >= 0 then inner else key
  }

  /** Every token begins inside the text. */
  predicate Inside(js: string, toks: seq<Token>) {
    forall k :: 0 <= k < |toks| ==> 0 <= Begin(toks[k]) <= |js|
  }

  /** How many of the first n tokens have token i as their parent. */
  function Counts(js: string, toks: seq<Token>, n: nat, i: int): nat
    requires n <= |toks| && Inside(js, toks)
  {
    if n == 0 then 0
    else Counts(js, toks, n - 1, i) + if Parent(js, toks, Begin(toks[n - 1])) == i then 1 else 0
  }

  // ---------------------------------------------------------------------------
  // Later tokens and closing brackets change no parent

  /** Token `b` is `a` after some more reading: up to position p it covers the same. */
  predicate SameUpTo(a: Token, b: Token, p: int) {
    a.kind == b.kind && a.start == b.start && (b.end == a.end || (a.kind.IsContainer() && a.end == -1 && p < b.end))
  }

  /** `b` is `a` after some more reading from position p on. */
  predicate Extends(a: seq<Token>, b: seq<Token>, p: int) {
    && |a| <= |b|
    && (forall k :: 0 <= k < |a| ==> SameUpTo(a[k], b[k], p))
    && forall k :: |a| <= k < |b| ==> p <= Begin(b[k])
  }

  lemma InAtomStable(a: seq<Token>, b: seq<Token>, p: int, q: int)
    requires Extends(a, b, p) && q < p
    ensures InAtom(a, q) <==> InAtom(b, q)
  {
    if InAtom(a, q) {
      var k :| 0 <= k < |a| && !a[k].kind.IsContainer() && Begin(a[k]) <= q < Finish(a[k]);
      assert SameUpTo(a[k], b[k], p);
    }
    if InAtom(b, q) {
      var k :| 0 <= k < |b| && !b[k].kind.IsContainer() && Begin(b[k]) <= q < Finish(b[k]);
      assert k < |a|;
      assert SameUpTo(a[k], b[k], p);
    }
  }

  lemma {:induction false} LookStable(js: string, a: seq<Token>, b: seq<Token>, p: int, q: nat)
    requires Extends(a, b, p) && q <= p && q <= |js|
    ensures Look(js, a, q) == Look(js, b, q)
  {
    if q > 0 {
      LookStable(js, a, b, p, q - 1);
      InAtomStable(a, b, p, q - 1);
    }
  }

  lemma {:induction false} BeforeStable(a: seq<Token>, b: seq<Token>, p: int, q: int, n: nat)
    requires Extends(a, b, p) && q < p && |a| <= n <= |b|
    ensures Before(a, |a|, q) == Before(b, n, q)
  {
    if n > |a| {
      BeforeStable(a, b, p, q, n - 1);
    } else {
      BeforeSame(a, b, n, q);
    }
  }

  lemma {:induction false} BeforeSame(a: seq<Token>, b: seq<Token>, n: nat, q: int)
    requires n <= |a| && n <= |b| && forall k :: 0 <= k < n ==> a[k].start == b[k].start
    ensures Before(a, n, q) == Before(b, n, q)
  {
    if n > 0 { BeforeSame(a, b, n - 1, q); }
  }

  lemma {:induction false} InnermostStable(a: seq<Token>, b: seq<Token>, p: int, n: nat)
    requires Extends(a, b, p) && |a| <= n <= |b|
    ensures Innermost(a, |a|, p) == Innermost(b, n, p)
  {
    if n > |a| {
      InnermostStable(a, b, p, n - 1);
    } else {
      forall k | 0 <= k < n
        ensures Encloses(a[k], p) == Encloses(b[k], p)
      {
        assert SameUpTo(a[k], b[k], p);
      }
      SameInnermost(a, b, n, p);
    }
  }

  lemma ParentStable(js: string, a: seq<Token>, b: seq<Token>, p: nat)
    requires Extends(a, b, p) && p <= |js|
    ensures Parent(js, a, p) == Parent(js, b, p)
  {
    LookStable(js, a, b, p, p);
    InnermostStable(a, b, p, |b|);
    var q := Look(js, a, p).colon;
    BeforeStable(a, b, p, q, |b|);
    var key := Before(a, |a|, q);
    if key >= 0 { assert SameUpTo(a[key], b[key], p); }
  }

  lemma {:induction false} CountsStable(js: string, a: seq<Token>, b: seq<Token>, p: int, n: nat, i: int)
    requires Inside(js, a) && Inside(js, b) && n <= |a| && Extends(a, b, p)
    requires forall k :: 0 <= k < n ==> Begin(a[k]) <= p
    ensures Counts(js, a, n, i) == Counts(js, b, n, i)
  {
    hide *;
    if n == 0 {
      NothingCounted(js, a, i);
      NothingCounted(js, b, i);
    } else {
      CountsStable(js, a, b, p, n - 1, i);
      BeginsSame(js, a, b, p, n - 1);
      CountsNext(js, a, n - 1, i);
      CountsNext(js, b, n - 1, i);
      ExtendsEarlier(a, b, p, Begin(a[n - 1]));
      ParentStable(js, a, b, Begin(a[n - 1]));
    }
  }

  lemma NothingCounted(js: string, toks: seq<Token>, i: int)
    requires Inside(js, toks)
    ensures Counts(js, toks, 0, i) == 0
  {
  }

  lemma BeginsSame(js: string, a: seq<Token>, b: seq<Token>, p: int, k: nat)
    requires Extends(a, b, p) && k < |a| && Inside(js, a)
    ensures k < |b| && Begin(a[k]) == Begin(b[k]) && 0 <= Begin(a[k]) <= |js|
  {
    assert SameUpTo(a[k], b[k], p);
  }

  lemma CountsNext(js: string, toks: seq<Token>, n: nat, i: int)
    requires n < |toks| && Inside(js, toks)
    ensures 0 <= Begin(toks[n]) <= |js|
    ensures Counts(js, toks, n + 1, i) ==
            Counts(js, toks, n, i) + if Parent(js, toks, Begin(toks[n])) == i then 1 else 0
  {
  }

  lemma ExtendsEarlier(a: seq<Token>, b: seq<Token>, p: int, q: int)
    requires Extends(a, b, p) && q <= p
    ensures Extends(a, b, q)
  {
    forall k | 0 <= k < |a|
      ensures SameUpTo(a[k], b[k], q)
    {
      assert SameUpTo(a[k], b[k], p);
    }
  }

  // ---------------------------------------------------------------------------
  // One iteration

  /** What nesting says about where tokens begin and atoms finish. */
  ghost predicate Settled(js: string, pos: nat, toks: seq<Token>) {
    && pos <= |js| && Spread(pos, toks)
    && (forall k :: 0 <= k < |toks| ==> 0 <= Begin(toks[k]) < pos)
    && (forall k :: 0 <= k < |toks| ==> !toks[k].kind.IsContainer() ==> Finish(toks[k]) <= pos)
  }

  lemma NestedSettles(js: string, st: State)
    requires Nested(js, Abs(st)) && Valid(st)
    ensures Settled(js, st.pos, st.toks)
  {
    NestedSpreads(js, st);
    var m := Abs(st);
    forall k | 0 <= k < |st.toks|
      ensures 0 <= Begin(st.toks[k]) < st.pos
      ensures !st.toks[k].kind.IsContainer() ==> Finish(st.toks[k]) <= st.pos
    {
      assert Placed(js, m.pos, m.shapes[k]);
    }
  }

  /** `toksuper` is the parent of a token that begins here, and sizes count tokens by parent. */
  ghost predicate Parented(js: string, st: State) {
    && Settled(js, st.pos, st.toks)
    && st.super == Parent(js, st.toks, st.pos)
    && forall i :: 0 <= i < |st.toks| ==> st.toks[i].size == Counts(js, st.toks, |st.toks|, i)
  }

  /** No atom reaches the position read next. */
  lemma NotInAtom(js: string, pos: nat, toks: seq<Token>)
    requires Settled(js, pos, toks)
    ensures !InAtom(toks, pos)
  {
  }

  /** Nothing starts at or after the position, so what encloses it is open, and the last token is
      before it. */
  lemma Ahead(js: string, pos: nat, toks: seq<Token>, p: nat)
    requires Settled(js, pos, toks) && pos <= p
    ensures Innermost(toks, |toks|, p) == LastOpen(toks, |toks|)
    ensures Before(toks, |toks|, p) == |toks| - 1
  {
    NewParent(pos, toks, |toks|, p);
  }

  /** A character that is not part of a token: the parent after it. */
  lemma ParentAfter(js: string, pos: nat, toks: seq<Token>)
    requires Settled(js, pos, toks) && pos < |js|
    ensures var s, inner := Passed(js[pos], pos, Look(js, toks, pos)), LastOpen(toks, |toks|);
      Parent(js, toks, pos + 1) ==
      if s.colon < 0 then inner
      else
        var key := Before(toks, |toks|, s.colon);
        if s.comma && key >= 0 && !toks[key].kind.IsContainer() && inner >= 0 then inner else key
  {
    NotInAtom(js, pos, toks);
    Ahead(js, pos, toks, pos + 1);
    assert Look(js, toks, pos + 1) == Passed(js[pos], pos, Look(js, toks, pos));
  }

  /** Emitting a token: it is counted by its parent, and nothing else changes. */
  lemma EmitParented(js: string, st: State, t: Token, toks': seq<Token>)
    requires Valid(st) && Parented(js, st) && Begin(t) == st.pos && t.size == 0
    requires toks' == Bump(st.toks, st.super) + [t]
    ensures Inside(js, toks')
    ensures forall i :: 0 <= i < |toks'| ==> toks'[i].size == Counts(js, toks', |toks'|, i)
  {
    hide Counts, Bump, Parent;
    var n := |st.toks|;
    assert Extends(st.toks, toks', st.pos);
    ParentStable(js, st.toks, toks', st.pos);
    forall i | 0 <= i < |toks'|
      ensures toks'[i].size == Counts(js, toks', |toks'|, i)
    {
      CountsStable(js, st.toks, toks', st.pos, n, i);
      CountsNext(js, toks', n, i);
      if i == n { NoneYet(js, st, n, n); }
    }
  }

  /** No token has a parent that is not there. */
  lemma {:induction false} NoneYet(js: string, st: State, n: nat, i: nat)
    requires Settled(js, st.pos, st.toks) && n <= |st.toks| <= i
    ensures Counts(js, st.toks, n, i) == 0
  {
    if n > 0 { NoneYet(js, st, n - 1, i); }
  }

  lemma OpenParented(js: string, kind: Kind, st: State, cap: nat)
    requires Valid(st) && Parented(js, st) && st.pos < |js| && kind.IsContainer() && js[st.pos] == OpenChar(kind)
    requires |st.toks| < cap
    requires Settled(js, st.pos + 1, StepOn(Open(kind), st, cap).st.toks)
    ensures Parented(js, StepOn(Open(kind), st, cap).st)
  {
    hide Counts, Settled;
    var t := Token(kind, st.pos, -1, 0);
    var toks' := Bump(st.toks, st.super) + [t];
    EmitParented(js, st, t, toks');
    NotInAtom(js, st.pos, st.toks);
    SameAtoms(st.toks, toks', st.pos);
    BracketSign(js, toks', st.pos);
    assert Encloses(toks'[|st.toks|], st.pos + 1);
  }

  /** Containers may open and close; the atoms are the same. */
  lemma SameAtoms(a: seq<Token>, b: seq<Token>, p: int)
    requires |a| <= |b| && !InAtom(a, p)
    requires forall k :: 0 <= k < |a| ==>
      b[k].kind == a[k].kind && b[k].start == a[k].start && (b[k].end == a[k].end || a[k].kind.IsContainer())
    requires forall k :: |a| <= k < |b| ==> b[k].kind.IsContainer()
    ensures !InAtom(b, p)
  {
    forall k | 0 <= k < |b| && !b[k].kind.IsContainer()
      ensures !(Begin(b[k]) <= p < Finish(b[k]))
    {
      assert Begin(b[k]) == Begin(a[k]) && Finish(b[k]) == Finish(a[k]);
    }
  }

  /** After a bracket no colon governs. */
  lemma BracketSign(js: string, toks: seq<Token>, p: nat)
    requires p < |js| && !InAtom(toks, p)
    requires js[p] == '{' || js[p] == '[' || js[p] == '}' || js[p] == ']'
    ensures Look(js, toks, p + 1).colon == -1
  {
  }

  lemma CloseParented(js: string, kind: Kind, st: State, cap: nat)
    requires Valid(st) && Parented(js, st) && st.pos < |js| && kind.IsContainer() && js[st.pos] == CloseChar(kind)
    requires StepOn(Close(kind), st, cap).Go?
    requires Settled(js, st.pos + 1, StepOn(Close(kind), st, cap).st.toks)
    ensures Parented(js, StepOn(Close(kind), st, cap).st)
  {
    hide Counts;
    var st' := StepOn(Close(kind), st, cap).st;
    var n, i := |st.toks|, LastOpen(st.toks, |st.toks|);
    assert Extends(st.toks, st'.toks, st.pos);
    forall k | 0 <= k < n
      ensures st'.toks[k].size == Counts(js, st'.toks, n, k)
    {
      CountsStable(js, st.toks, st'.toks, st.pos, n, k);
    }
    CloseSuper(js, st, st', i);
  }

  lemma CloseSuper(js: string, st: State, st': State, i: nat)
    requires Valid(st) && Settled(js, st.pos, st.toks) && st.pos < |js| && i == LastOpen(st.toks, |st.toks|)
    requires js[st.pos] == '}' || js[st.pos] == ']'
    requires st'.toks == st.toks[i := st.toks[i].(end := st.pos + 1)] && st'.super == LastOpen(st.toks, i)
    requires st'.pos == st.pos + 1 && Settled(js, st.pos + 1, st'.toks)
    ensures st'.super == Parent(js, st'.toks, st'.pos)
  {
    ClosedTop(st, i, st'.toks);
    ClosedIsContainer(st, i);
    hide *;
    Ahead(js, st.pos + 1, st'.toks, st.pos + 1);
    NotInAtom(js, st.pos, st.toks);
    SameAtoms(st.toks, st'.toks, st.pos);
    BracketSign(js, st'.toks, st.pos);
    UngovernedParent(js, st'.toks, st.pos + 1);
  }

  lemma ClosedIsContainer(st: State, i: nat)
    requires Valid(st) && i == LastOpen(st.toks, |st.toks|)
    ensures i < |st.toks| && st.toks[i].kind.IsContainer()
  {
  }

  /** Closing the innermost open token leaves the next one open. */
  lemma ClosedTop(st: State, i: nat, toks': seq<Token>)
    requires i == LastOpen(st.toks, |st.toks|)
    requires toks' == st.toks[i := st.toks[i].(end := st.pos + 1)]
    ensures LastOpen(toks', |toks'|) == LastOpen(st.toks, i)
  {
    LastOpenUnchanged(st.toks, toks', i);
    NothingOpenAbove(toks', i, |st.toks|);
  }

  lemma UngovernedParent(js: string, toks: seq<Token>, p: nat)
    requires p <= |js| && Look(js, toks, p).colon < 0
    ensures Parent(js, toks, p) == Innermost(toks, |toks|, p)
  {
  }

  lemma CommaSuper(js: string, st: State)
    requires Valid(st) && Parented(js, st) && st.pos < |js| && js[st.pos] == ','
    ensures var n := |st.toks|; var i := LastOpenContainer(st.toks, n);
      Parent(js, st.toks, st.pos + 1) ==
      if 0 <= st.super < n && !st.toks[st.super].kind.IsContainer() && i >= 0 then i else st.super
  {
    ParentAfter(js, st.pos, st.toks);
    Ahead(js, st.pos, st.toks, st.pos);
    OpenIsContainer(st.toks, |st.toks|);
  }

  lemma {:induction false} OpenIsContainer(toks: seq<Token>, n: nat)
    requires n <= |toks| && forall k :: 0 <= k < n ==> toks[k].IsOpen() ==> toks[k].kind.IsContainer()
    ensures LastOpenContainer(toks, n) == LastOpen(toks, n)
    ensures LastOpen(toks, n) >= 0 ==> toks[LastOpen(toks, n)].kind.IsContainer()
  {
    if n > 0 { OpenIsContainer(toks, n - 1); }
  }

  /** Where an atom lies, by what was read. */
  lemma AtomSpans(js: string, pos: nat)
    requires !AtEnd(js, pos) && Lex(Current, js, pos).Atom?
    ensures var l := Lex(Current, js, pos); var t := Token(l.kind, l.start, l.end, 0);
      Begin(t) == pos < Finish(t) == l.next <= |js| && !l.kind.IsContainer()
  {
  }

  /** The positions of an atom are passed over. */
  lemma {:induction false} LookAcross(js: string, toks: seq<Token>, k: nat, p: nat)
    requires k < |toks| && !toks[k].kind.IsContainer() && 0 <= Begin(toks[k]) <= p <= Finish(toks[k]) && p <= |js|
    ensures Look(js, toks, p) == Look(js, toks, Begin(toks[k]))
    decreases p
  {
    if p > Begin(toks[k]) {
      assert InAtom(toks, p - 1);
      LookAcross(js, toks, k, p - 1);
    }
  }

  lemma AtomParented(js: string, t: Token, st: State, st': State)
    requires Valid(st) && Parented(js, st) && !t.kind.IsContainer() && t.size == 0
    requires Begin(t) == st.pos < Finish(t) == st'.pos
    requires st'.super == st.super && st'.toks == Bump(st.toks, st.super) + [t]
    requires Settled(js, st'.pos, st'.toks)
    ensures Parented(js, st')
  {
    EmitParented(js, st, t, st'.toks);
    AtomSuper(js, t, st, st'.toks, st'.pos);
    hide Counts, Parent, Settled;
  }

  /** The parent after an atom is the one before it. */
  lemma AtomSuper(js: string, t: Token, st: State, toks': seq<Token>, pos': nat)
    requires Valid(st) && Settled(js, st.pos, st.toks) && !t.kind.IsContainer()
    requires Begin(t) == st.pos < Finish(t) == pos' && toks' == Bump(st.toks, st.super) + [t]
    requires Settled(js, pos', toks')
    ensures Parent(js, toks', pos') == Parent(js, st.toks, st.pos)
  {
    assert Extends(st.toks, toks', st.pos);
    ParentStable(js, st.toks, toks', st.pos);
    LookAcross(js, toks', |st.toks|, pos');
    hide Look, Before, Bump;
    NothingBetween(toks', |toks'|, st.pos, pos');
  }

  /** Between two positions without a container's start or end nothing changes. */
  lemma {:induction false} NothingBetween(toks: seq<Token>, n: nat, p: nat, q: nat)
    requires n <= |toks| && p <= q
    requires forall k :: 0 <= k < n ==> toks[k].kind.IsContainer() ==> toks[k].start < p && toks[k].end <= p
    ensures Innermost(toks, n, p) == Innermost(toks, n, q)
  {
    if n > 0 { NothingBetween(toks, n - 1, p, q); }
  }

  lemma StepParented(js: string, st: State, cap: nat)
    requires Valid(st) && Parented(js, st) && !AtEnd(js, st.pos)
    requires Settled(js, Step(Current, js, st, cap).st.pos, Step(Current, js, st, cap).st.toks)
    ensures Parented(js, Step(Current, js, st, cap).st)
  {
    var l := Lex(Current, js, st.pos);
    ReadsBracket(js, st.pos);
    StepGoes(l, st, cap);
    hide Lex, StepOn, Valid, Parented, Settled, Kind.IsContainer, OpenChar, CloseChar, Bump, AtEnd;
    var o := StepOn(l, st, cap);
    if o.Go? {
      match l
      case Open(kind) => OpenParented(js, kind, st, cap);
      case Close(kind) => CloseParented(js, kind, st, cap);
      case Atom(_, _, _, _) => ReadAtomParented(js, l, st, cap);
      case _ => SkipParented(js, l, st, cap);
    }
  }

  lemma ReadsBracket(js: string, pos: nat)
    requires !AtEnd(js, pos)
    ensures var l := Lex(Current, js, pos);
      && pos < |js|
      && (l.Open? ==> l.kind.IsContainer() && js[pos] == OpenChar(l.kind))
      && (l.Close? ==> l.kind.IsContainer() && js[pos] == CloseChar(l.kind))
  {
  }

  /** Which lexemes an iteration stops at, and that it then leaves the state alone. */
  lemma StepGoes(l: Lexeme, st: State, cap: nat)
    ensures var o := StepOn(l, st, cap);
      && (o.Halt? ==> o.st == st)
      && (o.Go? ==> !l.Broken? && (l.Open? || l.Atom? ==> |st.toks| < cap))
      && (l.Open? || l.Close? ==> o.Go? ==> o.st.pos == st.pos + 1)
      && (l.Blank? || l.Colon? || l.Comma? ==> o.Go? && o.st.pos == st.pos + 1 && o.st.toks == st.toks)
  {
  }

  lemma ReadAtomParented(js: string, l: Lexeme, st: State, cap: nat)
    requires Valid(st) && Parented(js, st) && !AtEnd(js, st.pos) && l == Lex(Current, js, st.pos) && l.Atom?
    requires StepOn(l, st, cap).Go?
    requires Settled(js, StepOn(l, st, cap).st.pos, StepOn(l, st, cap).st.toks)
    ensures Parented(js, StepOn(l, st, cap).st)
  {
    AtomSpans(js, st.pos);
    var t := Token(l.kind, l.start, l.end, 0);
    assert Bump(st.toks + [t], st.super) == Bump(st.toks, st.super) + [t];
    hide Lex, Bump, Parented, Settled, Valid;
    AtomParented(js, t, st, StepOn(l, st, cap).st);
  }

  lemma SkipParented(js: string, l: Lexeme, st: State, cap: nat)
    requires Valid(st) && Parented(js, st) && !AtEnd(js, st.pos) && l == Lex(Current, js, st.pos)
    requires l.Blank? || l.Colon? || l.Comma?
    requires Settled(js, st.pos + 1, st.toks)
    ensures Parented(js, StepOn(l, st, cap).st)
  {
    SkipSuper(js, l, st, cap);
    hide Counts, Settled, Parent;
  }

  lemma SkipSuper(js: string, l: Lexeme, st: State, cap: nat)
    requires Valid(st) && Parented(js, st) && !AtEnd(js, st.pos) && l == Lex(Current, js, st.pos)
    requires l.Blank? || l.Colon? || l.Comma?
    ensures StepOn(l, st, cap).Go?
    ensures var st' := StepOn(l, st, cap).st;
      st'.toks == st.toks && st'.pos == st.pos + 1 <= |js| && st'.super == Parent(js, st.toks, st.pos + 1)
  {
    SkippedChar(js, st.pos);
    SkipStep(l, st, cap);
    hide *;
    if l.Comma? {
      CommaSuper(js, st);
    } else if l.Colon? {
      ColonSuper(js, st);
    } else {
      BlankSuper(js, st);
    }
  }

  lemma SkipStep(l: Lexeme, st: State, cap: nat)
    requires l.Blank? || l.Colon? || l.Comma?
    ensures StepOn(l, st, cap).Go?
    ensures var n, st' := |st.toks|, StepOn(l, st, cap).st; var i := LastOpenContainer(st.toks, n);
      && st'.toks == st.toks && st'.pos == st.pos + 1
      && st'.super ==
         if l.Blank? then st.super
         else if l.Colon? then n - 1
         else if 0 <= st.super < n && !st.toks[st.super].kind.IsContainer() && i >= 0 then i else st.super
  {
  }

  lemma ColonSuper(js: string, st: State)
    requires Parented(js, st) && st.pos < |js| && js[st.pos] == ':'
    ensures Parent(js, st.toks, st.pos + 1) == |st.toks| - 1
  {
    ParentAfter(js, st.pos, st.toks);
    Ahead(js, st.pos, st.toks, st.pos);
    hide Settled, Look, Innermost, LastOpen, Before, Counts, Parent;
  }

  lemma BlankSuper(js: string, st: State)
    requires Parented(js, st) && st.pos < |js| && IsBlank(js[st.pos])
    ensures Parent(js, st.toks, st.pos + 1) == st.super
  {
    ParentAfter(js, st.pos, st.toks);
    Ahead(js, st.pos, st.toks, st.pos);
    hide Settled, Look, Innermost, LastOpen, Before, Counts;
  }

  lemma SkippedChar(js: string, pos: nat)
    requires !AtEnd(js, pos)
    ensures var l := Lex(Current, js, pos);
      && pos < |js|
      && (l.Colon? ==> js[pos] == ':') && (l.Comma? ==> js[pos] == ',') && (l.Blank? ==> IsBlank(js[pos]))
  {
  }

  lemma {:induction false} RunParented(js: string, st: State, cap: nat)
    requires Valid(st) && Nested(js, Abs(st)) && Parented(js, st)
    ensures Parented(js, Run(Current, js, st, cap).st)
    decreases |js| - st.pos
  {
    if !AtEnd(js, st.pos) {
      var l := Lex(Current, js, st.pos);
      var o := Step(Current, js, st, cap);
      LexReads(Current, js, st.pos);
      StepRefines(Current, js, st, cap);
      AdvanceNestsOn(js, l, Abs(st), cap);
      StepValid(Current, js, st, cap);
      NestedSettles(js, o.st);
      StepParented(js, st, cap);
      if o.Go? { RunParented(js, o.st, cap); }
    }
  }

  /** The default tokenizer, for every input and every outcome: a token's size is the number of
      tokens whose parent it is, and `toksuper` is the parent of a token that would begin next. */
  lemma SizesCountByParent(js: string, cap: nat)
    ensures var st := Run(Current, js, INITIAL, cap).st; var toks := st.toks;
      && Inside(js, toks) && st.pos <= |js|
      && st.super == Parent(js, toks, st.pos)
      && forall i :: 0 <= i < |toks| ==> toks[i].size == Counts(js, toks, |toks|, i)
  {
    RunParented(js, INITIAL, cap);
  }

  /** One member: the object counts its key, the key its value. */
  lemma MemberSizes()
    ensures Run(Current, "{\"a\":1}", INITIAL, 8) ==
      Halt(State(7, -1, [Token(Object, 0, 7, 1), Token(String, 2, 3, 1), Token(Primitive, 5, 6, 0)]), 3)
  {
    var js := "{\"a\":1}";
    MemberLexemes(js);
    hide Lex;
    var a := StepOn(Open(Object), INITIAL, 8).st;
    var b := StepOn(Atom(String, 2, 3, 4), a, 8).st;
    var c := StepOn(Colon, b, 8).st;
    var d := StepOn(Atom(Primitive, 5, 6, 6), c, 8).st;
    assert d == State(6, 1, [Token(Object, 0, -1, 1), Token(String, 2, 3, 1), Token(Primitive, 5, 6, 0)]);
    hide StepOn;
    RunUnfolds(Current, js, Open(Object), INITIAL, 8);
    RunUnfolds(Current, js, Atom(String, 2, 3, 4), a, 8);
    RunUnfolds(Current, js, Colon, b, 8);
    RunUnfolds(Current, js, Atom(Primitive, 5, 6, 6), c, 8);
    LastStep(js, d);
  }

  lemma MemberLexemes(js: string)
    requires js == "{\"a\":1}"
    ensures |js| == 7 && (forall k :: 0 <= k < 7 ==> !AtEnd(js, k))
    ensures Lex(Current, js, 0) == Open(Object) && Lex(Current, js, 1) == Atom(String, 2, 3, 4)
    ensures Lex(Current, js, 4) == Colon && Lex(Current, js, 5) == Atom(Primitive, 5, 6, 6)
    ensures Lex(Current, js, 6) == Close(Object)
  {
    assert ScanString(Current, js, 3) == Found(3) && ScanString(Current, js, 2) == Found(3);
    assert ScanPrimitive(Current, js, 6) == Found(6) && ScanPrimitive(Current, js, 5) == Found(6);
  }

  lemma LastStep(js: string, st: State)
    requires |js| == 7
    requires st == State(6, 1, [Token(Object, 0, -1, 1), Token(String, 2, 3, 1), Token(Primitive, 5, 6, 0)])
    requires !AtEnd(js, 6) && Lex(Current, js, 6) == Close(Object)
    ensures Run(Current, js, st, 8) ==
      Halt(State(7, -1, [Token(Object, 0, 7, 1), Token(String, 2, 3, 1), Token(Primitive, 5, 6, 0)]), 3)
  {
    hide Lex;
    var e := StepOn(Close(Object), st, 8).st;
    assert LastOpen(st.toks, 1) == 0 && LastOpen(st.toks, 3) == 0;
    assert e == State(7, -1, [Token(Object, 0, 7, 1), Token(String, 2, 3, 1), Token(Primitive, 5, 6, 0)]);
    RunUnfolds(Current, js, Close(Object), st, 8);
  }
}
