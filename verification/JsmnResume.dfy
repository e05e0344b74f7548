/** Interrupted parses: after NOMEM with a larger array, and after the input has grown. */
module JsmnResume {
  import opened JsonTokens
  import opened Jsmn

  /** A halting iteration changes nothing, and more room only matters for NOMEM. */
  lemma StepRoom(l: Lexeme, st: State, cap: nat, more: nat)
    requires cap <= more && (l.Broken? ==> l.rc != NOMEM)
    ensures var o := StepOn(l, st, cap);
      && (o.Halt? ==> o.st == st)
      && (o.Go? || o.rc != NOMEM ==> StepOn(l, st, more) == o)
  {
  }

  /** A call that did not run out of tokens gives the same with a larger array. */
  lemma {:induction false} RunRoom(d: Dialect, js: string, st: State, cap: nat, more: nat)
    requires Valid(st) && cap <= more
    ensures var o := Run(d, js, st, cap); o.Halt? && (o.rc != NOMEM ==> Run(d, js, st, more) == o)
    decreases |js| - st.pos
  {
    if !AtEnd(js, st.pos) {
      StepRoom(Lex(d, js, st.pos), st, cap, more);
      StepValid(d, js, st, cap);
      var o := Step(d, js, st, cap);
      if o.Go? { RunRoom(d, js, o.st, cap, more); }
    }
  }

  /** After NOMEM, continuing with a larger array is the same as having had it from the start. */
  lemma {:induction false} ResumeAfterNomem(d: Dialect, js: string, st: State, cap: nat, more: nat)
    requires Valid(st) && cap <= more
    ensures var o := Run(d, js, st, cap); o.Halt? && (o.rc == NOMEM ==> Run(d, js, o.st, more) == Run(d, js, st, more))
    decreases |js| - st.pos
  {
    if !AtEnd(js, st.pos) {
      StepRoom(Lex(d, js, st.pos), st, cap, more);
      StepValid(d, js, st, cap);
      var o := Step(d, js, st, cap);
      if o.Go? { ResumeAfterNomem(d, js, o.st, cap, more); }
    }
  }

  /** Calls with the given array sizes one after another until one does not return NOMEM. */
  function Retry(d: Dialect, js: string, st: State, caps: seq<nat>): Outcome
    requires caps != []
    decreases |caps|
  {
    var o := Run(d, js, st, caps[0]);
    if |caps| == 1 || o.Go? || o.rc != NOMEM then o else Retry(d, js, o.st, caps[1..])
  }

  /** However often a parse runs out of tokens, growing the array ends in the result, the
      parser state and the tokens of one fresh parse with the largest array. */
  lemma {:induction false} RetryIsFresh(d: Dialect, js: string, st: State, caps: seq<nat>)
    requires Valid(st) && caps != [] && (forall j, k :: 0 <= j < k < |caps| ==> caps[j] <= caps[k])
    ensures Retry(d, js, st, caps) == Run(d, js, st, caps[|caps| - 1])
    decreases |caps|
  {
    var last := caps[|caps| - 1];
    RunRoom(d, js, st, caps[0], last);
    if |caps| > 1 {
      ResumeAfterNomem(d, js, st, caps[0], last);
      RunValid(d, js, st, caps[0]);
      RetryIsFresh(d, js, Run(d, js, st, caps[0]).st, caps[1..]);
    }
  }

  // ---------------------------------------------------------------------------
  // Input that grows

  lemma {:induction false} HexStable(js: string, more: string, i: nat, n: nat)
    ensures var r := ScanHex(js, i, n);
      r.Bad? || (r.Found? && r.end < |js|) ==> ScanHex(js + more, i, n) == r
    decreases n
  {
    if n > 0 && !AtEnd(js, i) && IsHex(js[i]) { HexStable(js, more, i + 1, n - 1); }
  }

  lemma {:induction false} StringStable(js: string, more: string, i: nat)
    ensures var r := ScanString(Current, js, i); !r.Cut? ==> ScanString(Current, js + more, i) == r
    decreases |js| - i
  {
    if !AtEnd(js, i) && js[i] != '"' {
      if js[i] == '\\' && i + 1 < |js| {
        if IsSimpleEscape(js[i + 1]) {
          StringStable(js, more, i + 2);
        } else if js[i + 1] == 'u' {
          HexStable(js, more, i + 2, 4);
          var h := ScanHex(js, i + 2, 4);
          if h.Found? { StringStable(js, more, h.end); }
        }
      } else {
        StringStable(js, more, i + 1);
      }
    }
  }

  /** Whether the character after `js` lets a primitive end there. */
  predicate EndsHere(js: string, more: string) {
    more == "" || more[0] == '\0' || IsDelimiter(Current, more[0])
  }

  lemma {:induction false} PrimitiveStable(js: string, more: string, i: nat)
    requires i <= |js|
    ensures var r := ScanPrimitive(Current, js, i); var r' := ScanPrimitive(Current, js + more, i);
      if r.Bad? || (r.Found? && r.end < |js|) || EndsHere(js, more) then r' == r
      else r'.Bad? || (r'.Found? && r'.end > |js|)
    decreases |js| - i
  {
    var all := js + more;
    if i == |js| {
      if more != "" { assert all[i] == more[0]; }
    } else {
      assert all[i] == js[i];
      if !AtEnd(js, i) && !IsDelimiter(Current, js[i]) && IsPrintable(js[i]) { PrimitiveStable(js, more, i + 1); }
    }
  }

  /** A primitive that runs up to the end of the input. */
  predicate IsLastPrimitive(js: string, l: Lexeme) {
    l.Atom? && l.kind == Primitive && l.end == |js|
  }

  /** More input changes a lexeme only if it was a string cut short, or a primitive at the end
      of the input that goes on. */
  lemma LexStable(js: string, more: string, pos: nat)
    requires !AtEnd(js, pos)
    ensures var l := Lex(Current, js, pos); var l' := Lex(Current, js + more, pos);
      if l.Broken? && l.rc == PART then true
      else if IsLastPrimitive(js, l) && !EndsHere(js, more) then
        l'.Broken? || (l'.Atom? && l'.kind == Primitive && l'.end > |js|)
      else l' == l
  {
    assert (js + more)[pos] == js[pos];
    if js[pos] == '"' { StringStable(js, more, pos + 1); }
    else { PrimitiveStable(js, more, pos); }
  }

  lemma {:induction false} RunKeeps(d: Dialect, js: string, st: State, cap: nat)
    requires Valid(st)
    ensures Keeps(st.toks, Run(d, js, st, cap).st.toks)
    decreases |js| - st.pos
  {
    if !AtEnd(js, st.pos) {
      StepKeeps(Lex(d, js, st.pos), st, cap);
      StepValid(d, js, st, cap);
      var o := Step(d, js, st, cap);
      if o.Go? { RunKeeps(d, js, o.st, cap); }
    }
  }

  /** The cut after `js` splits a bare primitive: the last token, emitted by the call that
      left `st`, is a primitive that ends at the cut, and the next character continues it. */
  predicate SplitsPrimitive(js: string, more: string, before: nat, st: State) {
    && before < |st.toks|
    && st.toks[|st.toks| - 1].kind == Primitive
    && st.toks[|st.toks| - 1].end == |js|
    && !EndsHere(js, more)
  }

  /** Continuing a parse, whatever it returned, when more input has arrived is the same as one
      parse of the whole input if and only if the cut does not split a bare primitive. */
  lemma {:induction false} ResumeAfterMore(js: string, more: string, st: State, cap: nat)
    requires Valid(st)
    ensures var o := Run(Current, js, st, cap);
      (Run(Current, js + more, o.st, cap) == Run(Current, js + more, st, cap)) <==>
      !SplitsPrimitive(js, more, |st.toks|, o.st)
    decreases |js| - st.pos
  {
    if !AtEnd(js, st.pos) {
      var l := Lex(Current, js, st.pos);
      var o := StepOn(l, st, cap);
      StepValid(Current, js, st, cap);
      StepRoom(l, st, cap, cap);
      if o.Go? {
        LexStable(js, more, st.pos);
        if IsLastPrimitive(js, l) {
          CutInPrimitive(js, more, st, cap);
        } else {
          ResumeAfterMore(js, more, o.st, cap);
          ResumeUnfolds(js, more, l, st, cap);
        }
      }
    }
  }

  lemma OpensContainers(js: string, pos: nat)
    requires !AtEnd(js, pos)
    ensures var l := Lex(Current, js, pos); l.Open? ==> l.kind.IsContainer()
  {
  }

  /** What holds after an iteration that does not read a primitive up to the cut holds before it. */
  lemma ResumeUnfolds(js: string, more: string, l: Lexeme, st: State, cap: nat)
    requires Valid(st) && !AtEnd(js, st.pos) && l == Lex(Current, js, st.pos) && StepOn(l, st, cap).Go?
    requires !IsLastPrimitive(js, l) && l == Lex(Current, js + more, st.pos)
    requires var st' := StepOn(l, st, cap).st;
      var o := Run(Current, js, st', cap);
      && |st.toks| <= |st'.toks|
      && ((Run(Current, js + more, o.st, cap) == Run(Current, js + more, st', cap)) <==>
          !SplitsPrimitive(js, more, |st'.toks|, o.st))
    ensures var o := Run(Current, js, st, cap);
      (Run(Current, js + more, o.st, cap) == Run(Current, js + more, st, cap)) <==>
      !SplitsPrimitive(js, more, |st.toks|, o.st)
  {
    hide Run, StepOn, Lex;
    var st' := StepOn(l, st, cap).st;
    StepValid(Current, js, st, cap);
    OpensContainers(js, st.pos);
    RunKeeps(Current, js, st', cap);
    NotLastPrimitive(js, l, st, cap, Run(Current, js, st', cap).st);
    assert (js + more)[st.pos] == js[st.pos];
    RunUnfolds(Current, js, l, st, cap);
    RunUnfolds(Current, js + more, l, st, cap);
  }

  lemma RunUnfolds(d: Dialect, js: string, l: Lexeme, st: State, cap: nat)
    requires !AtEnd(js, st.pos) && l == Lex(d, js, st.pos) && StepOn(l, st, cap).Go?
    ensures Run(d, js, st, cap) == Run(d, js, StepOn(l, st, cap).st, cap)
  {
  }

  /** A token emitted for another lexeme never looks like a primitive cut at the end. */
  lemma NotLastPrimitive(js: string, l: Lexeme, st: State, cap: nat, end: State)
    requires StepOn(l, st, cap).Go? && !IsLastPrimitive(js, l)
    requires l.Open? ==> l.kind.IsContainer()
    requires Keeps(StepOn(l, st, cap).st.toks, end.toks)
    ensures var n := |StepOn(l, st, cap).st.toks|;
      |st.toks| < |end.toks| && end.toks[|end.toks| - 1].kind == Primitive && end.toks[|end.toks| - 1].end == |js| ==>
      n < |end.toks|
  {
    var toks := StepOn(l, st, cap).st.toks;
    if |toks| == |end.toks| > |st.toks| {
      var k := |toks| - 1;
      assert toks[k].kind == end.toks[k].kind;
    }
  }

  /** The iteration that reads a primitive up to the cut. */
  lemma CutInPrimitive(js: string, more: string, st: State, cap: nat)
    requires Valid(st) && !AtEnd(js, st.pos) && IsLastPrimitive(js, Lex(Current, js, st.pos))
    requires Step(Current, js, st, cap).Go?
    ensures var o := Run(Current, js, st, cap);
      (Run(Current, js + more, o.st, cap) == Run(Current, js + more, st, cap)) <==>
      !SplitsPrimitive(js, more, |st.toks|, o.st)
  {
    var all, n := js + more, |st.toks|;
    var l, l' := Lex(Current, js, st.pos), Lex(Current, all, st.pos);
    var st' := Step(Current, js, st, cap).st;
    LexStable(js, more, st.pos);
    StepValid(Current, js, st, cap);
    assert all[st.pos] == js[st.pos];
    assert Run(Current, js, st, cap).st == st';
    assert st'.toks[n].kind == Primitive && st'.toks[n].end == |js|;
    if !EndsHere(js, more) {
      RunKeeps(Current, all, st', cap);
      StepValid(Current, all, st, cap);
      var whole := Step(Current, all, st, cap);
      if whole.Go? {
        RunKeeps(Current, all, whole.st, cap);
        assert whole.st.toks[n].end > |js|;
      }
    }
  }

  /** Parses the growing prefixes js[..cuts[0]], js[..cuts[1]], ... and at last js, each call
      continuing from the state the one before left behind. */
  function Feed(js: string, st: State, cuts: seq<nat>, cap: nat): Outcome
    requires forall k :: 0 <= k < |cuts| ==> cuts[k] <= |js|
    decreases |cuts|
  {
    if cuts == [] then Run(Current, js, st, cap)
    else Feed(js, Run(Current, js[..cuts[0]], st, cap).st, cuts[1..], cap)
  }

  /** None of the cuts splits a bare primitive of the call before it. */
  predicate CleanCuts(js: string, st: State, cuts: seq<nat>, cap: nat)
    requires forall k :: 0 <= k < |cuts| ==> cuts[k] <= |js|
    decreases |cuts|
  {
    cuts == [] ||
    var a, b := js[..cuts[0]], js[cuts[0]..];
    var st' := Run(Current, a, st, cap).st;
    !SplitsPrimitive(a, b, |st.toks|, st') && CleanCuts(js, st', cuts[1..], cap)
  }

  /** Input that arrives in any number of pieces gives the parse of the whole. */
  lemma {:induction false} FeedIsFresh(js: string, st: State, cuts: seq<nat>, cap: nat)
    requires Valid(st) && (forall k :: 0 <= k < |cuts| ==> cuts[k] <= |js|) && CleanCuts(js, st, cuts, cap)
    ensures Feed(js, st, cuts, cap) == Run(Current, js, st, cap)
    decreases |cuts|
  {
    if cuts != [] {
      var a, b := js[..cuts[0]], js[cuts[0]..];
      assert js == a + b;
      ResumeAfterMore(a, b, st, cap);
      RunValid(Current, a, st, cap);
      FeedIsFresh(js, Run(Current, a, st, cap).st, cuts[1..], cap);
    }
  }

  /** The number 12 cut after its first digit: read as 1 first, the whole gives two tokens. */
  lemma CutsNumber()
    ensures var o := Run(Current, "1", INITIAL, 8);
      o.Halt? && o.rc == 1 && Run(Current, "1" + "2", o.st, 8) != Run(Current, "1" + "2", INITIAL, 8)
  {
    var js, l := "1", Atom(Primitive, 0, 1, 1);
    LexOne();
    var st := StepOn(l, INITIAL, 8).st;
    assert st == State(1, -1, [Token(Primitive, 0, 1, 0)]);
    hide Lex;
    RunUnfolds(Current, js, l, INITIAL, 8);
    ResumeAfterMore(js, "2", INITIAL, 8);
  }

  lemma LexOne()
    ensures Lex(Current, "1", 0) == Atom(Primitive, 0, 1, 1)
  {
    assert ScanPrimitive(Current, "1", 1) == Found(1);
    assert ScanPrimitive(Current, "1", 0) == Found(1);
  }
}
