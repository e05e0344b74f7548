/** Matching a topic name against a subscribed topic filter, and the relation between levels that
    section 4.7.1 of MQTT 3.1.1 asks for. */
module TopicMatch {
  predicate IsWild(c: char) {
    c == '+' || c == '#'
  }

  /** What is left of a name after its first level. */
  function AfterLevel(n: string): (r: string)
    ensures |r| <= |n| && (r != "" ==> r[0] == '/')
  {
    if n == "" || n[0] == '/' then n else AfterLevel(n[1..])
  }

  /** The decision of the matcher, on what is left of filter and name. */
  predicate Matches(f: string, n: string)
    decreases |f|
  {
    if f == "" || n == "" then f == n
    else if f[0] == '/' then n[0] == '/' && Matches(f[1..], n[1..])
    else if n[0] == '/' then false
    else if f[0] == '+' then Matches(f[1..], AfterLevel(n))
    else if f[0] == '#' then f == "#"
    else f[0] == n[0] && Matches(f[1..], n[1..])
  }

  /** is_topic_matched: one pointer into the filter, one into the name. */
  method IsTopicMatched(f: string, n: string) returns (matched: bool)
    ensures matched <==> Matches(f, n)
  {
    hide AfterLevel;
    var curf: nat, curn: nat := 0, 0;
    while curf < |f| && curn < |n|
      invariant curf <= |f| && curn <= |n|
      invariant Matches(f, n) <==> Matches(f[curf..], n[curn..])
    {
      NextChar(f, n, curf, curn);
      if n[curn] == '/' && f[curf] != '/' { break; }
      if f[curf] != '+' && f[curf] != '#' && f[curf] != n[curn] { break; }
      hide Matches;
      if f[curf] == '+' {
        curn := SkipLevel(n, curn);
      } else if f[curf] == '#' {
        curn := |n| - 1;
      }
      curf := curf + 1;
      curn := curn + 1;
    }
    matched := curn == |n| && curf == |f|;
  }

  /** The loop that moves to the last character of a level. */
  method SkipLevel(n: string, start: nat) returns (curn: nat)
    requires start < |n| && n[start] != '/'
    ensures start <= curn < |n| && n[curn + 1..] == AfterLevel(n[start..])
  {
    curn := start;
    var nextpos := curn + 1;
    while nextpos < |n| && n[nextpos] != '/'
      invariant start <= curn < nextpos == curn + 1 <= |n|
      invariant AfterLevel(n[start..]) == AfterLevel(n[nextpos..])
    {
      curn := curn + 1;
      nextpos := curn + 1;
    }
  }

  /** What the pair of characters at the pointers decides. */
  lemma NextChar(f: string, n: string, curf: nat, curn: nat)
    requires curf < |f| && curn < |n|
    ensures var c := f[curf]; var matched := Matches(f[curf..], n[curn..]);
      if (n[curn] == '/' && c != '/') || (!IsWild(c) && c != n[curn]) then !matched
      else if c == '+' then matched <==> Matches(f[curf + 1..], AfterLevel(n[curn..]))
      else if c == '#' then matched <==> Matches(f[curf + 1..], n[|n|..])
      else matched <==> Matches(f[curf + 1..], n[curn + 1..])
  {
    var f', n' := f[curf..], n[curn..];
    assert f'[0] == f[curf] && n'[0] == n[curn];
    assert f'[1..] == f[curf + 1..] && n'[1..] == n[curn + 1..];
    assert f' == [f[curf]] + f[curf + 1..];
  }

  // ---------------------------------------------------------------------------
  // Levels

  /** The levels between separators; at least one, possibly empty. */
  function Split(s: string): (levels: seq<string>)
    ensures levels != []
  {
    if s == "" then [""]
    else
      var rest := Split(s[1..]);
      if s[0] == '/' then [""] + rest else [[s[0]] + rest[0]] + rest[1..]
  }

  predicate IsLiteral(level: string) {
    forall k :: 0 <= k < |level| ==> !IsWild(level[k])
  }

  /** Wildcards fill whole levels, and `#` only the last one. */
  predicate WellFormed(levels: seq<string>) {
    forall i :: 0 <= i < |levels| ==>
      IsLiteral(levels[i]) || levels[i] == "+" || (levels[i] == "#" && i == |levels| - 1)
  }

  /** Section 4.7.1: `+` stands for one level, `#` for any number of levels, the parent included. */
  predicate LevelsMatch(fs: seq<string>, ns: seq<string>) {
    if fs == [] then ns == []
    else if fs[0] == "#" then true
    else ns != [] && (fs[0] == "+" || fs[0] == ns[0]) && LevelsMatch(fs[1..], ns[1..])
  }

  /** Every wildcard of the filter stands opposite a level that is not empty. */
  predicate WildcardsCovered(fs: seq<string>, ns: seq<string>) {
    forall i :: 0 <= i < |fs| && (fs[i] == "+" || fs[i] == "#") ==> i < |ns| && ns[i] != ""
  }

  /** Both at once, level by level. */
  predicate LevelsCovered(fs: seq<string>, ns: seq<string>) {
    if fs == [] || ns == [] then fs == ns
    else if fs[0] == "#" then ns[0] != ""
    else (if fs[0] == "+" then ns[0] != "" else fs[0] == ns[0]) && LevelsCovered(fs[1..], ns[1..])
  }

  lemma {:induction false} CoveredIsBoth(fs: seq<string>, ns: seq<string>)
    requires WellFormed(fs)
    ensures LevelsCovered(fs, ns) <==> LevelsMatch(fs, ns) && WildcardsCovered(fs, ns)
  {
    if fs == [] {
    } else if ns == [] {
      assert LevelsMatch(fs, ns) ==> fs[0] == "#";
    } else if fs[0] == "#" {
      HashIsLast(fs);
    } else {
      TailWellFormed(fs);
      CoveredIsBoth(fs[1..], ns[1..]);
      if WildcardsCovered(fs[1..], ns[1..]) && (fs[0] == "+" ==> ns[0] != "") {
        forall i | 0 <= i < |fs| && (fs[i] == "+" || fs[i] == "#")
          ensures i < |ns| && ns[i] != ""
        {
          if i > 0 { assert fs[i] == fs[1..][i - 1] && (i < |ns| ==> ns[i] == ns[1..][i - 1]); }
        }
      } else if WildcardsCovered(fs, ns) {
        forall i | 0 <= i < |fs| - 1 && (fs[1..][i] == "+" || fs[1..][i] == "#")
          ensures i < |ns| - 1 && ns[1..][i] != ""
        {
          assert fs[i + 1] == fs[1..][i];
        }
      }
    }
  }

  lemma HashIsLast(fs: seq<string>)
    requires WellFormed(fs) && fs != [] && fs[0] == "#"
    ensures |fs| == 1
  {
    assert IsWild(fs[0][0]);
  }

  lemma TailWellFormed(fs: seq<string>)
    requires WellFormed(fs) && fs != []
    ensures WellFormed(fs[1..])
  {
    assert forall i :: 0 <= i < |fs| - 1 ==> fs[1..][i] == fs[i + 1];
  }

  /** The first level of a name, and the levels after it. */
  lemma {:induction false} AfterLevelSplits(n: string)
    ensures var rest := AfterLevel(n);
      if rest == "" then |Split(n)| == 1 else Split(n)[1..] == Split(rest[1..])
    ensures Split(n)[0] == "" <==> n == "" || n[0] == '/'
  {
    if n != "" && n[0] != '/' { AfterLevelSplits(n[1..]); }
  }

  /** A level that begins with a wildcard is that wildcard. */
  lemma WildLevel(f: string)
    requires f != "" && IsWild(f[0]) && WellFormed(Split(f))
    ensures Split(f)[0] == [f[0]] && AfterLevel(f) == f[1..]
    ensures f[0] == '#' ==> f == "#"
  {
    var fs := Split(f);
    assert fs[0][0] == f[0];
    assert fs[0] == "+" || fs[0] == "#";
    var rest := Split(f[1..]);
    assert fs[0] == [f[0]] + rest[0];
    assert rest[0] == "";
    AfterLevelSplits(f[1..]);
  }

  /** What follows a separator, or a character of a literal level, is well formed if the whole is. */
  lemma RestIsWellFormed(f: string)
    requires f != "" && !IsWild(f[0]) && WellFormed(Split(f))
    ensures WellFormed(Split(f[1..]))
    ensures f[0] != '/' ==> IsLiteral(Split(f)[0]) && IsLiteral(Split(f[1..])[0])
  {
    var fs, rest := Split(f), Split(f[1..]);
    if f[0] == '/' {
      forall i | 0 <= i < |rest|
        ensures IsLiteral(rest[i]) || rest[i] == "+" || (rest[i] == "#" && i == |rest| - 1)
      {
        assert rest[i] == fs[i + 1];
      }
    } else {
      assert fs[0] == [f[0]] + rest[0];
      assert fs[0][0] == f[0];
      forall k | 0 <= k < |rest[0]|
        ensures !IsWild(rest[0][k])
      {
        assert rest[0][k] == fs[0][k + 1];
      }
      forall i | 0 < i < |rest|
        ensures IsLiteral(rest[i]) || rest[i] == "+" || (rest[i] == "#" && i == |rest| - 1)
      {
        assert rest[i] == fs[i];
      }
    }
  }

  lemma {:induction false} MatchesLevelwise(f: string, n: string)
    requires WellFormed(Split(f))
    ensures Matches(f, n) <==> LevelsCovered(Split(f), Split(n))
    decreases |f|
  {
    AfterLevelSplits(f);
    AfterLevelSplits(n);
    var fs, ns := Split(f), Split(n);
    if f == "" || n == "" {
    } else if f[0] == '/' {
      RestIsWellFormed(f);
      MatchesLevelwise(f[1..], n[1..]);
    } else if f[0] == '#' {
      WildLevel(f);
    } else if f[0] == '+' {
      WildLevel(f);
      if f != "+" && AfterLevel(n) != "" {
        assert forall i :: 0 <= i < |fs| - 1 ==> fs[1..][i] == fs[i + 1];
        assert f[1..][1..] == f[2..];
        MatchesLevelwise(f[2..], AfterLevel(n)[1..]);
      }
    } else {
      RestIsWellFormed(f);
      MatchesLevelwise(f[1..], n[1..]);
      LiteralLevel(f, n);
    }
  }

  /** A character of a literal level matches itself only. */
  lemma LiteralLevel(f: string, n: string)
    requires f != "" && n != "" && f[0] != '/' && IsLiteral(Split(f)[0]) && IsLiteral(Split(f[1..])[0])
    ensures LevelsCovered(Split(f), Split(n)) <==>
            f[0] == n[0] && LevelsCovered(Split(f[1..]), Split(n[1..]))
  {
    var fs, ns, fs', ns' := Split(f), Split(n), Split(f[1..]), Split(n[1..]);
    assert fs[1..] == fs'[1..];
    assert fs[0][0] == f[0] && fs[0][1..] == fs'[0];
    assert fs[0] != "#" && fs[0] != "+" && fs'[0] != "+" && fs'[0] != "#" by {
      assert IsWild("+"[0]) && IsWild("#"[0]);
    }
    if n[0] != '/' {
      assert ns[1..] == ns'[1..];
      assert ns[0][0] == n[0] && ns[0][1..] == ns'[0];
    }
  }

  /** The matcher decides the relation of section 4.7.1 exactly when no wildcard of the filter
      stands opposite an empty or missing level; otherwise it says no. */
  lemma DecidesLevels(f: string, n: string)
    requires WellFormed(Split(f))
    ensures Matches(f, n) <==> LevelsMatch(Split(f), Split(n)) && WildcardsCovered(Split(f), Split(n))
  {
    MatchesLevelwise(f, n);
    CoveredIsBoth(Split(f), Split(n));
  }

  /** For names without empty levels, all that is missing is `#` standing for no level at all. */
  lemma DecidesPlainNames(f: string, n: string)
    requires WellFormed(Split(f)) && (forall i :: 0 <= i < |Split(n)| ==> Split(n)[i] != "")
    ensures var fs, ns := Split(f), Split(n);
      Matches(f, n) <==> LevelsMatch(fs, ns) && !(fs[|fs| - 1] == "#" && |ns| < |fs|)
  {
    DecidesLevels(f, n);
    hide Matches, Split;
    if LevelsMatch(Split(f), Split(n)) { LevelsSuffice(Split(f), Split(n)); }
  }

  lemma {:induction false} LevelsSuffice(fs: seq<string>, ns: seq<string>)
    requires WellFormed(fs) && LevelsMatch(fs, ns)
    ensures forall i :: 0 <= i < |fs| && fs[i] != "#" ==> i < |ns|
    ensures |ns| >= |fs| - 1
  {
    if fs == [] {
    } else if fs[0] == "#" {
      HashIsLast(fs);
    } else {
      TailWellFormed(fs);
      LevelsSuffice(fs[1..], ns[1..]);
      assert forall i :: 0 < i < |fs| ==> fs[i] == fs[1..][i - 1];
    }
  }

  /** Where the matcher departs from sections 4.7.1 and 4.7.2: `#` does not include the parent
      level, wildcards do not match empty levels, and topics beginning with `$` are not kept from
      filters beginning with a wildcard. */
  lemma Departures()
    ensures LevelsMatch(Split("a/#"), Split("a")) && !Matches("a/#", "a")
    ensures LevelsMatch(Split("a/+"), Split("a/")) && !Matches("a/+", "a/")
    ensures LevelsMatch(Split("#"), Split("/a")) && !Matches("#", "/a")
    ensures Matches("#", "$SYS/a") && Matches("+/a", "$SYS/a")
  {
  }

  // ---------------------------------------------------------------------------
  // Delivery

  /** A slot of the handler table: the subscribed filter, if the slot is taken, and whether it has
      an application handler. */
  datatype Slot = Unused | Registered(filter: string, callable: bool)

  /** The handler is called for a message on topic `n`. */
  predicate IsCalled(s: Slot, n: string) {
    s.Registered? && (s.filter == n || Matches(s.filter, n)) && s.callable
  }

  /** Slots below k whose handlers are called, in order. */
  function Called(slots: seq<Slot>, n: string, k: nat): seq<nat>
    requires k <= |slots|
  {
    if k == 0 then [] else Called(slots, n, k - 1) + if IsCalled(slots[k - 1], n) then [k - 1] else []
  }

  /** They are exactly the slots with a handler whose filter equals or matches the topic. */
  lemma {:induction false} CalledIff(slots: seq<Slot>, n: string, k: nat, i: nat)
    requires k <= |slots|
    ensures i in Called(slots, n, k) <==> i < k && IsCalled(slots[i], n)
  {
    if k > 0 {
      CalledIff(slots, n, k - 1, i);
      NextCalled(slots, n, k - 1);
    }
  }

  lemma {:induction false} CalledInOrder(slots: seq<Slot>, n: string, k: nat)
    requires k <= |slots|
    ensures var called := Called(slots, n, k); forall a, b :: 0 <= a < b < |called| ==> called[a] < called[b]
  {
    if k > 0 {
      CalledInOrder(slots, n, k - 1);
      NextCalled(slots, n, k - 1);
      hide *;
      var before := Called(slots, n, k - 1);
      forall a | 0 <= a < |before|
        ensures before[a] < k - 1
      {
        assert before[a] in before;
        CalledIff(slots, n, k - 1, before[a]);
      }
    }
  }

  lemma NoneCalled(slots: seq<Slot>, n: string)
    ensures Called(slots, n, 0) == []
  {
  }

  lemma NextCalled(slots: seq<Slot>, n: string, k: nat)
    requires k < |slots|
    ensures Called(slots, n, k + 1) ==
            if IsCalled(slots[k], n) then Called(slots, n, k) + [k] else Called(slots, n, k)
  {
    hide IsCalled;
  }

  /** The condition deliver_message puts on each slot. */
  method CheckSlot(s: Slot, n: string) returns (called: bool)
    ensures called <==> IsCalled(s, n)
  {
    called := false;
    if s.Registered? {
      var matched := s.filter == n;
      if !matched { matched := IsTopicMatched(s.filter, n); }
      called := matched && s.callable;
    }
  }

  /** For well-formed filters the comparison of names adds nothing to the matcher, so a handler is
      called exactly when the levels match and no wildcard stands opposite an empty level. */
  lemma CalledByLevels(s: Slot, n: string)
    requires s.Registered? && WellFormed(Split(s.filter))
    ensures IsCalled(s, n) <==>
            s.callable && LevelsMatch(Split(s.filter), Split(n)) && WildcardsCovered(Split(s.filter), Split(n))
  {
    DecidesLevels(s.filter, n);
    MatchesLevelwise(s.filter, s.filter);
    CoversItself(Split(s.filter));
  }

  lemma {:induction false} CoversItself(fs: seq<string>)
    ensures LevelsCovered(fs, fs)
  {
    if fs != [] { CoversItself(fs[1..]); }
  }
}
