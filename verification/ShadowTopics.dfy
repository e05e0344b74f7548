/** The topics that acknowledgements of shadow actions arrive on. */
module ShadowTopics {
  datatype Action = GET | UPDATE | DELETE

  datatype Ack = ACCEPTED | REJECTED

  /** What a subscription is for: an action on a thing. */
  datatype Pair = Pair(thing: string, action: Action)

  datatype Topic = Topic(pair: Pair, ack: Ack)

  const MAX_SIZE_OF_THING_NAME := 20
  const MAX_SHADOW_TOPIC_LENGTH_BYTES := 80

  function ActionText(a: Action): string {
    match a
    case GET => "get"
    case UPDATE => "update"
    case DELETE => "delete"
  }

  function AckText(k: Ack): (s: string)
    ensures |s| == 8
  {
    if k == ACCEPTED then "accepted" else "rejected"
  }

  /** topicNameFromThingAndAction */
  function Name(t: Topic): string {
    "$aws/things/" + t.pair.thing + "/shadow/" + ActionText(t.pair.action) + "/" + AckText(t.ack)
  }

  /** The acknowledgement topics of the shadow service. */
  lemma Names(thing: string)
    ensures forall k ::
      Name(Topic(Pair(thing, GET), k)) == "$aws/things/" + thing + "/shadow/" + "get" + "/" + AckText(k)
    ensures forall k ::
      Name(Topic(Pair(thing, UPDATE), k)) == "$aws/things/" + thing + "/shadow/" + "update" + "/" + AckText(k)
    ensures forall k ::
      Name(Topic(Pair(thing, DELETE), k)) == "$aws/things/" + thing + "/shadow/" + "delete" + "/" + AckText(k)
    ensures AckText(ACCEPTED) == "accepted" && AckText(REJECTED) == "rejected"
  {
  }

  /** The topic buffer holds every name of a thing that fits its own buffer. */
  lemma NameFits(t: Topic)
    requires |t.pair.thing| < MAX_SIZE_OF_THING_NAME
    ensures |Name(t)| < MAX_SHADOW_TOPIC_LENGTH_BYTES
  {
  }

  /** Different topics have different names, whatever characters the thing names contain. */
  lemma ThingInside(t: Topic)
    ensures |Name(t)| >= |ActionText(t.pair.action)| + 29
    ensures Name(t)[12..|Name(t)| - |ActionText(t.pair.action)| - 17] == t.pair.thing
  {
  }

  lemma NameIsInjective(t: Topic, u: Topic)
    requires Name(t) == Name(u)
    ensures t == u
  {
    var n := Name(t);
    assert n[|n| - 8..] == AckText(t.ack) == AckText(u.ack);
    assert t.ack == u.ack by { assert AckText(t.ack)[0] == AckText(u.ack)[0]; }
    SameAction(t, u);
    ThingInside(t);
    ThingInside(u);
  }

  lemma SameAction(t: Topic, u: Topic)
    requires Name(t) == Name(u)
    ensures t.pair.action == u.pair.action
  {
    var n, a, b := Name(t), ActionText(t.pair.action), ActionText(u.pair.action);
    assert n[|n| - 10] == a[|a| - 1] == b[|b| - 1];
    if |a| == |b| == 6 {
      assert n[|n| - 15] == a[0] == b[0];
    }
  }

  // ---------------------------------------------------------------------------
  // Which acknowledgement a topic is taken for

  /** strstr(text, part) != NULL */
  predicate Contains(text: string, part: string) {
    part <= text || (text != "" && Contains(text[1..], part))
  }

  /** AckStatusCallback looks for the words anywhere in the string at the topic's address; the
      topic itself is not terminated there, so the string goes on with what follows it. */
  function StatusOf(text: string): Ack {
    if Contains(text, "accepted") then ACCEPTED else REJECTED
  }

  lemma {:induction false} ContainsAt(text: string, at: nat, part: string)
    requires at <= |text| && part <= text[at..]
    ensures Contains(text, part)
    decreases at
  {
    if at > 0 {
      assert text[1..][at - 1..] == text[at..];
      ContainsAt(text[1..], at - 1, part);
    }
  }

  /** The word stands at index k. */
  predicate Hit(text: string, k: nat, part: string) {
    k + |part| <= |text| && text[k..k + |part|] == part
  }

  lemma {:induction false} ContainsIsHit(text: string, part: string)
    ensures Contains(text, part) <==> exists k: nat :: Hit(text, k, part)
  {
    if Contains(text, part) {
      var k := FindHit(text, part);
    } else {
      forall k: nat
        ensures !Hit(text, k, part)
      {
        if Hit(text, k, part) {
          assert part <= text[k..];
          ContainsAt(text, k, part);
        }
      }
    }
  }

  lemma {:induction false} FindHit(text: string, part: string) returns (k: nat)
    requires Contains(text, part)
    ensures Hit(text, k, part)
    decreases |text|
  {
    if part <= text {
      k := 0;
    } else {
      var rest := text[1..];
      k := FindHit(rest, part);
      assert rest[k..k + |part|] == text[k + 1..k + 1 + |part|];
      k := k + 1;
    }
  }

  /** The characters before the thing name of a topic, and those after it. */
  const HEAD := "$aws/things/"

  function Suffix(t: Topic): string {
    "/shadow/" + ActionText(t.pair.action) + "/" + AckText(t.ack)
  }

  /** The word "accepted" does not begin inside `fixed`. */
  predicate NoStart(fixed: string) {
    forall k :: 0 <= k < |fixed| && fixed[k] == 'a' ==> k + 1 < |fixed| && fixed[k + 1] != 'c'
  }

  lemma FixedPartsAreClear(a: Action)
    ensures NoStart(HEAD) && NoStart("/shadow/" + ActionText(a) + "/rejected")
  {
  }

  lemma HitChars(text: string, k: nat)
    requires Hit(text, k, "accepted")
    ensures text[k] == 'a' && text[k + 1] == 'c' && forall j :: k <= j < k + 8 ==> text[j] != '/'
  {
    var word := text[k..k + 8];
    assert text[k] == word[0] && text[k + 1] == word[1];
    forall j | k <= j < k + 8
      ensures text[j] != '/'
    {
      assert text[j] == word[j - k];
    }
  }

  lemma NoHitIn(before: string, fixed: string, after: string, k: nat)
    requires NoStart(fixed) && |before| <= k < |before| + |fixed|
    ensures !Hit(before + fixed + after, k, "accepted")
  {
    var text := before + fixed + after;
    assert text[k] == fixed[k - |before|];
    assert k + 1 < |before| + |fixed| ==> text[k + 1] == fixed[k + 1 - |before|];
    if Hit(text, k, "accepted") { HitChars(text, k); }
  }

  /** The word does not reach beyond a thing name, since a separator follows there. */
  lemma NoHitAcross(before: string, thing: string, after: string, k: nat)
    requires |before| <= k < |before| + |thing| && after != "" && after[0] == '/'
    requires Hit(before + thing + after, k, "accepted")
    ensures Hit(thing, k - |before|, "accepted")
  {
    var text := before + thing + after;
    assert text[|before| + |thing|] == '/';
    HitChars(text, k);
    assert thing[k - |before|..k - |before| + 8] == text[k..k + 8];
  }

  /** A hit in a part is a hit in the whole, and the other way round. */
  lemma HitShifts(before: string, part: string, after: string, k: nat)
    requires k + 8 <= |part|
    ensures Hit(before + part + after, |before| + k, "accepted") <==> Hit(part, k, "accepted")
  {
    var text := before + part + after;
    assert text[|before| + k..|before| + k + 8] == part[k..k + 8];
  }

  lemma Parts(t: Topic, after: string)
    ensures var text, thing, suffix := Name(t) + after, t.pair.thing, Suffix(t);
      && text == "" + HEAD + (thing + (suffix + after))
      && text == HEAD + thing + (suffix + after)
      && text == (HEAD + thing) + suffix + after
      && text == (HEAD + thing + suffix) + after + ""
  {
    assert Name(t) == HEAD + t.pair.thing + Suffix(t);
  }

  lemma SuffixStarts(t: Topic)
    ensures Suffix(t) != "" && Suffix(t)[0] == '/'
    ensures t.ack == REJECTED ==> Suffix(t) == "/shadow/" + ActionText(t.pair.action) + "/rejected"
  {
  }

  lemma HitFits(text: string, k: nat)
    ensures Hit(text, k, "accepted") ==> k + 8 <= |text|
  {
  }

  lemma HitIsInside(t: Topic, after: string, k: nat)
    requires t.ack == REJECTED && Hit(Name(t) + after, k, "accepted")
    ensures Contains(t.pair.thing, "accepted") || Contains(after, "accepted")
  {
    var thing, suffix := t.pair.thing, Suffix(t);
    FixedPartsAreClear(t.pair.action);
    Parts(t, after);
    SuffixStarts(t);
    HitFits(Name(t) + after, k);
    var n := |HEAD| + |thing|;
    hide *;
    if k < |HEAD| {
      NoHitIn("", HEAD, thing + (suffix + after), k);
    } else if k < n {
      NoHitAcross(HEAD, thing, suffix + after, k);
      ContainsIsHit(thing, "accepted");
    } else if k < n + |suffix| {
      NoHitIn(HEAD + thing, suffix, after, k);
    } else {
      HitShifts(HEAD + thing + suffix, after, "", k - n - |suffix|);
      ContainsIsHit(after, "accepted");
    }
  }

  /** In a rejection topic and what follows it, the word "accepted" occurs only inside the thing
      name or inside what follows. */
  lemma AcceptedOccurs(t: Topic, after: string)
    requires t.ack == REJECTED
    ensures Contains(Name(t) + after, "accepted") <==>
            Contains(t.pair.thing, "accepted") || Contains(after, "accepted")
  {
    var thing, suffix, text := t.pair.thing, Suffix(t), Name(t) + after;
    ContainsIsHit(text, "accepted");
    ContainsIsHit(thing, "accepted");
    ContainsIsHit(after, "accepted");
    Parts(t, after);
    hide Name, Contains;
    if k: nat :| Hit(text, k, "accepted") {
      HitIsInside(t, after, k);
    }
    if k: nat :| Hit(thing, k, "accepted") {
      HitShifts(HEAD, thing, suffix + after, k);
      assert Hit(text, |HEAD| + k, "accepted");
    }
    if k: nat :| Hit(after, k, "accepted") {
      HitShifts(HEAD + thing + suffix, after, "", k);
      assert Hit(text, |HEAD + thing + suffix| + k, "accepted");
    }
  }

  /** An acceptance is always taken for one; a rejection is if and only if the word "accepted"
      occurs neither in the thing's name nor in what follows the topic. */
  lemma StatusIsRight(t: Topic, after: string)
    ensures StatusOf(Name(t) + after) == t.ack <==>
            t.ack == ACCEPTED || !(Contains(t.pair.thing, "accepted") || Contains(after, "accepted"))
    ensures Contains(Name(t) + after, AckText(t.ack))
  {
    var text := Name(t) + after;
    var at := |Name(t)| - 8;
    assert text[at..] == AckText(t.ack) + after;
    ContainsAt(text, at, AckText(t.ack));
    if t.ack == REJECTED { AcceptedOccurs(t, after); }
  }

  /** A thing called "accepted": its rejections are reported as acceptances. */
  lemma MistakesRejection()
    ensures var t := Topic(Pair("accepted", GET), REJECTED);
      |t.pair.thing| < MAX_SIZE_OF_THING_NAME && StatusOf(Name(t)) == ACCEPTED != t.ack
  {
    var t := Topic(Pair("accepted", GET), REJECTED);
    assert Contains(t.pair.thing, "accepted");
    AcceptedOccurs(t, "");
    assert Name(t) + "" == Name(t);
    hide Name;
  }
}
