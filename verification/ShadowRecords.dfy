/** Shadow actions that wait for acknowledgements: the list of waiting records, the table of
    subscriptions they share, and the callbacks they end in.  Callbacks do not start actions. */
module ShadowRecords {
  import opened ShadowTopics
  import opened ShadowTable
  import opened Wrappers

  import ShadowBuilder
  import ShadowJson

  const MAX_ACKS := 10
  const MAX_TOPICS := 20

  /** Sizes of the buffers for tokens of requests, for those of messages, and for messages. */
  const MAX_SIZE_CLIENT_ID_WITH_SEQUENCE := ShadowBuilder.MAX_SIZE_CLIENT_ID_WITH_SEQUENCE
  const MAX_SIZE_CLIENT_TOKEN_CLIENT_SEQUENCE := 110
  const SHADOW_MAX_SIZE_OF_RX_BUFFER := 513

  /** One entry of AckWaitList. */
  datatype AckRecord = AckRecord(isFree: bool, request: Request)

  datatype Request = Request(token: string, pair: Pair, callback: nat, deadline: nat)

  datatype Status = ACK_ACCEPTED | ACK_REJECTED | ACK_TIMEOUT

  /** A call of an application callback. */
  datatype Answer = Answer(request: Request, status: Status)

  // ---------------------------------------------------------------------------
  // What the list stands for

  function RequestOf(a: AckRecord): multiset<Request> {
    if a.isFree then multiset{} else multiset{a.request}
  }

  function PairOf(a: AckRecord): multiset<Pair> {
    if a.isFree then multiset{} else multiset{a.request.pair}
  }

  function Waiting(acks: seq<AckRecord>): multiset<Request> {
    if acks == [] then multiset{} else RequestOf(acks[0]) + Waiting(acks[1..])
  }

  function Pairs(acks: seq<AckRecord>): multiset<Pair> {
    if acks == [] then multiset{} else PairOf(acks[0]) + Pairs(acks[1..])
  }

  function Answered(answers: seq<Answer>): multiset<Request> {
    if answers == [] then multiset{}
    else Answered(answers[..|answers| - 1]) + multiset{answers[|answers| - 1].request}
  }

  lemma {:induction false} SetAck(acks: seq<AckRecord>, i: nat, a: AckRecord)
    requires i < |acks|
    ensures Waiting(acks[i := a]) + RequestOf(acks[i]) == Waiting(acks) + RequestOf(a)
    ensures Pairs(acks[i := a]) + PairOf(acks[i]) == Pairs(acks) + PairOf(a)
    decreases i
  {
    hide RequestOf, PairOf;
    var acks', rest := acks[i := a], acks[1..];
    if i == 0 {
      assert acks'[1..] == rest;
      Swap(RequestOf(a), Waiting(rest), RequestOf(acks[0]));
      Swap(PairOf(a), Pairs(rest), PairOf(acks[0]));
    } else {
      assert acks'[1..] == rest[i - 1 := a];
      SetAck(rest, i - 1, a);
      Prepend(RequestOf(acks[0]), Waiting(acks'[1..]), RequestOf(acks[i]), Waiting(rest), RequestOf(a));
      Prepend(PairOf(acks[0]), Pairs(acks'[1..]), PairOf(acks[i]), Pairs(rest), PairOf(a));
    }
  }

  lemma Swap<T>(a: multiset<T>, b: multiset<T>, c: multiset<T>)
    ensures a + b + c == c + b + a
  {
  }

  lemma Prepend<T>(x: multiset<T>, a: multiset<T>, b: multiset<T>, c: multiset<T>, d: multiset<T>)
    requires a + b == c + d
    ensures x + a + b == x + c + d
  {
    assert x + a + b == x + (a + b);
    assert x + c + d == x + (c + d);
  }

  /** Token and thing name fit the buffers of a record, with their terminators. */
  predicate RequestFits(r: Request) {
    |r.token| < MAX_SIZE_CLIENT_ID_WITH_SEQUENCE && |r.pair.thing| < MAX_SIZE_OF_THING_NAME
  }

  predicate RecordsFit(acks: seq<AckRecord>) {
    forall i :: 0 <= i < |acks| && !acks[i].isFree ==> RequestFits(acks[i].request)
  }

  predicate AnyFree(acks: seq<AckRecord>) {
    exists i :: 0 <= i < |acks| && acks[i].isFree
  }

  /** The first record not in use, or the size of the list. */
  function FirstFreeAck(acks: seq<AckRecord>): (i: nat)
    ensures i <= |acks| && (i < |acks| ==> acks[i].isFree)
    ensures forall k :: 0 <= k < i ==> !acks[k].isFree
  {
    if acks == [] || acks[0].isFree then 0 else 1 + FirstFreeAck(acks[1..])
  }

  lemma {:induction false} PairsSize(acks: seq<AckRecord>)
    ensures |Pairs(acks)| <= |acks|
  {
    if acks != [] { PairsSize(acks[1..]); }
  }

  /** With a free record, fewer wait than there are records. */
  lemma {:induction false} FreeLeavesRoom(acks: seq<AckRecord>, i: nat)
    requires i < |acks| && acks[i].isFree
    ensures |Pairs(acks)| < |acks|
    decreases i
  {
    if i > 0 { FreeLeavesRoom(acks[1..], i - 1); } else { PairsSize(acks[1..]); }
  }

  lemma {:induction false} WaitingIn(acks: seq<AckRecord>, i: nat)
    requires i < |acks| && !acks[i].isFree
    ensures acks[i].request in Waiting(acks) && acks[i].request.pair in Pairs(acks)
    decreases i
  {
    if i > 0 { WaitingIn(acks[1..], i - 1); }
  }

  lemma AnswerOne(answers: seq<Answer>, a: Answer)
    ensures Answered(answers + [a]) == Answered(answers) + multiset{a.request}
  {
    assert (answers + [a])[..|answers|] == answers;
  }

  /** The table agrees with its references, which are those of the waiting records and those held
      without one; every request made is waiting or has been answered, once. */
  ghost predicate Consistent(tab: Table, book: Book, acks: seq<AckRecord>, held: multiset<Pair>,
                             made: multiset<Request>, answers: seq<Answer>) {
    && Tracks(tab, book)
    && book.refs == Pairs(acks) + held
    && |book.refs| < COUNT_MOD
    && made == Waiting(acks) + Answered(answers)
  }

  /** What is held without a record once a reference on `p` is released. */
  function HeldReleased(held: multiset<Pair>, b: Book, p: Pair): multiset<Pair> {
    if b.refs[p] == 1 && p in b.sticky then held + multiset{p} else held
  }

  /** Only sticky pairs are held when their last reference is released. */
  lemma ReleaseHolds(held: multiset<Pair>, b: Book, p: Pair)
    ensures p !in b.sticky ==> HeldReleased(held, b, p) == held
    ensures BookReleased(b, p).sticky == b.sticky
  {
  }

  /** Answering a waiting request, freeing its record and releasing its reference. */
  lemma AnsweringKeeps(tab: Table, book: Book, acks: seq<AckRecord>, held: multiset<Pair>, made: multiset<Request>,
                       answers: seq<Answer>, i: nat, status: Status)
    requires Consistent(tab, book, acks, held, made, answers) && i < |acks| && !acks[i].isFree
    ensures var r := acks[i].request;
      Consistent(PairReleased(tab, r.pair), BookReleased(book, r.pair), acks[i := acks[i].(isFree := true)],
                 HeldReleased(held, book, r.pair), made, answers + [Answer(r, status)])
  {
    var r, freed := acks[i].request, acks[i].(isFree := true);
    WaitingIn(acks, i);
    SetAck(acks, i, freed);
    AnswerOne(answers, Answer(r, status));
    hide Waiting, Pairs, Answered, Tracks, PairReleased;
    ReleasedTracks(tab, book, r.pair);
    Moved(Waiting(acks), Answered(answers), Waiting(acks[i := freed]), r);
    Moved(Pairs(acks), held, Pairs(acks[i := freed]), r.pair);
  }

  lemma Moved<T>(a: multiset<T>, b: multiset<T>, a': multiset<T>, x: T)
    requires a' + multiset{x} == a + multiset{}
    ensures a + b == a' + (b + multiset{x})
    ensures a + b - multiset{x} == a' + b
  {
    assert a == a' + multiset{x};
  }

  /** The first record waiting with a token. */
  function FirstWaiting(acks: seq<AckRecord>, token: string): (i: int)
    ensures -1 <= i < |acks|
  {
    if acks == [] then -1
    else if !acks[0].isFree && acks[0].request.token == token then 0
    else
      var rest := FirstWaiting(acks[1..], token);
      if rest < 0 then -1 else rest + 1
  }

  lemma {:induction false} FirstWaitingIs(acks: seq<AckRecord>, token: string, i: nat)
    requires i < |acks| && !acks[i].isFree && acks[i].request.token == token
    requires forall k :: 0 <= k < i ==> acks[k].isFree || acks[k].request.token != token
    ensures FirstWaiting(acks, token) == i
    decreases i
  {
    if i > 0 { FirstWaitingIs(acks[1..], token, i - 1); }
  }

  lemma {:induction false} FirstWaitingNone(acks: seq<AckRecord>, token: string)
    requires forall k :: 0 <= k < |acks| ==> acks[k].isFree || acks[k].request.token != token
    ensures FirstWaiting(acks, token) == -1
  {
    if acks != [] { FirstWaitingNone(acks[1..], token); }
  }

  predicate Expired(a: AckRecord, now: nat) {
    !a.isFree && a.request.deadline <= now
  }

  /** The list without the records that have expired. */
  function Swept(acks: seq<AckRecord>, now: nat): seq<AckRecord> {
    seq(|acks|, i requires 0 <= i < |acks| => if Expired(acks[i], now) then acks[i].(isFree := true) else acks[i])
  }

  /** The answers that expiry gives, in the order of the records. */
  function Timeouts(acks: seq<AckRecord>, now: nat): seq<Answer> {
    if acks == [] then []
    else
      Timeouts(acks[..|acks| - 1], now)
      + if Expired(acks[|acks| - 1], now) then [Answer(acks[|acks| - 1].request, ACK_TIMEOUT)] else []
  }

  lemma NextTimeout(acks: seq<AckRecord>, i: nat, now: nat)
    requires i < |acks|
    ensures Timeouts(acks[..i + 1], now) ==
            Timeouts(acks[..i], now) + if Expired(acks[i], now) then [Answer(acks[i].request, ACK_TIMEOUT)] else []
  {
    assert acks[..i + 1][..i] == acks[..i];
  }

  /** A record waits with a deadline that is not after `now`. */
  predicate IsLate(acks: seq<AckRecord>, k: int, now: nat)
    requires 0 <= k < |acks|
  {
    !acks[k].isFree && !(acks[k].request.deadline > now)
  }

  /** Exactly the records whose deadline has come are freed, and exactly their requests are answered,
      by a timeout. */
  lemma {:induction false} SweepIsExact(acks: seq<AckRecord>, now: nat)
    ensures forall k :: 0 <= k < |acks| ==>
      Swept(acks, now)[k] == if IsLate(acks, k, now) then acks[k].(isFree := true) else acks[k]
    ensures forall a ::
      a in Timeouts(acks, now) <==>
      exists k :: 0 <= k < |acks| && IsLate(acks, k, now) && a == Answer(acks[k].request, ACK_TIMEOUT)
  {
    if acks != [] {
      var n := |acks| - 1;
      var front := acks[..n];
      SweepIsExact(front, now);
      forall a
        ensures a in Timeouts(acks, now) <==>
                exists k :: 0 <= k < |acks| && IsLate(acks, k, now) && a == Answer(acks[k].request, ACK_TIMEOUT)
      {
        if k :| 0 <= k < |acks| && IsLate(acks, k, now) && a == Answer(acks[k].request, ACK_TIMEOUT) {
          if k < n { assert IsLate(front, k, now) && front[k] == acks[k]; }
        }
        if k :| 0 <= k < n && IsLate(front, k, now) && a == Answer(front[k].request, ACK_TIMEOUT) {
          assert IsLate(acks, k, now) && front[k] == acks[k];
        }
      }
    }
  }

  /** Some record waits for an answer on the pair. */
  predicate WaitsFor(acks: seq<AckRecord>, p: Pair) {
    exists i :: 0 <= i < |acks| && !acks[i].isFree && acks[i].request.pair == p
  }

  lemma FirstOrLater(acks: seq<AckRecord>, p: Pair)
    requires acks != []
    ensures WaitsFor(acks, p) <==> (!acks[0].isFree && acks[0].request.pair == p) || WaitsFor(acks[1..], p)
  {
    if i :| 0 < i < |acks| && !acks[i].isFree && acks[i].request.pair == p {
      assert !acks[1..][i - 1].isFree && acks[1..][i - 1].request.pair == p;
    }
    if i :| 0 <= i < |acks| - 1 && !acks[1..][i].isFree && acks[1..][i].request.pair == p {
      assert !acks[i + 1].isFree && acks[i + 1].request.pair == p;
    }
  }

  lemma {:induction false} PairsWaited(acks: seq<AckRecord>, p: Pair)
    ensures p in Pairs(acks) <==> WaitsFor(acks, p)
  {
    if acks != [] {
      PairsWaited(acks[1..], p);
      FirstOrLater(acks, p);
      hide WaitsFor;
    }
  }

  /** The topics subscribed to are those of the pairs that some record waits on or that are held
      without one, and every entry counts both. */
  lemma SubscribedWhileWaiting(tab: Table, book: Book, acks: seq<AckRecord>, held: multiset<Pair>,
                               made: multiset<Request>, answers: seq<Answer>)
    requires Consistent(tab, book, acks, held, made, answers)
    ensures forall t: Topic :: Name(t) in tab.broker <==> WaitsFor(acks, t.pair) || t.pair in held
    ensures forall t: Topic :: var i := FirstIndex(tab.subs, Name(t));
      if WaitsFor(acks, t.pair) || t.pair in held then
        i >= 0 && tab.subs[i].count == Pairs(acks)[t.pair] + held[t.pair]
      else i < 0
  {
    hide Name;
    forall t: Topic
      ensures Name(t) in tab.broker <==> WaitsFor(acks, t.pair) || t.pair in held
      ensures var i := FirstIndex(tab.subs, Name(t));
        if WaitsFor(acks, t.pair) || t.pair in held then
          i >= 0 && tab.subs[i].count == Pairs(acks)[t.pair] + held[t.pair]
        else i < 0
    {
      PairsWaited(acks, t.pair);
      FindsSlot(tab, book, t);
    }
  }

  /** A call into the shadow layer: an action, a message for its callback, or a yield. */
  datatype Call =
    | Act(pair: Pair, document: string, callback: Option<nat>, deadline: nat, isSticky: bool, published: bool)
    | Arrive(text: string, payload: string)
    | Elapse(now: nat)

  /** The client token of a text, if it has one, is of less than `size` characters. */
  predicate TokenShorter(js: string, size: nat) {
    && !ShadowJson.KeyDangles(js, ShadowJson.MAX_TOKENS)
    && var t := ShadowJson.Extracted(js, ShadowJson.MAX_TOKENS);
       t.Some? ==> |t.value| < size
  }

  /** Actions that are not sticky and are published; messages on acknowledgement topics; names and
      tokens that fit their buffers. */
  predicate Ordinary(c: Call) {
    match c
    case Act(p, document, _, _, isSticky, published) =>
      && !isSticky && published && |p.thing| < MAX_SIZE_OF_THING_NAME
      && TokenShorter(document, MAX_SIZE_CLIENT_ID_WITH_SEQUENCE)
    case Arrive(text, payload) =>
      && (Contains(text, "accepted") || Contains(text, "rejected"))
      && TokenShorter(payload, MAX_SIZE_CLIENT_TOKEN_CLIENT_SEQUENCE)
    case Elapse(_) => true
  }

  /** What an ordinary call does: an action whose document has a client token waits in the first record
      not in use, if there is one and it has a callback; a message answers the first record that waits
      with its token; time answers the records that are late. */
  predicate Done(c: Call, a: Snapshot, b: Snapshot) {
    match c
    case Act(p, document, callback, deadline, _, _) =>
      var t := ShadowJson.Extracted(document, ShadowJson.MAX_TOKENS);
      if t.None? || callback.None? || !AnyFree(a.acks) then b == a
      else
        var r := Request(t.value, p, callback.value, deadline);
        && b.acks == a.acks[FirstFreeAck(a.acks) := AckRecord(false, r)] && b.made == a.made + multiset{r}
        && b.answers == a.answers && b.book.refs == a.book.refs + multiset{p}
    case Arrive(text, payload) =>
      var t := ShadowJson.Extracted(payload, ShadowJson.MAX_TOKENS);
      var i := if |payload| <= SHADOW_MAX_SIZE_OF_RX_BUFFER && t.Some? then FirstWaiting(a.acks, t.value) else -1;
      if i < 0 then b == a
      else
        var status := if StatusOf(text) == ACCEPTED then ACK_ACCEPTED else ACK_REJECTED;
        && b.acks == a.acks[i := a.acks[i].(isFree := true)] && b.made == a.made
        && b.answers == a.answers + [Answer(a.acks[i].request, status)]
    case Elapse(now) =>
      b.acks == Swept(a.acks, now) && b.answers == a.answers + Timeouts(a.acks, now) && b.made == a.made
  }

  /** The moments of a run, one before each call and one after the last. */
  predicate Ran(calls: seq<Call>, moments: seq<Snapshot>) {
    |moments| == |calls| + 1 && forall k :: 0 <= k < |calls| ==> Done(calls[k], moments[k], moments[k + 1])
  }

  /** A run from moment a to moment b. */
  predicate RanTo(calls: seq<Call>, moments: seq<Snapshot>, a: Snapshot, b: Snapshot) {
    Ran(calls, moments) && moments[0] == a && moments[|calls|] == b
  }

  lemma RanOn(calls: seq<Call>, n: nat, moments: seq<Snapshot>, a: Snapshot, b: Snapshot, c: Snapshot)
    requires n < |calls| && RanTo(calls[..n], moments, a, b) && Done(calls[n], b, c)
    ensures RanTo(calls[..n + 1], moments + [c], a, c)
  {
    hide Done;
    assert calls[..n] + [calls[n]] == calls[..n + 1];
  }

  lemma RanThrough(calls: seq<Call>, moments: seq<Snapshot>, a: Snapshot, b: Snapshot)
    requires RanTo(calls[..|calls|], moments, a, b)
    ensures Ran(calls, moments) && moments[0] == a && moments[|calls|] == b
  {
    hide Done;
    assert calls[..|calls|] == calls;
  }

  lemma RanNot(calls: seq<Call>, a: Snapshot)
    ensures RanTo(calls[..0], [a], a, a)
  {
  }

  /** Actions on documents that a client with an id of at most 77 characters has built. */
  lemma BuiltActionsAreOrdinary(p: Pair, id: string, n: nat, ss: seq<ShadowJson.Section>, callback: Option<nat>,
                                deadline: nat)
    requires |p.thing| < MAX_SIZE_OF_THING_NAME && |id| <= 77 && ShadowJson.Plain(id) && n < 0x1_0000_0000
    requires ss != [] && ShadowJson.PlainSections(ss) && ShadowJson.NoTokenKey(ss)
    ensures Ordinary(Act(p, ShadowJson.Document(ss, ShadowBuilder.ClientToken(id, n)), callback, deadline, false, true))
  {
    ShadowBuilder.ExtractsOwnToken(id, n, ss);
    ShadowBuilder.ShortIdsFit(id, n);
    hide ShadowJson.Document, ShadowJson.Extracted, ShadowJson.KeyDangles, ShadowBuilder.ClientToken;
  }

  lemma NotSubscribed(tb: Table, b: Book, p: Pair)
    requires Tracks(tb, b) && p !in b.refs
    ensures Name(Topic(p, ACCEPTED)) !in tb.broker
  {
    assert Topic(p, ACCEPTED) !in b.slots;
  }

  /** What the two searches for a free entry find. */
  lemma TwoFree(was: seq<Subscription>, taken: seq<Subscription>, i: int, j: int)
    requires i == FirstFree(was) && j == FirstFree(taken)
    requires taken == if i < 0 then was else was[i := was[i].(isFree := false)]
    ensures i >= 0 && j >= 0 <==> |InUse(was)| + 2 <= |was|
    ensures i < 0 ==> j < 0
    ensures i >= 0 && j >= 0 ==> i != j && was[j].isFree
  {
    if |InUse(was)| + 2 <= |was| {
      FreeExists(was);
      TakeOne(was, i, taken[i]);
      FreeExists(taken);
    } else if i >= 0 {
      NoneLeft(was, i, taken[i]);
    }
  }

  lemma SubscribedIs(before: Table, after: Table, p: Pair, i: nat, j: nat, isSticky: bool)
    requires i < |before.subs| && j < |before.subs| && i != j
    requires var accepted, rejected := Name(Topic(p, ACCEPTED)), Name(Topic(p, REJECTED));
      && after.broker == before.broker + {accepted} + {rejected}
      && after.subs == before.subs[i := Subscription(accepted, 1, false, isSticky)]
                                  [j := Subscription(rejected, 1, false, isSticky)]
    ensures after == Subscribed(before, p, i, j, isSticky)
  {
    hide Name;
    var accepted, rejected := Name(Topic(p, ACCEPTED)), Name(Topic(p, REJECTED));
    assert {accepted} + {rejected} == {accepted, rejected};
    assert before.broker + {accepted} + {rejected} == before.broker + {accepted, rejected};
  }

  lemma Multiplicity<T>(m: multiset<T>, x: T)
    ensures m[x] <= |m|
  {
    assert m == m[x := 0] + multiset{}[x := m[x]];
  }

  lemma {:induction false} FirstIs(subs: seq<Subscription>, topic: string, i: nat)
    requires i < |subs| && !subs[i].isFree && subs[i].topic == topic
    requires forall k :: 0 <= k < i ==> subs[k].isFree || subs[k].topic != topic
    ensures FirstIndex(subs, topic) == i
    decreases i
  {
    if i > 0 {
      FirstIs(subs[1..], topic, i - 1);
    }
  }

  lemma {:induction false} NothingWaits(acks: seq<AckRecord>)
    requires forall i :: 0 <= i < |acks| ==> acks[i].isFree
    ensures Waiting(acks) == multiset{} && Pairs(acks) == multiset{}
  {
    if acks != [] { NothingWaits(acks[1..]); }
  }

  /** All there is to the records at one moment. */
  datatype Snapshot = Snapshot(acks: seq<AckRecord>, tab: Table, book: Book, held: multiset<Pair>,
                               made: multiset<Request>, answers: seq<Answer>)

  // ---------------------------------------------------------------------------

  class Records {
    const acks: array<AckRecord>
    const subs: array<Subscription>
    var broker: set<string>
    var answers: seq<Answer>
    ghost var made: multiset<Request>
    ghost var held: multiset<Pair>
    ghost var book: Book

    ghost function Tab(): Table
      reads this, subs
    {
      Table(subs[..], broker)
    }

    ghost function Now(): Snapshot
      reads this, acks, subs
    {
      Snapshot(acks[..], Tab(), book, held, made, answers)
    }

    ghost predicate Valid()
      reads this, acks, subs
    {
      && acks.Length == MAX_ACKS && subs.Length == MAX_TOPICS && RecordsFit(acks[..])
      && Consistent(Tab(), book, acks[..], held, made, answers)
    }

    /** initializeRecords, after a connect with a clean session. */
    constructor ()
      ensures Valid() && fresh(acks) && fresh(subs)
      ensures held == multiset{} && made == multiset{} && answers == [] && book.sticky == {}
    {
      var nothing := Request("", Pair("", GET), 0, 0);
      acks := new AckRecord[MAX_ACKS](i => AckRecord(true, nothing));
      subs := new Subscription[MAX_TOPICS](i => Subscription("", 0, true, false));
      broker, answers := {}, [];
      made, held := multiset{}, multiset{};
      book := Book(multiset{}, {}, map[]);
      new;
      hide Name;
      NothingWaits(acks[..]);
    }

    // -------------------------------------------------------------------------
    // The subscription table

    /** getNextFreeIndexOfSubscriptionList: the entry found is marked as in use. */
    method NextFreeSubscription() returns (i: int)
      modifies subs
      ensures i == FirstFree(old(subs[..]))
      ensures subs[..] == if i < 0 then old(subs[..]) else old(subs[..])[i := old(subs[i]).(isFree := false)]
    {
      i := 0;
      while i < subs.Length
        invariant 0 <= i <= subs.Length
        invariant forall k :: 0 <= k < i ==> !subs[k].isFree
        invariant subs[..] == old(subs[..])
      {
        if subs[i].isFree {
          subs[i] := subs[i].(isFree := false);
          return;
        }
        i := i + 1;
      }
      i := -1;
    }

    /** findIndexOfSubscriptionList */
    method FindSubscription(topic: string) returns (i: int)
      ensures i == FirstIndex(subs[..], topic)
    {
      i := 0;
      while i < subs.Length
        invariant 0 <= i <= subs.Length
        invariant forall k :: 0 <= k < i ==> subs[k].isFree || subs[k].topic != topic
      {
        if !subs[i].isFree && topic == subs[i].topic {
          FirstIs(subs[..], topic, i);
          return;
        }
        i := i + 1;
      }
      i := -1;
    }

    /** isSubscriptionPresent */
    method IsSubscriptionPresent(p: Pair) returns (present: bool)
      ensures present <==>
        FirstIndex(subs[..], Name(Topic(p, ACCEPTED))) >= 0 && FirstIndex(subs[..], Name(Topic(p, REJECTED))) >= 0
    {
      var accepted, rejected := Name(Topic(p, ACCEPTED)), Name(Topic(p, REJECTED));
      assert accepted != rejected by {
        if accepted == rejected { NameIsInjective(Topic(p, ACCEPTED), Topic(p, REJECTED)); }
      }
      hide Name;
      var isAcceptedPresent, isRejectedPresent := false, false;
      for i := 0 to subs.Length
        invariant isAcceptedPresent <==> exists k :: 0 <= k < i && !subs[k].isFree && subs[k].topic == accepted
        invariant isRejectedPresent <==> exists k :: 0 <= k < i && !subs[k].isFree && subs[k].topic == rejected
      {
        if !subs[i].isFree {
          if accepted == subs[i].topic {
            isAcceptedPresent := true;
          } else if rejected == subs[i].topic {
            isRejectedPresent := true;
          }
        }
      }
      present := isRejectedPresent && isAcceptedPresent;
    }

    /** subscribeToShadowActionAcks; `first` and `second` say whether its two subscribe calls
        succeed, and `stray` is what lies in memory before the table.  If one call fails, only the
        entry of the accepted topic is freed again: one entry more stays in use, for no topic.
        If fewer than two entries are free, nothing is subscribed to and success is reported; the
        topic left over in the free entry, or before the table, is unsubscribed from when the count
        left over there is 1.  The second search fails whenever the first does, so the branch of
        the code that frees the second entry alone is never taken. */
    method SubscribeToActionAcks(p: Pair, isSticky: bool, first: bool, second: bool, stray: Subscription)
      returns (ok: bool, ghost i: int, ghost j: int)
      modifies this`broker, subs
      ensures |InUse(old(subs[..]))| + 2 <= subs.Length ==>
        && 0 <= i < subs.Length && 0 <= j < subs.Length && i != j && old(subs[i].isFree) && old(subs[j].isFree)
        && ok == (first && second)
        && (ok ==> Tab() == Subscribed(old(Tab()), p, i, j, isSticky))
        && (!ok ==> InUse(subs[..]) == InUse(old(subs[..])) + {j})
        && (!ok && Name(Topic(p, ACCEPTED)) !in old(broker) ==> broker == old(broker))
      ensures |InUse(old(subs[..]))| + 2 > subs.Length ==>
        && ok && subs[..] == old(subs[..]) && i == FirstFree(old(subs[..]))
        && var left := if i < 0 then stray else old(subs[..])[i];
           broker == if left.count == 1 then old(broker) - {left.topic} else old(broker)
    {
      hide Name, Subscribed;
      ghost var was := subs[..];
      var indexAccepted := NextFreeSubscription();
      ghost var taken := subs[..];
      var indexRejected := NextFreeSubscription();
      i, j := indexAccepted, indexRejected;
      TwoFree(was, taken, i, j);
      if indexAccepted >= 0 && indexRejected >= 0 {
        ok := FillEntries(p, isSticky, first, second, indexAccepted, indexRejected, was);
      } else {
        ok := true;
        var left := stray;
        if indexAccepted >= 0 {
          subs[indexAccepted] := subs[indexAccepted].(isFree := true);
          left := subs[indexAccepted];
        }
        if left.count == 1 { broker := broker - {left.topic}; }
      }
    }

    /** The part of subscribeToShadowActionAcks for two entries found. */
    method FillEntries(p: Pair, isSticky: bool, first: bool, second: bool, indexAccepted: nat, indexRejected: nat,
                       ghost was: seq<Subscription>)
      returns (ok: bool)
      requires |was| == subs.Length && indexAccepted < |was| && indexRejected < |was| && indexAccepted != indexRejected
      requires was[indexAccepted].isFree && was[indexRejected].isFree
      requires subs[..] == was[indexAccepted := was[indexAccepted].(isFree := false)]
                              [indexRejected := was[indexRejected].(isFree := false)]
      modifies this`broker, subs
      ensures ok == (first && second)
      ensures ok ==> Tab() == Subscribed(Table(was, old(broker)), p, indexAccepted, indexRejected, isSticky)
      ensures !ok ==> InUse(subs[..]) == InUse(was) + {indexRejected}
      ensures !ok && Name(Topic(p, ACCEPTED)) !in old(broker) ==> broker == old(broker)
    {
      hide Name, Subscribed;
      subs[indexAccepted] := subs[indexAccepted].(topic := Name(Topic(p, ACCEPTED)));
      ok := first;
      if ok {
        broker := broker + {subs[indexAccepted].topic};
        subs[indexAccepted] := subs[indexAccepted].(count := 1, isSticky := isSticky);
        subs[indexRejected] := subs[indexRejected].(topic := Name(Topic(p, REJECTED)));
        ok := second;
        if ok {
          broker := broker + {subs[indexRejected].topic};
          subs[indexRejected] := subs[indexRejected].(count := 1, isSticky := isSticky);
          SubscribedIs(Table(was, old(broker)), Tab(), p, indexAccepted, indexRejected, isSticky);
          return;
        }
      }
      subs[indexAccepted] := subs[indexAccepted].(isFree := true);
      if subs[indexAccepted].count == 1 {
        broker := broker - {subs[indexAccepted].topic};
      }
    }

    /** incrementSubscriptionCnt */
    method IncrementSubscriptionCnt(p: Pair, isSticky: bool)
      modifies subs
      ensures subs[..] == Bumped(old(subs[..]), p, isSticky)
    {
      hide Name;
      var accepted, rejected := Name(Topic(p, ACCEPTED)), Name(Topic(p, REJECTED));
      for i := 0 to subs.Length
        invariant forall k :: 0 <= k < i ==> subs[k] == Bump(old(subs[k]), p, isSticky)
        invariant forall k :: i <= k < subs.Length ==> subs[k] == old(subs[k])
      {
        if !subs[i].isFree {
          if accepted == subs[i].topic || rejected == subs[i].topic {
            subs[i] := subs[i].(count := (subs[i].count + 1) % COUNT_MOD, isSticky := isSticky);
          }
        }
      }
    }

    /** One half of unsubscribeFromAcceptedAndRejected. */
    method ReleaseTopic(topic: string, unsubscribed: bool)
      modifies this`broker, subs
      ensures Tab() == ReleasedIf(old(Tab()), topic, unsubscribed)
    {
      var index := FindSubscription(topic);
      if index >= 0 {
        if !subs[index].isSticky && subs[index].count == 1 {
          if unsubscribed {
            broker := broker - {topic};
            subs[index] := subs[index].(isFree := true);
          }
        } else if subs[index].count > 1 {
          subs[index] := subs[index].(count := subs[index].count - 1);
        }
      }
    }

    /** `first` and `second` say whether unsubscribing succeeds, where it is called for. */
    method UnsubscribeFromAcceptedAndRejected(index: nat, first: bool, second: bool)
      requires index < acks.Length
      modifies this`broker, subs
      ensures var p := acks[index].request.pair;
        && Tab() == ReleasedIf(ReleasedIf(old(Tab()), Name(Topic(p, ACCEPTED)), first),
                               Name(Topic(p, REJECTED)), second)
        && (first && second ==> Tab() == PairReleased(old(Tab()), p))
    {
      hide Name, Released;
      var pair := acks[index].request.pair;
      var accepted, rejected := Name(Topic(pair, ACCEPTED)), Name(Topic(pair, REJECTED));
      ReleaseTopic(accepted, first);
      ReleaseTopic(rejected, second);
    }

    // -------------------------------------------------------------------------
    // Actions

    /** getNextFreeIndexOfAckWaitList */
    method NextFreeAck() returns (i: Option<nat>)
      ensures i.Some? ==> i.value == FirstFreeAck(acks[..]) < acks.Length
      ensures i.None? ==> FirstFreeAck(acks[..]) == acks.Length
    {
      for k := 0 to acks.Length
        invariant forall j :: 0 <= j < k ==> !acks[j].isFree
      {
        if acks[k].isFree { return Some(k); }
      }
      i := None;
    }

    /** Acknowledgement topics for an action on `p` can be had: two entries are in use for it, or
        two are free.  The counts have room for one reference more. */
    ghost predicate HasRoomFor(p: Pair)
      reads this, subs
    {
      |book.refs| + 1 < COUNT_MOD && (p in book.refs || |InUse(subs[..])| + 2 <= subs.Length)
    }

    /** While no reference is held without a record, there is room for every action that finds a
        free record. */
    lemma AlwaysRoom(p: Pair)
      requires Valid() && held == multiset{} && AnyFree(acks[..])
      ensures HasRoomFor(p)
    {
      hide Tracks, Waiting, Answered;
      var i :| 0 <= i < acks.Length && acks[..][i].isFree;
      FreeLeavesRoom(acks[..], i);
      InUseBound(Tab(), book);
    }

    /** The part of an action that takes a reference on the acknowledgement topics of its pair.
        `first` and `second` say whether subscribing succeeds, where it is called for. */
    method Reference(p: Pair, isSticky: bool, first: bool, second: bool, stray: Subscription) returns (ok: bool)
      requires Tracks(Tab(), book)
      modifies this`broker, this`book, subs
      ensures HasRoom(old(HasRoomFor(p)), old(book), p, first && second) ==>
        && ok && Tracks(Tab(), book)
        && book.refs == old(book).refs + multiset{p} && book.sticky == Marked(old(book).sticky, p, isSticky)
      ensures p !in old(book).refs && old(|InUse(subs[..])|) + 2 <= subs.Length && !(first && second) ==>
        && !ok && broker == old(broker) && book == old(book)
        && |InUse(subs[..])| == |old(InUse(subs[..]))| + 1
      ensures p !in old(book).refs && old(|InUse(subs[..])|) + 2 > subs.Length ==>
        ok && broker <= old(broker) && book == old(book) && subs[..] == old(subs[..])
    {
      hide Name, Tracks, Subscribed, Bumped;
      var present := IsSubscriptionPresent(p);
      PresentIsReferenced(Tab(), book, p, ACCEPTED);
      PresentIsReferenced(Tab(), book, p, REJECTED);
      ok := true;
      if !present {
        ghost var i, j;
        NotSubscribed(Tab(), book, p);
        ok, i, j := SubscribeToActionAcks(p, isSticky, first, second, stray);
        if ok && |InUse(old(subs[..]))| + 2 <= subs.Length {
          SubscribedTracks(old(Tab()), book, p, i, j, isSticky);
          book := BookSubscribed(book, p, i, j, isSticky);
        }
      } else {
        IncrementSubscriptionCnt(p, isSticky);
        if |book.refs| + 1 < COUNT_MOD {
          Multiplicity(book.refs, p);
          BumpedTracks(old(Tab()), book, p, isSticky);
          book := Book(book.refs + multiset{p}, Marked(book.sticky, p, isSticky), book.slots);
        }
      }
    }

    /** There is room, and where topics have to be subscribed to, that succeeds. */
    static predicate HasRoom(room: bool, before: Book, p: Pair, subscribed: bool) {
      room && (p in before.refs || subscribed)
    }

    /** aws_iot_shadow_internal_action.  An action waits for an answer if its document has a client
        token and it has a callback. */
    method InternalAction(p: Pair, document: string, client: ShadowBuilder.ShadowClient, callback: Option<nat>,
                          deadline: nat, isSticky: bool, published: bool, first: bool, second: bool,
                          stray: Subscription)
      returns (ok: bool)
      requires Valid() && client.Valid() && |p.thing| < MAX_SIZE_OF_THING_NAME
      requires var t := client.ExtractedNow(document); t.Some? ==> |t.value| < MAX_SIZE_CLIENT_ID_WITH_SEQUENCE
      modifies this`broker, this`book, this`made, this`held, acks, subs, client.parser, client.tokens
      ensures client.Valid()
      ensures var t, was := old(client.ExtractedNow(document)), old(Now());
        if t.Some? && callback.Some? then
          var r := Request(t.value, p, callback.value, deadline);
          Awaited(was, old(HasRoomFor(p)), r, isSticky, published, first && second, ok)
        else Valid() && ok == published && Now() == was
    {
      hide Tracks, Waiting, Pairs, Answered, Marked, ShadowJson.Extracted, ShadowJson.KeyDangles;
      var token := client.ExtractClientToken(document);
      if token.Some? && callback.Some? {
        var r := Request(token.value, p, callback.value, deadline);
        ok := AwaitedAction(r, isSticky, published, first, second, stray);
      } else {
        ok := published;
      }
    }

    /** What an action that waits does: nothing if no record is free; otherwise it takes a
        reference, and waits if it was published.  If publishing failed, the reference stays,
        without a record to release it. */
    ghost predicate Acted(was: Snapshot, r: Request, isSticky: bool, published: bool)
      reads this, acks, subs
    {
      if !AnyFree(was.acks) then Now() == was
      else
        && book.refs == was.book.refs + multiset{r.pair} && book.sticky == Marked(was.book.sticky, r.pair, isSticky)
        && answers == was.answers
        && if published then
             && made == was.made + multiset{r} && Waiting(acks[..]) == Waiting(was.acks) + multiset{r}
             && acks[..] == was.acks[FirstFreeAck(was.acks) := AckRecord(false, r)] && held == was.held
           else made == was.made && acks[..] == was.acks && held == was.held + multiset{r.pair}
    }

    /** All cases of an action that asks for an answer.  It does as it should if no record is free
        or acknowledgement topics can be had.  If subscribing to them fails, the action fails and
        one entry of the table stays in use; if the table is full, the action goes on, and waits
        without being subscribed to an answer. */
    ghost predicate Awaited(was: Snapshot, room: bool, r: Request, isSticky: bool, published: bool, subscribed: bool,
                            ok: bool)
      reads this, acks, subs
    {
      var free, known, inUse := AnyFree(was.acks), r.pair in was.book.refs, InUse(was.tab.subs);
      && (!free || HasRoom(room, was.book, r.pair, subscribed) ==>
           Valid() && ok == (published && free) && Acted(was, r, isSticky, published))
      && (free && !known && |inUse| + 2 <= |was.tab.subs| && !subscribed ==>
           && !ok && acks[..] == was.acks && made == was.made && broker == was.tab.broker
           && |InUse(subs[..])| == |inUse| + 1)
      && (free && !known && |inUse| + 2 > |was.tab.subs| ==>
           && ok == published && subs[..] == was.tab.subs && broker <= was.tab.broker
           && (ok ==> acks[..] == was.acks[FirstFreeAck(was.acks) := AckRecord(false, r)])
           && (ok ==> Waiting(acks[..]) == Waiting(was.acks) + multiset{r}))
    }

    method AwaitedAction(r: Request, isSticky: bool, published: bool, first: bool, second: bool, stray: Subscription)
      returns (ok: bool)
      requires Valid() && RequestFits(r)
      modifies this`broker, this`book, this`made, this`held, acks, subs
      ensures Awaited(old(Now()), old(HasRoomFor(r.pair)), r, isSticky, published, first && second, ok)
    {
      hide Tracks, Waiting, Pairs, Answered, Marked, InUse, RecordsFit;
      var index := NextFreeAck();
      if index.None? { return false; }
      assert acks[..][index.value].isFree && AnyFree(acks[..]);
      ok := RecordedAction(index.value, r, isSticky, published, first, second, stray);
    }

    /** The case of a free record. */
    method RecordedAction(index: nat, r: Request, isSticky: bool, published: bool, first: bool, second: bool,
                          stray: Subscription)
      returns (ok: bool)
      requires Valid() && RequestFits(r) && index == FirstFreeAck(acks[..]) < acks.Length && AnyFree(acks[..])
      modifies this`broker, this`book, this`made, this`held, acks, subs
      ensures Awaited(old(Now()), old(HasRoomFor(r.pair)), r, isSticky, published, first && second, ok)
    {
      hide Tracks, Waiting, Pairs, Answered, Marked, InUse, RecordsFit, AnyFree;
      ok := Reference(r.pair, isSticky, first, second, stray);
      if !ok { return; }
      Conclude(index, r, published);
      ok := published;
    }

    /** The end of an action that holds its reference: a record waits for the answer, or, when
        publishing failed, nothing does. */
    method Conclude(index: nat, r: Request, published: bool)
      requires index < acks.Length && acks[index].isFree && RequestFits(r) && RecordsFit(acks[..])
      modifies this`made, this`held, acks
      ensures RecordsFit(acks[..])
      ensures Pairs(acks[..]) + held == old(Pairs(acks[..]) + held) + multiset{r.pair}
      ensures if published then
                && Waiting(acks[..]) == old(Waiting(acks[..])) + multiset{r} && made == old(made) + multiset{r}
                && acks[..] == old(acks[..])[index := AckRecord(false, r)] && held == old(held)
              else acks[..] == old(acks[..]) && made == old(made) && held == old(held) + multiset{r.pair}
    {
      hide Waiting, Pairs, RecordsFit;
      if published {
        AddToAckWaitList(index, r);
      } else {
        held := held + multiset{r.pair};
      }
    }

    /** addToAckWaitList */
    method AddToAckWaitList(index: nat, r: Request)
      requires index < acks.Length && acks[index].isFree && RequestFits(r) && RecordsFit(acks[..])
      modifies this`made, acks
      ensures RecordsFit(acks[..])
      ensures acks[..] == old(acks[..])[index := AckRecord(false, r)]
      ensures Waiting(acks[..]) == old(Waiting(acks[..])) + multiset{r} && made == old(made) + multiset{r}
      ensures Pairs(acks[..]) == old(Pairs(acks[..])) + multiset{r.pair}
    {
      SetAck(acks[..], index, AckRecord(false, r));
      acks[index] := AckRecord(false, r);
      made := made + multiset{r};
    }

    // -------------------------------------------------------------------------
    // Answers

    /** The record at `i` has been answered with `status`. */
    ghost predicate Settled(was: Snapshot, i: nat, status: Status)
      requires i < |was.acks|
      reads this, acks, subs
    {
      var r := was.acks[i].request;
      && acks[..] == was.acks[i := was.acks[i].(isFree := true)]
      && answers == was.answers + [Answer(r, status)] && made == was.made
      && Tab() == PairReleased(was.tab, r.pair)
      && book == BookReleased(was.book, r.pair) && held == HeldReleased(was.held, was.book, r.pair)
    }

    /** AckStatusCallback, for a message with the string `text` at its topic: the first waiting
        record with the client token of the payload is answered.  The callback comes before the
        release, and the record is freed last. */
    method AckStatusCallback(text: string, payload: string, client: ShadowBuilder.ShadowClient)
      requires Valid() && client.Valid() && (Contains(text, "accepted") || Contains(text, "rejected"))
      requires var t := client.ExtractedNow(payload); t.Some? ==> |t.value| < MAX_SIZE_CLIENT_TOKEN_CLIENT_SEQUENCE
      modifies this`broker, this`answers, this`book, this`held, acks, subs, client.parser, client.tokens
      ensures Valid() && client.Valid()
      ensures var t := old(client.ExtractedNow(payload));
        var read := |payload| <= SHADOW_MAX_SIZE_OF_RX_BUFFER && t.Some?;
        var i := if read then FirstWaiting(old(acks[..]), t.value) else -1;
        if i < 0 then Now() == old(Now())
        else Settled(old(Now()), i, if StatusOf(text) == ACCEPTED then ACK_ACCEPTED else ACK_REJECTED)
    {
      hide Consistent, FirstWaiting, PairReleased, BookReleased, HeldReleased;
      hide ShadowJson.Extracted, ShadowJson.KeyDangles;
      if |payload| > SHADOW_MAX_SIZE_OF_RX_BUFFER { return; }
      var token := TokenOf(payload, client);
      if token.Some? { AnswerFirst(text, token.value); }
    }

    /** The two parses of a payload: for validity, and for its client token. */
    method TokenOf(payload: string, client: ShadowBuilder.ShadowClient) returns (token: Option<string>)
      requires client.Valid()
      modifies client.parser, client.tokens
      ensures client.Valid() && token == old(client.ExtractedNow(payload))
    {
      var count := client.ParseReceived(payload);
      if count < 0 { return None; }
      token := client.ExtractClientToken(payload);
    }

    /** The loop of AckStatusCallback. */
    method AnswerFirst(text: string, token: string)
      requires Valid() && (Contains(text, "accepted") || Contains(text, "rejected"))
      modifies this`broker, this`answers, this`book, this`held, acks, subs
      ensures Valid()
      ensures var i := FirstWaiting(old(acks[..]), token);
        if i < 0 then Now() == old(Now())
        else Settled(old(Now()), i, if StatusOf(text) == ACCEPTED then ACK_ACCEPTED else ACK_REJECTED)
    {
      hide Tracks, Waiting, Pairs, Answered, PairReleased, BookReleased, HeldReleased;
      for i := 0 to acks.Length
        invariant forall k :: 0 <= k < i ==> acks[k].isFree || acks[k].request.token != token
        invariant acks[..] == old(acks[..]) && Tab() == old(Tab()) && book == old(book) && held == old(held)
        invariant answers == old(answers) && Valid()
      {
        if !acks[i].isFree && acks[i].request.token == token {
          FirstWaitingIs(acks[..], token, i);
          var status := if Contains(text, "accepted") then ACK_ACCEPTED else ACK_REJECTED;
          answers := answers + [Answer(acks[i].request, status)];
          UnsubscribeFromAcceptedAndRejected(i, true, true);
          acks[i] := acks[i].(isFree := true);
          AnsweringKeeps(old(Tab()), book, old(acks[..]), held, made, old(answers), i, status);
          held := HeldReleased(held, book, acks[i].request.pair);
          book := BookReleased(book, acks[i].request.pair);
          return;
        }
      }
      FirstWaitingNone(acks[..], token);
    }

    /** HandleExpiredResponseCallbacks: every expired record is answered by a time-out and freed;
        no other is touched. */
    method HandleExpiredResponseCallbacks(now: nat)
      requires Valid()
      modifies this`broker, this`answers, this`book, this`held, acks, subs
      ensures Valid()
      ensures acks[..] == Swept(old(acks[..]), now) && answers == old(answers) + Timeouts(old(acks[..]), now)
      ensures old(book.sticky) == {} ==> held == old(held) && book.sticky == {}
    {
      hide Consistent, PairReleased, BookReleased, HeldReleased, RecordsFit;
      ghost var was := acks[..];
      for i := 0 to acks.Length
        invariant forall k :: 0 <= k < i ==> acks[k] == Swept(was, now)[k]
        invariant forall k :: i <= k < acks.Length ==> acks[k] == was[k]
        invariant answers == old(answers) + Timeouts(was[..i], now)
        invariant Valid()
        invariant old(book.sticky) == {} ==> held == old(held) && book.sticky == {}
      {
        NextTimeout(was, i, now);
        if !acks[i].isFree && acks[i].request.deadline <= now {
          Expire(i);
        }
      }
      assert was[..acks.Length] == was;
    }

    /** What is done with one expired record: callback, free, release. */
    method Expire(i: nat)
      requires Valid() && i < acks.Length && !acks[i].isFree
      modifies this`broker, this`answers, this`book, this`held, acks, subs
      ensures Valid()
      ensures Settled(old(Now()), i, ACK_TIMEOUT)
      ensures old(book.sticky) == {} ==> held == old(held) && book.sticky == {}
    {
      hide Tracks, Waiting, Pairs, Answered, PairReleased, BookReleased, HeldReleased;
      answers := answers + [Answer(acks[i].request, ACK_TIMEOUT)];
      acks[i] := acks[i].(isFree := true);
      UnsubscribeFromAcceptedAndRejected(i, true, true);
      AnsweringKeeps(old(Tab()), book, old(acks[..]), held, made, old(answers), i, ACK_TIMEOUT);
      ReleaseHolds(held, book, acks[i].request.pair);
      held := HeldReleased(held, book, acks[i].request.pair);
      book := BookReleased(book, acks[i].request.pair);
    }

    lemma SubscribedToWaited()
      requires Valid() && held == multiset{}
      ensures forall t: Topic :: Name(t) in broker <==> WaitsFor(acks[..], t.pair)
    {
      hide Tracks, Waiting, Pairs, Answered, Name, WaitsFor;
      SubscribedWhileWaiting(Tab(), book, acks[..], held, made, answers);
    }

    /** Any run of ordinary calls in which subscribing and unsubscribing succeed: there is always
        room for the pair of a new action, no reference is lost, and the client is subscribed
        exactly to the acknowledgements it waits for. */
    method Run(calls: seq<Call>, client: ShadowBuilder.ShadowClient) returns (ghost moments: seq<Snapshot>)
      requires Valid() && client.Valid() && held == multiset{} && book.sticky == {}
      requires forall c :: c in calls ==> Ordinary(c)
      modifies this, acks, subs, client.parser, client.tokens
      ensures Valid() && client.Valid() && held == multiset{} && book.sticky == {}
      ensures forall t: Topic :: Name(t) in broker <==> WaitsFor(acks[..], t.pair)
      ensures Ran(calls, moments) && moments[0] == old(Now()) && moments[|calls|] == Now()
    {
      hide Valid, Now, Ordinary, Ran, RanTo, Done, Name, WaitsFor;
      ghost var a := Now();
      moments := [a];
      RanNot(calls, a);
      for n := 0 to |calls|
        invariant Valid() && client.Valid() && held == multiset{} && book.sticky == {}
        invariant RanTo(calls[..n], moments, a, Now())
      {
        assert Ordinary(calls[n]);
        ghost var b := Now();
        RunCall(calls[n], client);
        RanOn(calls, n, moments, a, b, Now());
        moments := moments + [Now()];
      }
      RanThrough(calls, moments, a, Now());
      SubscribedToWaited();
    }

    method RunCall(c: Call, client: ShadowBuilder.ShadowClient)
      requires Valid() && client.Valid() && held == multiset{} && book.sticky == {} && Ordinary(c)
      modifies this, acks, subs, client.parser, client.tokens
      ensures Valid() && client.Valid() && held == multiset{} && book.sticky == {}
      ensures Done(c, old(Now()), Now())
    {
      hide Tracks, Waiting, Pairs, Answered, PairReleased, Consistent, ShadowJson.Extracted, ShadowJson.KeyDangles;
      hide FirstWaiting, FirstFreeAck, Swept, Timeouts, StatusOf, Contains, RecordsFit;
      match c
      case Act(p, document, callback, deadline, isSticky, published) =>
        if AnyFree(acks[..]) { AlwaysRoom(p); }
        var stray := Subscription("", 0, true, false);
        var ok := InternalAction(p, document, client, callback, deadline, isSticky, published, true, true, stray);
      case Arrive(text, payload) => AckStatusCallback(text, payload, client);
      case Elapse(now) => HandleExpiredResponseCallbacks(now);
    }
  }
}
