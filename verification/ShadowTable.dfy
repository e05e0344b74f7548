/** The table of acknowledgement subscriptions, as a reference count per action on a thing: what
    it means for the entries to agree with the counts, and that every operation keeps it so. */
module ShadowTable {
  import opened ShadowTopics

  datatype Subscription = Subscription(topic: string, count: nat, isFree: bool, isSticky: bool)

  const COUNT_MOD := 256

  /** What the table stands for: the references held on each pair, which pairs are sticky, and
      where the entry of each topic is. */
  datatype Book = Book(refs: multiset<Pair>, sticky: set<Pair>, slots: map<Topic, nat>)

  /** The entries, and the topics the broker has subscriptions of this client for. */
  datatype Table = Table(subs: seq<Subscription>, broker: set<string>)

  /** The entry counts the references of its topic's pair. */
  predicate Entry(s: Subscription, t: Topic, b: Book) {
    !s.isFree && s.topic == Name(t) && s.count == b.refs[t.pair] && (s.isSticky <==> t.pair in b.sticky)
  }

  /** Every pair with references has one entry for each acknowledgement and is subscribed to
      both; no other entry is in use, and no other topic is subscribed to. */
  ghost predicate Tracks(tb: Table, b: Book) {
    && PairsHaveSlots(b)
    && EntriesCount(tb.subs, b)
    && EntriesOwned(tb.subs, b)
    && BrokerAgrees(tb.broker, b)
  }

  ghost predicate PairsHaveSlots(b: Book) {
    forall t :: t in b.slots <==> t.pair in b.refs
  }

  predicate EntriesCount(subs: seq<Subscription>, b: Book) {
    forall t :: t in b.slots ==> b.slots[t] < |subs| && Entry(subs[b.slots[t]], t, b)
  }

  ghost predicate EntriesOwned(subs: seq<Subscription>, b: Book) {
    forall i :: 0 <= i < |subs| && !subs[i].isFree ==> InUseBy(i, b)
  }

  ghost predicate BrokerAgrees(broker: set<string>, b: Book) {
    forall t: Topic :: Name(t) in broker <==> t in b.slots
  }

  ghost predicate InUseBy(i: nat, b: Book) {
    exists t :: t in b.slots && b.slots[t] == i
  }

  /** findIndexOfSubscriptionList */
  function FirstIndex(subs: seq<Subscription>, topic: string): (r: int)
    ensures -1 <= r < |subs|
    ensures r >= 0 ==> !subs[r].isFree && subs[r].topic == topic
    ensures r < 0 ==> forall i :: 0 <= i < |subs| && !subs[i].isFree ==> subs[i].topic != topic
  {
    if subs == [] then -1
    else if !subs[0].isFree && subs[0].topic == topic then 0
    else
      var rest := FirstIndex(subs[1..], topic);
      assert forall i :: 0 < i < |subs| ==> subs[i] == subs[1..][i - 1];
      if rest < 0 then -1 else rest + 1
  }

  /** The search finds the entry of a topic, and nothing for a topic without one. */
  lemma FindsSlot(tb: Table, b: Book, t: Topic)
    requires Tracks(tb, b)
    ensures FirstIndex(tb.subs, Name(t)) == if t in b.slots then b.slots[t] else -1
  {
    hide Name;
    var r := FirstIndex(tb.subs, Name(t));
    if r >= 0 {
      var u: Topic :| u in b.slots && b.slots[u] == r;
      NameIsInjective(t, u);
    }
  }

  /** Two pairs never share an entry. */
  lemma SlotsDiffer(tb: Table, b: Book, t: Topic, u: Topic)
    requires Tracks(tb, b) && t in b.slots && u in b.slots && t != u
    ensures b.slots[t] != b.slots[u]
  {
    hide Name;
    if b.slots[t] == b.slots[u] { NameIsInjective(t, u); }
  }

  /** isSubscriptionPresent asks for both entries; either would do. */
  lemma PresentIsReferenced(tb: Table, b: Book, p: Pair, k: Ack)
    requires Tracks(tb, b)
    ensures FirstIndex(tb.subs, Name(Topic(p, k))) >= 0 <==> p in b.refs
  {
    FindsSlot(tb, b, Topic(p, k));
  }

  // ---------------------------------------------------------------------------
  // The operations keep the table in step

  /** subscribeToShadowActionAcks, on two free entries. */
  function Subscribed(tb: Table, p: Pair, i: nat, j: nat, isSticky: bool): Table
    requires i < |tb.subs| && j < |tb.subs|
  {
    var accepted, rejected := Name(Topic(p, ACCEPTED)), Name(Topic(p, REJECTED));
    Table(tb.subs[i := Subscription(accepted, 1, false, isSticky)][j := Subscription(rejected, 1, false, isSticky)],
          tb.broker + {accepted, rejected})
  }

  function Marked(sticky: set<Pair>, p: Pair, isSticky: bool): set<Pair> {
    if isSticky then sticky + {p} else sticky - {p}
  }

  lemma TopicOfPair(t: Topic)
    ensures t == Topic(t.pair, ACCEPTED) || t == Topic(t.pair, REJECTED)
  {
    assert t.ack == ACCEPTED || t.ack == REJECTED;
  }

  function BookSubscribed(b: Book, p: Pair, i: nat, j: nat, isSticky: bool): Book {
    Book(b.refs + multiset{p}, Marked(b.sticky, p, isSticky),
         b.slots[Topic(p, ACCEPTED) := i][Topic(p, REJECTED) := j])
  }

  lemma SubscribedTracks(tb: Table, b: Book, p: Pair, i: nat, j: nat, isSticky: bool)
    requires Tracks(tb, b) && p !in b.refs && i < |tb.subs| && j < |tb.subs| && i != j
    requires tb.subs[i].isFree && tb.subs[j].isFree
    ensures Tracks(Subscribed(tb, p, i, j, isSticky), BookSubscribed(b, p, i, j, isSticky))
  {
    hide Name;
    var tb', b' := Subscribed(tb, p, i, j, isSticky), BookSubscribed(b, p, i, j, isSticky);
    assert EntriesCount(tb'.subs, b') by {
      forall t | t in b'.slots
        ensures b'.slots[t] < |tb'.subs| && Entry(tb'.subs[b'.slots[t]], t, b')
      {
        TopicOfPair(t);
      }
    }
    assert PairsHaveSlots(b') by {
      forall t: Topic
        ensures t in b'.slots <==> t.pair in b'.refs
      {
        TopicOfPair(t);
      }
    }
    SubscribedOwned(tb, b, p, i, j, isSticky);
    SubscribedBroker(tb, b, p, i, j, isSticky);
  }

  lemma SubscribedOwned(tb: Table, b: Book, p: Pair, i: nat, j: nat, isSticky: bool)
    requires EntriesOwned(tb.subs, b) && i < |tb.subs| && j < |tb.subs| && i != j
    requires tb.subs[i].isFree && tb.subs[j].isFree && Topic(p, ACCEPTED) !in b.slots && Topic(p, REJECTED) !in b.slots
    ensures EntriesOwned(Subscribed(tb, p, i, j, isSticky).subs, BookSubscribed(b, p, i, j, isSticky))
  {
    hide Name;
    var tb', b' := Subscribed(tb, p, i, j, isSticky), BookSubscribed(b, p, i, j, isSticky);
    forall k | 0 <= k < |tb'.subs| && !tb'.subs[k].isFree
      ensures InUseBy(k, b')
    {
      if k == i {
        assert b'.slots[Topic(p, ACCEPTED)] == k;
      } else if k == j {
        assert b'.slots[Topic(p, REJECTED)] == k;
      } else {
        assert InUseBy(k, b);
        var t :| t in b.slots && b.slots[t] == k;
        assert t in b'.slots && b'.slots[t] == k;
      }
    }
  }

  lemma SubscribedBroker(tb: Table, b: Book, p: Pair, i: nat, j: nat, isSticky: bool)
    requires BrokerAgrees(tb.broker, b) && i < |tb.subs| && j < |tb.subs|
    ensures BrokerAgrees(Subscribed(tb, p, i, j, isSticky).broker, BookSubscribed(b, p, i, j, isSticky))
  {
    hide Name;
    var tb', b' := Subscribed(tb, p, i, j, isSticky), BookSubscribed(b, p, i, j, isSticky);
    forall t: Topic
      ensures Name(t) in tb'.broker <==> t in b'.slots
    {
      if Name(t) == Name(Topic(p, ACCEPTED)) { NameIsInjective(t, Topic(p, ACCEPTED)); }
      if Name(t) == Name(Topic(p, REJECTED)) { NameIsInjective(t, Topic(p, REJECTED)); }
    }
  }

  /** incrementSubscriptionCnt; the count is eight bits wide. */
  function Bump(s: Subscription, p: Pair, isSticky: bool): Subscription {
    if !s.isFree && (s.topic == Name(Topic(p, ACCEPTED)) || s.topic == Name(Topic(p, REJECTED))) then
      s.(count := (s.count + 1) % COUNT_MOD, isSticky := isSticky)
    else s
  }

  function Bumped(subs: seq<Subscription>, p: Pair, isSticky: bool): seq<Subscription> {
    seq(|subs|, i requires 0 <= i < |subs| => Bump(subs[i], p, isSticky))
  }

  lemma BumpedTracks(tb: Table, b: Book, p: Pair, isSticky: bool)
    requires Tracks(tb, b) && p in b.refs && b.refs[p] + 1 < COUNT_MOD
    ensures Tracks(Table(Bumped(tb.subs, p, isSticky), tb.broker),
                   Book(b.refs + multiset{p}, Marked(b.sticky, p, isSticky), b.slots))
  {
    hide Name;
    var b' := Book(b.refs + multiset{p}, Marked(b.sticky, p, isSticky), b.slots);
    var subs' := Bumped(tb.subs, p, isSticky);
    forall t | t in b.slots
      ensures Entry(subs'[b.slots[t]], t, b')
    {
      if Name(t) == Name(Topic(p, ACCEPTED)) { NameIsInjective(t, Topic(p, ACCEPTED)); }
      if Name(t) == Name(Topic(p, REJECTED)) { NameIsInjective(t, Topic(p, REJECTED)); }
      TopicOfPair(t);
    }
    forall i | 0 <= i < |subs'| && !subs'[i].isFree
      ensures InUseBy(i, b')
    {
      assert InUseBy(i, b);
    }
  }

  /** What unsubscribeFromAcceptedAndRejected does to the entry of one topic. */
  function ReleasedEntry(s: Subscription): Subscription {
    if !s.isSticky && s.count == 1 then s.(isFree := true)
    else if s.count > 1 then s.(count := s.count - 1)
    else s
  }

  function Released(tb: Table, topic: string): Table {
    var i := FirstIndex(tb.subs, topic);
    if i < 0 then tb
    else
      Table(tb.subs[i := ReleasedEntry(tb.subs[i])],
            if !tb.subs[i].isSticky && tb.subs[i].count == 1 then tb.broker - {topic} else tb.broker)
  }

  /** The same, when the last reference is released and unsubscribing may fail: then the entry
      stays as it is. */
  function ReleasedIf(tb: Table, topic: string, unsubscribed: bool): Table {
    var i := FirstIndex(tb.subs, topic);
    if i >= 0 && !tb.subs[i].isSticky && tb.subs[i].count == 1 && !unsubscribed then tb else Released(tb, topic)
  }

  /** When unsubscribing fails nothing is unsubscribed from, and the count of the entry goes down by
      one if more references than one are held. */
  lemma FailedRelease(tb: Table, topic: string)
    ensures var r, i := ReleasedIf(tb, topic, false), FirstIndex(tb.subs, topic);
      && r.broker == tb.broker
      && (i < 0 ==> r.subs == tb.subs)
      && (i >= 0 ==>
           var n := tb.subs[i].count; r.subs == tb.subs[i := tb.subs[i].(count := if n > 1 then n - 1 else n)])
  {
    hide FirstIndex;
  }

  function PairReleased(tb: Table, p: Pair): Table {
    Released(Released(tb, Name(Topic(p, ACCEPTED))), Name(Topic(p, REJECTED)))
  }

  /** The references after one is released: the last reference on a sticky pair stays. */
  function BookReleased(b: Book, p: Pair): Book {
    if b.refs[p] == 1 && p in b.sticky then b
    else
      Book(b.refs - multiset{p}, b.sticky,
           if b.refs[p] == 1 then b.slots - {Topic(p, ACCEPTED), Topic(p, REJECTED)} else b.slots)
  }

  /** Both searches find the entries of the pair, and both entries change alike. */
  lemma ReleaseFindsBoth(tb: Table, b: Book, p: Pair)
    requires Tracks(tb, b) && p in b.refs
    ensures var t, u := Topic(p, ACCEPTED), Topic(p, REJECTED);
      && t in b.slots && u in b.slots && b.slots[t] != b.slots[u]
      && var i, j := b.slots[t], b.slots[u];
         PairReleased(tb, p) ==
           Table(tb.subs[i := ReleasedEntry(tb.subs[i])][j := ReleasedEntry(tb.subs[j])],
                 if b.refs[p] == 1 && p !in b.sticky then tb.broker - {Name(t), Name(u)} else tb.broker)
  {
    hide Name;
    var t, u := Topic(p, ACCEPTED), Topic(p, REJECTED);
    SlotsDiffer(tb, b, t, u);
    FindsSlot(tb, b, t);
    FindsSlot(tb, b, u);
    var tb' := Released(tb, Name(t));
    StillFound(tb.subs, b.slots[t], ReleasedEntry(tb.subs[b.slots[t]]), Name(u));
    if b.refs[p] == 1 && p !in b.sticky {
      assert tb.broker - {Name(t)} - {Name(u)} == tb.broker - {Name(t), Name(u)};
    }
  }

  /** Changing another entry, but not its topic, does not change where a topic is found. */
  lemma {:induction false} StillFound(subs: seq<Subscription>, i: nat, s: Subscription, topic: string)
    requires i < |subs| && s.topic == subs[i].topic != topic
    ensures FirstIndex(subs[i := s], topic) == FirstIndex(subs, topic)
    decreases i
  {
    if i > 0 {
      assert subs[i := s][1..] == subs[1..][i - 1 := s];
      StillFound(subs[1..], i - 1, s, topic);
    } else {
      assert subs[i := s][1..] == subs[1..];
    }
  }

  lemma ReleasedTracks(tb: Table, b: Book, p: Pair)
    requires Tracks(tb, b) && p in b.refs
    ensures Tracks(PairReleased(tb, p), BookReleased(b, p))
  {
    hide Name, PairReleased, BookReleased;
    ReleasedSlots(b, p);
    ReleasedCounts(tb, b, p);
    ReleasedOwned(tb, b, p);
    ReleasedBroker(tb, b, p);
  }

  lemma ReleasedSlots(b: Book, p: Pair)
    requires PairsHaveSlots(b) && p in b.refs
    ensures PairsHaveSlots(BookReleased(b, p))
  {
    var b' := BookReleased(b, p);
    forall v: Topic
      ensures v in b'.slots <==> v.pair in b'.refs
    {
      TopicOfPair(v);
    }
  }

  lemma ReleasedCounts(tb: Table, b: Book, p: Pair)
    requires Tracks(tb, b) && p in b.refs
    ensures EntriesCount(PairReleased(tb, p).subs, BookReleased(b, p))
  {
    hide Name;
    ReleaseFindsBoth(tb, b, p);
    var t, u := Topic(p, ACCEPTED), Topic(p, REJECTED);
    var subs', b' := PairReleased(tb, p).subs, BookReleased(b, p);
    hide PairReleased, EntriesOwned, BrokerAgrees, PairsHaveSlots;
    forall v | v in b'.slots
      ensures b'.slots[v] < |subs'| && Entry(subs'[b'.slots[v]], v, b')
    {
      if v != t && v != u {
        SlotsDiffer(tb, b, v, t);
        SlotsDiffer(tb, b, v, u);
        TopicOfPair(v);
      }
    }
  }

  lemma ReleasedOwned(tb: Table, b: Book, p: Pair)
    requires Tracks(tb, b) && p in b.refs
    ensures EntriesOwned(PairReleased(tb, p).subs, BookReleased(b, p))
  {
    hide Name;
    ReleaseFindsBoth(tb, b, p);
    var subs', b' := PairReleased(tb, p).subs, BookReleased(b, p);
    hide PairReleased, BrokerAgrees;
    forall k | 0 <= k < |subs'| && !subs'[k].isFree
      ensures InUseBy(k, b')
    {
      assert InUseBy(k, b);
      var v :| v in b.slots && b.slots[v] == k;
      assert v in b'.slots;
    }
  }

  lemma ReleasedBroker(tb: Table, b: Book, p: Pair)
    requires Tracks(tb, b) && p in b.refs
    ensures BrokerAgrees(PairReleased(tb, p).broker, BookReleased(b, p))
  {
    hide Name;
    ReleaseFindsBoth(tb, b, p);
    var t, u := Topic(p, ACCEPTED), Topic(p, REJECTED);
    var broker', b' := PairReleased(tb, p).broker, BookReleased(b, p);
    hide PairReleased, EntriesOwned, EntriesCount;
    forall v: Topic
      ensures Name(v) in broker' <==> v in b'.slots
    {
      if Name(v) == Name(t) { NameIsInjective(v, t); }
      if Name(v) == Name(u) { NameIsInjective(v, u); }
    }
  }

  // ---------------------------------------------------------------------------
  // Room

  /** The first free entry, or -1. */
  function FirstFree(subs: seq<Subscription>): (r: int)
    ensures -1 <= r < |subs|
    ensures r >= 0 ==> subs[r].isFree && forall i :: 0 <= i < r ==> !subs[i].isFree
    ensures r < 0 ==> forall i :: 0 <= i < |subs| ==> !subs[i].isFree
  {
    if subs == [] then -1
    else if subs[0].isFree then 0
    else
      var rest := FirstFree(subs[1..]);
      assert forall i :: 0 < i < |subs| ==> subs[i] == subs[1..][i - 1];
      if rest < 0 then -1 else rest + 1
  }

  function InUse(subs: seq<Subscription>): set<nat> {
    set i: nat | i < |subs| && !subs[i].isFree
  }

  /** At most two entries are in use for each reference. */
  lemma InUseBound(tb: Table, b: Book)
    requires Tracks(tb, b)
    ensures |InUse(tb.subs)| <= 2 * |b.refs|
  {
    hide Name;
    forall i | i in InUse(tb.subs)
      ensures exists t :: t in b.slots && b.slots[t] == i && t.pair in b.refs
    {
      assert InUseBy(i, b);
    }
    SlotsBound(InUse(tb.subs), b.slots, b.refs);
  }

  lemma {:induction false} SlotsBound(s: set<nat>, slots: map<Topic, nat>, refs: multiset<Pair>)
    requires forall i :: i in s ==> exists t :: t in slots && slots[t] == i && t.pair in refs
    ensures |s| <= 2 * |refs|
    decreases |refs|
  {
    if refs != multiset{} {
      var p :| p in refs;
      var t, u := Topic(p, ACCEPTED), Topic(p, REJECTED);
      var a, r := if t in slots then slots[t] else 0, if u in slots then slots[u] else 0;
      var s', refs' := s - {a, r}, refs[p := 0];
      forall i | i in s'
        ensures exists v :: v in slots && slots[v] == i && v.pair in refs'
      {
        var v :| v in slots && slots[v] == i && v.pair in refs;
        TopicOfPair(v);
        assert v.pair in refs';
      }
      SlotsBound(s', slots, refs');
      assert |s| <= |s' + {a, r}| by { Inside(s, s' + {a, r}); }
      assert |{a, r}| <= 2;
    } else {
      assert s == {};
    }
  }

  lemma {:induction false} Inside(a: set<nat>, b: set<nat>)
    requires a <= b
    ensures |a| <= |b|
    decreases |a|
  {
    if a != {} {
      var x :| x in a;
      Inside(a - {x}, b - {x});
    }
  }

  function Below(n: nat): (s: set<nat>)
    ensures |s| == n && forall i :: i in s <==> 0 <= i < n
  {
    if n == 0 then {} else Below(n - 1) + {n - 1}
  }

  lemma AllInUse(subs: seq<Subscription>)
    requires forall i :: 0 <= i < |subs| ==> !subs[i].isFree
    ensures |InUse(subs)| == |subs|
  {
    assert InUse(subs) == Below(|subs|);
  }

  /** If not all entries are in use, one is free. */
  lemma FreeExists(subs: seq<Subscription>)
    requires |InUse(subs)| < |subs|
    ensures exists i :: 0 <= i < |subs| && subs[i].isFree
  {
    if forall i :: 0 <= i < |subs| ==> !subs[i].isFree { AllInUse(subs); }
  }

  /** With fewer than two free entries, none is left once the first is taken. */
  lemma NoneLeft(subs: seq<Subscription>, i: nat, s: Subscription)
    requires i < |subs| && subs[i].isFree && !s.isFree && |InUse(subs)| + 2 > |subs|
    ensures FirstFree(subs[i := s]) < 0
  {
    var subs' := subs[i := s];
    var r := FirstFree(subs');
    if r >= 0 {
      assert InUse(subs) !! {i, r};
      Inside(InUse(subs) + {i, r}, Below(|subs|));
    }
  }

  lemma TakeOne(subs: seq<Subscription>, i: nat, s: Subscription)
    requires i < |subs| && !s.isFree
    ensures |InUse(subs[i := s])| <= |InUse(subs)| + 1
  {
    Inside(InUse(subs[i := s]), InUse(subs) + {i});
  }
}
