/** How the promises of the client's calls follow from those of their parts, on snapshots: histories, deliveries,
    waiting for a packet, requests and connecting. */
module ClientCalls {
  import opened ReturnCodes
  import opened Wrappers

  import opened ClientSpec
  import opened HandlerTable
  import opened TopicMatch

  // ---------------------------------------------------------------------------
  // Histories

  lemma Stands(h: History)
    ensures Grows(h, h) && Calling(h, []) == h
  {
    assert h.made + [] == h.made;
  }

  lemma GrowsOn(a: History, b: History, c: History)
    requires Grows(a, b) && Grows(b, c)
    ensures Grows(a, c)
  {
  }

  lemma GrowsLog(a: History, b: History)
    requires Grows(a, b)
    ensures a.log <= b.log && a.callbacks <= b.callbacks
  {
  }

  lemma GrowsCalling(a: History, b: History, run: seq<Made>)
    requires Grows(a, b)
    ensures Grows(Calling(a, run), Calling(b, run))
  {
  }

  lemma CallsOn(a: History, first: seq<Made>, b: History, more: seq<Made>, c: History)
    requires Grows(Calling(a, first), b) && Grows(Calling(b, more), c)
    ensures Grows(Calling(a, first + more), c)
  {
    assert a.made + first + more == a.made + (first + more);
  }

  /** A callback records its calls apart. */
  lemma CalledBack(a: History, run: seq<Made>, b: History, e: Callback)
    requires Grows(Calling(a.(made := []), run), b)
    ensures Grows(a, b.(made := a.made, callbacks := b.callbacks + [e]))
  {
  }

  // ---------------------------------------------------------------------------
  // Sequences of calls

  lemma LinkedNext(made: seq<Made>, a: Snapshot, m: Made)
    requires Linked(made, a, m.before) && Fulfils(m.call, m.before, m.after, m.rc)
    ensures Linked(made + [m], a, m.after)
    ensures CallsIn(made + [m]) == CallsIn(made) + [m.call]
  {
    hide Fulfils;
    assert (made + [m])[..|made|] == made;
  }

  lemma NothingFlat(calls: Calls)
    ensures [] + Flatten(calls) == Flatten(calls)
  {
  }

  lemma FlattenStep(before: seq<Api>, rest: Calls, calls: Calls)
    requires rest.Then? && before + Flatten(rest) == Flatten(calls)
    ensures before + [rest.call] + Flatten(rest.rest) == Flatten(calls)
  {
  }

  lemma NothingLeft(made: seq<Api>)
    ensures made + Flatten(Done) == made
  {
  }

  lemma {:induction false} LinkedConcat(first: seq<Made>, more: seq<Made>, a: Snapshot, b: Snapshot, c: Snapshot)
    requires Linked(first, a, b) && Linked(more, b, c)
    ensures Linked(first + more, a, c)
    ensures CallsIn(first + more) == CallsIn(first) + CallsIn(more)
    decreases |more|
  {
    hide Fulfils;
    if more == [] {
      assert first + more == first;
    } else {
      var n := |more| - 1;
      LinkedConcat(first, more[..n], a, b, more[n].before);
      assert (first + more)[..|first| + n] == first + more[..n];
    }
  }

  lemma {:induction false} LinkedEnds(made: seq<Made>, a: Snapshot, b: Snapshot)
    requires Linked(made, a, b)
    ensures b == EndOf(made, a)
  {
  }

  lemma NothingLinked(a: Snapshot)
    ensures Linked([], a, a) && CallsIn([]) == []
  {
  }

  lemma NoCalls(made: seq<Made>)
    requires CallsIn(made) == []
    ensures made == []
  {
  }

  // ---------------------------------------------------------------------------
  // Delivering a message

  lemma NoBodies(bodies: Bodies)
    ensures FirstBodies(bodies, 0) == [] && AfterBodies(bodies, 0) == bodies
  {
  }

  lemma {:induction false} NextBody(bodies: Bodies, n: nat)
    ensures var rest := AfterBodies(bodies, n);
      && FirstBodies(bodies, n + 1) == FirstBodies(bodies, n) + (if rest.Body? then Flatten(rest.calls) else [])
      && AfterBodies(bodies, n + 1) == (if rest.Body? then rest.rest else rest)
    decreases n
  {
    if n > 0 && bodies.Body? { NextBody(bodies.rest, n - 1); }
  }

  lemma FirstBodiesGrow(bodies: Bodies, n: nat)
    ensures |FirstBodies(bodies, n)| <= |FirstBodies(bodies, n + 1)|
  {
    NextBody(bodies, n);
  }

  /** More calls at the end do not matter to it. */
  lemma {:induction false} CalledBefore(topic: string, bodies: Bodies, made: seq<Made>, more: seq<Made>, a: Snapshot,
                                        k: nat)
    requires |made| >= |FirstBodies(bodies, |CalledAt(topic, bodies, made, a, k)|)|
    ensures CalledAt(topic, bodies, made + more, a, k) == CalledAt(topic, bodies, made, a, k)
    decreases k
  {
    hide FirstBodies, IsCalledNow;
    if k > 0 {
      var before := CalledAt(topic, bodies, made, a, k - 1);
      FirstBodiesGrow(bodies, |before|);
      CalledBefore(topic, bodies, made, more, a, k - 1);
      CalledNowBefore(topic, bodies, made, more, a, before, k - 1);
    }
  }

  lemma CalledNowBefore(topic: string, bodies: Bodies, made: seq<Made>, more: seq<Made>, a: Snapshot,
                        before: seq<nat>, k: nat)
    requires |made| >= |FirstBodies(bodies, |before|)|
    ensures IsCalledNow(topic, bodies, made + more, a, before, k) <==> IsCalledNow(topic, bodies, made, a, before, k)
  {
    var m := |FirstBodies(bodies, |before|)|;
    hide FirstBodies, EndOf, IsCalled;
    assert (made + more)[..m] == made[..m];
  }

  /** The next slot. */
  lemma NextCalledAt(topic: string, bodies: Bodies, run: seq<Made>, next: seq<Made>, a: Snapshot, b: Snapshot, k: nat)
    requires var called := CalledAt(topic, bodies, run, a, k); |run| == |FirstBodies(bodies, |called|)|
    requires EndOf(run, a) == b && k < |b.handlers|
    ensures CalledAt(topic, bodies, run + next, a, k + 1) ==
      var called := CalledAt(topic, bodies, run, a, k);
      if IsCalled(b.handlers[k], topic) then called + [k] else called
  {
    hide IsCalled, FirstBodies, EndOf;
    CalledBefore(topic, bodies, run, next, a, k);
    assert (run + next)[..|run|] == run;
  }

  /** Before the first call, the table is as it was. */
  lemma {:induction false} CalledAtFirst(topic: string, bodies: Bodies, made: seq<Made>, a: Snapshot, k: nat)
    requires k <= |a.handlers|
    ensures CalledAt(topic, bodies, made, a, k) == [] <==> Called(a.handlers, topic, k) == []
    ensures made == [] ==> CalledAt(topic, bodies, made, a, k) == Called(a.handlers, topic, k)
    decreases k
  {
    hide *;
    if k > 0 {
      CalledAtFirst(topic, bodies, made, a, k - 1);
      NextCalled(a.handlers, topic, k - 1);
      CalledAtUnfolds(topic, bodies, made, a, k);
    } else {
      NoneCalled(a.handlers, topic);
      NoneCalledAt(topic, bodies, made, a);
    }
  }

  lemma NoneCalledAt(topic: string, bodies: Bodies, made: seq<Made>, a: Snapshot)
    ensures CalledAt(topic, bodies, made, a, 0) == []
  {
  }

  lemma CalledAtUnfolds(topic: string, bodies: Bodies, made: seq<Made>, a: Snapshot, k: nat)
    requires 0 < k <= |a.handlers|
    ensures var before, after := CalledAt(topic, bodies, made, a, k - 1), CalledAt(topic, bodies, made, a, k);
      if before == [] || made == [] then
        after == if IsCalled(a.handlers[k - 1], topic) then before + [k - 1] else before
      else after != []
  {
    var before := CalledAt(topic, bodies, made, a, k - 1);
    if before == [] || made == [] { CalledNowFirst(topic, bodies, made, a, before, k - 1); }
    hide IsCalledNow, IsCalled;
  }

  lemma CalledNowFirst(topic: string, bodies: Bodies, made: seq<Made>, a: Snapshot, before: seq<nat>, k: nat)
    requires before == [] || made == []
    ensures IsCalledNow(topic, bodies, made, a, before, k) <==>
            k < |a.handlers| && IsCalled(a.handlers[k], topic)
  {
    hide IsCalled;
    if before == [] {
      NoBodies(bodies);
      assert made[..0] == [];
    }
  }

  /** The first k slots have had their turn. */
  ghost predicate Delivering(topic: string, bodies: Bodies, a: Snapshot, k: nat, called: seq<nat>, run: seq<Made>,
                             rest: Bodies, b: Snapshot) {
    && CallsIn(run) == FirstBodies(bodies, |called|) && rest == AfterBodies(bodies, |called|)
    && called == CalledAt(topic, bodies, run, a, k)
    && Linked(run, a, b)
  }

  lemma DeliveryBegins(topic: string, bodies: Bodies, a: Snapshot)
    ensures Delivering(topic, bodies, a, 0, [], [], bodies, a)
  {
    NothingLinked(a);
    NoBodies(bodies);
  }

  lemma DeliveryGoesOn(topic: string, bodies: Bodies, a: Snapshot, k: nat, called: seq<nat>, run: seq<Made>,
                       rest: Bodies, b: Snapshot, matched: bool, next: seq<Made>, rest': Bodies, c: Snapshot)
    requires Delivering(topic, bodies, a, k, called, run, rest, b)
    requires k < |b.handlers| && (matched <==> IsCalled(b.handlers[k], topic)) && Linked(next, b, c)
    requires CallsIn(next) == if matched && rest.Body? then Flatten(rest.calls) else []
    requires rest' == if matched && rest.Body? then rest.rest else rest
    ensures var called' := if matched then called + [k] else called;
      Delivering(topic, bodies, a, k + 1, called', run + next, rest', c)
  {
    NextBody(bodies, |called|);
    LinkedEnds(run, a, b);
    LinkedConcat(run, next, a, b, c);
    NextCalledAt(topic, bodies, run, next, a, b, k);
    hide IsCalled, Flatten, FirstBodies, AfterBodies, CalledAt, Linked, EndOf, CallsIn;
    if !matched { NoCalls(next); }
  }

  lemma HowDelivered(topic: string, bodies: Bodies, a: Snapshot, k: nat, called: seq<nat>, run: seq<Made>,
                     rest: Bodies, b: Snapshot)
    requires Delivering(topic, bodies, a, k, called, run, rest, b)
    ensures CallsIn(run) == FirstBodies(bodies, |called|) && called == CalledAt(topic, bodies, run, a, k)
    ensures Linked(run, a, b)
  {
    hide FirstBodies, AfterBodies, CalledAt, Linked, CallsIn;
  }

  lemma NothingCalled(topic: string, bodies: Bodies, a: Snapshot, k: nat, called: seq<nat>, run: seq<Made>,
                      rest: Bodies, b: Snapshot)
    requires Delivering(topic, bodies, a, k, called, run, rest, b) && k == |a.handlers|
    ensures called == [] <==> Called(a.handlers, topic, |a.handlers|) == []
    ensures CallsNothing(bodies) ==> run == [] && called == Called(a.handlers, topic, |a.handlers|)
  {
    CalledAtFirst(topic, bodies, run, a, k);
    if CallsNothing(bodies) {
      NoCallsInBodies(bodies, |called|);
      NoCalls(run);
    }
  }

  lemma {:induction false} NoCallsInBodies(bodies: Bodies, n: nat)
    requires CallsNothing(bodies)
    ensures FirstBodies(bodies, n) == []
    decreases n
  {
    if n > 0 && bodies.Body? { NoCallsInBodies(bodies.rest, n - 1); }
  }

  lemma DeliveryEnds(topic: string, bodies: Bodies, called: seq<nat>, run: seq<Made>, a: Snapshot, b: Snapshot,
                     c: Snapshot)
    requires var waiting := a.(state := WAIT_FOR_CB_RETURN);
      && CallsIn(run) == FirstBodies(bodies, |called|)
      && called == CalledAt(topic, bodies, run, waiting, |a.handlers|)
      && Linked(run, waiting, b)
    requires c == if b.state == WAIT_FOR_CB_RETURN then b.(state := a.state) else b
    ensures Delivered(OnMessage(topic, bodies, called, run), topic, bodies, a, c)
    ensures Returned(OnMessage(topic, bodies, called, run)) <==> b.state == WAIT_FOR_CB_RETURN
  {
    LinkedEnds(run, a.(state := WAIT_FOR_CB_RETURN), b);
    hide Linked, CallsIn, FirstBodies, CalledAt;
  }

  // ---------------------------------------------------------------------------
  // Waiting for a packet

  lemma WaitedNone(a: Snapshot)
    ensures Waited(a, a)
  {
  }

  /** Waiting for a packet, begun in state a, with `rest` still to arrive: once no callback calls the API,
      the packet has arrived, or arrives in time if it does so from here. */
  predicate Waiting(awaited: Packet, feed: Feed, timer: nat, a: Snapshot, rest: Feed, arrived: bool, b: Snapshot) {
    && (arrived || Answers(rest, awaited) ==> Answers(feed, awaited))
    && (Calm(feed) ==>
         && Calm(rest) && Waited(a, b)
         && (InTime(feed, awaited, timer - a.now) <==> arrived || InTime(rest, awaited, timer - b.now)))
  }

  lemma WaitBegins(awaited: Packet, feed: Feed, timer: nat, a: Snapshot)
    ensures Waiting(awaited, feed, timer, a, feed, false, a)
  {
  }

  lemma WaitGoesOn(awaited: Packet, feed: Feed, timer: nat, a: Snapshot, rest: Feed, b: Snapshot,
                   packet: Option<Packet>, c: Snapshot)
    requires Waiting(awaited, feed, timer, a, rest, false, b) && rest.Arrives? && b.now < timer && awaited != PUBLISH
    requires Undisturbed(rest.first) ==> c == Heard(rest.first, b)
    requires Typed(rest.first, packet)
    ensures Waiting(awaited, feed, timer, a, rest.rest, packet == Some(awaited), c)
  {
    FeedUnfolds(rest, awaited, timer - b.now);
    hide Calm, InTime, Answers, Undisturbed;
  }

  lemma ReplyCode(i: Incoming)
    requires i.Reply? && i.packet != OTHER
    ensures Undisturbed(i) && CodeOf(i) == SUCCESS
  {
  }

  lemma WaitFails(awaited: Packet, feed: Feed, timer: nat, a: Snapshot, rest: Feed, b: Snapshot, c: Snapshot)
    requires Waiting(awaited, feed, timer, a, rest, false, b)
    requires if rest.Quiet? && b.now < timer then c == b.(now := timer) else c == b && b.now >= timer
    ensures WaitDone(awaited, feed, timer, a, c, MQTT_REQUEST_TIMEOUT_ERROR)
  {
    FeedEnds(rest, awaited, timer - b.now);
    hide Calm, InTime, Answers;
  }

  lemma WaitSucceeds(awaited: Packet, feed: Feed, timer: nat, a: Snapshot, rest: Feed, b: Snapshot)
    requires Waiting(awaited, feed, timer, a, rest, true, b)
    ensures WaitDone(awaited, feed, timer, a, b, SUCCESS)
  {
    hide Calm, InTime, Answers;
  }

  lemma WaitKeeps(awaited: Packet, feed: Feed, timer: nat, a: Snapshot, b: Snapshot, rc: Rc)
    requires WaitDone(awaited, feed, timer, a, b, rc)
    ensures Calm(feed) ==> b.state == a.state
    ensures rc == SUCCESS || rc == MQTT_REQUEST_TIMEOUT_ERROR
  {
    hide Calm, InTime, Answers;
  }

  lemma FeedUnfolds(feed: Feed, awaited: Packet, left: int)
    requires feed.Arrives? && left > 0
    ensures Calm(feed) <==> Undisturbed(feed.first) && Calm(feed.rest)
    ensures var answered := feed.first.Reply? && feed.first.packet == awaited;
      && (Answers(feed, awaited) <==> answered || Answers(feed.rest, awaited))
      && (InTime(feed, awaited, left) <==> answered || InTime(feed.rest, awaited, left - feed.first.dt))
  {
  }

  lemma FeedEnds(feed: Feed, awaited: Packet, left: int)
    requires feed.Quiet? || left <= 0
    ensures !InTime(feed, awaited, left)
  {
  }

  // ---------------------------------------------------------------------------
  // Requests

  lemma IsRestored(busy: ClientState, entry: ClientState, a: Snapshot, left: Rc, cas: Rc, next: ClientState, rc: Rc)
    requires if a.state == busy then cas == SUCCESS && next == entry
             else cas == MQTT_UNEXPECTED_CLIENT_STATE_ERROR && next == a.state
    requires rc == if left == SUCCESS && cas != SUCCESS then cas else left
    ensures Restored(busy, entry, a, left, a.(state := next), rc)
  {
  }

  lemma PublishedOnce(x: Exchange, a: Snapshot, rc: Rc)
    requires rc == if x.sent then SUCCESS else FAILURE
    ensures PublishHeld(false, x, a, a, rc)
  {
  }

  lemma PublishEnds(x: Exchange, a: Snapshot, b: Snapshot, rc: Rc)
    requires RequestDone(x, PUBACK, a.(nextPacketId := NextId(a.nextPacketId)), b, rc)
    ensures PublishHeld(true, x, a, b, rc)
  {
    hide Served, Outcome, Calm;
  }

  lemma PublishRestored(qos1: bool, x: Exchange, a: Snapshot, b: Snapshot, left: Rc, c: Snapshot, rc: Rc)
    requires PublishHeld(qos1, x, a.(state := PUBLISH_IN_PROGRESS), b, left)
    requires Restored(PUBLISH_IN_PROGRESS, a.state, b, left, c, rc)
    ensures PublishHeld(qos1, x, a, c, rc) && (rc == SUCCESS ==> c.state == a.state)
  {
    hide Served, Outcome, Calm;
    if b.state == PUBLISH_IN_PROGRESS {
      assert c == b.(state := a.state) && rc == left;
    } else {
      assert c == b;
    }
  }

  lemma NoSlotFree(filter: string, x: Exchange, a: Snapshot, b: Snapshot)
    requires FirstFree(a.handlers) == |a.handlers| && b == a.(nextPacketId := NextId(a.nextPacketId))
    ensures SubscribeHeld(filter, x, a, b, MQTT_MAX_SUBSCRIPTIONS_REACHED_ERROR)
  {
    hide Served, Outcome, Calm, FirstFree;
  }

  lemma SubscribeEnds(filter: string, x: Exchange, a: Snapshot, b: Snapshot, c: Snapshot, rc: Rc)
    requires RequestDone(x, SUBACK, a.(nextPacketId := NextId(a.nextPacketId)), b, rc)
    requires var i := FirstFree(a.handlers);
      && i < |a.handlers| == |b.handlers|
      && c == if rc == SUCCESS then
                b.(handlers := b.handlers[i := Registered(filter, true)], acked := b.acked + {filter})
              else b
    ensures SubscribeHeld(filter, x, a, c, rc)
  {
    hide Served, Outcome, Calm, FirstFree;
  }

  lemma SubscribeRestored(filter: string, x: Exchange, a: Snapshot, b: Snapshot, left: Rc, c: Snapshot, rc: Rc)
    requires SubscribeHeld(filter, x, a.(state := SUBSCRIBE_IN_PROGRESS), b, left)
    requires Restored(SUBSCRIBE_IN_PROGRESS, a.state, b, left, c, rc)
    ensures SubscribeHeld(filter, x, a, c, rc) && (rc == SUCCESS ==> c.state == a.state)
  {
    hide Served, Outcome, Calm, FirstFree;
    if b.state == SUBSCRIBE_IN_PROGRESS {
      assert c == b.(state := a.state) && rc == left;
    } else {
      assert c == b;
    }
  }

  lemma NotSubscribed(filter: string, x: Exchange, a: Snapshot)
    requires filter !in Filters(a.handlers)
    ensures UnsubscribeHeld(filter, x, a, a, FAILURE)
  {
    hide Filters;
  }

  lemma UnsubscribeEnds(filter: string, x: Exchange, a: Snapshot, b: Snapshot, c: Snapshot, rc: Rc)
    requires RequestDone(x, UNSUBACK, a.(nextPacketId := NextId(a.nextPacketId)), b, rc)
    requires filter in Filters(a.handlers)
    requires c == if rc == SUCCESS then b.(handlers := Cleared(b.handlers, filter), acked := b.acked - {filter}) else b
    ensures UnsubscribeHeld(filter, x, a, c, rc)
  {
    hide Served, Outcome, Calm, Filters, Cleared;
    ClearLeavesHole(b.handlers, filter);
  }

  lemma UnsubscribeRestored(filter: string, x: Exchange, a: Snapshot, b: Snapshot, left: Rc, c: Snapshot, rc: Rc)
    requires UnsubscribeHeld(filter, x, a.(state := UNSUBSCRIBE_IN_PROGRESS), b, left)
    requires Restored(UNSUBSCRIBE_IN_PROGRESS, a.state, b, left, c, rc)
    ensures UnsubscribeHeld(filter, x, a, c, rc) && (rc == SUCCESS ==> c.state == a.state)
  {
    hide Served, Outcome, Calm, Filters, Cleared;
    if b.state == UNSUBSCRIBE_IN_PROGRESS {
      assert c == b.(state := a.state) && rc == left;
    } else {
      assert c == b;
    }
  }

  /** A resubscription that has come as far as slot itr, with `left` still to come. */
  predicate Renewing(rounds: Rounds, a: Snapshot, itr: nat, left: nat, rest: Rounds, rc: Rc, b: Snapshot)
    requires itr <= |a.handlers|
  {
    && (rc == SUCCESS && AllServed(rest, left) ==> AllServed(rounds, itr + left))
    && (CalmRounds(rounds) ==>
         && CalmRounds(rest) && Resubscribing(a, b)
         && RoundsOutcome(rounds, itr + left, a.commandTimeout) ==
            (if rc != SUCCESS then rc else RoundsOutcome(rest, left, a.commandTimeout))
         && (rc == SUCCESS ==>
              b.acked == WithFirst(a.acked, a.handlers, itr) && b.nextPacketId == IdAfter(a.nextPacketId, itr)))
  }

  lemma RenewBegins(rounds: Rounds, a: Snapshot, left: nat)
    ensures Renewing(rounds, a, 0, left, rounds, SUCCESS, a)
  {
    FirstAndLast(a.acked, a.handlers);
    hide WithFirst, RoundsOutcome, AllServed, CalmRounds;
  }

  lemma RenewGoesOn(rounds: Rounds, a: Snapshot, itr: nat, left: nat, rest: Rounds, b: Snapshot, rest': Rounds,
                    c: Snapshot, rc: Rc)
    requires itr < |a.handlers| && left > 0 && itr < |b.handlers|
    requires Renewing(rounds, a, itr, left, rest, SUCCESS, b)
    requires RenewDone(b.handlers[itr], left, rest, rest', b, c, rc)
    requires a.handlers[itr].Registered?
    ensures Renewing(rounds, a, itr + 1, left - 1, rest', rc, c)
  {
    AddFilter(a.acked, a.handlers, itr);
    assert itr + 1 + (left - 1) == itr + left;
    hide WithFirst, RoundsOutcome, AllServed, CalmRounds;
  }

  lemma RenewEnds(rounds: Rounds, a: Snapshot, itr: nat, left: nat, rest: Rounds, rc: Rc, b: Snapshot)
    requires itr <= |a.handlers| && itr + left == FirstFree(a.handlers) && !IsSignal(rc)
    requires Renewing(rounds, a, itr, left, rest, rc, b) && (rc == SUCCESS ==> left == 0)
    ensures ResubscribeHeld(rounds, a, b, rc)
  {
    FirstAndLast(a.acked, a.handlers);
    assert AllServed(rest, 0) && RoundsOutcome(rest, 0, a.commandTimeout) == SUCCESS;
    hide WithFirst, RoundsOutcome, AllServed, CalmRounds, FirstFree, Renewed;
  }

  lemma RoundsUnfold(rounds: Rounds, n: nat, timeout: nat)
    requires n > 0
    ensures CalmRounds(rounds) ==> rounds.Round? ==> Calm(rounds.first.feed) && CalmRounds(rounds.rest)
    ensures AllServed(rounds, n) <==> rounds.Round? && Served(rounds.first, SUBACK) && AllServed(rounds.rest, n - 1)
    ensures RoundsOutcome(rounds, n, timeout) ==
      if rounds.NoRound? then FAILURE
      else
        var rc := Outcome(rounds.first, SUBACK, timeout);
        if rc != SUCCESS then rc else RoundsOutcome(rounds.rest, n - 1, timeout)
  {
  }

  lemma NoneLeft(slot: Slot, n: nat, rounds: Rounds, a: Snapshot, b: Snapshot)
    requires n > 0 && rounds.NoRound? && b == a.(nextPacketId := NextId(a.nextPacketId))
    ensures RenewDone(slot, n, rounds, rounds, a, b, FAILURE)
  {
    RoundsUnfold(rounds, n, a.commandTimeout);
    hide RoundsOutcome, AllServed;
  }

  lemma OneRenewed(slot: Slot, n: nat, rounds: Rounds, a: Snapshot, b: Snapshot, c: Snapshot, rc: Rc)
    requires n > 0 && rounds.Round?
    requires RequestDone(rounds.first, SUBACK, a.(nextPacketId := NextId(a.nextPacketId)), b, rc)
    requires c == if rc == SUCCESS && slot.Registered? then b.(acked := b.acked + {slot.filter}) else b
    ensures RenewDone(slot, n, rounds, rounds.rest, a, c, rc)
  {
    RoundsUnfold(rounds, n, a.commandTimeout);
    hide RoundsOutcome, AllServed, CalmRounds, Calm, Outcome, Served;
  }

  lemma ResubscribeRestored(rounds: Rounds, a: Snapshot, b: Snapshot, left: Rc, c: Snapshot, rc: Rc)
    requires a.state == CONNECTED_IDLE && ResubscribeHeld(rounds, a.(state := RESUBSCRIBE_IN_PROGRESS), b, left)
    requires b.state == RESUBSCRIBE_IN_PROGRESS || Settled(b.state)
    requires Restored(RESUBSCRIBE_IN_PROGRESS, CONNECTED_IDLE, b, left, c, rc)
    ensures ResubscribeDone(rounds, a, c, rc)
  {
    hide AllServed, RoundsOutcome, CalmRounds, FirstFree, Renewed, IdAfter;
    if b.state == RESUBSCRIBE_IN_PROGRESS {
      assert c == b.(state := a.state) && rc == left;
    } else {
      assert c == b;
    }
  }

  // ---------------------------------------------------------------------------
  // Connecting

  /** The connect fails before it waits. */
  lemma ConnectStops(keepAlive: Option<nat>, h: Handshake, a: Snapshot, b: Snapshot, rc: Rc)
    requires Begun(keepAlive, h, a, b) && (!h.tls || !h.exchange.sent)
    requires rc == if !h.tls then TLS_CONNECT_ERROR else FAILURE
    ensures ConnectHeld(keepAlive, h, a, b, rc)
  {
    hide Calm, InTime, SessionOpen;
  }

  /** The code of a connect that has been sent. */
  function AfterWait(h: Handshake, waited: Rc): Rc {
    if waited != SUCCESS then waited
    else if !h.exchange.replyValid then FAILURE
    else if !h.accepted then MQTT_CONNACK_ERROR
    else SUCCESS
  }

  lemma ConnectEnds(keepAlive: Option<nat>, h: Handshake, a: Snapshot, b: Snapshot, waited: Rc, c: Snapshot,
                    d: Snapshot)
    requires Begun(keepAlive, h, a, b) && h.tls && h.exchange.sent
    requires WaitDone(CONNACK, h.exchange.feed, a.now + a.commandTimeout, b, c, waited)
    requires if AfterWait(h, waited) != SUCCESS then d == c
             else
               && SessionOpen(d)
               && d == c.(isPingOutstanding := false, pingTimer := d.pingTimer, armed := d.armed, log := d.log,
                          acked := {})
    ensures ConnectHeld(keepAlive, h, a, d, AfterWait(h, waited))
  {
    hide Calm, InTime, SessionOpen, Answers;
  }

  /** Changes of state at both ends do not matter to it. */
  lemma ConnectedBetween(keepAlive: Option<nat>, h: Handshake, a: Snapshot, a': Snapshot, b': Snapshot, b: Snapshot,
                         rc: Rc)
    requires ConnectHeld(keepAlive, h, a', b', rc)
    requires a' == a.(state := a'.state) && b == b'.(state := b.state)
    ensures ConnectHeld(keepAlive, h, a, b, rc)
  {
    hide Calm, ConnectOutcome;
  }
}
