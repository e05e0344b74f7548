/** The same for reconnecting and for the loop of yield. */
module ClientTurns {
  import opened ReturnCodes
  import opened Wrappers

  import opened ClientSpec
  import opened HandlerTable

  // ---------------------------------------------------------------------------
  // Reconnecting

  lemma ReconnectRefused(r: Recovery, a: Snapshot)
    requires IsConnected(a.state)
    ensures ReconnectDone(r, a, a, NETWORK_ALREADY_CONNECTED_ERROR)
  {
  }

  lemma ReconnectFails(r: Recovery, a: Snapshot, b: Snapshot, connected: Rc, c: Snapshot)
    requires !IsConnected(a.state) && ConnectDone(None, r.handshake, a, b, connected) && b.state != CONNECTED_IDLE
    requires c == b.(state := if b.state == DISCONNECTED_ERROR then PENDING_RECONNECT else b.state)
    ensures ReconnectDone(r, a, c, NETWORK_ATTEMPTING_RECONNECT)
  {
    hide Calm, CalmRounds, Served, AllServed, Outcome, RoundsOutcome, FirstFree, Renewed, SessionOpen, ConnectOutcome;
  }

  lemma ReconnectEnds(r: Recovery, a: Snapshot, b: Snapshot, connected: Rc, c: Snapshot, rc: Rc)
    requires !IsConnected(a.state) && ConnectDone(None, r.handshake, a, b, connected) && b.state == CONNECTED_IDLE
    requires ResubscribeDone(r.rounds, b, c, rc)
    ensures ReconnectDone(r, a, c, if rc == SUCCESS then NETWORK_RECONNECTED else rc)
  {
    hide Calm, CalmRounds, Served, AllServed, Outcome, RoundsOutcome, FirstFree, Renewed, ConnectOutcome, IdAfter;
    assert {} + Renewed(b.handlers) == Renewed(b.handlers);
  }

  lemma AttemptedFrom(a: Snapshot, b: Snapshot, recovery: Recovery, rc: Rc)
    requires a.state == PENDING_RECONNECT && ReconnectDone(recovery, a, b, rc)
    ensures Settled(b.state) && rc != NETWORK_DISCONNECTED_ERROR
    ensures rc == NETWORK_RECONNECTED ==> b.state == CONNECTED_IDLE
  {
    hide HandshakeHeld, RecoveryHeld;
  }

  lemma NotAttempted(a: Snapshot, recovery: Recovery)
    ensures AttemptDone(a, a, recovery, false, NETWORK_PHYSICAL_LAYER_DISCONNECTED)
  {
  }

  lemma AttemptEnds(a: Snapshot, c: Snapshot, recovery: Recovery, rc: Rc)
    requires ReconnectDone(recovery, a, c, rc)
    ensures AttemptDone(a, Attempted(a, c, rc), recovery, true, rc)
  {
    hide ReconnectDone, Attempted;
  }

  /** The failed attempt has left the back-off as it was when its delay ran out, or it is disturbed. */
  lemma ReadyToRetry(a: Snapshot, b: Snapshot, recovery: Recovery, linkUp: bool, rc: Rc)
    requires AttemptDone(a, b, recovery, linkUp, rc) && rc != NETWORK_RECONNECTED
    ensures !b.disturbed ==> b.reconnectWait == a.reconnectWait && b.reconnectTimer == a.reconnectTimer
  {
    hide ReconnectDone;
  }

  lemma RetryFails(a: Snapshot, b: Snapshot, recovery: Recovery, linkUp: bool, tried: Rc, c: Snapshot, rc: Rc)
    requires AttemptDone(a, b, recovery, linkUp, tried) && tried != NETWORK_RECONNECTED
    requires Redoubled(b, c, tried, rc)
    ensures RetryDone(a, c, recovery, linkUp, rc)
  {
    hide AttemptDone, Redoubled;
  }

  /** What an attempt comes to when no callback calls the API. */
  lemma ReconnectComesTo(r: Recovery, a: Snapshot, b: Snapshot, rc: Rc)
    requires ReconnectDone(r, a, b, rc) && CalmRecovery(r) && a.state == PENDING_RECONNECT
    ensures b.handlers == a.handlers && b.optionKeepAlive == a.optionKeepAlive && b.maxWait == a.maxWait
    ensures SameBackOff(a, b)
    ensures rc == NETWORK_RECONNECTED <==> Recovers(r, FirstFree(a.handlers), a.commandTimeout)
    ensures rc == NETWORK_RECONNECTED ==> b.acked == Renewed(a.handlers) && b.keepAliveInterval == a.optionKeepAlive
  {
    hide CalmRounds, Calm, Outcome, FirstFree, Renewed, AllServed;
    RoundsSignal(r.rounds, FirstFree(a.handlers), a.commandTimeout);
    hide RoundsOutcome;
  }

  lemma {:induction false} RoundsSignal(rounds: Rounds, n: nat, timeout: nat)
    ensures !IsSignal(RoundsOutcome(rounds, n, timeout))
    decreases n
  {
    if n > 0 && rounds.Round? { RoundsSignal(rounds.rest, n - 1, timeout); }
  }

  lemma AttemptComesTo(a: Snapshot, b: Snapshot, recovery: Recovery, linkUp: bool, rc: Rc)
    requires AttemptDone(a, b, recovery, linkUp, rc) && CalmRecovery(recovery) && a.state == PENDING_RECONNECT
    ensures b.handlers == a.handlers && b.optionKeepAlive == a.optionKeepAlive && b.maxWait == a.maxWait
    ensures rc == NETWORK_RECONNECTED <==> linkUp && Recovers(recovery, FirstFree(a.handlers), a.commandTimeout)
    ensures if rc == NETWORK_RECONNECTED then
        b.state == YIELD_IN_PROGRESS && b.acked == Renewed(a.handlers) && b.keepAliveInterval == a.optionKeepAlive
      else b.reconnectWait == a.reconnectWait
  {
    hide CalmRecovery, Recovers, ReconnectDone, FirstFree, Renewed;
    if linkUp {
      var c :| ReconnectDone(recovery, a, c, rc) && b == Attempted(a, c, rc);
      ReconnectComesTo(recovery, a, c, rc);
    }
  }

  lemma SmallDouble(wait: nat)
    ensures wait * 2 % 0x1_0000_0000 == Doubled(wait)
    ensures wait < 0x8000_0000 ==> Doubled(wait) == 2 * wait
  {
  }

  /** What a retry comes to when no callback calls the API: it reconnects if and only if the link is up
      and everything succeeds in time, and then the interval of the options is in force and the server
      knows the filters of the slots before the first unused one; otherwise the interval has
      doubled, and the next delay is armed unless it exceeds the maximum. */
  lemma RetryComesTo(a: Snapshot, b: Snapshot, recovery: Recovery, linkUp: bool, rc: Rc)
    requires RetryDone(a, b, recovery, linkUp, rc) && CalmRecovery(recovery) && a.state == PENDING_RECONNECT
    requires a.reconnectWait <= a.maxWait && 2 * a.maxWait < 0x1_0000_0000
    ensures b.handlers == a.handlers && b.optionKeepAlive == a.optionKeepAlive
    ensures rc == NETWORK_RECONNECTED <==> linkUp && Recovers(recovery, FirstFree(a.handlers), a.commandTimeout)
    ensures if rc == NETWORK_RECONNECTED then
        b.state == YIELD_IN_PROGRESS && b.acked == Renewed(a.handlers) && b.keepAliveInterval == a.optionKeepAlive
      else
        && b.reconnectWait == 2 * a.reconnectWait
        && if b.reconnectWait > a.maxWait then rc == NETWORK_RECONNECT_TIMED_OUT_ERROR
           else b.reconnectTimer == b.now + b.reconnectWait
  {
    hide CalmRecovery, Recovers, AttemptDone, FirstFree, Renewed, Doubled;
    SmallDouble(a.reconnectWait);
    if rc == NETWORK_RECONNECTED && AttemptDone(a, b, recovery, linkUp, rc) {
      AttemptComesTo(a, b, recovery, linkUp, rc);
    } else {
      var c, tried :| tried != NETWORK_RECONNECTED && AttemptDone(a, c, recovery, linkUp, tried) &&
        Redoubled(c, b, tried, rc);
      AttemptComesTo(a, c, recovery, linkUp, tried);
    }
  }

  // ---------------------------------------------------------------------------
  // Iterations of yield

  lemma CheckedPing(a: Snapshot, b: Snapshot, sent: bool, t: Teardown, rc: Rc)
    requires PingChecked(a, b, sent, t, rc)
    ensures rc == SUCCESS || rc == NETWORK_DISCONNECTED_ERROR
    ensures if rc == SUCCESS then b.state == a.state else b.state == DISCONNECTED_ERROR
  {
    hide KeepAliveStep;
  }

  /** After keep-alive, or a terminal error, or another: the connection is given up, or left as it is. */
  lemma TurnFinished(read: Rc, sent: bool, t: Teardown, a: Snapshot, b: Snapshot, checked: Rc, c: Snapshot, rc: Rc,
                     done: bool)
    requires !IsSignal(read)
    requires if read == SUCCESS then PingChecked(a, b, sent, t, checked)
             else if IsTerminal(read) then
               && checked == NETWORK_DISCONNECTED_ERROR && b.state == DISCONNECTED_ERROR
               && (t.handler.Done? ==> b == a.(state := DISCONNECTED_ERROR))
             else checked == read && b == a
    requires if checked == NETWORK_DISCONNECTED_ERROR then IsLost(c, rc, done) && c == GivenUp(b)
             else c == b && rc == checked && done == (rc != SUCCESS)
    ensures FinishDone(read, sent, t, a, c, rc, done)
    ensures rc == NETWORK_DISCONNECTED_ERROR ==> c.state == DISCONNECTED_ERROR
    ensures rc == NETWORK_ATTEMPTING_RECONNECT ==> c.state == PENDING_RECONNECT
    ensures rc != NETWORK_RECONNECTED
    ensures c.state == a.state || c.state == DISCONNECTED_ERROR || c.state == PENDING_RECONNECT
  {
    hide KeepAliveStep, Missed;
  }

  /** An iteration while a reconnect is pending. */
  lemma TurnPends(turn: Turn, a: Snapshot, b: Snapshot, rc: Rc, done: bool)
    requires a.state == PENDING_RECONNECT
    requires var later := a.(now := a.now + turn.dt);
      if a.reconnectWait > a.maxWait then rc == NETWORK_RECONNECT_TIMED_OUT_ERROR && done && b == later
      else if later.now < a.reconnectTimer then rc == NETWORK_ATTEMPTING_RECONNECT && !done && b == later
      else !done && RetryDone(later, b, turn.recovery, turn.linkUp, rc)
    ensures TurnDone(turn, a, b, rc, done)
  {
    hide RetryDone;
  }

  lemma TurnRetries(turn: Turn, a: Snapshot, b: Snapshot, rc: Rc, done: bool)
    requires TurnDone(turn, a, b, rc, done) && a.state == PENDING_RECONNECT && a.reconnectWait <= a.maxWait
    ensures if a.now + turn.dt < a.reconnectTimer then
        rc == NETWORK_ATTEMPTING_RECONNECT && !done && b == a.(now := a.now + turn.dt)
      else !done && RetryDone(a.(now := a.now + turn.dt), b, turn.recovery, turn.linkUp, rc)
  {
    hide RetryDone;
  }

  lemma ReadEarlier(a: Snapshot, b: Snapshot, turn: Turn, rc: Rc, done: bool)
    requires a.state != PENDING_RECONNECT
    requires ReadTurnDone(turn.(dt := 0), a.(now := a.now + turn.dt), b, rc, done)
    ensures TurnDone(turn, a, b, rc, done)
  {
    hide Undisturbed, Heard, CodeOf, FinishDone;
    assert a.(now := a.now + turn.dt + 0) == a.(now := a.now + turn.dt);
  }

  /** Reading, and what follows it. */
  lemma ReadFinished(turn: Turn, a: Snapshot, b: Snapshot, read: Rc, c: Snapshot, rc: Rc, done: bool)
    requires FinishDone(read, turn.pingSent, turn.teardown, b, c, rc, done) && rc != NETWORK_RECONNECTED
    requires Undisturbed(turn.read) ==> b == Heard(turn.read, a) && read == CodeOf(turn.read)
    ensures ReadTurnDone(turn.(dt := 0), a, c, rc, done)
  {
    hide FinishDone, CodeOf, Undisturbed;
    assert a.(now := a.now + 0) == a;
  }

  // ---------------------------------------------------------------------------
  // The loop

  /** How the last iteration so far has ended. */
  predicate LastRan(ran: seq<Ran>, b: Snapshot, rc: Rc, done: bool) {
    ran != [] && ran[|ran| - 1].after == b && ran[|ran| - 1].rc == rc && ran[|ran| - 1].done == done
  }

  lemma FirstRun(timer: nat, turns: Turns, a: Snapshot, b: Snapshot, rc: Rc, done: bool)
    requires TurnDone(turns.turn, a, b, rc, done)
    ensures var ran := [Ran(turns.turn, a, b, rc, done)];
      Ongoing(timer, turns, a, ran, turns) && LastRan(ran, b, rc, done)
  {
    hide TurnDone;
  }

  lemma NextRun(timer: nat, turns: Turns, a: Snapshot, ran: seq<Ran>, rest: Turns, b: Snapshot, rc: Rc, c: Snapshot,
                rc': Rc, done: bool)
    requires Ongoing(timer, turns, a, ran, rest) && LastRan(ran, b, rc, false) && b.now < timer && rest.NextTurn?
    requires TurnDone(rest.rest.turn, b, c, rc', done)
    ensures var ran' := ran + [Ran(rest.rest.turn, b, c, rc', done)];
      Ongoing(timer, turns, a, ran', rest.rest) && LastRan(ran', c, rc', done)
  {
    hide TurnDone, TurnList;
    TurnAfter(turns, |ran|, rest.turn, rest.rest);
  }

  lemma TurnAfter(turns: Turns, n: nat, t: Turn, rest: Turns)
    requires 0 < n <= |TurnList(turns)| && TurnList(turns)[n - 1..] == TurnList(NextTurn(t, rest))
    ensures n < |TurnList(turns)| && TurnList(turns)[n..] == TurnList(rest) && TurnList(turns)[n] == rest.turn
  {
    var list := TurnList(turns);
    assert list[n - 1..] == [t] + TurnList(rest);
    assert list[n - 1..][1..] == list[n..] == TurnList(rest);
    assert list[n] == list[n..][0] == rest.turn;
  }

  lemma LoopEnds(timer: nat, turns: Turns, a: Snapshot, ran: seq<Ran>, rest: Turns, b: Snapshot, rc: Rc, done: bool,
                 c: Snapshot)
    requires Ongoing(timer, turns, a, ran, rest) && LastRan(ran, b, rc, done)
    requires if done || b.now >= timer then c == b else rest.LastTurn? && c == b.(now := timer)
    ensures LoopDone(timer, turns, a, c, rc, ran)
  {
    hide TurnDone;
  }

  /** One of the iterations. */
  lemma RunAt(timer: nat, turns: Turns, a: Snapshot, b: Snapshot, rc: Rc, ran: seq<Ran>, i: nat)
    requires LoopDone(timer, turns, a, b, rc, ran) && i < |ran|
    ensures var r := ran[i];
      && i < |TurnList(turns)| && r.turn == TurnList(turns)[i]
      && TurnDone(r.turn, r.before, r.after, r.rc, r.done)
      && if i + 1 < |ran| then ran[i + 1].before == r.after && !Leaves(r, timer)
         else Leaves(r, timer) || |ran| == |TurnList(turns)|
  {
    hide TurnDone, Leaves, TurnList;
    if i + 1 < |ran| { assert ran[i + 1].before == ran[i + 1 - 1].after; }
  }

  lemma LoopRuns(timer: nat, turns: Turns, a: Snapshot, b: Snapshot, rc: Rc, ran: seq<Ran>)
    requires LoopDone(timer, turns, a, b, rc, ran)
    ensures ran != [] && ran[|ran| - 1].rc == rc
  {
    hide TurnDone;
  }

  lemma YieldLoops(timeout: nat, turns: Turns, a: Snapshot, b: Snapshot, rc: Rc, ran: seq<Ran>, c: Snapshot)
    requires YieldRan(timeout, turns, a, b, rc, ran, c) && a.state == CONNECTED_IDLE && timeout > 0
    ensures var entry := a.(state := YIELD_IN_PROGRESS);
      ran != [] && ran[0].before == entry && LoopDone(a.now + timeout, turns, entry, c, ran[|ran| - 1].rc, ran)
  {
    hide TurnDone, TurnList, Leaves;
  }

  lemma YieldRefused(timeout: nat, turns: Turns, a: Snapshot)
    requires !MayYield(timeout, a.state)
    ensures YieldRan(timeout, turns, a, a, Refusal(timeout, a.state), [], a)
  {
  }

  lemma YieldFinishes(timeout: nat, turns: Turns, a: Snapshot, entry: Snapshot, c: Snapshot, left: Rc, ran: seq<Ran>,
                      b: Snapshot, rc: Rc)
    requires MayYield(timeout, a.state)
    requires entry == if a.state == PENDING_RECONNECT then a else a.(state := YIELD_IN_PROGRESS)
    requires ran != [] && left == ran[|ran| - 1].rc && LoopDone(a.now + timeout, turns, entry, c, left, ran)
    requires YieldClosed(c, left, b, rc)
    requires c.state == YIELD_IN_PROGRESS || Settled(c.state)
    requires left == NETWORK_DISCONNECTED_ERROR ==> c.state == DISCONNECTED_ERROR
    requires left == NETWORK_ATTEMPTING_RECONNECT ==> Settled(c.state)
    requires left == NETWORK_RECONNECTED ==> c.state == YIELD_IN_PROGRESS
    ensures YieldRan(timeout, turns, a, b, rc, ran, c)
  {
    hide LoopDone;
  }
}
