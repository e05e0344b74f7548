/** What the client's keep-alive, back-off and packet ids amount to over whole runs. */
module ClientRuns {
  import opened Client
  import opened ClientCalls
  import opened ClientSpec
  import opened ClientTurns
  import opened HandlerTable
  import opened ReturnCodes
  import opened TopicMatch
  import opened Wrappers

  // ---------------------------------------------------------------------------
  // Keep-alive

  /** Keep-alive state between calls: ping outstanding, end of the ping timer. */
  datatype Watch = Watch(outstanding: bool, timer: nat)

  /** A call of keep-alive at a time, and whether a ping could be sent then. */
  datatype Tick = Tick(at: nat, sent: bool)

  /** Time at which the ticks, with no answer between them, find the connection lost. */
  function LostAt(w: Watch, interval: nat, ticks: seq<Tick>): Option<nat>
    decreases |ticks|
  {
    if ticks == [] then None
    else
      var t := ticks[0];
      match KeepAliveStep(interval, t.at, w.timer, w.outstanding, t.sent)
      case Idle => LostAt(w, interval, ticks[1..])
      case Ping => LostAt(Watch(true, t.at + 1000 * interval), interval, ticks[1..])
      case Lost => Some(t.at)
  }

  /** The ticks after time `from` are in order and at most `gap` apart. */
  predicate Spaced(from: nat, gap: nat, ticks: seq<Tick>) {
    && (ticks != [] ==> from <= ticks[0].at <= from + gap)
    && forall i :: 0 < i < |ticks| ==> ticks[i - 1].at <= ticks[i].at <= ticks[i - 1].at + gap
  }

  function Max(a: nat, b: nat): nat {
    if a < b then b else a
  }

  /** When the loss of a silent connection is found at the latest. */
  function Deadline(w: Watch, interval: nat, from: nat, gap: nat): nat {
    Max(w.timer, from) + gap + if w.outstanding then 0 else 1000 * interval + gap
  }

  /** One tick: the deadline does not move back, a loss found is found in time, and by then the
      loss is found. */
  lemma TickInTime(w: Watch, interval: nat, from: nat, gap: nat, t: Tick)
    requires interval > 0 && from <= t.at <= from + gap
    ensures var d := Deadline(w, interval, from, gap);
      match KeepAliveStep(interval, t.at, w.timer, w.outstanding, t.sent)
      case Idle => Deadline(w, interval, t.at, gap) <= d && gap + t.at < d
      case Ping => Deadline(Watch(true, t.at + 1000 * interval), interval, t.at, gap) <= d && gap + t.at < d
      case Lost => t.at <= d
  {
  }

  lemma {:induction false} SilenceIsNoticed(w: Watch, interval: nat, from: nat, gap: nat, ticks: seq<Tick>)
    requires interval > 0 && Spaced(from, gap, ticks)
    requires ticks != [] && Deadline(w, interval, from, gap) <= gap + ticks[|ticks| - 1].at
    ensures var l := LostAt(w, interval, ticks); l.Some? && l.value <= Deadline(w, interval, from, gap)
    decreases |ticks|
  {
    var t := ticks[0];
    TickInTime(w, interval, from, gap, t);
    hide Deadline;
    match KeepAliveStep(interval, t.at, w.timer, w.outstanding, t.sent)
    case Idle => SilenceIsNoticed(w, interval, t.at, gap, ticks[1..]);
    case Ping => SilenceIsNoticed(Watch(true, t.at + 1000 * interval), interval, t.at, gap, ticks[1..]);
    case Lost =>
  }

  /** If no answer arrives after time T and keep-alive runs at gaps of at most `gap`, the loss is
      declared by T + 2K + 2 gap, where K is the keep-alive interval. */
  lemma LossDeclaredInTime(w: Watch, interval: nat, T: nat, gap: nat, ticks: seq<Tick>)
    requires interval > 0 && Spaced(T, gap, ticks) && w.timer <= T + 1000 * interval
    requires ticks != [] && ticks[|ticks| - 1].at >= T + 2 * 1000 * interval + gap
    ensures var l := LostAt(w, interval, ticks); l.Some? && l.value <= T + 2 * 1000 * interval + 2 * gap
  {
    hide LostAt, Spaced, KeepAliveStep;
    SilenceIsNoticed(w, interval, T, gap, ticks);
  }

  /** Iterations of the yield loop in which no ping answer arrives. */
  predicate Silent(turns: seq<Turn>) {
    forall k :: 0 <= k < |turns| ==> Unanswering(turns[k].read)
  }

  /** The keep-alive calls in silent iterations of the yield loop that start at time `now`. */
  function TicksOf(now: nat, turns: seq<Turn>): (ticks: seq<Tick>)
    requires Silent(turns)
    ensures |ticks| == |turns|
    decreases |turns|
  {
    if turns == [] then []
    else
      var at := now + turns[0].dt + turns[0].read.dt;
      [Tick(at, turns[0].pingSent)] + TicksOf(at, turns[1..])
  }

  /** Time the iterations take. */
  function Elapsed(turns: seq<Turn>): nat
    decreases |turns|
  {
    if turns == [] then 0 else turns[0].dt + turns[0].read.dt + Elapsed(turns[1..])
  }

  predicate Brisk(turns: seq<Turn>, gap: nat) {
    forall k :: 0 <= k < |turns| ==> turns[k].dt + turns[k].read.dt <= gap
  }

  lemma {:induction false} TicksAreSpaced(now: nat, turns: seq<Turn>, gap: nat)
    requires Silent(turns) && Brisk(turns, gap)
    ensures Spaced(now, gap, TicksOf(now, turns))
    ensures turns != [] ==> TicksOf(now, turns)[|turns| - 1].at == now + Elapsed(turns)
    decreases |turns|
  {
    hide Unanswering;
    if turns != [] {
      var at := now + turns[0].dt + turns[0].read.dt;
      TicksAreSpaced(at, turns[1..], gap);
      var ticks := TicksOf(now, turns);
      assert ticks == [Tick(at, turns[0].pingSent)] + TicksOf(at, turns[1..]);
      SpacedAfter(now, gap, ticks[0], ticks[1..]);
    }
  }

  lemma SpacedAfter(from: nat, gap: nat, t: Tick, rest: seq<Tick>)
    requires Spaced(t.at, gap, rest) && from <= t.at <= from + gap
    ensures Spaced(from, gap, [t] + rest)
  {
    var ticks := [t] + rest;
    forall i | 0 < i < |ticks|
      ensures ticks[i - 1].at <= ticks[i].at <= ticks[i - 1].at + gap
    {
      if i > 1 { assert ticks[i] == rest[i - 1] && ticks[i - 1] == rest[i - 2]; }
    }
  }

  lemma NextTick(w: Watch, interval: nat, now: nat, turns: seq<Turn>, i: nat)
    requires Silent(turns) && i < |turns|
    ensures var at := now + turns[i].dt + turns[i].read.dt;
      && Elapsed(turns[i..]) == at - now + Elapsed(turns[i + 1..])
      && LostAt(w, interval, TicksOf(now, turns[i..])) ==
         match KeepAliveStep(interval, at, w.timer, w.outstanding, turns[i].pingSent)
         case Idle => LostAt(w, interval, TicksOf(at, turns[i + 1..]))
         case Ping => LostAt(Watch(true, at + 1000 * interval), interval, TicksOf(at, turns[i + 1..]))
         case Lost => Some(at)
  {
    var rest := turns[i..];
    assert rest[0] == turns[i] && rest[1..] == turns[i + 1..];
    var at := now + turns[i].dt + turns[i].read.dt;
    assert TicksOf(now, rest)[1..] == TicksOf(at, turns[i + 1..]);
  }

  /** When an iteration that reads looks after the ping. */
  function TickTime(r: Ran): nat {
    r.before.now + r.turn.dt + r.turn.read.dt
  }

  /** The iterations of a yield in which no ping is answered and no callback calls the API, from index
      i on: j is the first that declares the loss, and it does so exactly when the sequence of
      keep-alive calls finds it; there is one if that time comes before the timer expires. */
  lemma {:induction false} SilentRun(timer: nat, turns: Turns, a: Snapshot, b: Snapshot, rc: Rc, ran: seq<Ran>, i: nat)
    returns (j: nat)
    requires LoopDone(timer, turns, a, b, rc, ran) && Silent(TurnList(turns)) && i < |ran|
    requires ran[i].before.state == YIELD_IN_PROGRESS
    ensures var s, list := ran[i].before, TurnList(turns);
      var l := LostAt(Watch(s.isPingOutstanding, s.pingTimer), s.keepAliveInterval, TicksOf(s.now, list[i..]));
      && i <= j <= |ran|
      && (forall m :: i <= m < j ==> ran[m].after.state == YIELD_IN_PROGRESS)
      && if j < |ran| then IsLost(ran[j].after, ran[j].rc, ran[j].done) && l == Some(TickTime(ran[j]))
         else l.None? || l.value >= timer
    decreases |ran| - i
  {
    hide TicksOf, LostAt, Elapsed, Unanswering, TurnDone, KeepAliveStep, IsLost, LoopDone, TurnList;
    var s, list := ran[i].before, TurnList(turns);
    var w := Watch(s.isPingOutstanding, s.pingTimer);
    RunAt(timer, turns, a, b, rc, ran, i);
    NextTick(w, s.keepAliveInterval, s.now, list, i);
    ReadsSilently(ran[i]);
    var t, sent := TickTime(ran[i]), ran[i].turn.pingSent;
    if KeepAliveStep(s.keepAliveInterval, t, s.pingTimer, s.isPingOutstanding, sent).Lost? {
      j := i;
    } else {
      var s' := ran[i].after;
      var w' := Watch(s'.isPingOutstanding, s'.pingTimer);
      LostAfter(w', s'.keepAliveInterval, s'.now, list[i + 1..]);
      if i + 1 < |ran| {
        j := SilentRun(timer, turns, a, b, rc, ran, i + 1);
      } else {
        j := |ran|;
        if !Leaves(ran[i], timer) { NoTicks(w', s'.keepAliveInterval, s'.now, list); }
      }
    }
  }

  /** What an iteration without a ping answer does while yielding. */
  lemma ReadsSilently(r: Ran)
    requires TurnDone(r.turn, r.before, r.after, r.rc, r.done) && Unanswering(r.turn.read)
    requires r.before.state == YIELD_IN_PROGRESS
    ensures var s, s', t := r.before, r.after, TickTime(r); var k := s.keepAliveInterval;
      match KeepAliveStep(k, t, s.pingTimer, s.isPingOutstanding, r.turn.pingSent)
      case Lost => IsLost(s', r.rc, r.done)
      case Ping =>
        && !r.done && s'.state == YIELD_IN_PROGRESS && s'.keepAliveInterval == k && s'.now == t
        && s'.isPingOutstanding && s'.pingTimer == t + 1000 * k
      case Idle =>
        && !r.done && s'.state == YIELD_IN_PROGRESS && s'.keepAliveInterval == k && s'.now == t
        && s'.isPingOutstanding == s.isPingOutstanding && s'.pingTimer == s.pingTimer
  {
    HeardSilence(r.turn.read, r.before.(now := r.before.now + r.turn.dt));
    hide Unanswering, Heard, CodeOf, CallsNothing;
  }

  lemma HeardSilence(i: Incoming, a: Snapshot)
    requires Unanswering(i)
    ensures Undisturbed(i) && CodeOf(i) == SUCCESS && Heard(i, a) == a.(now := a.now + i.dt)
  {
    hide CallsNothing;
  }

  /** A loss is not found before the first of the keep-alive calls. */
  lemma {:induction false} LostAfter(w: Watch, interval: nat, now: nat, turns: seq<Turn>)
    requires Silent(turns)
    ensures var l := LostAt(w, interval, TicksOf(now, turns)); l.Some? ==> now <= l.value
    decreases |turns|
  {
    if turns != [] {
      assert turns[0..] == turns;
      NextTick(w, interval, now, turns, 0);
      var at := now + turns[0].dt + turns[0].read.dt;
      hide TicksOf, LostAt, Unanswering;
      LostAfter(w, interval, at, turns[1..]);
      LostAfter(Watch(true, at + 1000 * interval), interval, at, turns[1..]);
    }
  }

  lemma NoTicks(w: Watch, interval: nat, now: nat, turns: seq<Turn>)
    ensures Silent(turns[|turns|..]) && LostAt(w, interval, TicksOf(now, turns[|turns|..])) == None
    ensures Elapsed(turns[|turns|..]) == 0
  {
  }

  /** The iterations of a yield during which no ping is answered and no callback calls the API: if they
      are at most `gap` apart and go on for 2K + gap, and its time is longer than 2K + 2 gap,
      iteration j declares the loss, at the latest after 2K + 2 gap. */
  lemma LossInYield(timeout: nat, turns: Turns, gap: nat, a: Snapshot, b: Snapshot, rc: Rc, ran: seq<Ran>,
                    end: Snapshot)
    returns (j: nat)
    requires YieldRan(timeout, turns, a, b, rc, ran, end) && a.state == CONNECTED_IDLE && timeout > 0
    requires a.keepAliveInterval > 0 && a.pingTimer <= a.now + 1000 * a.keepAliveInterval
    requires Silent(TurnList(turns)) && Brisk(TurnList(turns), gap)
    requires 2 * 1000 * a.keepAliveInterval + gap <= Elapsed(TurnList(turns))
    requires 2 * 1000 * a.keepAliveInterval + 2 * gap < timeout
    ensures j < |ran| && IsLost(ran[j].after, ran[j].rc, ran[j].done)
    ensures a.now <= TickTime(ran[j]) <= a.now + 2 * 1000 * a.keepAliveInterval + 2 * gap
    ensures forall m :: 0 <= m < j ==> ran[m].after.state == YIELD_IN_PROGRESS
  {
    hide LostAt, Spaced, TicksOf, Elapsed, IsLost, Unanswering, LoopDone, Brisk, Silent, TurnList, YieldRan;
    var list, w := TurnList(turns), Watch(a.isPingOutstanding, a.pingTimer);
    var entry := a.(state := YIELD_IN_PROGRESS);
    YieldLoops(timeout, turns, a, b, rc, ran, end);
    TicksAreSpaced(a.now, list, gap);
    NotEmpty(list);
    LossDeclaredInTime(w, a.keepAliveInterval, a.now, gap, TicksOf(a.now, list));
    LostAfter(w, a.keepAliveInterval, a.now, list);
    assert list[0..] == list;
    j := SilentRun(a.now + timeout, turns, entry, end, ran[|ran| - 1].rc, ran, 0);
  }

  /** A call of yield as above. */
  method LossFound(c: Client, timeout: nat, turns: Turns, gap: nat)
    returns (rc: Rc, ghost ran: seq<Ran>, ghost end: Snapshot, ghost j: nat)
    requires c.Valid() && c.state == CONNECTED_IDLE && c.keepAliveInterval > 0
    requires Silent(TurnList(turns)) && Brisk(TurnList(turns), gap)
    requires 2 * 1000 * c.keepAliveInterval + gap <= Elapsed(TurnList(turns))
    requires 2 * 1000 * c.keepAliveInterval + 2 * gap < timeout
    modifies c
    ensures c.Valid() && YieldRan(timeout, turns, old(c.Snap()), c.Snap(), rc, ran, end)
    ensures j < |ran| && IsLost(ran[j].after, ran[j].rc, ran[j].done)
    ensures old(c.now) <= TickTime(ran[j]) <= old(c.now) + 2 * 1000 * old(c.keepAliveInterval) + 2 * gap
    ensures forall m :: 0 <= m < j ==> ran[m].after.state == YIELD_IN_PROGRESS
  {
    hide PingsTracked, InBackOff, OnPace, Elapsed, YieldRan, IsLost, Unanswering, Brisk, Silent, TurnList;
    ghost var a := c.Snap();
    rc, ran, end := c.YieldCall(timeout, turns);
    j := LossInYield(timeout, turns, gap, a, c.Snap(), rc, ran, end);
  }

  lemma NotEmpty(turns: seq<Turn>)
    ensures turns == [] ==> Elapsed(turns) == 0
  {
  }

  /** The interval in force after a connect during which no callback calls the API: the one asked for, or
      that of the options, which a reconnect does not change.  The ping timer runs for just that
      long. */
  lemma IntervalInForce(keepAlive: Option<nat>, h: Handshake, a: Snapshot, b: Snapshot)
    requires ConnectDone(keepAlive, h, a, b, SUCCESS) && Calm(h.exchange.feed)
    ensures var k := if keepAlive.Some? then keepAlive.value else a.optionKeepAlive;
      b.keepAliveInterval == b.optionKeepAlive == k && b.pingTimer == b.now + 1000 * k
  {
    hide Calm, Outcome;
  }

  lemma IntervalAfterReconnect(r: Recovery, a: Snapshot, b: Snapshot)
    requires ReconnectDone(r, a, b, NETWORK_RECONNECTED) && CalmRecovery(r)
    ensures b.keepAliveInterval == b.optionKeepAlive == a.optionKeepAlive
  {
    hide Calm, CalmRounds, Outcome, RoundsOutcome, FirstFree, Renewed, AllServed;
  }

  /** A callback can change it: while a connect waits for its reply, a handler that disconnects and
      connects with interval k puts k in force, whatever the connect that waits was asked for. */
  method HandlerReconnects(c: Client, topic: string, k: nat) returns (rc: Rc)
    requires c.Valid() && c.state == CONNECTING && c.commandTimeout == 1000
    requires exists i :: 0 <= i < |c.handlers| && IsCalled(c.handlers[i], topic)
    modifies c
    ensures c.Valid() && c.state == CONNECTED_IDLE && c.keepAliveInterval == k
  {
    ghost var i :| 0 <= i < |c.handlers| && IsCalled(c.handlers[i], topic);
    CalledIff(c.handlers, topic, |c.handlers|, i);
    hide Client.Valid, PingsTracked, InBackOff, OnPace, IsCalled, Called, Answered, Delivered;
    ghost var a := c.Snap();
    var h := Handshake(true, Answered(CONNACK), true);
    var calls := Then(Disconnect(Teardown(true, true, Done)), Then(Connect(Some(k), h), Done));
    var bodies, called := Body(calls, NoBody), [];
    rc, called := c.Deliver(topic, bodies);
    TwoCalls(c.callbacks[|c.callbacks| - 1], topic, k, h, a, c.Snap());
  }

  lemma TwoLinked(made: seq<Made>, a: Snapshot, b: Snapshot)
    requires |made| == 2 && Linked(made, a, b)
    ensures made[0].before == a && made[1].before == made[0].after && made[1].after == b
    ensures Fulfils(made[0].call, a, made[0].after, made[0].rc)
    ensures Fulfils(made[1].call, made[0].after, b, made[1].rc)
  {
    hide Fulfils;
    assert made[..1][..0] == [];
    assert Linked(made[..1], a, made[1].before);
  }

  lemma TwoCalls(e: Callback, topic: string, k: nat, h: Handshake, a: Snapshot, b: Snapshot)
    requires h == Handshake(true, Answered(CONNACK), true) && a.commandTimeout == 1000
    requires Delivered(e, topic, Body(Then(Disconnect(Teardown(true, true, Done)), Then(Connect(Some(k), h), Done)),
                                      NoBody), a, b)
    requires e.called != []
    ensures b.state == CONNECTED_IDLE && b.keepAliveInterval == k
  {
    var t, s := Teardown(true, true, Done), a.(state := WAIT_FOR_CB_RETURN);
    TwoFlat(Disconnect(t), Connect(Some(k), h), |e.called|);
    assert |e.made| == 2 && CallsIn(e.made)[0] == e.made[0].call && CallsIn(e.made)[1] == e.made[1].call;
    TwoLinked(e.made, s, EndOf(e.made, s));
    var m := e.made[1];
    assert DisconnectDone(t, s, m.before, e.made[0].rc);
    assert ConnectDone(Some(k), h, m.before, m.after, m.rc);
    AnsweredAtOnce(CONNACK);
    hide Linked, CallsIn, FirstBodies, CalledAt, Answered, Calm, Outcome, Fulfils;
    assert m.rc == SUCCESS;
  }

  lemma TwoFlat(first: Api, second: Api, n: nat)
    requires n > 0
    ensures FirstBodies(Body(Then(first, Then(second, Done)), NoBody), n) == [first, second]
  {
    assert Flatten(Then(second, Done)) == [second];
    assert FirstBodies(NoBody, n - 1) == [];
  }

  /** A client that connects with keep-alive interval K, and is then asked to yield for long enough
      while no ping is answered, declares the loss within 2K + 2 gap. */
  method ConnectedLossFound(c: Client, k: nat, h: Handshake, timeout: nat, turns: Turns, gap: nat)
    returns (rc: Rc, ghost ran: seq<Ran>, ghost j: nat)
    requires c.Valid() && MayConnect(c.state) && k > 0
    requires Calm(h.exchange.feed) && ConnectOutcome(h, c.commandTimeout) == SUCCESS
    requires Silent(TurnList(turns)) && Brisk(TurnList(turns), gap)
    requires 2 * 1000 * k + gap <= Elapsed(TurnList(turns)) && 2 * 1000 * k + 2 * gap < timeout
    modifies c
    ensures c.Valid() && j < |ran| && IsLost(ran[j].after, ran[j].rc, ran[j].done)
    ensures ran[0].before.keepAliveInterval == k
    ensures TickTime(ran[j]) <= ran[0].before.now + 2 * 1000 * k + 2 * gap
    ensures forall m :: 0 <= m < j ==> ran[m].after.state == YIELD_IN_PROGRESS
  {
    hide PingsTracked, InBackOff, OnPace, Calm, Outcome, Accepted, Silent, Brisk, Elapsed, IsLost, TurnDone;
    rc := c.ConnectCall(Some(k), h);
    ghost var end;
    rc, ran, end, j := LossFound(c, timeout, turns, gap);
  }

  /** The last keep-alive check of a client that is still connected came less than two intervals and
      a gap after the server was heard of last. */
  lemma ConnectedIsChecked(c: Client)
    requires c.Valid() && (c.state == CONNECTED_IDLE || c.state == YIELD_IN_PROGRESS) && c.keepAliveInterval > 0
    ensures var p := PaceOf(c.log); p.checked < p.heard + 2 * 1000 * c.keepAliveInterval + p.gap
  {
    GapIsNatural(c.log);
  }

  /** Any run of a client, whatever is called, whatever callbacks call and whatever the network does:
      the calls are made in order and keep their promises, nothing is left in progress, every ping
      timeout follows an unanswered ping by an interval, and a client that is still connected has
      been checked in time. */
  method AnyRun(autoReconnect: bool, timeout: nat, min: nat, max: nat, calls: Calls)
    returns (c: Client, ghost begin: Snapshot, ghost run: seq<Made>)
    requires 0 < min && 2 * max < 0x1_0000_0000
    ensures CallsIn(run) == Flatten(calls) && Linked(run, begin, c.Snap()) && begin.state == INITIALIZED
    ensures Settled(c.state) && TimeoutsJustified(c.log)
    ensures c.state == CONNECTED_IDLE && c.keepAliveInterval > 0 ==>
      var p := PaceOf(c.log); p.checked < p.heard + 2 * 1000 * c.keepAliveInterval + p.gap
  {
    hide InBackOff, OnPace, TimeoutsJustified, Linked, CallsIn, Flatten;
    c := new Client(autoReconnect, timeout, min, max);
    begin := c.Snap();
    run := c.RunCalls(calls);
    if c.state == CONNECTED_IDLE && c.keepAliveInterval > 0 { ConnectedIsChecked(c); }
  }

  /** A handler that disconnects: the delivery of its message fails, and the client stays
      disconnected. */
  method DisconnectInHandler(c: Client, topic: string, t: Teardown) returns (rc: Rc)
    requires c.Valid() && t.sent && t.destroyed
    requires exists k :: 0 <= k < |c.handlers| && IsCalled(c.handlers[k], topic)
    modifies c
    ensures rc == MQTT_UNEXPECTED_CLIENT_STATE_ERROR && c.state == DISCONNECTED_MANUALLY
  {
    ghost var k :| 0 <= k < |c.handlers| && IsCalled(c.handlers[k], topic);
    CalledIff(c.handlers, topic, |c.handlers|, k);
    hide PingsTracked, InBackOff, OnPace, IsCalled, Called;
    ghost var a := c.Snap();
    var bodies, called := Body(Then(Disconnect(t), Done), NoBody), [];
    rc, called := c.Deliver(topic, bodies);
    OneDisconnect(c.callbacks[|c.callbacks| - 1], topic, t, a, c.Snap());
  }

  lemma OneLinked(made: seq<Made>, a: Snapshot, b: Snapshot)
    requires |made| == 1 && Linked(made, a, b)
    ensures made[0].before == a && made[0].after == b && Fulfils(made[0].call, a, b, made[0].rc)
  {
    hide Fulfils;
    assert made[..|made| - 1] == [];
  }

  lemma OneDisconnect(e: Callback, topic: string, t: Teardown, a: Snapshot, b: Snapshot)
    requires Delivered(e, topic, Body(Then(Disconnect(t), Done), NoBody), a, b)
    requires e.called != [] && t.sent && t.destroyed
    ensures !Returned(e) && b.state == DISCONNECTED_MANUALLY
  {
    var n := |e.called|;
    assert FirstBodies(Body(Then(Disconnect(t), Done), NoBody), n) == [Disconnect(t)] by {
      assert Flatten(Then(Disconnect(t), Done)) == [Disconnect(t)];
      assert FirstBodies(NoBody, n - 1) == [];
    }
    assert |e.made| == 1 && CallsIn(e.made)[0] == e.made[0].call;
    var m := e.made[0];
    OneLinked(e.made, a.(state := WAIT_FOR_CB_RETURN), m.after);
    assert DisconnectDone(t, m.before, m.after, m.rc);
    assert m.after.state == DISCONNECTED_MANUALLY && EndOf(e.made, m.before) == m.after;
  }

  lemma {:induction false} GapIsNatural(log: seq<Event>)
    ensures PaceOf(log).gap >= 0
    decreases |log|
  {
    if log != [] { GapIsNatural(log[..|log| - 1]); }
  }

  /** So a check that comes two intervals and a gap after the server was heard of gives the
      connection up, whatever came in between. */
  lemma LateCheckFindsLoss(log: seq<Event>, interval: nat, outstanding: bool, timer: nat, at: nat, sent: bool)
    requires interval > 0 && OnPace(log, interval, outstanding, timer)
    requires var p := PaceOf(log); at >= p.heard + 2 * 1000 * interval + Longer(p, at)
    ensures KeepAliveStep(interval, at, timer, outstanding, sent) == Lost
  {
    GapIsNatural(log);
  }

  /** What the log of a client says about each of its ping timeouts: a ping was sent at least the
      keep-alive interval earlier, and nothing answered it, nor did a session start, in between. */
  lemma TimeoutMeansSilence(log: seq<Event>, i: nat)
    requires TimeoutsJustified(log) && i < |log| && log[i].PingTimedOut?
    ensures exists j | 0 <= j < i :: IsSilentSince(log, j, i) && log[i].at >= log[j].at + 1000 * log[j].interval
  {
    var j := PingBefore(log[..i]);
    assert IsSilentSince(log, j, i);
  }

  ghost predicate IsSilentSince(log: seq<Event>, j: nat, i: nat)
    requires i <= |log|
  {
    && j < i && log[j].PingSent?
    && forall k :: j < k < i ==> log[k].PingTimedOut? || log[k].Checked?
  }

  lemma {:induction false} PingBefore(log: seq<Event>) returns (j: nat)
    requires Unanswered(log).Some?
    ensures IsSilentSince(log, j, |log|)
    ensures Unanswered(log).value == SentPing(log[j].at, log[j].interval)
    decreases |log|
  {
    var n := |log| - 1;
    if log[n].PingTimedOut? || log[n].Checked? {
      j := PingBefore(log[..n]);
      assert IsSilentSince(log[..n], j, n);
    } else {
      j := n;
    }
  }

  // ---------------------------------------------------------------------------
  // Back-off

  /** Least number of doublings after which the interval exceeds the maximum. */
  function Doublings(min: nat, max: nat): nat
    requires min > 0
    decreases max + 1 - min
  {
    if min > max then 0 else 1 + Doublings(2 * min, max)
  }

  lemma {:induction false} DoublingsIsLeast(min: nat, max: nat, k: nat)
    requires min > 0
    ensures min * Pow2(k) <= max <==> k < Doublings(min, max)
    decreases k
  {
    if k == 0 {
    } else if min > max {
      PowGrows(k);
      Scale(min, 1, Pow2(k));
    } else {
      DoublingsIsLeast(2 * min, max, k - 1);
      assert min * Pow2(k) == 2 * min * Pow2(k - 1) by { DoubleIs(min, Pow2(k - 1)); }
    }
  }

  lemma {:induction false} PowGrows(k: nat)
    ensures 1 <= Pow2(k)
  {
    if k > 0 { PowGrows(k - 1); }
  }

  lemma Scale(a: nat, b: nat, c: nat)
    requires b <= c
    ensures a * b <= a * c
  {
  }

  function Attempts(retries: seq<Retry>): nat
    decreases |retries|
  {
    if retries == [] then 0
    else Attempts(retries[..|retries| - 1]) + if retries[|retries| - 1].attempted then 1 else 0
  }

  lemma {:induction false} AttemptsBounded(retries: seq<Retry>)
    ensures Attempts(retries) <= |retries|
    decreases |retries|
  {
    if retries != [] { AttemptsBounded(retries[..|retries| - 1]); }
  }

  /** One outage detected by yield: the intervals are min, 2 min, 4 min, ...; an armed delay is at
      most max and no interval exceeds 2 max; there are at most as many retries, hence connect
      attempts, as doublings it takes to exceed max; and after that many, the interval is too
      large for another. */
  lemma BackOffBounds(o: Outage, wait: nat, timer: nat, min: nat, max: nat)
    requires 0 < min <= max && InBackOff(o, wait, timer, min, max)
    ensures forall i :: 0 <= i < |o.retries| ==>
      && o.retries[i].wait == min * Pow2(i + 1) <= 2 * max
      && (o.retries[i].wait <= max <==> i + 1 < Doublings(min, max))
    ensures wait <= 2 * max
    ensures Attempts(o.retries) <= |o.retries| <= Doublings(min, max)
    ensures |o.retries| == Doublings(min, max) <==> wait > max
  {
    var n := |o.retries|;
    AttemptsBounded(o.retries);
    forall i | 0 <= i < n
      ensures o.retries[i].wait == min * Pow2(i + 1) <= 2 * max
      ensures o.retries[i].wait <= max <==> i + 1 < Doublings(min, max)
    {
      DoublingsIsLeast(min, max, i + 1);
      DoubleIs(min, Pow2(i));
    }
    DoublingsIsLeast(min, max, n);
    if n > 0 {
      DoublingsIsLeast(min, max, n - 1);
      DoubleIs(min, Pow2(n - 1));
    }
  }

  /** Consecutive retries are separated by at least the delay armed by the first of them, and
      the first retry comes at least `min` after the outage was detected. */
  lemma RetriesAreSpaced(o: Outage, i: nat, min: nat, max: nat)
    requires BacksOff(o, min, max) && i < |o.retries|
    ensures i == 0 ==> o.retries[0].start >= o.at + min
    ensures i > 0 ==> o.retries[i].start >= o.retries[i - 1].end + min * Pow2(i)
  {
    var before := o.(retries := o.retries[..i]);
    if i > 0 {
      assert before.retries[i - 1] == o.retries[i - 1];
    }
  }

  // ---------------------------------------------------------------------------
  // Resubscription

  /** A reconnect by yield during which no callback calls the API makes the server know every
      registered filter if no unused slot stands before one in use, and, when no filter is
      registered twice, only then. */
  method ReconnectRenews(c: Client, turn: Turn) returns (rc: Rc)
    requires c.Valid() && c.state == PENDING_RECONNECT && CalmRecovery(turn.recovery)
    modifies c
    ensures c.handlers == old(c.handlers)
    ensures rc == NETWORK_RECONNECTED ==> c.keepAliveInterval == old(c.optionKeepAlive)
    ensures rc == NETWORK_RECONNECTED && Compact(c.handlers) ==> c.acked == Filters(c.handlers)
    ensures rc == NETWORK_RECONNECTED && Distinct(c.handlers) ==>
      (c.acked == Filters(c.handlers) <==> Compact(c.handlers))
  {
    hide PingsTracked, InBackOff, OnPace, Renewed, Filters, Compact, Distinct, Recovers, RetryDone, CalmRecovery;
    RenewsAll(c.handlers);
    ghost var later := c.Snap().(now := c.now + turn.dt);
    var done;
    rc, done := c.YieldTurn(turn);
    if RetryDone(later, c.Snap(), turn.recovery, turn.linkUp, rc) && later.reconnectWait <= later.maxWait {
      RetryComesTo(later, c.Snap(), turn.recovery, turn.linkUp, rc);
    }
  }

  /** A request that is answered at once. */
  function Answered(reply: Plain): Exchange {
    Exchange(true, Arrives(Reply(0, reply), Quiet), true)
  }

  /** Two topics are subscribed and the first unsubscribed; the connection is lost, and made again
      by yield, which reports success: the second topic is still in the table, and nothing has been
      subscribed on the new connection. */
  method ForgetsTopic() returns (c: Client, rc: Rc)
    ensures rc == NETWORK_RECONNECTED && c.state == YIELD_IN_PROGRESS
    ensures c.Valid() && c.handlers[1] == Registered("b", true) && c.acked == {}
  {
    hide PingsTracked, InBackOff, OnPace, Answered;
    var connect := Handshake(true, Answered(CONNACK), true);
    c := HalfSubscribed(connect);
    var again := Recovery(connect, NoRound);
    Lose(c, again);
    rc := Regain(c, again);
  }

  /** The connection is made again at once, and nothing is subscribed on it. */
  method Regain(c: Client, again: Recovery) returns (rc: Rc)
    requires c.Valid() && c.state == PENDING_RECONNECT && c.handlers[0].Unused?
    requires c.commandTimeout == 1000 && c.maxWait == 8 && c.reconnectWait == 1 && c.reconnectTimer == c.now + 1
    requires again == Recovery(Handshake(true, Answered(CONNACK), true), NoRound)
    modifies c
    ensures rc == NETWORK_RECONNECTED && c.state == YIELD_IN_PROGRESS
    ensures c.Valid() && c.handlers == old(c.handlers) && c.acked == {}
  {
    NoneRenewed(c.handlers);
    RecoversAtOnce(again);
    hide Client.Valid, Client.Snap, PingsTracked, InBackOff, OnPace, Recovers, Renewed, FirstFree, CalmRecovery;
    hide RetryDone, Answered, TurnDone;
    c.StepIs();
    c.SnapIs();
    ghost var a := c.Snap();
    var turn, done := Turn(1, Silence(0), true, Teardown(true, true, Done), true, again), false;
    rc, done := c.YieldTurn(turn);
    TurnRetries(turn, a, c.Snap(), rc, done);
    RetryComesTo(a.(now := a.now + 1), c.Snap(), again, true, rc);
    c.SnapIs();
  }

  /** Yield begins, and loses the connection at once. */
  method Lose(c: Client, again: Recovery)
    requires c.Valid() && c.state == CONNECTED_IDLE && c.isAutoReconnectEnabled
    requires c.commandTimeout == 1000 && c.minWait == 1 && c.maxWait == 8
    modifies c
    ensures c.Valid() && c.state == PENDING_RECONNECT && c.handlers == old(c.handlers)
    ensures c.reconnectWait == 1 && c.reconnectTimer == c.now + 1
  {
    hide PingsTracked, InBackOff, OnPace, KeepAliveStep;
    var rc := c.SetState(CONNECTED_IDLE, YIELD_IN_PROGRESS);
    var done;
    rc, done := c.YieldTurn(Turn(0, Failed(0, NETWORK_SSL_READ_ERROR), true, Teardown(true, true, Done), true, again));
  }

  /** A connected client that has subscribed two topics and unsubscribed the first. */
  method HalfSubscribed(connect: Handshake) returns (c: Client)
    requires connect == Handshake(true, Answered(CONNACK), true)
    ensures fresh(c) && c.Valid() && c.state == CONNECTED_IDLE && c.isAutoReconnectEnabled
    ensures c.commandTimeout == 1000 && c.minWait == 1 && c.maxWait == 8
    ensures c.handlers[0].Unused? && c.handlers[1] == Registered("b", true)
  {
    AnsweredAtOnce(UNSUBACK);
    hide PingsTracked, InBackOff, OnPace, Calm, Outcome, Answers, Answered, FirstFree, Served, Filters, Cleared;
    c := Opened(connect);
    FirstTwoFree(c.handlers);
    SubscribeAtOnce(c, "a");
    SubscribeAtOnce(c, "b");
    FirstCleared(c.handlers);
    var rc := c.UnsubscribeCall("a", Answered(UNSUBACK));
    c.Automate(true);
  }

  lemma FirstTwoFree(slots: seq<Slot>)
    requires |slots| == NUM_HANDLERS && forall k :: 0 <= k < |slots| ==> slots[k].Unused?
    ensures FirstFree(slots) == 0 && FirstFree(slots[0 := Registered("a", true)]) == 1
  {
  }

  /** A subscription that is acknowledged at once. */
  method SubscribeAtOnce(c: Client, filter: string)
    requires c.Valid() && c.state == CONNECTED_IDLE && c.commandTimeout == 1000
    requires FirstFree(c.handlers) < |c.handlers|
    modifies c
    ensures c.Valid() && c.state == CONNECTED_IDLE
    ensures c.handlers == old(c.handlers)[FirstFree(old(c.handlers)) := Registered(filter, true)]
  {
    AnsweredAtOnce(SUBACK);
    hide PingsTracked, InBackOff, OnPace, Calm, Outcome, Answers, Answered, FirstFree, Served;
    var rc := c.SubscribeCall(filter, Answered(SUBACK));
  }

  lemma FirstCleared(slots: seq<Slot>)
    requires |slots| > 1 && slots[0] == Registered("a", true) && slots[1] == Registered("b", true)
    ensures "a" in Filters(slots)
    ensures Cleared(slots, "a")[0].Unused? && Cleared(slots, "a")[1] == slots[1]
  {
  }

  /** A connected client with an empty table. */
  method Opened(connect: Handshake) returns (c: Client)
    requires connect == Handshake(true, Answered(CONNACK), true)
    ensures fresh(c) && c.Valid() && c.state == CONNECTED_IDLE
    ensures c.commandTimeout == 1000 && c.minWait == 1 && c.maxWait == 8
    ensures forall k :: 0 <= k < |c.handlers| ==> c.handlers[k].Unused?
  {
    AnsweredAtOnce(CONNACK);
    hide PingsTracked, InBackOff, OnPace, Calm, Outcome, Answered, Accepted;
    c := new Client(true, 1000, 1, 8);
    var rc := c.ConnectCall(None, connect);
  }

  lemma AnsweredAtOnce(reply: Plain)
    ensures Calm(Answered(reply).feed) && Outcome(Answered(reply), reply, 1000) == SUCCESS
  {
  }

  lemma NoneRenewed(slots: seq<Slot>)
    requires slots != [] && slots[0].Unused?
    ensures FirstFree(slots) == 0 && Renewed(slots) == {}
  {
  }

  lemma RecoversAtOnce(r: Recovery)
    requires r == Recovery(Handshake(true, Answered(CONNACK), true), NoRound)
    ensures CalmRecovery(r) && Recovers(r, 0, 1000)
  {
  }

  // ---------------------------------------------------------------------------
  // Packet ids

  lemma {:induction false} IdAfterIs(id: nat, n: nat)
    requires 1 <= id <= MAX_PACKET_ID
    ensures IdAfter(id, n) == (id - 1 + n) % MAX_PACKET_ID + 1
  {
    if n > 0 { IdAfterIs(id, n - 1); }
  }

  /** Ids are never 0 (section 2.3.1 of MQTT 3.1.1), and two requests fewer than 65535 apart
      have different ids. */
  lemma IdsAreDistinct(id: nat, m: nat, n: nat)
    requires 1 <= id <= MAX_PACKET_ID && m < n < m + MAX_PACKET_ID
    ensures 1 <= IdAfter(id, m) <= MAX_PACKET_ID
    ensures IdAfter(id, m) != IdAfter(id, n)
  {
    IdAfterIs(id, m);
    IdAfterIs(id, n);
  }
}
