/** What the client of the single-threaded build is given, and what each of its calls promises.

    What the network, the clock and the application do during a call is given to it as a
    script: what each read yields and how long it takes, whether each write succeeds, and which
    API calls the application's callbacks make, nested to any depth.  A loop whose script runs
    out sees silence until its timer expires. */
module ClientSpec {
  import opened ReturnCodes
  import opened Wrappers

  import opened HandlerTable
  import opened TopicMatch

  datatype ClientState =
    | INVALID | INITIALIZED | CONNECTING | CONNECTED_IDLE
    | YIELD_IN_PROGRESS | PUBLISH_IN_PROGRESS | SUBSCRIBE_IN_PROGRESS | UNSUBSCRIBE_IN_PROGRESS
    | RESUBSCRIBE_IN_PROGRESS | WAIT_FOR_CB_RETURN
    | DISCONNECTING | DISCONNECTED_ERROR | DISCONNECTED_MANUALLY | PENDING_RECONNECT

  /** What reading a packet can fail with, given the return codes of the TLS read. */
  type ReadFailure = rc: Rc |
    || rc == NETWORK_SSL_READ_ERROR || rc == NETWORK_SSL_READ_TIMEOUT_ERROR || rc == NETWORK_SSL_NOTHING_TO_READ
    || rc == FAILURE || rc == MQTT_RX_BUFFER_TOO_SHORT_ERROR || rc == MQTT_DECODE_REMAINING_LENGTH_ERROR
    witness FAILURE

  /** Packets that are not delivered to the application. */
  type Plain = p: Packet | p != PUBLISH witness OTHER

  datatype Packet = CONNACK | PUBACK | SUBACK | UNSUBACK | PUBREC | PUBCOMP | PUBLISH | PINGRESP | OTHER

  // ---------------------------------------------------------------------------
  // Scripts

  /** What one packet read finds, `dt` milliseconds later. */
  datatype Incoming =
    | Silence(dt: nat)
    | Failed(dt: nat, rc: ReadFailure)
    | Reply(dt: nat, packet: Plain)
    | BadPublish(dt: nat)
    | Message(dt: nat, topic: string, qos1: bool, bodies: Bodies, pubackSent: bool)

  /** The calls made by the application handlers a message is delivered to, one body after another;
      handlers beyond the last body make none. */
  datatype Bodies = NoBody | Body(calls: Calls, rest: Bodies)

  datatype Calls = Done | Then(call: Api, rest: Calls)

  datatype Feed = Quiet | Arrives(first: Incoming, rest: Feed)

  /** A request that waits for a reply: whether it was sent, what arrives, whether the awaited
      reply could be deserialized. */
  datatype Exchange = Exchange(sent: bool, feed: Feed, replyValid: bool)

  /** A connection attempt: the TLS connection, the request, and whether the server accepts. */
  datatype Handshake = Handshake(tls: bool, exchange: Exchange, accepted: bool)

  /** The exchanges of a resubscription; a request beyond the last of them is not sent. */
  datatype Rounds = NoRound | Round(first: Exchange, rest: Rounds)

  /** A reconnect attempt: the handshake, then the resubscription. */
  datatype Recovery = Recovery(handshake: Handshake, rounds: Rounds)

  /** A disconnect: whether its packet was sent and the network stack torn down, and the calls
      made by the disconnect handler. */
  datatype Teardown = Teardown(sent: bool, destroyed: bool, handler: Calls)

  /** One iteration of the yield loop: time spent, then whichever branch the state calls for. */
  datatype Turn = Turn(dt: nat, read: Incoming, pingSent: bool, teardown: Teardown,
                       linkUp: bool, recovery: Recovery)

  datatype Turns = LastTurn(turn: Turn) | NextTurn(turn: Turn, rest: Turns)

  /** The calls of the API; the keep-alive option is passed to connect, or left as it was. */
  datatype Api =
    | Connect(keepAlive: Option<nat>, handshake: Handshake)
    | Disconnect(teardown: Teardown)
    | AttemptReconnect(recovery: Recovery)
    | Publish(qos1: bool, exchange: Exchange)
    | Subscribe(filter: string, exchange: Exchange)
    | Unsubscribe(filter: string, exchange: Exchange)
    | Resubscribe(rounds: Rounds)
    | Yield(timeout: nat, turns: Turns)
    | SetAutoReconnect(on: bool)

  // ---------------------------------------------------------------------------
  // States and histories

  /** States in which no operation is in progress. */
  predicate Settled(s: ClientState) {
    s == INITIALIZED || s == CONNECTED_IDLE || s == DISCONNECTED_ERROR || s == DISCONNECTED_MANUALLY ||
    s == PENDING_RECONNECT
  }

  /** is_client_connected, as a function of the state. */
  predicate IsConnected(s: ClientState) {
    s == CONNECTED_IDLE || s == YIELD_IN_PROGRESS || s == PUBLISH_IN_PROGRESS || s == SUBSCRIBE_IN_PROGRESS ||
    s == UNSUBSCRIBE_IN_PROGRESS || s == RESUBSCRIBE_IN_PROGRESS || s == WAIT_FOR_CB_RETURN
  }

  predicate MayConnect(s: ClientState) {
    s == INITIALIZED || s == DISCONNECTED_ERROR || s == DISCONNECTED_MANUALLY || s == PENDING_RECONNECT
  }

  /** Connected or allowed to connect, and never both; in between, neither.  A settled client is idle, or
      allowed to connect. */
  lemma StatesDivide(s: ClientState)
    ensures !(IsConnected(s) && MayConnect(s))
    ensures IsConnected(s) || MayConnect(s) <==> s != INVALID && s != CONNECTING && s != DISCONNECTING
    ensures Settled(s) <==> s == CONNECTED_IDLE || MayConnect(s)
  {
  }

  /** Keep-alive events; Checked is a call of keep-alive that does not give the connection up. */
  datatype Event =
    | PingSent(at: nat, interval: nat) | PingAnswered(at: nat) | SessionStarted(at: nat) | PingTimedOut(at: nat)
    | Checked(at: nat)

  datatype SentPing = SentPing(at: nat, interval: nat)

  /** The last ping sent, if nothing has answered it and no session has started since. */
  ghost function Unanswered(log: seq<Event>): Option<SentPing>
    decreases |log|
  {
    if log == [] then None
    else
      match log[|log| - 1]
      case PingSent(at, interval) => Some(SentPing(at, interval))
      case PingTimedOut(_) => Unanswered(log[..|log| - 1])
      case Checked(_) => Unanswered(log[..|log| - 1])
      case _ => None
  }

  /** When the server was heard of last, by a ping answer or a new session; the last keep-alive
      check since; and the longest time between two of these checks. */
  datatype Pace = Pace(heard: int, checked: int, gap: int)

  ghost function PaceOf(log: seq<Event>): Pace
    decreases |log|
  {
    if log == [] then Pace(0, 0, 0)
    else
      var before, e := PaceOf(log[..|log| - 1]), log[|log| - 1];
      match e
      case PingAnswered(at) => Pace(at, at, 0)
      case SessionStarted(at) => Pace(at, at, 0)
      case Checked(at) => Pace(before.heard, at, Longer(before, at))
      case _ => before
  }

  /** The longest gap, with a check at time `at`. */
  function Longer(p: Pace, at: int): int {
    if at - p.checked > p.gap then at - p.checked else p.gap
  }

  /** The ping timer has been armed for one interval since the server was heard of, or, with a ping
      outstanding, not later than an interval and a gap after that; and it had not run out at the
      last check. */
  ghost predicate OnPace(log: seq<Event>, interval: nat, outstanding: bool, timer: nat) {
    interval > 0 ==>
      var p := PaceOf(log);
      && (p.checked < timer || p.checked == p.heard)
      && if outstanding then timer <= p.heard + 2 * 1000 * interval + p.gap else timer == p.heard + 1000 * interval
  }

  /** Every ping timeout comes at least a keep-alive interval after a ping without an answer. */
  ghost predicate TimeoutsJustified(log: seq<Event>) {
    forall i :: 0 <= i < |log| && log[i].PingTimedOut? ==>
      Unanswered(log[..i]).Some? &&
      log[i].at >= Unanswered(log[..i]).value.at + 1000 * Unanswered(log[..i]).value.interval
  }

  /** One retry of a lost connection by yield: when its delay was found expired, whether the
      link was up so that a connect was attempted, the doubled interval, and when it ended. */
  datatype Retry = Retry(start: nat, attempted: bool, wait: nat, end: nat)

  /** An outage detected by yield, and the retries that have failed since. */
  datatype Outage = Outage(at: nat, retries: seq<Retry>)

  function Pow2(n: nat): nat {
    if n == 0 then 1 else 2 * Pow2(n - 1)
  }

  /** When the delay armed last runs out. */
  function Due(o: Outage, min: nat, max: nat): nat
    decreases |o.retries|
  {
    if o.retries == [] then o.at + min
    else
      var last := o.retries[|o.retries| - 1];
      if last.wait <= max then last.end + last.wait else Due(o.(retries := o.retries[..|o.retries| - 1]), min, max)
  }

  /** The intervals double from `min` and stop at the first one above `max`, and no retry starts
      before the delay armed by the one before has run out. */
  ghost predicate BacksOff(o: Outage, min: nat, max: nat) {
    && (forall i :: 0 <= i < |o.retries| ==>
         && o.retries[i].wait == min * Pow2(i + 1)
         && min * Pow2(i) <= max
         && o.retries[i].start >= Due(o.(retries := o.retries[..i]), min, max))
  }

  const MAX_PACKET_ID := 65535

  /** An outstanding ping is the last unanswered one, and its timer runs for one interval. */
  ghost predicate PingsTracked(log: seq<Event>, outstanding: bool, timer: nat) {
    && TimeoutsJustified(log)
    && (outstanding ==> var p := Unanswered(log); p.Some? && timer == p.value.at + 1000 * p.value.interval)
  }

  /** The back-off fields agree with the history of the outage. */
  ghost predicate InBackOff(o: Outage, wait: nat, timer: nat, min: nat, max: nat) {
    && BacksOff(o, min, max)
    && wait == min * Pow2(|o.retries|)
    && timer == Due(o, min, max)
  }

  /** What one call of keep-alive does. */
  datatype Action = Idle | Ping | Lost

  /** Keep-alive at time `now`: the timer is armed until `timer`, a ping may be outstanding, and
      sending one would succeed or not. */
  function KeepAliveStep(interval: nat, now: nat, timer: nat, outstanding: bool, sent: bool): Action {
    if interval == 0 || now < timer then Idle
    else if outstanding || !sent then Lost
    else Ping
  }

  /** None of the handlers calls the API. */
  predicate CallsNothing(bodies: Bodies) {
    bodies.Body? ==> bodies.calls.Done? && CallsNothing(bodies.rest)
  }

  /** Whatever is read, no callback calls the API. */
  predicate Undisturbed(i: Incoming) {
    i.Message? ==> CallsNothing(i.bodies)
  }

  predicate Calm(feed: Feed) {
    feed.Arrives? ==> Undisturbed(feed.first) && Calm(feed.rest)
  }

  predicate CalmRounds(rounds: Rounds) {
    rounds.Round? ==> Calm(rounds.first.feed) && CalmRounds(rounds.rest)
  }

  predicate CalmRecovery(r: Recovery) {
    Calm(r.handshake.exchange.feed) && CalmRounds(r.rounds)
  }

  /** Anything may arrive but a ping answer, as long as it is handled without error and no callback
      calls the API. */
  predicate Unanswering(i: Incoming) {
    match i
    case Silence(_) => true
    case Reply(_, p) => p != PINGRESP && p != OTHER
    case Message(_, _, qos1, bodies, sent) => CallsNothing(bodies) && (qos1 ==> sent)
    case _ => false
  }

  /** What is made of a packet, while no callback calls the API. */
  function CodeOf(i: Incoming): Rc {
    match i
    case Silence(_) => SUCCESS
    case Failed(_, rc) => rc
    case Reply(_, p) => if p == OTHER then MQTT_RX_MESSAGE_PACKET_TYPE_INVALID_ERROR else SUCCESS
    case BadPublish(_) => FAILURE
    case Message(_, _, qos1, _, sent) => if qos1 && !sent then FAILURE else SUCCESS
  }

  /** A packet of the awaited type arrives. */
  predicate Answers(feed: Feed, awaited: Packet) {
    feed.Arrives? && ((feed.first.Reply? && feed.first.packet == awaited) || Answers(feed.rest, awaited))
  }

  /** The request was sent, and a valid reply of the awaited type arrived. */
  predicate Served(x: Exchange, reply: Packet) {
    x.sent && x.replyValid && Answers(x.feed, reply)
  }

  /** The first n exchanges. */
  predicate AllServed(rounds: Rounds, n: nat)
    decreases n
  {
    n > 0 ==> rounds.Round? && Served(rounds.first, SUBACK) && AllServed(rounds.rest, n - 1)
  }

  /** A packet of the awaited type arrives before the time left is used up. */
  predicate InTime(feed: Feed, awaited: Packet, left: int) {
    && left > 0 && feed.Arrives?
    && ((feed.first.Reply? && feed.first.packet == awaited) || InTime(feed.rest, awaited, left - feed.first.dt))
  }

  /** The code of a request during which no callback calls the API: it has to be sent, and a reply has
      to arrive in time and to be valid. */
  function Outcome(x: Exchange, reply: Packet, timeout: nat): Rc {
    if !x.sent then FAILURE
    else if !InTime(x.feed, reply, timeout) then MQTT_REQUEST_TIMEOUT_ERROR
    else if !x.replyValid then FAILURE
    else SUCCESS
  }

  /** The same of n requests, of which the first to fail is the last. */
  function RoundsOutcome(rounds: Rounds, n: nat, timeout: nat): Rc
    decreases n
  {
    if n == 0 then SUCCESS
    else if rounds.NoRound? then FAILURE
    else
      var rc := Outcome(rounds.first, SUBACK, timeout);
      if rc != SUCCESS then rc else RoundsOutcome(rounds.rest, n - 1, timeout)
  }

  predicate Accepted(h: Handshake) {
    h.tls && h.accepted && Served(h.exchange, CONNACK)
  }

  /** The code of a connect. */
  function ConnectOutcome(h: Handshake, timeout: nat): Rc {
    if !h.tls then TLS_CONNECT_ERROR
    else
      var rc := Outcome(h.exchange, CONNACK, timeout);
      if rc == SUCCESS && !h.accepted then MQTT_CONNACK_ERROR else rc
  }

  /** The handshake is accepted and n topics are acknowledged, all in time. */
  predicate Recovers(r: Recovery, n: nat, timeout: nat) {
    ConnectOutcome(r.handshake, timeout) == SUCCESS && RoundsOutcome(r.rounds, n, timeout) == SUCCESS
  }

  function NextId(id: nat): nat {
    if id == MAX_PACKET_ID then 1 else id + 1
  }

  /** The id after n more requests. */
  function IdAfter(id: nat, n: nat): nat {
    if n == 0 then id else NextId(IdAfter(id, n - 1))
  }

  /** Codes that say something about the connection as a whole. */
  predicate IsSignal(rc: Rc) {
    rc == NETWORK_DISCONNECTED_ERROR || rc == NETWORK_ATTEMPTING_RECONNECT || rc == NETWORK_RECONNECTED
  }

  /** Read errors after which the connection is closed. */
  predicate IsTerminal(rc: Rc) {
    rc == NETWORK_SSL_READ_ERROR || rc == NETWORK_SSL_READ_TIMEOUT_ERROR
  }

  // ---------------------------------------------------------------------------
  // States of the client, and what was called

  /** The fields of a client at some time. */
  datatype Snapshot = Snapshot(
    state: ClientState, isPingOutstanding: bool, isAutoReconnectEnabled: bool,
    keepAliveInterval: nat, optionKeepAlive: nat, reconnectWait: nat, disconnects: nat, nextPacketId: nat,
    now: nat, pingTimer: nat, reconnectTimer: nat, handlers: seq<Slot>,
    commandTimeout: nat, minWait: nat, maxWait: nat,
    log: seq<Event>, outage: Option<Outage>, disturbed: bool, armed: nat, acked: set<string>)

  /** A call of the API that has returned. */
  datatype Made = Made(call: Api, before: Snapshot, after: Snapshot, rc: Rc)

  /** A run of the application's callbacks: the handlers of a message, or the disconnect handler. */
  datatype Callback =
    | OnMessage(topic: string, bodies: Bodies, called: seq<nat>, made: seq<Made>)
    | OnDisconnect(handler: Calls, made: seq<Made>)

  /** What a client has done and been through: keep-alive events, the calls made by the callback that
      runs, or outside of any, and the callbacks that have run. */
  datatype History = History(log: seq<Event>, made: seq<Made>, callbacks: seq<Callback>)

  /** It goes on, with no call made at this level. */
  predicate Grows(a: History, b: History) {
    a.log <= b.log && b.made == a.made && a.callbacks <= b.callbacks
  }

  /** More calls are made at this level. */
  function Calling(h: History, run: seq<Made>): History {
    h.(made := h.made + run)
  }

  function CallsIn(made: seq<Made>): (calls: seq<Api>)
    ensures |calls| == |made|
  {
    seq(|made|, i requires 0 <= i < |made| => made[i].call)
  }

  function Flatten(calls: Calls): seq<Api> {
    match calls
    case Done => []
    case Then(c, rest) => [c] + Flatten(rest)
  }

  /** The calls of the first n bodies. */
  function FirstBodies(bodies: Bodies, n: nat): seq<Api>
    decreases n
  {
    if n == 0 || bodies.NoBody? then [] else Flatten(bodies.calls) + FirstBodies(bodies.rest, n - 1)
  }

  /** The client after some calls made from state `a`. */
  function EndOf(made: seq<Made>, a: Snapshot): Snapshot {
    if made == [] then a else made[|made| - 1].after
  }

  /** The back-off is untouched. */
  predicate SameBackOff(a: Snapshot, b: Snapshot) {
    a.reconnectWait == b.reconnectWait && a.reconnectTimer == b.reconnectTimer && a.outage == b.outage &&
    a.disturbed == b.disturbed
  }

  /** The keep-alive interval of the options, once `keepAlive` was passed to connect. */
  function Chosen(keepAlive: Option<nat>, a: Snapshot): nat {
    if keepAlive.Some? then keepAlive.value else a.optionKeepAlive
  }

  // ---------------------------------------------------------------------------
  // What each call promises, from the state it finds to the one it leaves

  /** A session has begun: the ping timer runs for one interval, nothing is subscribed yet. */
  predicate SessionOpen(b: Snapshot) {
    && !b.isPingOutstanding && b.pingTimer == b.now + 1000 * b.keepAliveInterval && b.armed == b.keepAliveInterval
    && b.log != [] && b.log[|b.log| - 1] == SessionStarted(b.now)
    && b.acked == {}
  }

  /** Reading may change keep-alive fields, the clock and the log; nothing else while no callback
      calls the API. */
  predicate Waited(a: Snapshot, b: Snapshot) {
    b == a.(isPingOutstanding := b.isPingOutstanding, now := b.now, pingTimer := b.pingTimer, armed := b.armed,
            log := b.log)
  }

  /** What a connect has done, when no callback calls the API: the interval of the options is in force
      from the request on, and nothing else has changed but what waiting and the new session
      change. */
  predicate Connecting(keepAlive: Option<nat>, h: Handshake, a: Snapshot, b: Snapshot) {
    var k := Chosen(keepAlive, a);
    b == a.(state := b.state, optionKeepAlive := k, keepAliveInterval := if h.tls then k else a.keepAliveInterval,
            isPingOutstanding := b.isPingOutstanding, now := b.now, pingTimer := b.pingTimer, armed := b.armed,
            log := b.log, acked := b.acked)
  }

  /** Connect is refused unless disconnected. */
  predicate ConnectDone(keepAlive: Option<nat>, h: Handshake, a: Snapshot, b: Snapshot, rc: Rc) {
    if !MayConnect(a.state) then rc == NETWORK_ALREADY_CONNECTED_ERROR && b == a
    else
      && ConnectHeld(keepAlive, h, a, b, rc)
      && Settled(b.state)
      && (Calm(h.exchange.feed) ==> b.state == if rc == SUCCESS then CONNECTED_IDLE else DISCONNECTED_ERROR)
  }

  /** When no callback calls the API, it connects if and only if everything succeeds in time. */
  predicate ConnectHeld(keepAlive: Option<nat>, h: Handshake, a: Snapshot, b: Snapshot, rc: Rc) {
    && (rc == SUCCESS ==> Accepted(h) && SessionOpen(b))
    && (Calm(h.exchange.feed) ==>
         && rc == ConnectOutcome(h, a.commandTimeout)
         && Connecting(keepAlive, h, a, b)
         && (rc != SUCCESS ==> b.acked == a.acked))
  }

  predicate DisconnectDone(t: Teardown, a: Snapshot, b: Snapshot, rc: Rc) {
    if !IsConnected(a.state) then rc == NETWORK_DISCONNECTED_ERROR && b == a
    else if t.sent && t.destroyed then rc == SUCCESS && b == a.(state := DISCONNECTED_MANUALLY)
    else rc == FAILURE && b == a
  }

  /** A reconnect connects with the options there are, and resubscribes the slots before the first
      unused one. */
  predicate ReconnectDone(r: Recovery, a: Snapshot, b: Snapshot, rc: Rc) {
    if IsConnected(a.state) then rc == NETWORK_ALREADY_CONNECTED_ERROR && b == a
    else if !MayConnect(a.state) then rc == NETWORK_ATTEMPTING_RECONNECT && b == a
    else
      && rc != NETWORK_DISCONNECTED_ERROR
      && Settled(b.state) && (rc == NETWORK_RECONNECTED ==> b.state == CONNECTED_IDLE)
      && (Calm(r.handshake.exchange.feed) ==> HandshakeHeld(r, a, b, rc))
      && (CalmRecovery(r) ==> RecoveryHeld(r, a, b, rc))
  }

  /** When no callback calls the API during the handshake: if it fails, another attempt is pending. */
  predicate HandshakeHeld(r: Recovery, a: Snapshot, b: Snapshot, rc: Rc) {
    if ConnectOutcome(r.handshake, a.commandTimeout) == SUCCESS then
      && rc != NETWORK_ATTEMPTING_RECONNECT
      && (rc == NETWORK_RECONNECTED ==> AllServed(r.rounds, FirstFree(a.handlers)))
    else
      && rc == NETWORK_ATTEMPTING_RECONNECT && b.state == PENDING_RECONNECT
      && Connecting(None, r.handshake, a, b) && b.acked == a.acked
  }

  /** When none does so during the resubscription either: the code is that of the first request to
      fail, and after a success the server knows the filters of the slots that were renewed. */
  predicate RecoveryHeld(r: Recovery, a: Snapshot, b: Snapshot, rc: Rc) {
    ConnectOutcome(r.handshake, a.commandTimeout) == SUCCESS ==>
      var code := RoundsOutcome(r.rounds, FirstFree(a.handlers), a.commandTimeout);
      && rc == (if code == SUCCESS then NETWORK_RECONNECTED else code)
      && b.state == CONNECTED_IDLE
      && Connecting(None, r.handshake, a.(nextPacketId := b.nextPacketId), b)
      && (rc == NETWORK_RECONNECTED ==> b.acked == Renewed(a.handlers))
  }

  /** Publish, subscribe and unsubscribe are for an idle client, or from a callback. */
  predicate MayRequest(s: ClientState) {
    s == CONNECTED_IDLE || s == WAIT_FOR_CB_RETURN
  }

  predicate RefusedDone(a: Snapshot, b: Snapshot, rc: Rc) {
    b == a && rc == if IsConnected(a.state) then MQTT_CLIENT_NOT_IDLE_ERROR else NETWORK_DISCONNECTED_ERROR
  }

  predicate PublishDone(qos1: bool, x: Exchange, a: Snapshot, b: Snapshot, rc: Rc) {
    if !MayRequest(a.state) then RefusedDone(a, b, rc)
    else PublishHeld(qos1, x, a, b, rc) && (rc == SUCCESS ==> b.state == a.state)
  }

  /** A message of QoS 1 needs its acknowledgement. */
  predicate PublishHeld(qos1: bool, x: Exchange, a: Snapshot, b: Snapshot, rc: Rc) {
    if !qos1 then b == a && rc == if x.sent then SUCCESS else FAILURE
    else
      && (rc == SUCCESS ==> Served(x, PUBACK))
      && (Calm(x.feed) ==>
           rc == Outcome(x, PUBACK, a.commandTimeout) && Waited(a.(nextPacketId := NextId(a.nextPacketId)), b))
  }

  predicate SubscribeDone(filter: string, x: Exchange, a: Snapshot, b: Snapshot, rc: Rc) {
    if !MayRequest(a.state) then RefusedDone(a, b, rc)
    else SubscribeHeld(filter, x, a, b, rc) && (rc == SUCCESS ==> b.state == a.state)
  }

  /** A successful subscribe has filled the slot that was free first. */
  predicate SubscribeHeld(filter: string, x: Exchange, a: Snapshot, b: Snapshot, rc: Rc) {
    var i := FirstFree(a.handlers);
    && (rc == SUCCESS ==>
         && Served(x, SUBACK)
         && i < |b.handlers| && b.handlers[i] == Registered(filter, true) && filter in b.acked)
    && (i == |a.handlers| ==>
         rc == MQTT_MAX_SUBSCRIPTIONS_REACHED_ERROR && b == a.(nextPacketId := NextId(a.nextPacketId)))
    && (Calm(x.feed) && i < |a.handlers| ==>
         && rc == Outcome(x, SUBACK, a.commandTimeout)
         && Waited(Subscribed(filter, rc, a.(nextPacketId := NextId(a.nextPacketId))), b))
  }

  /** What a subscription does to the table and to what the server has acknowledged. */
  function Subscribed(filter: string, rc: Rc, a: Snapshot): Snapshot
    requires FirstFree(a.handlers) < |a.handlers|
  {
    if rc != SUCCESS then a
    else
      a.(handlers := a.handlers[FirstFree(a.handlers) := Registered(filter, true)], acked := a.acked + {filter})
  }

  predicate UnsubscribeDone(filter: string, x: Exchange, a: Snapshot, b: Snapshot, rc: Rc) {
    if !MayRequest(a.state) then RefusedDone(a, b, rc)
    else UnsubscribeHeld(filter, x, a, b, rc) && (rc == SUCCESS ==> b.state == a.state)
  }

  /** A successful unsubscribe has cleared every slot of the filter. */
  predicate UnsubscribeHeld(filter: string, x: Exchange, a: Snapshot, b: Snapshot, rc: Rc) {
    if filter !in Filters(a.handlers) then rc == FAILURE && b == a
    else
      && (rc == SUCCESS ==> Served(x, UNSUBACK) && filter !in Filters(b.handlers) && filter !in b.acked)
      && (Calm(x.feed) ==>
           && rc == Outcome(x, UNSUBACK, a.commandTimeout)
           && Waited(Unsubscribed(filter, rc, a.(nextPacketId := NextId(a.nextPacketId))), b))
  }

  /** What it does to the table and to what the server has acknowledged. */
  function Unsubscribed(filter: string, rc: Rc, a: Snapshot): Snapshot {
    if rc != SUCCESS then a else a.(handlers := Cleared(a.handlers, filter), acked := a.acked - {filter})
  }

  predicate ResubscribeDone(rounds: Rounds, a: Snapshot, b: Snapshot, rc: Rc) {
    if a.state != CONNECTED_IDLE then RefusedDone(a, b, rc)
    else
      && ResubscribeHeld(rounds, a, b, rc)
      && Settled(b.state) && (rc == SUCCESS ==> b.state == CONNECTED_IDLE)
  }

  /** One exchange for each slot before the first unused one, whose filters the server knows
      afterwards. */
  predicate ResubscribeHeld(rounds: Rounds, a: Snapshot, b: Snapshot, rc: Rc) {
    var n := FirstFree(a.handlers);
    && !IsSignal(rc)
    && (rc == SUCCESS ==> AllServed(rounds, n))
    && (CalmRounds(rounds) ==>
         && rc == RoundsOutcome(rounds, n, a.commandTimeout)
         && Resubscribing(a, b)
         && (rc == SUCCESS ==>
              b.acked == a.acked + Renewed(a.handlers) && b.nextPacketId == IdAfter(a.nextPacketId, n)))
  }

  /** A resubscription changes what waiting changes, the packet id, and what the server has
      acknowledged. */
  predicate Resubscribing(a: Snapshot, b: Snapshot) {
    Waited(a.(nextPacketId := b.nextPacketId, acked := b.acked), b)
  }

  /** The state an operation is in has been left for the one it found, unless a callback has moved the
      client, which makes a success an error. */
  predicate Restored(busy: ClientState, entry: ClientState, a: Snapshot, left: Rc, b: Snapshot, rc: Rc) {
    if a.state == busy then b == a.(state := entry) && rc == left
    else b == a && rc == if left == SUCCESS then MQTT_UNEXPECTED_CLIENT_STATE_ERROR else left
  }

  // ---------------------------------------------------------------------------
  // What yield promises

  /** One iteration of the yield loop that was run. */
  datatype Ran = Ran(turn: Turn, before: Snapshot, after: Snapshot, rc: Rc, done: bool)

  /** The connection has been given up: an outage begins, or yield ends. */
  predicate IsLost(b: Snapshot, rc: Rc, done: bool) {
    if b.isAutoReconnectEnabled then
      && rc == NETWORK_ATTEMPTING_RECONNECT && !done && b.state == PENDING_RECONNECT
      && b.reconnectWait == b.minWait && b.reconnectTimer == b.now + b.minWait
      && b.outage == Some(Outage(b.now, [])) && !b.disturbed
    else rc == NETWORK_DISCONNECTED_ERROR && done && b.state == DISCONNECTED_ERROR
  }

  /** A ping has been sent, and its timer runs for one interval. */
  function Pinged(a: Snapshot): Snapshot {
    a.(isPingOutstanding := true, pingTimer := a.now + 1000 * a.keepAliveInterval, armed := a.keepAliveInterval,
       log := a.log + [Checked(a.now), PingSent(a.now, a.keepAliveInterval)])
  }

  /** A ping answer has been read after `dt`: none is outstanding, and the timer runs for one interval. */
  function Ponged(a: Snapshot, dt: nat): Snapshot {
    a.(now := a.now + dt, isPingOutstanding := false, pingTimer := a.now + dt + 1000 * a.keepAliveInterval,
       armed := a.keepAliveInterval, log := a.log + [PingAnswered(a.now + dt)])
  }

  /** What one read does while no callback calls the API: time passes, and a ping may be answered. */
  function Heard(i: Incoming, a: Snapshot): Snapshot {
    if i.Reply? && i.packet == PINGRESP then Ponged(a, i.dt) else a.(now := a.now + i.dt)
  }

  /** A missing answer is logged. */
  function Missed(a: Snapshot): Snapshot {
    if a.isPingOutstanding then a.(log := a.log + [PingTimedOut(a.now)]) else a
  }

  /** One call of keep-alive: it does what KeepAliveStep decides. */
  predicate PingChecked(a: Snapshot, b: Snapshot, sent: bool, t: Teardown, rc: Rc) {
    match KeepAliveStep(a.keepAliveInterval, a.now, a.pingTimer, a.isPingOutstanding, sent)
    case Idle => rc == SUCCESS && b == a.(log := a.log + [Checked(a.now)])
    case Ping => rc == SUCCESS && b == Pinged(a)
    case Lost =>
      && rc == NETWORK_DISCONNECTED_ERROR && b.state == DISCONNECTED_ERROR && Missed(a).log <= b.log
      && (t.handler.Done? ==> b == Missed(a).(state := DISCONNECTED_ERROR))
  }

  /** Incrementing a 32-bit counter. */
  function Incremented(n: nat): nat {
    (n + 1) % 0x1_0000_0000
  }

  /** What yield does about a lost connection. */
  function GivenUp(a: Snapshot): Snapshot {
    var b := a.(state := DISCONNECTED_ERROR, disconnects := Incremented(a.disconnects));
    if !a.isAutoReconnectEnabled then b
    else
      b.(state := PENDING_RECONNECT, reconnectWait := a.minWait, reconnectTimer := a.now + a.minWait,
         outage := Some(Outage(a.now, [])), disturbed := false)
  }

  /** The connection is given up from state a, once the disconnect handler has run. */
  predicate LostDone(a: Snapshot, t: Teardown, b: Snapshot, rc: Rc, done: bool) {
    IsLost(b, rc, done) && (t.handler.Done? ==> b == GivenUp(a))
  }

  /** What follows the read: keep-alive, or the loss of the connection, or the end of yield. */
  predicate FinishDone(read: Rc, sent: bool, t: Teardown, a: Snapshot, b: Snapshot, rc: Rc, done: bool) {
    if read == SUCCESS then
      match KeepAliveStep(a.keepAliveInterval, a.now, a.pingTimer, a.isPingOutstanding, sent)
      case Idle => rc == SUCCESS && !done && b == a.(log := a.log + [Checked(a.now)])
      case Ping => rc == SUCCESS && !done && b == Pinged(a)
      case Lost => LostDone(Missed(a), t, b, rc, done)
    else if IsTerminal(read) then LostDone(a, t, b, rc, done)
    else rc == read && done && b == a
  }

  /** Doubling a 32-bit interval. */
  function Doubled(wait: nat): nat {
    (wait * 2) % 0x1_0000_0000
  }

  /** An attempt to reconnect, made only if the link is up.  The back-off is disturbed when a failed
      attempt has changed it. */
  ghost predicate AttemptDone(a: Snapshot, b: Snapshot, recovery: Recovery, linkUp: bool, rc: Rc) {
    if !linkUp then rc == NETWORK_PHYSICAL_LAYER_DISCONNECTED && b == a
    else exists c :: ReconnectDone(recovery, a, c, rc) && b == Attempted(a, c, rc)
  }

  function Attempted(a: Snapshot, c: Snapshot, rc: Rc): Snapshot {
    if rc == NETWORK_RECONNECTED then c.(state := YIELD_IN_PROGRESS)
    else if SameBackOff(a, c) then c
    else c.(disturbed := true)
  }

  /** Doubling the interval after an attempt that failed with some code. */
  predicate Redoubled(a: Snapshot, b: Snapshot, failure: Rc, rc: Rc) {
    && b == a.(reconnectWait := b.reconnectWait, reconnectTimer := b.reconnectTimer, outage := b.outage)
    && b.reconnectWait == Doubled(a.reconnectWait)
    && if b.reconnectWait > a.maxWait then
         rc == NETWORK_RECONNECT_TIMED_OUT_ERROR && b.reconnectTimer == a.reconnectTimer
       else rc == failure && b.reconnectTimer == b.now + b.reconnectWait
  }

  /** A retry whose delay has run out: an attempt, and when it fails, the next step of the back-off. */
  ghost predicate RetryDone(a: Snapshot, b: Snapshot, recovery: Recovery, linkUp: bool, rc: Rc) {
    || (rc == NETWORK_RECONNECTED && AttemptDone(a, b, recovery, linkUp, rc))
    || exists c, tried ::
         tried != NETWORK_RECONNECTED && AttemptDone(a, c, recovery, linkUp, tried) && Redoubled(c, b, tried, rc)
  }

  /** An iteration while a reconnect is pending. */
  ghost predicate PendingTurnDone(turn: Turn, a: Snapshot, b: Snapshot, rc: Rc, done: bool) {
    var due, later := a.now + turn.dt >= a.reconnectTimer, a.(now := a.now + turn.dt);
    if a.reconnectWait > a.maxWait then rc == NETWORK_RECONNECT_TIMED_OUT_ERROR && done && b == later
    else if !due then rc == NETWORK_ATTEMPTING_RECONNECT && !done && b == later
    else !done && RetryDone(later, b, turn.recovery, turn.linkUp, rc)
  }

  /** An iteration that reads a packet. */
  predicate ReadTurnDone(turn: Turn, a: Snapshot, b: Snapshot, rc: Rc, done: bool) {
    && rc != NETWORK_RECONNECTED
    && (Undisturbed(turn.read) ==>
         var c := Heard(turn.read, a.(now := a.now + turn.dt));
         FinishDone(CodeOf(turn.read), turn.pingSent, turn.teardown, c, b, rc, done))
  }

  ghost predicate TurnDone(turn: Turn, a: Snapshot, b: Snapshot, rc: Rc, done: bool) {
    if a.state == PENDING_RECONNECT then PendingTurnDone(turn, a, b, rc, done)
    else ReadTurnDone(turn, a, b, rc, done)
  }

  function TurnList(turns: Turns): (list: seq<Turn>)
    ensures list != []
  {
    match turns
    case LastTurn(t) => [t]
    case NextTurn(t, rest) => [t] + TurnList(rest)
  }

  /** Leaving the loop is decided after each iteration: by the iteration, or by the timer. */
  predicate Leaves(r: Ran, timer: nat) {
    r.done || r.after.now >= timer
  }

  /** Iterations run one after another from state `a`, each with the turn that comes next, and the loop
      not left before the last of them. */
  ghost predicate Runs(timer: nat, turns: Turns, a: Snapshot, ran: seq<Ran>) {
    && 0 < |ran| <= |TurnList(turns)|
    && ran[0].before == a
    && (forall i :: 0 < i < |ran| ==> ran[i].before == ran[i - 1].after)
    && (forall i :: 0 <= i < |ran| - 1 ==> !Leaves(ran[i], timer))
    && (forall i :: 0 <= i < |ran| ==> ran[i].turn == TurnList(turns)[i])
    && (forall i :: 0 <= i < |ran| ==> TurnDone(ran[i].turn, ran[i].before, ran[i].after, ran[i].rc, ran[i].done))
  }

  /** Iterations so far; `rest` begins with the turn of the last of them. */
  ghost predicate Ongoing(timer: nat, turns: Turns, a: Snapshot, ran: seq<Ran>, rest: Turns) {
    Runs(timer, turns, a, ran) && TurnList(turns)[|ran| - 1..] == TurnList(rest)
  }

  /** The loop of yield: it runs up to the first iteration after which it is left, and at least one;
      if the script runs out before, the rest of the time passes in silence. */
  ghost predicate LoopDone(timer: nat, turns: Turns, a: Snapshot, b: Snapshot, rc: Rc, ran: seq<Ran>) {
    && Runs(timer, turns, a, ran)
    && var last := ran[|ran| - 1];
       && rc == last.rc
       && if Leaves(last, timer) then b == last.after
          else |ran| == |TurnList(turns)| && b == last.after.(now := timer)
  }

  /** What yield returns, and the state it leaves, after its loop has ended in state c with code rc'. */
  predicate YieldClosed(c: Snapshot, rc': Rc, b: Snapshot, rc: Rc) {
    if rc' == NETWORK_DISCONNECTED_ERROR || rc' == NETWORK_ATTEMPTING_RECONNECT then b == c && rc == rc'
    else if c.state == YIELD_IN_PROGRESS then b == c.(state := CONNECTED_IDLE) && rc == rc'
    else b == c && rc == if rc' == SUCCESS then MQTT_UNEXPECTED_CLIENT_STATE_ERROR else rc'
  }

  /** Yield refuses to run, or runs its loop from the yielding or the pending state. */
  ghost predicate YieldRan(timeout: nat, turns: Turns, a: Snapshot, b: Snapshot, rc: Rc, ran: seq<Ran>, c: Snapshot) {
    if !MayYield(timeout, a.state) then
      b == a && ran == [] && rc == Refusal(timeout, a.state)
    else
      var entry := if a.state == PENDING_RECONNECT then a else a.(state := YIELD_IN_PROGRESS);
      && ran != [] && LoopDone(a.now + timeout, turns, entry, c, ran[|ran| - 1].rc, ran)
      && YieldClosed(c, ran[|ran| - 1].rc, b, rc)
      && Settled(b.state)
      && (rc == SUCCESS || rc == NETWORK_RECONNECTED ==> b.state == CONNECTED_IDLE)
      && (rc == NETWORK_DISCONNECTED_ERROR ==> b.state == DISCONNECTED_ERROR)
  }

  ghost predicate YieldDone(timeout: nat, turns: Turns, a: Snapshot, b: Snapshot, rc: Rc) {
    exists ran, c :: YieldRan(timeout, turns, a, b, rc, ran, c)
  }

  predicate MayYield(timeout: nat, s: ClientState) {
    timeout > 0 && (s == CONNECTED_IDLE || s == PENDING_RECONNECT)
  }

  /** What yield answers when it does not run. */
  function Refusal(timeout: nat, s: ClientState): Rc {
    if timeout == 0 then FAILURE
    else if s == DISCONNECTED_MANUALLY then NETWORK_MANUALLY_DISCONNECTED
    else if IsConnected(s) then MQTT_CLIENT_NOT_IDLE_ERROR
    else NETWORK_DISCONNECTED_ERROR
  }

  // ---------------------------------------------------------------------------
  // Sequences of calls

  /** A call has kept its promise. */
  ghost predicate Fulfils(call: Api, a: Snapshot, b: Snapshot, rc: Rc) {
    match call
    case Connect(k, h) => ConnectDone(k, h, a, b, rc)
    case Disconnect(t) => DisconnectDone(t, a, b, rc)
    case AttemptReconnect(r) => ReconnectDone(r, a, b, rc)
    case Publish(q, x) => PublishDone(q, x, a, b, rc)
    case Subscribe(f, x) => SubscribeDone(f, x, a, b, rc)
    case Unsubscribe(f, x) => UnsubscribeDone(f, x, a, b, rc)
    case Resubscribe(rounds) => ResubscribeDone(rounds, a, b, rc)
    case Yield(t, turns) => YieldDone(t, turns, a, b, rc)
    case SetAutoReconnect(on) => rc == SUCCESS && b == a.(isAutoReconnectEnabled := on)
  }

  /** Calls made one after another, from state `a` to state `b`, each of which kept its promise. */
  ghost predicate Linked(made: seq<Made>, a: Snapshot, b: Snapshot)
    decreases |made|
  {
    if made == [] then b == a
    else
      var m := made[|made| - 1];
      m.after == b && Fulfils(m.call, m.before, m.after, m.rc) && Linked(made[..|made| - 1], a, m.before)
  }

  /** What is left of the bodies after the first n. */
  function AfterBodies(bodies: Bodies, n: nat): Bodies
    decreases n
  {
    if n == 0 || bodies.NoBody? then bodies else AfterBodies(bodies.rest, n - 1)
  }

  /** The slots called among the first k, each with the table as it is when its turn comes: after the calls
      of the slots called before. */
  function CalledAt(topic: string, bodies: Bodies, made: seq<Made>, a: Snapshot, k: nat): seq<nat>
    decreases k
  {
    if k == 0 then []
    else
      var before := CalledAt(topic, bodies, made, a, k - 1);
      if IsCalledNow(topic, bodies, made, a, before, k - 1) then before + [k - 1] else before
  }

  predicate IsCalledNow(topic: string, bodies: Bodies, made: seq<Made>, a: Snapshot, before: seq<nat>, k: nat) {
    var m := |FirstBodies(bodies, |before|)|;
    var slots := EndOf(if m <= |made| then made[..m] else made, a).handlers;
    k < |slots| && IsCalled(slots[k], topic)
  }

  /** The handlers of a message have run, in state WAIT_FOR_CB_RETURN, making exactly the calls of their
      bodies, and the state found before is put back unless they have moved the client. */
  ghost predicate Delivered(c: Callback, topic: string, bodies: Bodies, a: Snapshot, b: Snapshot) {
    && c.OnMessage? && c.topic == topic && c.bodies == bodies
    && CallsIn(c.made) == FirstBodies(bodies, |c.called|)
    && c.called == CalledAt(topic, bodies, c.made, a.(state := WAIT_FOR_CB_RETURN), |a.handlers|)
    && var end := EndOf(c.made, a.(state := WAIT_FOR_CB_RETURN));
       && Linked(c.made, a.(state := WAIT_FOR_CB_RETURN), end)
       && b == if end.state == WAIT_FOR_CB_RETURN then end.(state := a.state) else end
  }

  /** A message has been delivered last, and acknowledged if the delivery was a success. */
  ghost predicate Received(cs: seq<Callback>, topic: string, qos1: bool, bodies: Bodies, sent: bool, a: Snapshot,
                           b: Snapshot, rc: Rc) {
    && cs != [] && Delivered(cs[|cs| - 1], topic, bodies, a, b)
    && rc == if !Returned(cs[|cs| - 1]) then MQTT_UNEXPECTED_CLIENT_STATE_ERROR
             else if qos1 && !sent then FAILURE
             else SUCCESS
  }

  /** The handlers have left the client waiting for them to return. */
  predicate Returned(c: Callback) {
    c.made == [] || c.made[|c.made| - 1].after.state == WAIT_FOR_CB_RETURN
  }

  /** The disconnect handler has run from state `a`. */
  ghost predicate Notified(c: Callback, handler: Calls, a: Snapshot, b: Snapshot) {
    && c.OnDisconnect? && c.handler == handler && CallsIn(c.made) == Flatten(handler)
    && Linked(c.made, a, EndOf(c.made, a))
    && b == EndOf(c.made, a).(state := DISCONNECTED_ERROR)
  }

  // ---------------------------------------------------------------------------
  // Parts of these calls

  /** The type read from a packet. */
  predicate Typed(i: Incoming, packet: Option<Packet>) {
    && (i.Reply? ==> packet.Some? && packet.value == i.packet)
    && (packet.Some? && packet.value != PUBLISH ==> i.Reply?)
  }

  /** A packet of the awaited type has arrived, in time if no callback calls the API. */
  predicate WaitDone(awaited: Packet, feed: Feed, timer: nat, a: Snapshot, b: Snapshot, rc: Rc) {
    && (rc == SUCCESS || rc == MQTT_REQUEST_TIMEOUT_ERROR)
    && (rc == SUCCESS ==> Answers(feed, awaited))
    && (Calm(feed) ==> Waited(a, b) && (rc == SUCCESS <==> InTime(feed, awaited, timer - a.now)))
  }

  /** A request and its reply. */
  predicate RequestDone(x: Exchange, reply: Packet, a: Snapshot, b: Snapshot, rc: Rc) {
    && (rc == SUCCESS ==> Served(x, reply))
    && (Calm(x.feed) ==> Waited(a, b) && rc == Outcome(x, reply, a.commandTimeout))
  }

  /** One request of a resubscription, of which n are left, for a slot. */
  predicate RenewDone(slot: Slot, n: nat, rounds: Rounds, rest: Rounds, a: Snapshot, b: Snapshot, rc: Rc)
    requires n > 0
  {
    && (rc == SUCCESS && AllServed(rest, n - 1) ==> AllServed(rounds, n))
    && (CalmRounds(rounds) ==>
         && CalmRounds(rest) && Resubscribing(a, b) && b.nextPacketId == NextId(a.nextPacketId)
         && RoundsOutcome(rounds, n, a.commandTimeout) ==
            (if rc != SUCCESS then rc else RoundsOutcome(rest, n - 1, a.commandTimeout))
         && (rc == SUCCESS && slot.Registered? ==> b.acked == a.acked + {slot.filter}))
  }

  /** What connect has done before it waits for the reply. */
  predicate Begun(keepAlive: Option<nat>, h: Handshake, a: Snapshot, b: Snapshot) {
    var k := Chosen(keepAlive, a);
    b == a.(optionKeepAlive := k, keepAliveInterval := if h.tls then k else a.keepAliveInterval)
  }
}
