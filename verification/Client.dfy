/** The client state machine of the single-threaded build. */
module Client {
  import opened ReturnCodes
  import opened Wrappers

  import opened ClientCalls
  import opened ClientSpec
  import opened ClientTurns
  import opened HandlerTable
  import opened TopicMatch

  class Client {
    var state: ClientState
    var isPingOutstanding: bool
    var isAutoReconnectEnabled: bool
    var keepAliveInterval: nat
    var optionKeepAlive: nat
    var reconnectWait: nat
    var disconnects: nat
    var nextPacketId: nat
    var now: nat
    var pingTimer: nat
    var reconnectTimer: nat
    var handlers: seq<Slot>
    const commandTimeout: nat
    const minWait: nat
    const maxWait: nat
    ghost var log: seq<Event>
    ghost var outage: Option<Outage>
    ghost var disturbed: bool
    ghost var armed: nat
    /** Filters the server has acknowledged since the connection was made, and not been told to drop. */
    ghost var acked: set<string>
    /** Calls made so far by the callback that runs, or outside of any. */
    ghost var made: seq<Made>
    /** The callbacks that have run. */
    ghost var callbacks: seq<Callback>

    ghost function Snap(): Snapshot
      reads this
    {
      Snapshot(state, isPingOutstanding, isAutoReconnectEnabled, keepAliveInterval, optionKeepAlive, reconnectWait,
               disconnects, nextPacketId, now, pingTimer, reconnectTimer, handlers, commandTimeout, minWait, maxWait,
               log, outage, disturbed, armed, acked)
    }

    lemma SnapIs()
      ensures var s := Snap();
        && s.state == state && s.now == now && s.commandTimeout == commandTimeout && s.handlers == handlers
        && s.reconnectWait == reconnectWait && s.reconnectTimer == reconnectTimer && s.maxWait == maxWait
        && s.keepAliveInterval == keepAliveInterval && s.isPingOutstanding == isPingOutstanding
        && s.pingTimer == pingTimer && s.disturbed == disturbed && s.minWait == minWait
        && s.isAutoReconnectEnabled == isAutoReconnectEnabled && s.disconnects == disconnects && s.log == log
        && s.nextPacketId == nextPacketId && s.acked == acked
    {
    }

    lemma StepIs()
      requires Valid()
      ensures state == CONNECTED_IDLE || state == YIELD_IN_PROGRESS ==> InStep()
      ensures Settled(state) && IsConnected(state) ==> InStep()
      ensures |handlers| == NUM_HANDLERS && 2 * maxWait < 0x1_0000_0000
    {
      hide PingsTracked, InBackOff, OnPace;
    }

    ghost function Hist(): History
      reads this`log, this`made, this`callbacks
    {
      History(log, made, callbacks)
    }

    lemma HistIs()
      ensures Hist().log == log && Hist().made == made && Hist().callbacks == callbacks
    {
    }

    /** The ping timer was armed last with the keep-alive interval in force, and keep-alive keeps
        pace with it. */
    ghost predicate InStep()
      reads this`armed, this`keepAliveInterval, this`log, this`isPingOutstanding, this`pingTimer
    {
      armed == keepAliveInterval && OnPace(log, keepAliveInterval, isPingOutstanding, pingTimer)
    }

    /** The ping timer never runs for longer than the interval it was armed with, which is the one
        in force whenever the client is idle or yielding.  While the outage detected last is
        handled by yield alone, its retries back off.  It is disturbed when a callback that runs
        during a reconnect attempt changes the back-off. */
    ghost predicate Valid()
      reads this
    {
      && 1 <= nextPacketId <= MAX_PACKET_ID
      && |handlers| == NUM_HANDLERS
      && 0 < minWait && 2 * maxWait < 0x1_0000_0000
      && PingsTracked(log, isPingOutstanding, pingTimer)
      && pingTimer <= now + 1000 * armed
      && (state == CONNECTED_IDLE || state == YIELD_IN_PROGRESS ==> InStep())
      && (outage.Some? && !disturbed ==>
           InBackOff(outage.value, reconnectWait, reconnectTimer, minWait, maxWait))
    }

    /** aws_iot_mqtt_init, after the TLS layer has been initialised. */
    constructor (autoReconnect: bool, timeout: nat, min: nat, max: nat)
      requires 0 < min && 2 * max < 0x1_0000_0000
      ensures Valid() && state == INITIALIZED && isAutoReconnectEnabled == autoReconnect
      ensures log == [] && outage == None && !isPingOutstanding && keepAliveInterval == 0
      ensures acked == {} && forall k :: 0 <= k < |handlers| ==> handlers[k].Unused?
      ensures minWait == min && maxWait == max && commandTimeout == timeout && optionKeepAlive == 60
      ensures made == [] && callbacks == []
    {
      state := INITIALIZED;
      isPingOutstanding, isAutoReconnectEnabled := false, autoReconnect;
      keepAliveInterval, optionKeepAlive := 0, 60;
      reconnectWait, disconnects, nextPacketId := 0, 0, 1;
      now, pingTimer, reconnectTimer := 0, 0, 0;
      handlers, acked := seq(NUM_HANDLERS, _ => Unused), {};
      commandTimeout, minWait, maxWait := timeout, min, max;
      log, outage, disturbed, armed, made, callbacks := [], None, false, 0, [], [];
    }

    /** Compare-and-set of the client state. */
    method SetState(expected: ClientState, next: ClientState) returns (rc: Rc)
      requires Valid() && (state == expected && (next == CONNECTED_IDLE || next == YIELD_IN_PROGRESS) ==> InStep())
      modifies this`state
      ensures Valid()
      ensures Snap() == old(Snap()).(state := state) && (old(InStep()) ==> InStep())
      ensures if old(state) == expected then rc == SUCCESS && state == next
              else rc == MQTT_UNEXPECTED_CLIENT_STATE_ERROR && state == old(state)
    {
      hide PingsTracked, InBackOff, OnPace;
      if expected == state {
        state := next;
        rc := SUCCESS;
      } else {
        rc := MQTT_UNEXPECTED_CLIENT_STATE_ERROR;
      }
    }

    /** Time passes. */
    method Pass(dt: nat)
      requires Valid()
      modifies this`now
      ensures Valid() && now == old(now) + dt && Snap() == old(Snap()).(now := now)
      ensures old(InStep()) ==> InStep()
      ensures Settled(state) && IsConnected(state) ==> InStep()
    {
      hide PingsTracked, InBackOff, OnPace;
      now := now + dt;
    }

    /** The client is disconnected, whatever it was doing. */
    method ForceError()
      requires Valid()
      modifies this`state
      ensures Valid() && state == DISCONNECTED_ERROR && Snap() == old(Snap()).(state := DISCONNECTED_ERROR)
    {
      hide PingsTracked, InBackOff, OnPace;
      state := DISCONNECTED_ERROR;
    }

    method GetNextPacketId() returns (id: nat)
      requires Valid()
      modifies this`nextPacketId
      ensures Valid() && id == nextPacketId == NextId(old(nextPacketId))
      ensures Snap() == old(Snap()).(nextPacketId := id) && (old(InStep()) ==> InStep())
    {
      hide PingsTracked, InBackOff, OnPace;
      nextPacketId := if MAX_PACKET_ID == nextPacketId then 1 else nextPacketId + 1;
      id := nextPacketId;
    }

    /** A list of API calls made one after another, outermost or inside a callback. */
    method RunCalls(calls: Calls) returns (ghost run: seq<Made>)
      requires Valid()
      modifies this
      ensures Valid() && Grows(Calling(old(Hist()), run), Hist())
      ensures CallsIn(run) == Flatten(calls) && Linked(run, old(Snap()), Snap())
      ensures old(InStep()) && IsConnected(state) ==> InStep()
      ensures state == old(state) || Settled(state)
      ensures Settled(old(state)) ==> Settled(state)
      ensures calls.Done? ==> unchanged(this)
      decreases calls, 1
    {
      hide Valid, InStep, Grows, Hist, Fulfils, Linked, CallsIn, Flatten, Snap, Settled, IsConnected;
      var rest := calls;
      run := [];
      NothingLinked(Snap());
      Stands(Hist());
      NothingFlat(calls);
      while rest.Then?
        invariant old(InStep()) && IsConnected(state) ==> InStep()
        invariant Valid() && Grows(Calling(old(Hist()), run), Hist()) && (rest == calls || rest < calls)
        invariant CallsIn(run) + Flatten(rest) == Flatten(calls) && Linked(run, old(Snap()), Snap())
        invariant state == old(state) || Settled(state)
        invariant Settled(old(state)) ==> Settled(state)
        invariant calls.Done? ==> rest.Done? && unchanged(this)
        decreases rest
      {
        ghost var before, h := Snap(), Hist();
        var rc := RunCall(rest.call);
        ghost var m := Made(rest.call, before, Snap(), rc);
        LinkedNext(run, old(Snap()), m);
        FlattenStep(CallsIn(run), rest, calls);
        CallsOn(old(Hist()), run, h, [m], Hist());
        run := run + [m];
        rest := rest.rest;
      }
      NothingLeft(CallsIn(run));
    }

    /** A callback starts: its calls are recorded apart. */
    ghost method BeginCallback() returns (outer: seq<Made>)
      requires Valid()
      modifies this`made
      ensures Valid() && Snap() == old(Snap()) && (old(InStep()) ==> InStep())
      ensures Hist() == old(Hist()).(made := []) && outer == old(made)
    {
      hide PingsTracked, InBackOff, OnPace;
      outer := made;
      made := [];
    }

    /** A callback has returned. */
    ghost method EndCallback(c: Callback, outer: seq<Made>)
      requires Valid()
      modifies this`made, this`callbacks
      ensures Valid() && Snap() == old(Snap()) && (old(InStep()) ==> InStep())
      ensures Hist() == old(Hist()).(made := outer, callbacks := old(callbacks) + [c])
    {
      hide PingsTracked, InBackOff, OnPace;
      made := outer;
      callbacks := callbacks + [c];
    }

    /** A call has returned. */
    ghost method Record(m: Made)
      requires Valid()
      modifies this`made
      ensures Valid() && Snap() == old(Snap()) && (old(InStep()) ==> InStep())
      ensures Hist() == Calling(old(Hist()), [m])
    {
      hide PingsTracked, InBackOff, OnPace;
      made := made + [m];
    }

    /** One API call, whatever the network does and whatever its callbacks call: it keeps its promise,
        and returns with the state it found, or in a settled one.  So an outermost call made in a
        settled state never leaves an operation or a callback marked as in progress. */
    method RunCall(call: Api) returns (rc: Rc)
      requires Valid()
      modifies this
      ensures Valid() && Grows(Calling(old(Hist()), [Made(call, old(Snap()), Snap(), rc)]), Hist())
      ensures Fulfils(call, old(Snap()), Snap(), rc)
      ensures old(InStep()) && IsConnected(state) ==> InStep()
      ensures Settled(state) && IsConnected(state) ==> InStep()
      ensures state == old(state) || Settled(state)
      ensures Settled(old(state)) ==> Settled(state)
      decreases call, 1
    {
      hide Valid, InStep, Grows, Hist, Fulfils, Snap, Settled, IsConnected;
      ghost var before := Snap();
      SnapIs();
      ghost var h := Hist();
      rc := MakeCall(call);
      SnapIs();
      GrowsCalling(h, Hist(), [Made(call, before, Snap(), rc)]);
      Record(Made(call, before, Snap(), rc));
      SnapIs();
    }

    /** The call itself. */
    method MakeCall(call: Api) returns (rc: Rc)
      requires Valid()
      modifies this
      ensures Valid() && Grows(old(Hist()), Hist())
      ensures Fulfils(call, old(Snap()), Snap(), rc)
      ensures old(InStep()) && IsConnected(state) ==> InStep()
      ensures Settled(state) && IsConnected(state) ==> InStep()
      ensures state == old(state) || Settled(state)
      ensures Settled(old(state)) ==> Settled(state)
      decreases call, 0
    {
      hide Valid, InStep, Grows, Hist, Snap, ConnectDone, DisconnectDone, ReconnectDone, PublishDone, SubscribeDone;
      hide UnsubscribeDone, ResubscribeDone, YieldRan, Settled, IsConnected;
      Stands(Hist());
      match call {
      case Connect(k, h) => rc := ConnectCall(k, h);
      case Disconnect(t) => rc := DisconnectCall(t);
      case AttemptReconnect(r) => rc := AttemptReconnectCall(r);
      case Publish(q, x) => rc := PublishCall(q, x);
      case Subscribe(f, x) => rc := SubscribeCall(f, x);
      case Unsubscribe(f, x) => rc := UnsubscribeCall(f, x);
      case Resubscribe(r) => rc := ResubscribeCall(r);
      case Yield(t, turns) =>
        ghost var ran, c;
        rc, ran, c := YieldCall(t, turns);
      case SetAutoReconnect(b) =>
        Automate(b);
        SnapIs();
        rc := SUCCESS;
      }
      StepIs();
    }

    /** aws_iot_mqtt_autoreconnect_set_status */
    method Automate(on: bool)
      requires Valid()
      modifies this`isAutoReconnectEnabled
      ensures Valid() && Snap() == old(Snap()).(isAutoReconnectEnabled := on)
    {
      hide PingsTracked, InBackOff, OnPace;
      isAutoReconnectEnabled := on;
    }

    /** Calls the handler of one slot, if the message is for it. */
    method CallHandler(itr: nat, topic: string, bodies: Bodies)
      returns (called: bool, rest: Bodies, ghost run: seq<Made>)
      requires Valid() && itr < NUM_HANDLERS
      modifies this
      ensures Valid() && Grows(Calling(old(Hist()), run), Hist()) && (rest == bodies || rest < bodies)
      ensures Linked(run, old(Snap()), Snap())
      ensures CallsIn(run) == if called && bodies.Body? then Flatten(bodies.calls) else []
      ensures rest == if called && bodies.Body? then bodies.rest else bodies
      ensures old(InStep()) && IsConnected(state) ==> InStep()
      ensures Settled(state) && IsConnected(state) ==> InStep()
      ensures state == old(state) || Settled(state)
      ensures Settled(old(state)) ==> Settled(state)
      ensures called <==> IsCalled(old(handlers)[itr], topic)
      ensures !called ==> unchanged(this)
      ensures CallsNothing(bodies) ==> CallsNothing(rest) && unchanged(this)
      decreases bodies, 1
    {
      hide Valid, InStep, Grows, Hist, IsCalled, Linked, CallsIn, Snap, Settled, IsConnected;
      StepIs();
      Stands(Hist());
      rest := bodies;
      run := [];
      NothingLinked(Snap());
      called := CheckSlot(handlers[itr], topic);
      if called && rest.Body? {
        run := RunCalls(rest.calls);
        rest := rest.rest;
        StepIs();
      }
    }

    /** The loop of deliver_message: one slot after another, as the table is when its turn comes.  It
        makes exactly the calls of the bodies of the slots called. */
    method CallHandlers(topic: string, bodies: Bodies) returns (called: seq<nat>, ghost run: seq<Made>)
      requires Valid()
      modifies this
      ensures Valid() && Grows(Calling(old(Hist()), run), Hist())
      ensures CallsIn(run) == FirstBodies(bodies, |called|) && Linked(run, old(Snap()), Snap())
      ensures called == CalledAt(topic, bodies, run, old(Snap()), |old(handlers)|)
      ensures called == [] <==> Called(old(handlers), topic, |old(handlers)|) == []
      ensures old(InStep()) && IsConnected(state) ==> InStep()
      ensures state == old(state) || Settled(state)
      ensures CallsNothing(bodies) ==> unchanged(this) && called == Called(handlers, topic, |handlers|)
      decreases bodies, 2
    {
      hide Valid, InStep, Grows, Hist, Settled, IsConnected, CallsNothing, Linked, CallsIn, Snap, Flatten, IsCalled;
      hide Delivering;
      Stands(Hist());
      StepIs();
      SnapIs();
      ghost var a := Snap();
      DeliveryBegins(topic, bodies, a);
      var rest := bodies;
      called, run := [], [];
      for itr := 0 to NUM_HANDLERS
        invariant old(InStep()) && IsConnected(state) ==> InStep()
        invariant Valid() && Grows(Calling(old(Hist()), run), Hist()) && (rest == bodies || rest < bodies)
        invariant Delivering(topic, bodies, a, itr, called, run, rest, Snap())
        invariant state == old(state) || Settled(state)
        invariant CallsNothing(bodies) ==> CallsNothing(rest) && unchanged(this)
      {
        StepIs();
        SnapIs();
        ghost var b, h, left, next := Snap(), Hist(), rest, [];
        var matched;
        matched, rest, next := CallHandler(itr, topic, rest);
        DeliveryGoesOn(topic, bodies, a, itr, called, run, left, b, matched, next, rest, Snap());
        CallsOn(old(Hist()), run, h, next, Hist());
        run := run + next;
        if matched { called := called + [itr]; }
      }
      NothingCalled(topic, bodies, a, NUM_HANDLERS, called, run, rest, Snap());
      HowDelivered(topic, bodies, a, NUM_HANDLERS, called, run, rest, Snap());
    }

    /** The handlers of a message are called under the callback state, which is left for the state found
        before unless they have moved the client. */
    method CallBack(topic: string, bodies: Bodies)
      returns (rc: Rc, called: seq<nat>, ghost run: seq<Made>)
      requires Valid()
      modifies this
      ensures Valid() && Grows(Calling(old(Hist()), run), Hist())
      ensures Delivered(OnMessage(topic, bodies, called, run), topic, bodies, old(Snap()), Snap())
      ensures rc == if Returned(OnMessage(topic, bodies, called, run)) then SUCCESS
                    else MQTT_UNEXPECTED_CLIENT_STATE_ERROR
      ensures called == [] <==> Called(old(handlers), topic, |old(handlers)|) == []
      ensures old(InStep()) && IsConnected(state) ==> InStep()
      ensures if rc == SUCCESS then state == old(state) else Settled(state)
      ensures CallsNothing(bodies) ==>
        rc == SUCCESS && Snap() == old(Snap()) && called == Called(handlers, topic, |handlers|)
      decreases bodies, 3
    {
      hide Valid, InStep, Grows, Hist, Called, CallsNothing, Linked, CallsIn, CalledAt, FirstBodies, Snap, Delivered;
      hide Returned;
      StepIs();
      SnapIs();
      ghost var a := Snap();
      var entry := state;
      rc := SetState(entry, WAIT_FOR_CB_RETURN);
      SnapIs();
      called, run := CallHandlers(topic, bodies);
      ghost var b := Snap();
      SnapIs();
      rc := SetState(WAIT_FOR_CB_RETURN, entry);
      DeliveryEnds(topic, bodies, called, run, a, b, Snap());
      StepIs();
    }

    /** deliver_message: the handlers of the slots called make their calls, and delivery succeeds if and
        only if they leave the callback state as it is. */
    method Deliver(topic: string, bodies: Bodies) returns (rc: Rc, called: seq<nat>)
      requires Valid()
      modifies this
      ensures Valid() && Grows(old(Hist()), Hist())
      ensures callbacks != [] && callbacks[|callbacks| - 1].OnMessage? && callbacks[|callbacks| - 1].called == called
      ensures called == [] <==> Called(old(handlers), topic, |old(handlers)|) == []
      ensures Delivered(callbacks[|callbacks| - 1], topic, bodies, old(Snap()), Snap())
      ensures rc == if Returned(callbacks[|callbacks| - 1]) then SUCCESS else MQTT_UNEXPECTED_CLIENT_STATE_ERROR
      ensures old(InStep()) && IsConnected(state) ==> InStep()
      ensures if rc == SUCCESS then state == old(state) else Settled(state)
      ensures CallsNothing(bodies) ==>
        rc == SUCCESS && Snap() == old(Snap()) && called == Called(handlers, topic, |handlers|)
      decreases bodies, 4
    {
      hide Valid, InStep, Grows, Hist, Called, CallsNothing, Delivered, Returned, Settled, IsConnected, Snap;
      SnapIs();
      HistIs();
      ghost var h := Hist();
      ghost var outer := BeginCallback();
      SnapIs();
      ghost var run;
      rc, called, run := CallBack(topic, bodies);
      SnapIs();
      HistIs();
      ghost var e := OnMessage(topic, bodies, called, run);
      CalledBack(h, run, Hist(), e);
      EndCallback(e, outer);
      SnapIs();
      HistIs();
    }

    /** No ping is outstanding any more, and the ping timer starts again. */
    method StopPing(ghost e: Event)
      requires Valid() && (e.PingAnswered? || e.SessionStarted?) && e.at == now
      modifies this`isPingOutstanding, this`pingTimer, this`armed, this`log
      ensures Valid() && InStep() && !isPingOutstanding && pingTimer == now + 1000 * keepAliveInterval
      ensures log == old(log) + [e] && Grows(old(Hist()), Hist())
      ensures Snap() == old(Snap()).(isPingOutstanding := false, pingTimer := now + 1000 * keepAliveInterval,
                                     armed := keepAliveInterval, log := old(log) + [e])
    {
      hide PingsTracked, InBackOff, OnPace;
      LogAnswer(log, e, isPingOutstanding, pingTimer, now + 1000 * keepAliveInterval);
      AnswerOnPace(log, e, keepAliveInterval);
      isPingOutstanding := false;
      pingTimer, armed := now + 1000 * keepAliveInterval, keepAliveInterval;
      log := log + [e];
    }

    /** handle_publish, once the message has been deserialized: it is delivered, and acknowledged if the
        delivery succeeds. */
    method HandlePublish(topic: string, qos1: bool, bodies: Bodies, sent: bool) returns (rc: Rc)
      requires Valid()
      modifies this
      ensures Valid() && Grows(old(Hist()), Hist())
      ensures Received(callbacks, topic, qos1, bodies, sent, old(Snap()), Snap(), rc)
      ensures old(InStep()) && IsConnected(state) ==> InStep()
      ensures rc == SUCCESS ==> state == old(state)
      ensures state == old(state) || Settled(state)
      ensures !IsSignal(rc) && rc != MQTT_REQUEST_TIMEOUT_ERROR
      ensures CallsNothing(bodies) ==> Snap() == old(Snap()) && rc == if qos1 && !sent then FAILURE else SUCCESS
      decreases bodies, 5
    {
      hide Valid, InStep, Grows, Hist, Delivered, Snap, Returned;
      Stands(Hist());
      StepIs();
      var called;
      rc, called := Deliver(topic, bodies);
      if rc != SUCCESS { return; }
      if qos1 && !sent { rc := FAILURE; }
      StepIs();
    }

    /** A message has been read. */
    method ReadMessage(dt: nat, topic: string, qos1: bool, bodies: Bodies, sent: bool) returns (rc: Rc)
      requires Valid()
      modifies this
      ensures Valid() && Grows(old(Hist()), Hist())
      ensures Received(callbacks, topic, qos1, bodies, sent, old(Snap()).(now := old(now) + dt), Snap(), rc)
      ensures old(InStep()) && IsConnected(state) ==> InStep()
      ensures Settled(state) && IsConnected(state) ==> InStep()
      ensures rc == SUCCESS ==> state == old(state)
      ensures state == old(state) || Settled(state)
      ensures !IsSignal(rc) && rc != MQTT_REQUEST_TIMEOUT_ERROR
      ensures CallsNothing(bodies) ==>
        Snap() == old(Snap()).(now := old(now) + dt) && rc == if qos1 && !sent then FAILURE else SUCCESS
      decreases bodies, 6
    {
      hide Valid, InStep, Grows, Hist, Snap, Received;
      Stands(Hist());
      StepIs();
      Pass(dt);
      rc := HandlePublish(topic, qos1, bodies, sent);
      StepIs();
    }

    /** Another packet has been read. */
    method ReadReply(dt: nat, packet: Plain) returns (rc: Rc)
      requires Valid()
      modifies this`now, this`isPingOutstanding, this`pingTimer, this`armed, this`log
      ensures Valid() && Grows(old(Hist()), Hist())
      ensures old(InStep()) ==> InStep()
      ensures Settled(state) && IsConnected(state) ==> InStep()
      ensures rc == if packet == OTHER then MQTT_RX_MESSAGE_PACKET_TYPE_INVALID_ERROR else SUCCESS
      ensures Snap() == if packet == PINGRESP then Ponged(old(Snap()), dt) else old(Snap()).(now := old(now) + dt)
    {
      hide Valid, InStep, Grows, Hist, Snap, Settled, IsConnected;
      Stands(Hist());
      SnapIs();
      Pass(dt);
      SnapIs();
      rc := SUCCESS;
      match packet
      case PINGRESP =>
        StopPing(PingAnswered(now));
      case OTHER =>
        rc := MQTT_RX_MESSAGE_PACKET_TYPE_INVALID_ERROR;
      case _ =>
    }

    /** Reads one packet and handles it; `packet` is its type, if one was read. */
    method CycleRead(i: Incoming) returns (rc: Rc, packet: Option<Packet>)
      requires Valid()
      modifies this
      ensures Valid() && Grows(old(Hist()), Hist())
      ensures old(InStep()) && IsConnected(state) ==> InStep()
      ensures Settled(state) && IsConnected(state) ==> InStep()
      ensures rc == SUCCESS ==> state == old(state)
      ensures state == old(state) || Settled(state)
      ensures !IsSignal(rc) && rc != MQTT_REQUEST_TIMEOUT_ERROR
      ensures Undisturbed(i) ==> Snap() == Heard(i, old(Snap())) && rc == CodeOf(i)
      ensures i.Message? ==>
        Received(callbacks, i.topic, i.qos1, i.bodies, i.pubackSent, old(Snap()).(now := old(now) + i.dt), Snap(), rc)
      ensures Typed(i, packet)
      decreases i, 1
    {
      hide Valid, InStep, Grows, Hist, Snap, Settled, IsConnected, Received;
      Stands(Hist());
      SnapIs();
      match i
      case Silence(dt) =>
        Pass(dt);
        rc, packet := SUCCESS, None;
      case Failed(dt, failure) =>
        Pass(dt);
        rc, packet := failure, None;
      case Reply(dt, p) =>
        packet := Some(p);
        rc := ReadReply(dt, p);
      case BadPublish(dt) =>
        Pass(dt);
        rc, packet := FAILURE, Some(PUBLISH);
      case Message(dt, topic, qos1, bodies, sent) =>
        packet := Some(PUBLISH);
        rc := ReadMessage(dt, topic, qos1, bodies, sent);
    }

    /** Reads until the awaited packet, a timeout or the end of the timer. */
    method WaitForRead(awaited: Packet, feed: Feed, timer: nat) returns (rc: Rc)
      requires Valid() && awaited != PUBLISH && awaited != OTHER
      modifies this
      ensures Valid() && Grows(old(Hist()), Hist())
      ensures old(InStep()) && IsConnected(state) ==> InStep()
      ensures state == old(state) || Settled(state)
      ensures !IsSignal(rc)
      ensures WaitDone(awaited, feed, timer, old(Snap()), Snap(), rc)
      ensures rc == MQTT_REQUEST_TIMEOUT_ERROR ==> now >= timer
      decreases feed, 1
    {
      hide Valid, InStep, Grows, Hist, Settled, IsConnected, Snap, Waiting, WaitDone, Undisturbed, Unanswering;
      hide Heard, Received, CodeOf;
      Stands(Hist());
      SnapIs();
      ghost var a := Snap();
      WaitBegins(awaited, feed, timer, a);
      var rest := feed;
      var last: Option<Packet> := None;
      rc := SUCCESS;
      while last != Some(awaited)
        invariant old(InStep()) && IsConnected(state) ==> InStep()
        invariant Valid() && Grows(old(Hist()), Hist()) && (rest == feed || rest < feed)
        invariant state == old(state) || Settled(state)
        invariant !IsSignal(rc) && rc != MQTT_REQUEST_TIMEOUT_ERROR
        invariant last == Some(awaited) ==> rc == SUCCESS
        invariant Waiting(awaited, feed, timer, a, rest, last == Some(awaited), Snap())
        decreases rest
      {
        SnapIs();
        ghost var b, h := Snap(), Hist();
        if rest.Quiet? && now < timer { Pass(timer - now); }
        SnapIs();
        if now >= timer {
          WaitFails(awaited, feed, timer, a, rest, b, Snap());
          return MQTT_REQUEST_TIMEOUT_ERROR;
        }
        var packet;
        rc, packet := CycleRead(rest.first);
        if packet.Some? && packet.value == awaited { ReplyCode(rest.first); }
        WaitGoesOn(awaited, feed, timer, a, rest, b, packet, Snap());
        GrowsOn(old(Hist()), h, Hist());
        if packet.Some? { last := packet; }
        rest := rest.rest;
      }
      WaitSucceeds(awaited, feed, timer, a, rest, Snap());
    }

    /** set_connect_params, for the keep-alive option. */
    method TakeOption(keepAlive: Option<nat>)
      requires Valid() && state == CONNECTING
      modifies this`optionKeepAlive
      ensures Valid() && Snap() == old(Snap()).(optionKeepAlive := Chosen(keepAlive, old(Snap())))
    {
      hide PingsTracked, InBackOff, OnPace;
      if keepAlive.Some? { optionKeepAlive := keepAlive.value; }
    }

    /** The interval of the options is in force from now on. */
    method SetInterval()
      requires Valid() && state == CONNECTING
      modifies this`keepAliveInterval
      ensures Valid() && Snap() == old(Snap()).(keepAliveInterval := old(Snap()).optionKeepAlive)
    {
      hide PingsTracked, InBackOff, OnPace;
      keepAliveInterval := optionKeepAlive;
    }

    /** The server has accepted: the ping timer starts, and nothing is subscribed. */
    method StartSession()
      requires Valid()
      modifies this`isPingOutstanding, this`pingTimer, this`armed, this`log, this`acked
      ensures Valid() && InStep() && SessionOpen(Snap()) && Grows(old(Hist()), Hist())
      ensures Snap() == old(Snap()).(isPingOutstanding := false, pingTimer := Snap().pingTimer, armed := Snap().armed,
                                     log := log, acked := {})
    {
      hide PingsTracked, InBackOff, OnPace;
      acked := {};
      StopPing(SessionStarted(now));
    }

    /** What internal_connect does before it waits for the reply. */
    method BeginConnect(keepAlive: Option<nat>, h: Handshake) returns (rc: Rc)
      requires Valid() && state == CONNECTING
      modifies this`optionKeepAlive, this`keepAliveInterval
      ensures Valid() && Begun(keepAlive, h, old(Snap()), Snap())
      ensures rc == if !h.tls then TLS_CONNECT_ERROR else if !h.exchange.sent then FAILURE else SUCCESS
    {
      hide Valid, InStep, Grows, Hist, Snap;
      Stands(Hist());
      TakeOption(keepAlive);
      if !h.tls { return TLS_CONNECT_ERROR; }
      SetInterval();
      rc := if h.exchange.sent then SUCCESS else FAILURE;
    }

    /** internal_connect */
    method InternalConnect(keepAlive: Option<nat>, h: Handshake) returns (rc: Rc)
      requires Valid() && state == CONNECTING
      modifies this
      ensures Valid() && Grows(old(Hist()), Hist())
      ensures state == old(state) || Settled(state)
      ensures rc == SUCCESS ==> InStep()
      ensures ConnectHeld(keepAlive, h, old(Snap()), Snap(), rc)
      ensures Calm(h.exchange.feed) ==> state == old(state)
      decreases h, 1
    {
      hide Valid, InStep, Grows, Hist, Snap, ConnectHeld, WaitDone, SessionOpen, Calm, Settled, IsConnected;
      Stands(Hist());
      SnapIs();
      ghost var a := Snap();
      var timer := now + commandTimeout;
      rc := BeginConnect(keepAlive, h);
      ghost var b := Snap();
      if rc != SUCCESS {
        ConnectStops(keepAlive, h, a, b, rc);
        return;
      }
      rc := WaitForRead(CONNACK, h.exchange.feed, timer);
      ghost var c, waited, mid := Snap(), rc, Hist();
      SnapIs();
      WaitKeeps(CONNACK, h.exchange.feed, timer, b, c, rc);
      if rc == SUCCESS {
        if !h.exchange.replyValid {
          rc := FAILURE;
        } else if !h.accepted {
          rc := MQTT_CONNACK_ERROR;
        } else {
          StartSession();
          GrowsOn(old(Hist()), mid, Hist());
        }
      }
      SnapIs();
      ConnectEnds(keepAlive, h, a, b, waited, c, Snap());
    }

    /** aws_iot_mqtt_connect */
    method ConnectCall(keepAlive: Option<nat>, h: Handshake) returns (rc: Rc)
      requires Valid()
      modifies this
      ensures Valid() && Grows(old(Hist()), Hist())
      ensures ConnectDone(keepAlive, h, old(Snap()), Snap(), rc)
      ensures rc == SUCCESS ==> InStep()
      ensures state == old(state) || Settled(state)
      ensures old(InStep()) && IsConnected(state) ==> InStep()
      decreases h, 2
    {
      hide Valid, InStep, Grows, Hist, Snap, Calm, ConnectHeld;
      Stands(Hist());
      StepIs();
      SnapIs();
      var entry := state;
      if !MayConnect(entry) { return NETWORK_ALREADY_CONNECTED_ERROR; }
      var cas := SetState(entry, CONNECTING);
      ghost var a := Snap();
      rc := InternalConnect(keepAlive, h);
      ghost var b := Snap();
      if rc != SUCCESS {
        cas := SetState(CONNECTING, DISCONNECTED_ERROR);
      } else {
        cas := SetState(CONNECTING, CONNECTED_IDLE);
      }
      SnapIs();
      ConnectedBetween(keepAlive, h, old(Snap()), a, b, Snap(), rc);
      StepIs();
    }

    /** aws_iot_mqtt_disconnect; reads nothing, so no callback can run. */
    method DisconnectCall(t: Teardown) returns (rc: Rc)
      requires Valid()
      modifies this`state
      ensures Valid() && DisconnectDone(t, old(Snap()), Snap(), rc)
      ensures state == old(state) || Settled(state)
    {
      hide PingsTracked, InBackOff, OnPace;
      var entry := state;
      if !IsConnected(state) { return NETWORK_DISCONNECTED_ERROR; }
      rc := SetState(entry, DISCONNECTING);
      if rc != SUCCESS { return; }
      rc := if t.sent && t.destroyed then SUCCESS else FAILURE;
      state := if rc != SUCCESS then entry else DISCONNECTED_MANUALLY;
    }

    /** The part publish, subscribe and unsubscribe share: send, wait for the reply, read it. */
    method Request(x: Exchange, reply: Packet) returns (rc: Rc)
      requires Valid() && reply != PUBLISH && reply != OTHER
      modifies this
      ensures Valid() && Grows(old(Hist()), Hist())
      ensures old(InStep()) && IsConnected(state) ==> InStep()
      ensures state == old(state) || Settled(state)
      ensures !IsSignal(rc)
      ensures RequestDone(x, reply, old(Snap()), Snap(), rc)
      decreases x, 1
    {
      hide Valid, InStep, Grows, Hist, Snap, Settled, IsConnected, Waited, InTime, Answers, Calm;
      Stands(Hist());
      SnapIs();
      WaitedNone(Snap());
      var timer := now + commandTimeout;
      if !x.sent { return FAILURE; }
      rc := WaitForRead(reply, x.feed, timer);
      SnapIs();
      if rc != SUCCESS { return; }
      if !x.replyValid { rc := FAILURE; }
    }

    /** Publish, subscribe, unsubscribe and resubscribe leave the state they are in for the one they
        found, unless a callback has moved the client. */
    method Restore(busy: ClientState, entry: ClientState, left: Rc) returns (rc: Rc)
      requires Valid() && (state == busy && (entry == CONNECTED_IDLE || entry == YIELD_IN_PROGRESS) ==> InStep())
      modifies this`state
      ensures Valid() && Restored(busy, entry, old(Snap()), left, Snap(), rc)
    {
      hide Valid, InStep, Grows, Hist, Snap, Restored;
      SnapIs();
      ghost var a := Snap();
      rc := left;
      var cas := SetState(busy, entry);
      if rc == SUCCESS && cas != SUCCESS { rc := cas; }
      IsRestored(busy, entry, a, left, cas, state, rc);
    }

    /** aws_iot_mqtt_publish */
    method PublishCall(qos1: bool, x: Exchange) returns (rc: Rc)
      requires Valid()
      modifies this
      ensures Valid() && Grows(old(Hist()), Hist())
      ensures PublishDone(qos1, x, old(Snap()), Snap(), rc)
      ensures old(InStep()) && IsConnected(state) ==> InStep()
      ensures state == old(state) || Settled(state)
      decreases x, 3
    {
      hide Valid, InStep, Grows, Hist, Snap, PublishHeld;
      Stands(Hist());
      StepIs();
      SnapIs();
      ghost var a := Snap();
      if !IsConnected(state) { return NETWORK_DISCONNECTED_ERROR; }
      var entry := state;
      if entry != CONNECTED_IDLE && entry != WAIT_FOR_CB_RETURN { return MQTT_CLIENT_NOT_IDLE_ERROR; }
      rc := SetState(entry, PUBLISH_IN_PROGRESS);
      rc := InternalPublish(qos1, x);
      ghost var b, left := Snap(), rc;
      SnapIs();
      rc := Restore(PUBLISH_IN_PROGRESS, entry, rc);
      PublishRestored(qos1, x, a, b, left, Snap(), rc);
      SnapIs();
      StepIs();
    }

    /** internal_publish */
    method InternalPublish(qos1: bool, x: Exchange) returns (rc: Rc)
      requires Valid()
      modifies this
      ensures Valid() && Grows(old(Hist()), Hist())
      ensures old(InStep()) && IsConnected(state) ==> InStep()
      ensures state == old(state) || Settled(state)
      ensures PublishHeld(qos1, x, old(Snap()), Snap(), rc)
      decreases x, 2
    {
      hide Valid, InStep, Grows, Hist, Snap, RequestDone, PublishHeld, Settled, IsConnected;
      Stands(Hist());
      ghost var a := Snap();
      if !qos1 {
        rc := if x.sent then SUCCESS else FAILURE;
        PublishedOnce(x, a, rc);
        return;
      }
      SnapIs();
      var id := GetNextPacketId();
      rc := Request(x, PUBACK);
      PublishEnds(x, a, Snap(), rc);
    }

    /** get_free_message_handler_index */
    method GetFreeHandlerIndex() returns (itr: nat)
      requires Valid()
      ensures itr == FirstFree(handlers)
    {
      hide PingsTracked, InBackOff, OnPace;
      itr := 0;
      while itr < NUM_HANDLERS
        invariant itr <= NUM_HANDLERS
        invariant forall k :: 0 <= k < itr ==> handlers[k].Registered?
      {
        if handlers[itr].Unused? { return; }
        itr := itr + 1;
      }
    }

    /** aws_iot_mqtt_subscribe */
    method SubscribeCall(filter: string, x: Exchange) returns (rc: Rc)
      requires Valid()
      modifies this
      ensures Valid() && Grows(old(Hist()), Hist())
      ensures SubscribeDone(filter, x, old(Snap()), Snap(), rc)
      ensures old(InStep()) && IsConnected(state) ==> InStep()
      ensures state == old(state) || Settled(state)
      decreases x, 3
    {
      hide Valid, InStep, Grows, Hist, Snap, SubscribeHeld;
      Stands(Hist());
      StepIs();
      SnapIs();
      ghost var a := Snap();
      if !IsConnected(state) { return NETWORK_DISCONNECTED_ERROR; }
      var entry := state;
      if entry != CONNECTED_IDLE && entry != WAIT_FOR_CB_RETURN { return MQTT_CLIENT_NOT_IDLE_ERROR; }
      rc := SetState(entry, SUBSCRIBE_IN_PROGRESS);
      rc := InternalSubscribe(filter, x);
      ghost var b, left := Snap(), rc;
      SnapIs();
      rc := Restore(SUBSCRIBE_IN_PROGRESS, entry, rc);
      SubscribeRestored(filter, x, a, b, left, Snap(), rc);
      SnapIs();
      StepIs();
    }

    /** internal_subscribe: the slot is chosen before the request, and filled after the reply. */
    method InternalSubscribe(filter: string, x: Exchange) returns (rc: Rc)
      requires Valid()
      modifies this
      ensures Valid() && Grows(old(Hist()), Hist())
      ensures old(InStep()) && IsConnected(state) ==> InStep()
      ensures state == old(state) || Settled(state)
      ensures SubscribeHeld(filter, x, old(Snap()), Snap(), rc)
      decreases x, 2
    {
      hide Valid, InStep, Grows, Hist, Snap, RequestDone, SubscribeHeld, FirstFree, Settled, IsConnected;
      Stands(Hist());
      StepIs();
      SnapIs();
      ghost var a := Snap();
      var id := GetNextPacketId();
      SnapIs();
      var index := GetFreeHandlerIndex();
      if NUM_HANDLERS <= index {
        NoSlotFree(filter, x, a, Snap());
        return MQTT_MAX_SUBSCRIPTIONS_REACHED_ERROR;
      }
      rc := Request(x, SUBACK);
      StepIs();
      SnapIs();
      ghost var b := Snap();
      if rc == SUCCESS { FillSlot(index, filter); }
      SnapIs();
      SubscribeEnds(filter, x, a, b, Snap(), rc);
    }

    /** A slot is filled, and the server has acknowledged its filter. */
    method FillSlot(index: nat, filter: string)
      requires Valid() && index < NUM_HANDLERS
      modifies this`handlers, this`acked
      ensures Valid() && |old(handlers)| == NUM_HANDLERS
      ensures Snap() == old(Snap()).(handlers := old(handlers)[index := Registered(filter, true)],
                                     acked := old(acked) + {filter})
    {
      hide PingsTracked, InBackOff, OnPace;
      handlers := handlers[index := Registered(filter, true)];
      acked := acked + {filter};
    }

    /** The loop that looks for a filter. */
    method IsRegistered(filter: string) returns (found: bool)
      requires Valid()
      ensures found <==> filter in Filters(handlers)
    {
      hide PingsTracked, InBackOff, OnPace;
      found := false;
      for i := 0 to NUM_HANDLERS
        invariant found <==> exists k :: 0 <= k < i && HasFilter(handlers[k], filter)
      {
        if handlers[i].Registered? && handlers[i].filter == filter { found := true; }
      }
      assert filter in Filters(handlers) <==> exists k :: 0 <= k < |handlers| && HasFilter(handlers[k], filter);
    }

    /** The loop that clears the slots of a filter. */
    method ClearSlots(filter: string)
      requires Valid()
      modifies this`handlers
      ensures Valid() && handlers == Cleared(old(handlers), filter)
    {
      hide PingsTracked, InBackOff, OnPace;
      for i := 0 to NUM_HANDLERS
        invariant |handlers| == NUM_HANDLERS
        invariant forall k :: 0 <= k < i ==> handlers[k] == Cleared(old(handlers), filter)[k]
        invariant forall k :: i <= k < NUM_HANDLERS ==> handlers[k] == old(handlers)[k]
      {
        if handlers[i].Registered? && handlers[i].filter == filter {
          handlers := handlers[i := Unused];
        }
      }
    }

    /** The slots of a filter are cleared, and the server has been told. */
    method DropFilter(filter: string)
      requires Valid()
      modifies this`handlers, this`acked
      ensures Valid()
      ensures Snap() == old(Snap()).(handlers := Cleared(old(handlers), filter), acked := old(acked) - {filter})
    {
      hide PingsTracked, InBackOff, OnPace, Cleared;
      ClearSlots(filter);
      acked := acked - {filter};
    }

    /** aws_iot_mqtt_unsubscribe */
    method UnsubscribeCall(filter: string, x: Exchange) returns (rc: Rc)
      requires Valid()
      modifies this
      ensures Valid() && Grows(old(Hist()), Hist())
      ensures UnsubscribeDone(filter, x, old(Snap()), Snap(), rc)
      ensures old(InStep()) && IsConnected(state) ==> InStep()
      ensures state == old(state) || Settled(state)
      decreases x, 3
    {
      hide Valid, InStep, Grows, Hist, Snap, UnsubscribeHeld;
      Stands(Hist());
      StepIs();
      SnapIs();
      ghost var a := Snap();
      if !IsConnected(state) { return NETWORK_DISCONNECTED_ERROR; }
      var entry := state;
      if entry != CONNECTED_IDLE && entry != WAIT_FOR_CB_RETURN { return MQTT_CLIENT_NOT_IDLE_ERROR; }
      rc := SetState(entry, UNSUBSCRIBE_IN_PROGRESS);
      rc := InternalUnsubscribe(filter, x);
      ghost var b, left := Snap(), rc;
      SnapIs();
      rc := Restore(UNSUBSCRIBE_IN_PROGRESS, entry, rc);
      UnsubscribeRestored(filter, x, a, b, left, Snap(), rc);
      SnapIs();
      StepIs();
    }

    /** internal_unsubscribe: every slot of the filter is cleared after the reply. */
    method InternalUnsubscribe(filter: string, x: Exchange) returns (rc: Rc)
      requires Valid()
      modifies this
      ensures Valid() && Grows(old(Hist()), Hist())
      ensures old(InStep()) && IsConnected(state) ==> InStep()
      ensures state == old(state) || Settled(state)
      ensures UnsubscribeHeld(filter, x, old(Snap()), Snap(), rc)
      decreases x, 2
    {
      hide Valid, InStep, Grows, Hist, Snap, RequestDone, UnsubscribeHeld, Filters, Cleared, Settled, IsConnected;
      Stands(Hist());
      SnapIs();
      ghost var a := Snap();
      var known := IsRegistered(filter);
      if !known {
        NotSubscribed(filter, x, a);
        return FAILURE;
      }
      var id := GetNextPacketId();
      rc := Request(x, UNSUBACK);
      SnapIs();
      ghost var b := Snap();
      if rc == SUCCESS { DropFilter(filter); }
      SnapIs();
      UnsubscribeEnds(filter, x, a, b, Snap(), rc);
    }

    /** One request of a resubscription, of which n are left, for the slot as it is when its turn
        comes. */
    method RenewSlot(itr: nat, ghost n: nat, rounds: Rounds) returns (rc: Rc, rest: Rounds)
      requires Valid() && itr < |handlers| && n > 0
      modifies this
      ensures Valid() && Grows(old(Hist()), Hist()) && (rest == rounds || rest < rounds)
      ensures old(InStep()) && IsConnected(state) ==> InStep()
      ensures state == old(state) || Settled(state)
      ensures !IsSignal(rc)
      ensures RenewDone(old(handlers)[itr], n, rounds, rest, old(Snap()), Snap(), rc)
      decreases rounds, 1
    {
      hide Valid, InStep, Grows, Hist, Snap, RequestDone, RenewDone, Settled, IsConnected;
      Stands(Hist());
      SnapIs();
      ghost var a, slot := Snap(), handlers[itr];
      var id := GetNextPacketId();
      if rounds.NoRound? {
        NoneLeft(slot, n, rounds, a, Snap());
        return FAILURE, rounds;
      }
      rc := Request(rounds.first, SUBACK);
      rest := rounds.rest;
      ghost var b := Snap();
      SnapIs();
      if rc == SUCCESS && slot.Registered? { Acknowledge(slot.filter); }
      OneRenewed(slot, n, rounds, a, b, Snap(), rc);
    }

    /** The server has acknowledged a filter. */
    ghost method Acknowledge(filter: string)
      requires Valid()
      modifies this`acked
      ensures Valid() && Snap() == old(Snap()).(acked := old(acked) + {filter})
    {
      hide PingsTracked, InBackOff, OnPace;
      acked := acked + {filter};
    }

    /** internal_resubscribe: one exchange for each slot before the first one not in use. */
    method InternalResubscribe(rounds: Rounds) returns (rc: Rc)
      requires Valid() && state == RESUBSCRIBE_IN_PROGRESS
      modifies this
      ensures Valid() && Grows(old(Hist()), Hist())
      ensures old(InStep()) && IsConnected(state) ==> InStep()
      ensures state == RESUBSCRIBE_IN_PROGRESS || Settled(state)
      ensures ResubscribeHeld(rounds, old(Snap()), Snap(), rc)
      decreases rounds, 2
    {
      hide Valid, InStep, Grows, Hist, Snap, FirstFree, Renewing, RenewDone, ResubscribeHeld, Settled, IsConnected;
      Stands(Hist());
      SnapIs();
      StepIs();
      ghost var a := Snap();
      var existing := GetFreeHandlerIndex();
      RenewBegins(rounds, a, existing);
      rc := SUCCESS;
      var rest, itr := rounds, 0;
      ghost var left := existing;
      while itr < existing && rc == SUCCESS
        invariant old(InStep()) && IsConnected(state) ==> InStep()
        invariant Valid() && Grows(old(Hist()), Hist()) && (rest == rounds || rest < rounds)
        invariant state == RESUBSCRIBE_IN_PROGRESS || Settled(state)
        invariant !IsSignal(rc) && itr + left == existing
        invariant Renewing(rounds, a, itr, left, rest, rc, Snap())
        decreases left
      {
        StepIs();
        SnapIs();
        ghost var b, h, round := Snap(), Hist(), rest;
        rc, rest := RenewSlot(itr, left, rest);
        StepIs();
        RenewGoesOn(rounds, a, itr, left, round, b, rest, Snap(), rc);
        GrowsOn(old(Hist()), h, Hist());
        itr, left := itr + 1, left - 1;
      }
      RenewEnds(rounds, a, itr, left, rest, rc, Snap());
    }

    /** aws_iot_mqtt_resubscribe */
    method ResubscribeCall(rounds: Rounds) returns (rc: Rc)
      requires Valid()
      modifies this
      ensures Valid() && Grows(old(Hist()), Hist())
      ensures ResubscribeDone(rounds, old(Snap()), Snap(), rc)
      ensures state == old(state) || Settled(state)
      ensures old(InStep()) && IsConnected(state) ==> InStep()
      decreases rounds, 3
    {
      hide Valid, InStep, Grows, Hist, Snap, ResubscribeHeld;
      Stands(Hist());
      StepIs();
      SnapIs();
      ghost var a := Snap();
      if !IsConnected(state) { return NETWORK_DISCONNECTED_ERROR; }
      if state != CONNECTED_IDLE { return MQTT_CLIENT_NOT_IDLE_ERROR; }
      rc := SetState(CONNECTED_IDLE, RESUBSCRIBE_IN_PROGRESS);
      SnapIs();
      rc := InternalResubscribe(rounds);
      ghost var b, left := Snap(), rc;
      SnapIs();
      rc := Restore(RESUBSCRIBE_IN_PROGRESS, CONNECTED_IDLE, rc);
      ResubscribeRestored(rounds, a, b, left, Snap(), rc);
      SnapIs();
      StepIs();
    }

    /** aws_iot_mqtt_attempt_reconnect; no options are passed to connect. */
    method AttemptReconnectCall(r: Recovery) returns (rc: Rc)
      requires Valid()
      modifies this
      ensures Valid() && Grows(old(Hist()), Hist())
      ensures ReconnectDone(r, old(Snap()), Snap(), rc)
      ensures state == old(state) || Settled(state)
      ensures old(InStep()) && IsConnected(state) ==> InStep()
      decreases r, 1
    {
      hide Valid, InStep, Grows, Hist, Calm, CalmRounds, Served, AllServed, RoundsOutcome, Outcome, FirstFree, Renewed;
      hide Snap, ConnectDone, ResubscribeDone, ReconnectDone;
      Stands(Hist());
      StepIs();
      SnapIs();
      if IsConnected(state) {
        ReconnectRefused(r, Snap());
        return NETWORK_ALREADY_CONNECTED_ERROR;
      }
      ghost var a := Snap();
      rc := ConnectCall(None, r.handshake);
      SnapIs();
      ghost var b, connected, h := Snap(), rc, Hist();
      if state != CONNECTED_IDLE {
        var cas := SetState(DISCONNECTED_ERROR, PENDING_RECONNECT);
        SnapIs();
        ReconnectFails(r, a, b, connected, Snap());
        return NETWORK_ATTEMPTING_RECONNECT;
      }
      rc := ResubscribeCall(r.rounds);
      GrowsOn(old(Hist()), h, Hist());
      ReconnectEnds(r, a, b, connected, Snap(), rc);
      if rc != SUCCESS { return; }
      rc := NETWORK_RECONNECTED;
      StepIs();
    }

    /** The state in which the disconnect handler is called. */
    ghost function Dropped(t: Teardown): Snapshot
      reads this
    {
      var next := if IsConnected(state) && t.sent && t.destroyed then DISCONNECTED_MANUALLY else DISCONNECTED_ERROR;
      Snap().(state := next)
    }

    /** Disconnects, by force if need be. */
    method Drop(t: Teardown)
      requires Valid()
      modifies this`state
      ensures Valid() && Snap() == old(Dropped(t))
      ensures Snap().(state := DISCONNECTED_ERROR) == old(Snap()).(state := DISCONNECTED_ERROR)
    {
      hide Valid, InStep, Grows, Hist;
      var rc := DisconnectCall(t);
      if rc != SUCCESS { ForceError(); }
    }

    /** The disconnect handler is called, and the client settles in the error state whatever it did. */
    method Notify(handler: Calls) returns (ghost run: seq<Made>)
      requires Valid()
      modifies this
      ensures Valid() && Grows(Calling(old(Hist()), run), Hist()) && state == DISCONNECTED_ERROR
      ensures Notified(OnDisconnect(handler, run), handler, old(Snap()), Snap())
      ensures handler.Done? ==> Snap() == old(Snap()).(state := DISCONNECTED_ERROR)
      decreases handler, 2
    {
      hide Valid, InStep, Grows, Hist, Linked, CallsIn, Flatten, Snap, Settled, IsConnected;
      ghost var before := Snap();
      run := RunCalls(handler);
      LinkedEnds(run, before, Snap());
      ForceError();
    }

    /** _aws_iot_mqtt_handle_disconnect: disconnects, lets the application know, and settles in the error
        state. */
    method HandleDisconnect(t: Teardown) returns (rc: Rc)
      requires Valid()
      modifies this
      ensures Valid() && Grows(old(Hist()), Hist())
      ensures rc == NETWORK_DISCONNECTED_ERROR && state == DISCONNECTED_ERROR
      ensures callbacks != [] && Notified(callbacks[|callbacks| - 1], t.handler, old(Dropped(t)), Snap())
      ensures t.handler.Done? ==> Snap() == old(Snap()).(state := DISCONNECTED_ERROR)
      decreases t, 1
    {
      hide Valid, InStep, Grows, Hist, Notified, Settled, Snap, IsConnected, Dropped;
      HistIs();
      ghost var h := Hist();
      Drop(t);
      ghost var outer := BeginCallback();
      ghost var run := Notify(t.handler);
      SnapIs();
      HistIs();
      ghost var e := OnDisconnect(t.handler, run);
      CalledBack(h, run, Hist(), e);
      EndCallback(e, outer);
      SnapIs();
      HistIs();
      rc := NETWORK_DISCONNECTED_ERROR;
    }

    /** A call of keep-alive that finds nothing to do. */
    method PassCheck()
      requires Valid() && (keepAliveInterval == 0 || now < pingTimer)
      modifies this`log
      ensures Valid() && Grows(old(Hist()), Hist()) && Snap() == old(Snap()).(log := old(log) + [Checked(now)])
    {
      hide PingsTracked, InBackOff, OnPace;
      LogCheck(log, now, isPingOutstanding, pingTimer);
      CheckOnPace(log, keepAliveInterval, isPingOutstanding, pingTimer, now);
      log := log + [Checked(now)];
    }

    /** A ping has been sent: the timer starts to wait for its answer. */
    method AwaitPong()
      requires Valid() && keepAliveInterval > 0 && now >= pingTimer && !isPingOutstanding
      modifies this`isPingOutstanding, this`pingTimer, this`armed, this`log
      ensures Valid() && Grows(old(Hist()), Hist()) && Snap() == Pinged(old(Snap()))
    {
      hide PingsTracked, InBackOff, OnPace;
      LogCheck(log, now, false, pingTimer);
      LogPing(log + [Checked(now)], now, keepAliveInterval, pingTimer);
      PingOnPace(log, keepAliveInterval, pingTimer, now);
      isPingOutstanding := true;
      pingTimer, armed := now + 1000 * keepAliveInterval, keepAliveInterval;
      log := log + [Checked(now)] + [PingSent(now, keepAliveInterval)];
    }

    /** The outstanding ping has not been answered. */
    method LogMissed()
      requires Valid() && now >= pingTimer && isPingOutstanding
      modifies this`log
      ensures Valid() && Grows(old(Hist()), Hist()) && Snap() == old(Snap()).(log := old(log) + [PingTimedOut(now)])
    {
      hide PingsTracked, InBackOff, OnPace;
      LogTimeout(log, now, pingTimer);
      TimeoutOnPace(log, keepAliveInterval, true, pingTimer, now);
      log := log + [PingTimedOut(now)];
    }

    /** _aws_iot_mqtt_keep_alive: the decision is KeepAliveStep. */
    method KeepAlive(pingSent: bool, t: Teardown) returns (rc: Rc)
      requires Valid()
      modifies this
      ensures Valid() && Grows(old(Hist()), Hist())
      ensures PingChecked(old(Snap()), Snap(), pingSent, t, rc)
      decreases t, 2
    {
      hide Valid, InStep, Grows, Hist, Settled, IsConnected, Snap, Notified, Pinged;
      Stands(Hist());
      SnapIs();
      if keepAliveInterval == 0 || now < pingTimer {
        PassCheck();
        return SUCCESS;
      }
      if isPingOutstanding {
        LogMissed();
        SnapIs();
        HistIs();
        ghost var h := Hist();
        rc := HandleDisconnect(t);
        GrowsOn(old(Hist()), h, Hist());
        GrowsLog(h, Hist());
        SnapIs();
        HistIs();
        return;
      }
      if !pingSent {
        HistIs();
        rc := HandleDisconnect(t);
        GrowsLog(old(Hist()), Hist());
        SnapIs();
        HistIs();
        return;
      }
      AwaitPong();
      rc := SUCCESS;
    }

    /** _aws_iot_mqtt_handle_reconnect */
    method HandleReconnect(linkUp: bool, recovery: Recovery) returns (rc: Rc)
      requires Valid() && state == PENDING_RECONNECT && reconnectWait <= maxWait
      modifies this
      ensures Valid() && Grows(old(Hist()), Hist())
      ensures old(now) < old(reconnectTimer) ==> rc == NETWORK_ATTEMPTING_RECONNECT && Snap() == old(Snap())
      ensures old(now) >= old(reconnectTimer) ==> RetryDone(old(Snap()), Snap(), recovery, linkUp, rc)
      ensures if rc == NETWORK_RECONNECTED then state == YIELD_IN_PROGRESS else Settled(state)
      ensures rc != NETWORK_DISCONNECTED_ERROR
      decreases recovery, 3
    {
      hide Valid, InStep, Grows, Hist, Snap, AttemptDone;
      Stands(Hist());
      StepIs();
      SnapIs();
      if now < reconnectTimer { return NETWORK_ATTEMPTING_RECONNECT; }
      ghost var start, a := now, Snap();
      rc := TryReconnect(linkUp, recovery);
      ghost var b, tried := Snap(), rc;
      if rc == NETWORK_RECONNECTED {
        return;
      }
      SnapIs();
      ReadyToRetry(a, b, recovery, linkUp, rc);
      rc := RetryLater(rc, start, linkUp);
      RetryFails(a, b, recovery, linkUp, tried, Snap(), rc);
    }

    /** The attempt of handle_reconnect, made only if the link is up. */
    method TryReconnect(linkUp: bool, recovery: Recovery) returns (rc: Rc)
      requires Valid() && state == PENDING_RECONNECT
      modifies this
      ensures Valid() && Grows(old(Hist()), Hist())
      ensures AttemptDone(old(Snap()), Snap(), recovery, linkUp, rc)
      ensures if rc == NETWORK_RECONNECTED then state == YIELD_IN_PROGRESS else Settled(state)
      ensures rc != NETWORK_DISCONNECTED_ERROR
      decreases recovery, 2
    {
      hide Valid, InStep, Grows, Hist, Snap, AttemptDone, ReconnectDone;
      Stands(Hist());
      StepIs();
      SnapIs();
      ghost var a := Snap();
      if !linkUp {
        NotAttempted(a, recovery);
        return NETWORK_PHYSICAL_LAYER_DISCONNECTED;
      }
      rc := AttemptReconnectCall(recovery);
      SnapIs();
      ghost var b, back := Snap(), rc;
      AttemptedFrom(a, b, recovery, rc);
      StepIs();
      if rc == NETWORK_RECONNECTED {
        rc := SetState(CONNECTED_IDLE, YIELD_IN_PROGRESS);
        if rc != SUCCESS { return; }
        AttemptEnds(a, b, recovery, NETWORK_RECONNECTED);
        return NETWORK_RECONNECTED;
      }
      if !SameBackOff(a, b) { Disturb(); }
      AttemptEnds(a, b, recovery, rc);
      StepIs();
    }

    /** A callback has changed the back-off. */
    ghost method Disturb()
      requires Valid()
      modifies this`disturbed
      ensures Valid() && Snap() == old(Snap()).(disturbed := true)
    {
      hide PingsTracked, InBackOff, OnPace;
      disturbed := true;
    }

    /** The failed branch of handle_reconnect: the interval doubles, and the next delay is armed
        unless it exceeds the maximum. */
    method DoubleWait(failure: Rc, ghost start: nat, ghost attempted: bool) returns (rc: Rc)
      requires Valid()
      requires !disturbed ==> reconnectWait <= maxWait && reconnectTimer <= start
      modifies this`reconnectWait, this`reconnectTimer, this`outage
      ensures Valid() && reconnectWait == Doubled(old(reconnectWait))
      ensures if reconnectWait > maxWait then
                rc == NETWORK_RECONNECT_TIMED_OUT_ERROR && reconnectTimer == old(reconnectTimer)
              else rc == failure && reconnectTimer == now + reconnectWait
      ensures outage == if old(outage).None? then None else
                var o := old(outage).value;
                Some(o.(retries := o.retries + [Retry(start, attempted, reconnectWait, now)]))
    {
      hide PingsTracked, InBackOff, OnPace, Doubled;
      ghost var wait, timer := reconnectWait, reconnectTimer;
      SmallDouble(reconnectWait);
      reconnectWait := reconnectWait * 2 % 0x1_0000_0000;
      if outage.Some? {
        ghost var o, r := outage.value, Retry(start, attempted, reconnectWait, now);
        outage := Some(o.(retries := o.retries + [r]));
        if !disturbed { RetryBacksOff(o, r, wait, timer, minWait, maxWait); }
      }
      if maxWait < reconnectWait { return NETWORK_RECONNECT_TIMED_OUT_ERROR; }
      reconnectTimer := now + reconnectWait;
      rc := failure;
    }

    /** The same, for the fields together. */
    method RetryLater(failure: Rc, ghost start: nat, ghost attempted: bool) returns (rc: Rc)
      requires Valid()
      requires !disturbed ==> reconnectWait <= maxWait && reconnectTimer <= start
      modifies this`reconnectWait, this`reconnectTimer, this`outage
      ensures Valid() && Redoubled(old(Snap()), Snap(), failure, rc)
    {
      hide Valid, Doubled;
      rc := DoubleWait(failure, start, attempted);
    }

    /** The back-off begins with the minimal interval. */
    method StartBackOff()
      requires Valid()
      modifies this`reconnectWait, this`reconnectTimer, this`outage, this`disturbed
      ensures Valid()
      ensures Snap() == old(Snap()).(reconnectWait := minWait, reconnectTimer := now + minWait,
                                     outage := Some(Outage(now, [])), disturbed := false)
    {
      hide PingsTracked, InBackOff, OnPace;
      reconnectWait := minWait;
      reconnectTimer := now + reconnectWait;
      outage, disturbed := Some(Outage(now, [])), false;
      OutageBacksOff(now, minWait, maxWait);
    }

    /** One more disconnect is counted. */
    method CountDisconnect()
      requires Valid()
      modifies this`disconnects
      ensures Valid() && Snap() == old(Snap()).(disconnects := Incremented(old(disconnects)))
    {
      hide PingsTracked, InBackOff, OnPace;
      disconnects := (disconnects + 1) % 0x1_0000_0000;
    }

    /** The branch of the yield loop that follows a lost connection. */
    method Disconnected() returns (rc: Rc, done: bool)
      requires Valid() && state == DISCONNECTED_ERROR
      modifies this`disconnects, this`state, this`reconnectWait, this`reconnectTimer, this`outage, this`disturbed
      ensures Valid() && Snap() == GivenUp(old(Snap())) && IsLost(Snap(), rc, done)
      ensures rc == NETWORK_DISCONNECTED_ERROR ==> state == DISCONNECTED_ERROR
      ensures Settled(state)
      ensures rc == NETWORK_ATTEMPTING_RECONNECT || rc == NETWORK_DISCONNECTED_ERROR
    {
      hide Valid, InStep, Grows, Hist, Incremented, IsConnected, Snap;
      SnapIs();
      CountDisconnect();
      SnapIs();
      if isAutoReconnectEnabled {
        rc := SetState(DISCONNECTED_ERROR, PENDING_RECONNECT);
        if rc != SUCCESS { return rc, true; }
        SnapIs();
        StartBackOff();
        SnapIs();
        rc, done := NETWORK_ATTEMPTING_RECONNECT, false;
      } else {
        rc, done := NETWORK_DISCONNECTED_ERROR, true;
      }
    }

    /** One iteration of the yield loop; `done` means the loop is left at once. */
    method YieldTurn(turn: Turn) returns (rc: Rc, done: bool)
      requires Valid() && (state == YIELD_IN_PROGRESS || Settled(state))
      modifies this
      ensures Valid() && Grows(old(Hist()), Hist())
      ensures state == YIELD_IN_PROGRESS || Settled(state)
      ensures rc == NETWORK_DISCONNECTED_ERROR ==> state == DISCONNECTED_ERROR
      ensures rc == NETWORK_ATTEMPTING_RECONNECT ==> Settled(state)
      ensures rc == NETWORK_RECONNECTED ==> state == YIELD_IN_PROGRESS
      ensures TurnDone(turn, old(Snap()), Snap(), rc, done)
      decreases turn, 2
    {
      hide Valid, InStep, Grows, Hist, Snap, ReadTurnDone, RetryDone, FinishDone, Received, TurnDone;
      Stands(Hist());
      SnapIs();
      ghost var a := Snap();
      Pass(turn.dt);
      SnapIs();
      done := false;
      if state == PENDING_RECONNECT {
        if maxWait < reconnectWait {
          TurnPends(turn, a, Snap(), NETWORK_RECONNECT_TIMED_OUT_ERROR, true);
          return NETWORK_RECONNECT_TIMED_OUT_ERROR, true;
        }
        rc := HandleReconnect(turn.linkUp, turn.recovery);
        TurnPends(turn, a, Snap(), rc, done);
        return;
      }
      ghost var read, mid, seen;
      rc, done, read, mid, seen := ReadTurn(turn);
      ReadEarlier(a, Snap(), turn, rc, done);
    }

    /** The part of an iteration that reads a packet, looks after the ping and handles the loss of
        the connection. */
    method ReadTurn(turn: Turn)
      returns (rc: Rc, done: bool, ghost read: Rc, ghost mid: Snapshot, ghost seen: seq<Callback>)
      requires Valid() && (state == YIELD_IN_PROGRESS || Settled(state)) && state != PENDING_RECONNECT
      modifies this
      ensures Valid() && Grows(old(Hist()), Hist())
      ensures state == YIELD_IN_PROGRESS || Settled(state)
      ensures rc == NETWORK_DISCONNECTED_ERROR ==> state == DISCONNECTED_ERROR
      ensures rc == NETWORK_ATTEMPTING_RECONNECT ==> Settled(state)
      ensures rc != NETWORK_RECONNECTED
      ensures ReadTurnDone(turn.(dt := 0), old(Snap()), Snap(), rc, done)
      ensures FinishDone(read, turn.pingSent, turn.teardown, mid, Snap(), rc, done) && seen <= callbacks
      ensures var i := turn.read; i.Message? ==>
        Received(seen, i.topic, i.qos1, i.bodies, i.pubackSent, old(Snap()).(now := old(now) + i.dt), mid, read)
      decreases turn, 1
    {
      hide Valid, InStep, Grows, Hist, Snap, FinishDone, Heard, Received, ReadTurnDone, IsSignal, CodeOf, Undisturbed;
      var packet;
      ghost var a := Snap();
      rc, packet := CycleRead(turn.read);
      read, mid, seen := rc, Snap(), callbacks;
      ghost var h := Hist();
      HistIs();
      rc, done := FinishTurn(rc, turn.pingSent, turn.teardown);
      GrowsOn(old(Hist()), h, Hist());
      GrowsLog(h, Hist());
      HistIs();
      SnapIs();
      ReadFinished(turn, a, mid, read, Snap(), rc, done);
    }

    /** What follows the read in an iteration: keep-alive, or the end of the connection. */
    method FinishTurn(read: Rc, pingSent: bool, teardown: Teardown) returns (rc: Rc, done: bool)
      requires Valid() && !IsSignal(read)
      modifies this
      ensures Valid() && Grows(old(Hist()), Hist())
      ensures state == old(state) || Settled(state)
      ensures rc == NETWORK_DISCONNECTED_ERROR ==> state == DISCONNECTED_ERROR
      ensures rc == NETWORK_ATTEMPTING_RECONNECT ==> Settled(state)
      ensures rc != NETWORK_RECONNECTED
      ensures FinishDone(read, pingSent, teardown, old(Snap()), Snap(), rc, done)
      decreases teardown, 3
    {
      hide Valid, InStep, Grows, Hist, Snap, IsLost, Notified, IsConnected, PingChecked, FinishDone, GivenUp;
      Stands(Hist());
      SnapIs();
      ghost var a := Snap();
      rc := read;
      if rc == SUCCESS {
        rc := KeepAlive(pingSent, teardown);
        CheckedPing(a, Snap(), pingSent, teardown, rc);
      } else if rc == NETWORK_SSL_READ_ERROR || rc == NETWORK_SSL_READ_TIMEOUT_ERROR {
        rc := HandleDisconnect(teardown);
      }
      SnapIs();
      ghost var b, checked := Snap(), rc;
      if rc == NETWORK_DISCONNECTED_ERROR {
        rc, done := Disconnected();
      } else {
        done := rc != SUCCESS;
      }
      SnapIs();
      TurnFinished(read, pingSent, teardown, a, b, checked, Snap(), rc, done);
    }

    /** _aws_iot_mqtt_internal_yield; `ran` are the iterations of its loop. */
    method InternalYield(timeout: nat, turns: Turns) returns (rc: Rc, ghost ran: seq<Ran>)
      requires Valid() && (state == YIELD_IN_PROGRESS || state == PENDING_RECONNECT)
      modifies this
      ensures Valid() && Grows(old(Hist()), Hist())
      ensures state == YIELD_IN_PROGRESS || Settled(state)
      ensures rc == NETWORK_DISCONNECTED_ERROR ==> state == DISCONNECTED_ERROR
      ensures rc == NETWORK_ATTEMPTING_RECONNECT ==> Settled(state)
      ensures rc == NETWORK_RECONNECTED ==> state == YIELD_IN_PROGRESS
      ensures LoopDone(old(now) + timeout, turns, old(Snap()), Snap(), rc, ran)
      decreases turns, 1
    {
      hide Valid, InStep, Grows, Hist, TurnDone, Ongoing, LastRan, LoopDone, Snap, IsConnected;
      Stands(Hist());
      ghost var a := Snap();
      var timer := now + timeout;
      var rest := turns;
      var done;
      rc, done := YieldTurn(rest.turn);
      ran := [Ran(rest.turn, a, Snap(), rc, done)];
      FirstRun(timer, turns, a, Snap(), rc, done);
      while !done && now < timer && rest.NextTurn?
        invariant Valid() && Grows(old(Hist()), Hist()) && (rest == turns || rest < turns)
        invariant state == YIELD_IN_PROGRESS || Settled(state)
        invariant rc == NETWORK_DISCONNECTED_ERROR ==> state == DISCONNECTED_ERROR
        invariant rc == NETWORK_ATTEMPTING_RECONNECT ==> Settled(state)
        invariant rc == NETWORK_RECONNECTED ==> state == YIELD_IN_PROGRESS
        invariant Ongoing(timer, turns, a, ran, rest) && LastRan(ran, Snap(), rc, done)
        decreases rest
      {
        SnapIs();
        ghost var left, b, last, h := rest, Snap(), rc, Hist();
        rest := rest.rest;
        rc, done := YieldTurn(rest.turn);
        GrowsOn(old(Hist()), h, Hist());
        NextRun(timer, turns, a, ran, left, b, last, Snap(), rc, done);
        ran := ran + [Ran(rest.turn, b, Snap(), rc, done)];
      }
      SnapIs();
      ghost var b := Snap();
      if !done && now < timer { Pass(timer - now); }
      LoopEnds(timer, turns, a, ran, rest, b, rc, done, Snap());
    }

    /** aws_iot_mqtt_yield; a zero timeout is rejected as a null argument is. */
    method YieldCall(timeout: nat, turns: Turns) returns (rc: Rc, ghost ran: seq<Ran>, ghost c: Snapshot)
      requires Valid()
      modifies this
      ensures Valid() && Grows(old(Hist()), Hist())
      ensures YieldRan(timeout, turns, old(Snap()), Snap(), rc, ran, c)
      ensures state == old(state) || Settled(state)
      ensures old(InStep()) && IsConnected(state) ==> InStep()
      decreases turns, 2
    {
      hide Valid, InStep, Grows, Hist, LoopDone, Snap, YieldRan, YieldClosed, Settled;
      Stands(Hist());
      StepIs();
      SnapIs();
      ghost var a := Snap();
      ran, c := [], Snap();
      if !MayYield(timeout, state) { YieldRefused(timeout, turns, a); }
      if timeout == 0 { return FAILURE, ran, c; }
      if state == DISCONNECTED_MANUALLY { return NETWORK_MANUALLY_DISCONNECTED, ran, c; }
      if state != PENDING_RECONNECT {
        if !IsConnected(state) { return NETWORK_DISCONNECTED_ERROR, ran, c; }
        if state != CONNECTED_IDLE { return MQTT_CLIENT_NOT_IDLE_ERROR, ran, c; }
        rc := SetState(CONNECTED_IDLE, YIELD_IN_PROGRESS);
      }
      SnapIs();
      ghost var entry := Snap();
      rc, ran := InternalYield(timeout, turns);
      SnapIs();
      c := Snap();
      ghost var left := rc;
      LoopRuns(entry.now + timeout, turns, entry, c, rc, ran);
      rc := CloseYield(rc);
      SnapIs();
      YieldFinishes(timeout, turns, a, entry, c, left, ran, Snap(), rc);
    }

    /** What aws_iot_mqtt_yield does after its loop. */
    method CloseYield(left: Rc) returns (rc: Rc)
      requires Valid() && (state == YIELD_IN_PROGRESS || Settled(state))
      requires left == NETWORK_ATTEMPTING_RECONNECT ==> Settled(state)
      requires left == NETWORK_RECONNECTED ==> state == YIELD_IN_PROGRESS
      requires left == NETWORK_DISCONNECTED_ERROR ==> state == DISCONNECTED_ERROR
      modifies this`state
      ensures Valid() && YieldClosed(old(Snap()), left, Snap(), rc) && Settled(state)
      ensures IsConnected(state) ==> InStep()
    {
      hide Valid, InStep, Grows, Hist, Snap;
      StepIs();
      SnapIs();
      rc := left;
      if rc != NETWORK_DISCONNECTED_ERROR && rc != NETWORK_ATTEMPTING_RECONNECT {
        var cas := SetState(YIELD_IN_PROGRESS, CONNECTED_IDLE);
        if rc == SUCCESS && cas != SUCCESS { rc := cas; }
      }
      SnapIs();
      StepIs();
    }
  }

  /** A retry that starts when its delay has run out, and doubles the interval, keeps the
      back-off; the new delay is armed only if it does not exceed the maximum. */
  lemma RetryBacksOff(o: Outage, r: Retry, wait: nat, timer: nat, min: nat, max: nat)
    requires InBackOff(o, wait, timer, min, max)
    requires wait <= max && timer <= r.start && r.wait == 2 * wait
    ensures InBackOff(o.(retries := o.retries + [r]), r.wait, if r.wait <= max then r.end + r.wait else timer, min, max)
  {
    var o' := o.(retries := o.retries + [r]);
    var n := |o.retries|;
    assert Pow2(n + 1) == 2 * Pow2(n);
    DoubleIs(min, Pow2(n));
    hide Pow2;
    assert o'.retries[..n] == o.retries;
    assert o'.(retries := o'.retries[..n]) == o;
    assert Due(o', min, max) == if r.wait <= max then r.end + r.wait else timer;
    forall i | 0 <= i < |o'.retries|
      ensures o'.retries[i].wait == min * Pow2(i + 1)
      ensures min * Pow2(i) <= max
      ensures o'.retries[i].start >= Due(o'.(retries := o'.retries[..i]), min, max)
    {
      if i < n { assert o'.retries[..i] == o.retries[..i]; }
    }
  }

  lemma DoubleIs(a: nat, b: nat)
    ensures 2 * (a * b) == a * (2 * b)
  {
  }

  /** A fresh outage is in back-off with the minimal interval. */
  lemma OutageBacksOff(at: nat, min: nat, max: nat)
    ensures InBackOff(Outage(at, []), min, at + min, min, max)
  {
  }

  lemma LogSplits(log: seq<Event>, e: Event)
    ensures (log + [e])[..|log|] == log
    ensures forall i :: 0 <= i < |log| ==> (log + [e])[..i] == log[..i]
  {
  }

  /** An answer, or a new session: no ping is outstanding any more. */
  lemma LogAnswer(log: seq<Event>, e: Event, outstanding: bool, timer: nat, timer': nat)
    requires PingsTracked(log, outstanding, timer) && (e.PingAnswered? || e.SessionStarted?)
    ensures PingsTracked(log + [e], false, timer')
  {
    LogSplits(log, e);
  }

  lemma LogPing(log: seq<Event>, at: nat, interval: nat, timer: nat)
    requires PingsTracked(log, false, timer)
    ensures PingsTracked(log + [PingSent(at, interval)], true, at + 1000 * interval)
  {
    LogSplits(log, PingSent(at, interval));
  }

  lemma LogCheck(log: seq<Event>, at: nat, outstanding: bool, timer: nat)
    requires PingsTracked(log, outstanding, timer)
    ensures PingsTracked(log + [Checked(at)], outstanding, timer)
  {
    LogSplits(log, Checked(at));
  }

  lemma AnswerOnPace(log: seq<Event>, e: Event, interval: nat)
    requires e.PingAnswered? || e.SessionStarted?
    ensures OnPace(log + [e], interval, false, e.at + 1000 * interval)
  {
  }

  /** The pace after one more check, and a ping if one is sent. */
  lemma PaceChecked(log: seq<Event>, at: nat, interval: nat)
    ensures var p := PaceOf(log);
      && PaceOf(log + [Checked(at)]) == Pace(p.heard, at, Longer(p, at))
      && PaceOf(log + [Checked(at), PingSent(at, interval)]) == Pace(p.heard, at, Longer(p, at))
  {
    LogSplits(log, Checked(at));
    var log' := log + [Checked(at)];
    LogSplits(log', PingSent(at, interval));
    assert log + [Checked(at), PingSent(at, interval)] == log' + [PingSent(at, interval)];
  }

  /** A check before the timer runs out keeps pace. */
  lemma CheckOnPace(log: seq<Event>, interval: nat, outstanding: bool, timer: nat, at: nat)
    requires interval == 0 || at < timer
    ensures OnPace(log, interval, outstanding, timer) ==> OnPace(log + [Checked(at)], interval, outstanding, timer)
  {
    PaceChecked(log, at, interval);
  }

  /** So does one that sends a ping, because the check before came before the timer ran out. */
  lemma PingOnPace(log: seq<Event>, interval: nat, timer: nat, at: nat)
    requires timer <= at && interval > 0
    ensures log + [Checked(at)] + [PingSent(at, interval)] == log + [Checked(at), PingSent(at, interval)]
    ensures OnPace(log, interval, false, timer) ==>
            OnPace(log + [Checked(at), PingSent(at, interval)], interval, true, at + 1000 * interval)
  {
    PaceChecked(log, at, interval);
  }

  lemma TimeoutOnPace(log: seq<Event>, interval: nat, outstanding: bool, timer: nat, at: nat)
    ensures OnPace(log, interval, outstanding, timer) ==> OnPace(log + [PingTimedOut(at)], interval, outstanding, timer)
  {
    LogSplits(log, PingTimedOut(at));
  }

  lemma LogTimeout(log: seq<Event>, at: nat, timer: nat)
    requires PingsTracked(log, true, timer) && timer <= at
    ensures PingsTracked(log + [PingTimedOut(at)], true, timer)
  {
    LogSplits(log, PingTimedOut(at));
  }
}
