/**
  An on-connect hook that reports success although one of its session calls
  did not come back puts the connection out of step: the next request on it is
  given an older frame.  The source does not check for this.
 */
module ClientHooks {
  import opened Basics
  import opened Protocol
  import opened Wire
  import opened Connections
  import opened ClientModel
  import opened ClientPairing

  /** The two worlds differ only in the server's answers on attempt `k` from write number `n` on. */
  ghost predicate AgreeBelow(w: World, w': World, k: nat, n: nat) {
    && w' == w.(answer := w'.answer)
    && forall i: nat, j: nat :: i != k || j < n ==> w'.answer(i, j) == w.answer(i, j)
  }

  lemma {:induction false} CallsReceive(w: World, c: Conn, calls: seq<HookCall>)
    ensures c.received <= RunCalls(w, c, calls).received
    decreases calls
  {
    if calls != [] {
      CallsReceive(w, Exchange(w, c, Hook, calls[0].frame, calls[0].fate).0, calls[1..]);
    }
  }

  lemma {:induction false} CallsAgree(w: World, w': World, c: Conn, calls: seq<HookCall>, n: nat)
    requires AgreeBelow(w, w', c.id, n) && RunCalls(w, c, calls).received < n
    ensures RunCalls(w', c, calls) == RunCalls(w, c, calls)
    decreases calls
  {
    CallsReceive(w, c, calls);
    if calls != [] {
      CallsAgree(w, w', Exchange(w, c, Hook, calls[0].frame, calls[0].fate).0, calls[1..], n);
    }
  }

  lemma {:induction false} ConnectAgrees(w: World, w': World, id: nat, config: ConnectionConfig, limit: nat,
          script: ConnectScript, n: nat)
    requires AgreeBelow(w, w', id, n) && n >= 2
    ensures Connect(w', id, config, limit, script) == Connect(w, id, config, limit, script)
  {
    assert Negotiate(w', Fresh(id), script.handshake) == Negotiate(w, Fresh(id), script.handshake);
  }

  /** A tick that connects, with a hook that ran and reported success. */
  predicate Admits(settings: Settings, w: World, t: Task, script: TickScript) {
    && !t.shutdown && t.connection.None? && Attempts(settings, t)
    && settings.hook && script.hook.result.HookOk?
    && Connect(w, |t.past|, t.config.value, settings.limit, script.connect).1.Connected?
  }

  /** Every session call the hook made on the new connection was answered. */
  predicate HookDrained(settings: Settings, w: World, t: Task, script: TickScript)
    requires Admits(settings, w, t, script)
  {
    AllAnswered(w, Connect(w, |t.past|, t.config.value, settings.limit, script.connect).0, script.hook.calls)
  }

  /** The frame a request is given on a task that has just connected, if any. */
  function NextAnswer(w: World, t: Task, id: nat, message: RawMessage): Result<RawMessage, RequestError> {
    var answers := HandleAsk(w, t, id, message, Arrives).answered;
    answers[|answers| - 1].result
  }

  /**
    After a hook that swallowed an unanswered call there is a server, no
    different so far, whose answer to the next request differs from the frame
    the caller is given.
   */
  lemma {:induction false} SwallowedCallMispairs(settings: Settings, w: World, t: Task, script: TickScript, id: nat,
          message: RawMessage)
    returns (w': World)
    requires Admits(settings, w, t, script) && !HookDrained(settings, w, t, script)
    requires var c := HandleTick(settings, w, t, script).connection.value;
             |w.answer(c.id, c.received).payload| <= settings.limit
    ensures var t' := HandleTick(settings, w, t, script);
            var n := Writes(t'.connection.value.log);
            && AgreeBelow(w, w', |t.past|, n)
            && HandleTick(settings, w', t, script) == t'
            && NextAnswer(w', t', id, message).Ok?
            && NextAnswer(w', t', id, message) != Ok(w'.answer(|t.past|, n))
  {
    var c0 := Connect(w, |t.past|, t.config.value, settings.limit, script.connect).0;
    ConnectEstablishes(w, |t.past|, t.config.value, settings.limit, script.connect);
    HookCalls(w, settings.limit, c0, script.hook.calls);
    CallsReceive(w, c0, script.hook.calls);
    var c := RunCalls(w, c0, script.hook.calls);
    var k, n := |t.past|, Writes(c.log);
    var stale := w.answer(k, c.received);
    var other := RawMessage(if stale.messageType == 0 then 1 else 0, []);
    w' := w.(answer := (i: nat, j: nat) => if i == k && j == n then other else w.answer(i, j));
    OpensWithTwo(settings.limit, c0);
    ConnectAgrees(w, w', k, t.config.value, settings.limit, script.connect, n);
    CallsAgree(w, w', c0, script.hook.calls, n);
  }

  lemma {:induction false} OpensWithTwo(limit: nat, c: Conn)
    requires Scan(limit, c.log).Authed? && Drained(c)
    ensures c.received >= 2
  {
    GrammarShape(limit, c.log);
    WritesGrow(c.log, 3);
    WritesNext(c.log, 0);
    WritesNext(c.log, 1);
    WritesNext(c.log, 2);
  }

  lemma {:induction false} WritesNext(log: Log, k: nat)
    requires k < |log|
    ensures Writes(log[..k + 1]) == Writes(log[..k]) + if log[k].Wrote? then 1 else 0
  {
    assert log[..k + 1] == log[..k] + [log[k]];
    assert log[..k + 1][..k] == log[..k];
  }

  lemma {:induction false} WritesGrow(log: Log, n: nat)
    requires n <= |log|
    ensures Writes(log[..n]) <= Writes(log)
  {
    if n < |log| {
      WritesGrow(log[..|log| - 1], n);
      assert log[..|log| - 1][..n] == log[..n];
    } else {
      assert log[..n] == log;
    }
  }

  /** The connection a tick that admits one leaves the client task with. */
  lemma {:induction false} AdmittedConn(settings: Settings, w: World, t: Task, script: TickScript)
    requires Admits(settings, w, t, script)
    ensures var c := HandleTick(settings, w, t, script).connection.value;
            && c.id == |t.past| && c.maxPayload == settings.limit
            && (HookDrained(settings, w, t, script) ==> Drained(c))
  {
    var c0 := Connect(w, |t.past|, t.config.value, settings.limit, script.connect).0;
    ConnectEstablishes(w, |t.past|, t.config.value, settings.limit, script.connect);
    HookCalls(w, settings.limit, c0, script.hook.calls);
  }

  /** On a connection in step a request is given the answer to itself, or none. */
  lemma {:induction false} DrainedPairs(w: World, t: Task, id: nat, message: RawMessage)
    requires !t.shutdown && t.connection.Some? && Drained(t.connection.value)
    ensures var c := t.connection.value;
            NextAnswer(w, t, id, message).Ok? ==> NextAnswer(w, t, id, message) == Ok(w.answer(c.id, Writes(c.log)))
  {
  }

  /** The next request is given the server's answer to itself, whatever the server does from now on. */
  ghost predicate Pairs(w: World, t: Task, id: nat, message: RawMessage)
    requires t.connection.Some?
  {
    var c := t.connection.value;
    forall w' :: AgreeBelow(w, w', c.id, Writes(c.log)) && NextAnswer(w', t, id, message).Ok? ==>
      NextAnswer(w', t, id, message) == Ok(w'.answer(c.id, Writes(c.log)))
  }

  lemma {:induction false} DrainedHookPairs(settings: Settings, w: World, t: Task, script: TickScript, id: nat,
          message: RawMessage)
    requires Admits(settings, w, t, script) && HookDrained(settings, w, t, script)
    ensures Pairs(w, HandleTick(settings, w, t, script), id, message)
  {
    var t' := HandleTick(settings, w, t, script);
    AdmittedConn(settings, w, t, script);
    var c := t'.connection.value;
    forall w' | AgreeBelow(w, w', c.id, Writes(c.log)) && NextAnswer(w', t', id, message).Ok?
      ensures NextAnswer(w', t', id, message) == Ok(w'.answer(c.id, Writes(c.log)))
    {
      DrainedPairs(w', t', id, message);
    }
  }

  lemma {:induction false} SwallowingHookDoesNotPair(settings: Settings, w: World, t: Task, script: TickScript, id: nat,
          message: RawMessage)
    requires Admits(settings, w, t, script) && !HookDrained(settings, w, t, script)
    requires var c := HandleTick(settings, w, t, script).connection.value;
             |w.answer(c.id, c.received).payload| <= settings.limit
    ensures !Pairs(w, HandleTick(settings, w, t, script), id, message)
  {
    AdmittedConn(settings, w, t, script);
    var w' := SwallowedCallMispairs(settings, w, t, script, id, message);
    var c := HandleTick(settings, w, t, script).connection.value;
    assert AgreeBelow(w, w', c.id, Writes(c.log));
  }

  /**
    The exact condition: after a successful hook the next request is given the
    server's answer to itself, whatever that answer is, if and only if every
    session call of the hook was answered.
   */
  lemma {:induction false} HookDecidesPairing(settings: Settings, w: World, t: Task, script: TickScript, id: nat,
          message: RawMessage)
    requires Admits(settings, w, t, script)
    requires var c := HandleTick(settings, w, t, script).connection.value;
             |w.answer(c.id, c.received).payload| <= settings.limit
    ensures HookDrained(settings, w, t, script) <==> Pairs(w, HandleTick(settings, w, t, script), id, message)
  {
    if HookDrained(settings, w, t, script) {
      DrainedHookPairs(settings, w, t, script, id, message);
    } else {
      SwallowingHookDoesNotPair(settings, w, t, script, id, message);
    }
  }

  // ------------------------------------------------------------------
  // A concrete run.

  function ExampleAnswer(k: nat, i: nat): RawMessage {
    RawMessage(if i == 0 then 10 else if i == 1 then 11 else if i == 2 then 12 else 13, [])
  }

  /** Opcode 10 is the handshake, 11 the accepted login; no message fails to encode. */
  function ExampleWorld(): World {
    World(
      255,
      (m: ClientMessage) => Some(RawMessage(1, [])),
      (raw: RawMessage) => Ok(OtherError(0)),
      (raw: RawMessage) => if raw.messageType == 10 then Ok(ServerHandshake(3, 0)) else Err(UnknownOpcode),
      (raw: RawMessage) => if raw.messageType == 11 then Ok(()) else Err(UnknownOpcode),
      (raw: RawMessage) => Ok(()),
      (e: ErrorResponse) => false,
      ExampleAnswer)
  }

  function ExampleTick(): TickScript {
    TickScript(
      Arrives,
      ConnectScript(SetUp(0), Arrives, Arrives),
      HookScript([HookCall(RawMessage(2, []), Expires)], HookOk))
  }

  lemma {:induction false} ExampleConnects(config: ConnectionConfig)
    ensures var (c, outcome) := Connect(ExampleWorld(), 0, config, 1024, ExampleTick().connect);
            && outcome.Connected? && c.id == 0 && c.received == 2 && c.maxPayload == 1024 && |c.log| == 4
            && Writes(c.log) == 2
  {
    var w, tick := ExampleWorld(), ExampleTick();
    ConnectEstablishes(w, 0, config, 1024, tick.connect);
    var c1 := Negotiate(w, Fresh(0), tick.connect.handshake).0;
    assert |c1.log| == 2 && c1.received == 1;
    assert Connect(w, 0, config, 1024, tick.connect).1.Connected?;
  }

  /** After the tick the client task holds a connection with three writes on it and two answers read. */
  lemma {:induction false} ExampleTicks(config: ConnectionConfig)
    ensures var t := HandleTick(Settings(Latch, 1024, true), ExampleWorld(), Initial(Some(config)), ExampleTick());
            && t.connection.Some? && t.past == [] && t.answered == [] && !t.shutdown
            && var c := t.connection.value;
               c.id == 0 && c.received == 2 && c.maxPayload == 1024 && |c.log| == 5 && Writes(c.log) == 3
  {
    ExampleConnects(config);
    var w, tick := ExampleWorld(), ExampleTick();
    var c0 := Connect(w, 0, config, 1024, tick.connect).0;
    var c1 := Exchange(w, c0, Hook, RawMessage(2, []), Expires).0;
    assert tick.hook.calls[1..] == [];
    assert RunCalls(w, c0, tick.hook.calls) == RunCalls(w, c1, []) == c1;
    ScanAppend(1024, c0.log, Wrote(Hook, RawMessage(2, [])));
  }

  /**
    A hook's only call runs into the hook's own time-out and the hook returns
    success.  The first request after that is write number 3 of the connection,
    and its caller is given answer number 2, the one meant for the hook.
   */
  lemma {:induction false} SwallowingHookExample(config: ConnectionConfig, id: nat, message: RawMessage)
    ensures var w := ExampleWorld();
            var events := [Offer(Ask(id, message)), Tick(ExampleTick()), Receive(Arrives)];
            var t := Run(Settings(Latch, 1024, true), w, Start(Some(config)), events).task;
            && |t.answered| == 1
            && t.answered[0].result == Ok(w.answer(0, 2))
            && |Logs(t)| == 1 && |Logs(t)[0]| == 7
            && Logs(t)[0][5] == Wrote(Request(id), message)
            && Writes(Logs(t)[0][..5]) == 3
            && w.answer(0, 2) != w.answer(0, 3)
  {
    var w, settings := ExampleWorld(), Settings(Latch, 1024, true);
    var events := [Offer(Ask(id, message)), Tick(ExampleTick()), Receive(Arrives)];
    RunThree(settings, w, Start(Some(config)), events);
    ExampleTicks(config);
    var t := HandleTick(settings, w, Initial(Some(config)), ExampleTick());
    var t' := HandleAsk(w, t, id, message, Arrives);
    assert Run(settings, w, Start(Some(config)), events).task == t';
    assert Logs(t')[0][..5] == t.connection.value.log;
  }

  lemma {:induction false} RunThree(settings: Settings, w: World, s: System, events: seq<Event>)
    requires |events| == 3
    ensures Run(settings, w, s, events)
         == Step(settings, w, Step(settings, w, Step(settings, w, s, events[0]), events[1]), events[2])
  {
    var s1 := Step(settings, w, s, events[0]);
    var s2 := Step(settings, w, s1, events[1]);
    assert events[1..][1..] == events[2..] && events[2..][1..] == [];
    assert Run(settings, w, s2, events[2..]) == Run(settings, w, Step(settings, w, s2, events[2]), []);
  }
}
