/**
  Requests and answers: what a caller is given is what the server answered to
  that caller's own frame.
 */
module ClientPairing {
  import opened Basics
  import opened Protocol
  import opened Wire
  import opened Connections
  import opened ClientModel

  /** The logs of all connection attempts so far, in order; the connection in hand is the last. */
  function Logs(t: Task): seq<Log> {
    t.past + if t.connection.Some? then [t.connection.value.log] else []
  }

  datatype Delivery = Delivery(id: nat, message: RawMessage, frame: RawMessage)

  /** The request exchanges that completed on one connection, in order. */
  function Served(log: Log): seq<Delivery> {
    if |log| < 2 then []
    else
      var write, last := log[|log| - 2], log[|log| - 1];
      Served(log[..|log| - 1]) +
      if last.Read? && write.Wrote? && write.origin.Request?
      then [Delivery(write.origin.id, write.frame, last.frame)] else []
  }

  function ServedAll(logs: seq<Log>): seq<Delivery> {
    if logs == [] then [] else ServedAll(logs[..|logs| - 1]) + Served(logs[|logs| - 1])
  }

  /** The successful answers the client task has sent to callers, in order. */
  function Delivered(answers: seq<Answer>): seq<Delivery> {
    if answers == [] then []
    else
      var a := answers[|answers| - 1];
      Delivered(answers[..|answers| - 1]) +
      if a.result.Ok? then [Delivery(a.id, a.message, a.result.value)] else []
  }

  lemma {:induction false} ServedAppend(log: Log, event: WireEvent)
    ensures event.Wrote? ==> Served(log + [event]) == Served(log)
    ensures event.Read? && log != [] && log[|log| - 1].Wrote? ==>
              Served(log + [event]) == Served(log) +
                (if log[|log| - 1].origin.Request?
                 then [Delivery(log[|log| - 1].origin.id, log[|log| - 1].frame, event.frame)] else [])
  {
    assert (log + [event])[..|log|] == log;
  }

  lemma {:induction false} ServedAllAppend(logs: seq<Log>, log: Log)
    ensures ServedAll(logs + [log]) == ServedAll(logs) + Served(log)
  {
    assert (logs + [log])[..|logs|] == logs;
  }

  lemma {:induction false} DeliveredAppend(answers: seq<Answer>, a: Answer)
    ensures Delivered(answers + [a]) == Delivered(answers) +
              if a.result.Ok? then [Delivery(a.id, a.message, a.result.value)] else []
  {
    assert (answers + [a])[..|answers|] == answers;
  }

  lemma {:induction false} ServedExchange(w: World, c: Conn, origin: Origin, frame: RawMessage, fate: Fate)
    ensures var (c', reply) := Exchange(w, c, origin, frame, fate);
            Served(c'.log) == Served(c.log) +
              if reply.Answered? && origin.Request? then [Delivery(origin.id, frame, reply.frame)] else []
  {
    var sent := c.log + [Wrote(origin, frame)];
    ServedAppend(c.log, Wrote(origin, frame));
    ServedAppend(sent, Read(w.answer(c.id, c.received), c.maxPayload));
  }

  lemma {:induction false} ServedCalls(w: World, c: Conn, calls: seq<HookCall>)
    ensures Served(RunCalls(w, c, calls).log) == Served(c.log)
    decreases calls
  {
    if calls != [] {
      ServedExchange(w, c, Hook, calls[0].frame, calls[0].fate);
      ServedCalls(w, Exchange(w, c, Hook, calls[0].frame, calls[0].fate).0, calls[1..]);
    }
  }

  lemma {:induction false} ServedGoodbye(w: World, c: Conn)
    ensures Served(SayGoodbye(w, c).log) == Served(c.log)
  {
    if w.encode(Quit).Some? {
      ServedAppend(c.log, Wrote(Farewell, w.encode(Quit).value));
    }
  }

  lemma {:induction false} ServedNegotiate(w: World, c: Conn, fate: Fate)
    ensures Served(Negotiate(w, c, fate).0.log) == Served(c.log)
  {
    var message := w.encode(ClientHandshake(PROTOCOL_VERSION, PROTOCOL_VERSION));
    if message.Some? {
      ServedExchange(w, c, Handshake, message.value, fate);
    }
  }

  lemma {:induction false} ServedAuthenticate(w: World, c: Conn, config: ConnectionConfig, ip: nat, fate: Fate)
    ensures Served(Authenticate(w, c, config, ip, fate).0.log) == Served(c.log)
  {
    var message := w.encode(Authentication(config.clientId, config.clientSecret, ip));
    if message.Some? {
      ServedExchange(w, c, Auth, message.value, fate);
    }
  }

  lemma {:induction false} ServedConnect(w: World, id: nat, config: ConnectionConfig, limit: nat, script: ConnectScript)
    ensures Served(Connect(w, id, config, limit, script).0.log) == []
  {
    if script.setup.SetUp? {
      ServedNegotiate(w, Fresh(id), script.handshake);
      var (c1, negotiated) := Negotiate(w, Fresh(id), script.handshake);
      if negotiated.Done? {
        ServedAuthenticate(w, c1.(capabilities := negotiated.value), config, script.setup.ip, script.auth);
      }
    }
  }

  // ------------------------------------------------------------------
  // Conservation of frames.

  /** Callers have been given the frames of the completed request exchanges: each once, none else, in order. */
  predicate Conserves(t: Task) {
    Delivered(t.answered) == ServedAll(Logs(t))
  }

  /** Releasing a connection that replaces the one in hand, or holding it, counts the same. */
  lemma {:induction false} LogsOfHeld(t: Task, c: Conn)
    ensures ServedAll(Logs(t.(connection := Some(c)))) == ServedAll(t.past) + Served(c.log)
    ensures ServedAll(Logs(Drop(t, c))) == ServedAll(Logs(Release(t, c))) == ServedAll(t.past) + Served(c.log)
  {
    ServedAllAppend(t.past, c.log);
    assert Logs(Release(t, c)) == Logs(Drop(t, c)) == t.past + [c.log];
  }

  lemma {:induction false} ConservesBefore(t: Task)
    requires Conserves(t)
    ensures Delivered(t.answered) == ServedAll(t.past) +
              if t.connection.Some? then Served(t.connection.value.log) else []
  {
    if t.connection.Some? {
      ServedAllAppend(t.past, t.connection.value.log);
    } else {
      assert Logs(t) == t.past;
    }
  }

  lemma {:induction false} ConservesQuit(w: World, t: Task)
    requires Conserves(t)
    ensures Conserves(QuitHeld(w, t))
  {
    ConservesBefore(t);
    if t.connection.Some? {
      LogsOfHeld(t, SayGoodbye(w, t.connection.value));
      ServedGoodbye(w, t.connection.value);
    }
  }

  lemma {:induction false} SendDelivers(t: Task, id: nat, message: RawMessage, result: Result<RawMessage, RequestError>)
    ensures Delivered(Send(t, id, message, result).answered) == Delivered(t.answered) +
              if result.Ok? then [Delivery(id, message, result.value)] else []
    ensures Logs(Send(t, id, message, result)) == Logs(t)
  {
    DeliveredAppend(t.answered, Answer(id, message, result, t.status));
  }

  lemma {:induction false} AskServes(w: World, t: Task, id: nat, message: RawMessage, fate: Fate)
    requires Conserves(t) && t.connection.Some?
    ensures var (c, reply) := Exchange(w, t.connection.value, Request(id), message, fate);
            var served := Delivered(t.answered) + if reply.Answered? then [Delivery(id, message, reply.frame)] else [];
            ServedAll(Logs(Drop(t, c))) == ServedAll(Logs(t.(connection := Some(c)))) == served
  {
    var held := t.connection.value;
    var (c, reply) := Exchange(w, held, Request(id), message, fate);
    var more := if reply.Answered? then [Delivery(id, message, reply.frame)] else [];
    ConservesBefore(t);
    ServedExchange(w, held, Request(id), message, fate);
    LogsOfHeld(t, c);
    Associate(ServedAll(t.past), Served(held.log), more);
  }

  lemma {:induction false} Associate(a: seq<Delivery>, b: seq<Delivery>, c: seq<Delivery>)
    ensures a + (b + c) == (a + b) + c
  {
  }

  lemma {:induction false} ConservesAsk(w: World, t: Task, id: nat, message: RawMessage, fate: Fate)
    requires Conserves(t)
    ensures Conserves(HandleAsk(w, t, id, message, fate))
  {
    if t.shutdown {
      SendDelivers(t, id, message, Err(Shutdown));
    } else if t.connection.None? {
      SendDelivers(t, id, message, Err(Disconnected));
    } else {
      var (c, reply) := Exchange(w, t.connection.value, Request(id), message, fate);
      AskServes(w, t, id, message, fate);
      if reply.Answered? {
        var t1 := if IsFatalAnswer(w, reply.frame) then Drop(t, c) else t.(connection := Some(c));
        SendDelivers(t1, id, message, Ok(reply.frame));
      } else {
        SendDelivers(Drop(t, c), id, message, Err(Disconnected));
      }
    }
  }

  lemma {:induction false} ConservesSame(t: Task, t': Task)
    requires Conserves(t) && t'.answered == t.answered && t'.past == t.past && t'.connection == t.connection
    ensures Conserves(t')
  {
    assert Logs(t') == Logs(t);
  }

  lemma {:induction false} ConservesCommand(w: World, t: Task, command: Command, fate: Fate)
    requires Conserves(t)
    ensures Conserves(HandleCommand(w, t, command, fate))
  {
    match command
    case Configure(config) =>
      ConservesQuit(w, t);
      if !t.shutdown {
        ConservesSame(QuitHeld(w, t), HandleConfigure(w, t, config));
      }
    case Ask(id, message) => ConservesAsk(w, t, id, message, fate);
    case Stop =>
      ConservesQuit(w, t);
      ConservesSame(QuitHeld(w, t), HandleStop(w, t));
  }

  lemma {:induction false} ConservesPing(w: World, t: Task, fate: Fate)
    requires Conserves(t) && t.connection.Some?
    ensures var c := PingExchange(w, t.connection.value, fate).0;
            Conserves(t.(connection := Some(c))) && Conserves(Drop(t, c))
  {
    ConservesBefore(t);
    LogsOfHeld(t, PingExchange(w, t.connection.value, fate).0);
    if w.encode(Ping).Some? {
      ServedExchange(w, t.connection.value, KeepAlive, w.encode(Ping).value, fate);
    }
  }

  /** A connection that has served nothing yet may be taken up or let go. */
  lemma {:induction false} ConservesUnserved(t: Task, c: Conn, credentialsInvalid: bool, status: Status)
    requires Conserves(t) && t.connection.None? && Served(c.log) == []
    ensures Conserves(SetStatus(Release(t, c).(credentialsInvalid := credentialsInvalid), status))
    ensures Conserves(SetStatus(t.(credentialsInvalid := credentialsInvalid), status).(connection := Some(c)))
  {
    ConservesBefore(t);
    LogsOfHeld(t, c);
    var released := SetStatus(Release(t, c).(credentialsInvalid := credentialsInvalid), status);
    var held := SetStatus(t.(credentialsInvalid := credentialsInvalid), status).(connection := Some(c));
    assert Logs(released) == Logs(held) == Logs(Release(t, c));
  }

  lemma {:induction false} ConservesAdmit(settings: Settings, w: World, t: Task, c: Conn, hook: HookScript)
    requires Conserves(t) && t.connection.None? && Served(c.log) == []
    ensures Conserves(Admit(settings, w, t, c, hook))
  {
    var c' := if settings.hook then RunCalls(w, c, hook.calls) else c;
    ServedCalls(w, c, hook.calls);
    if settings.hook && !hook.result.HookOk? {
      var gone := if hook.result.HookErr? then SayGoodbye(w, c') else c';
      ServedGoodbye(w, c');
      ConservesUnserved(t, gone, t.credentialsInvalid, Offline);
      assert Admit(settings, w, t, c, hook)
          == SetStatus(Release(t, gone).(credentialsInvalid := t.credentialsInvalid), Offline);
    } else {
      ConservesUnserved(t, c', false, Online(c'.capabilities));
    }
  }

  lemma {:induction false} ConservesConnect(settings: Settings, w: World, t: Task, script: TickScript)
    requires Conserves(t) && t.connection.None?
    ensures Conserves(TryConnect(settings, w, t, script))
  {
    if Attempts(settings, t) {
      var (c, outcome) := Connect(w, |t.past|, t.config.value, settings.limit, script.connect);
      ServedConnect(w, |t.past|, t.config.value, settings.limit, script.connect);
      if outcome.Connected? {
        ConservesAdmit(settings, w, t, c, script.hook);
      } else if outcome.Rejected? {
        ConservesUnserved(t, c, true, BadCredentials);
      } else {
        ConservesUnserved(t, c, t.credentialsInvalid, Offline);
        assert TryConnect(settings, w, t, script)
            == SetStatus(Release(t, c).(credentialsInvalid := t.credentialsInvalid), Offline);
      }
    }
  }

  lemma {:induction false} ConservesTick(settings: Settings, w: World, t: Task, script: TickScript)
    requires Conserves(t)
    ensures Conserves(HandleTick(settings, w, t, script))
  {
    if t.shutdown {
    } else if t.connection.Some? {
      ConservesPing(w, t, script.ping);
    } else {
      ConservesConnect(settings, w, t, script);
    }
  }

  lemma {:induction false} RunConserves(settings: Settings, w: World, s: System, events: seq<Event>)
    requires Conserves(s.task)
    ensures Conserves(Run(settings, w, s, events).task)
    decreases events
  {
    if events != [] {
      match events[0] {
        case Offer(_) =>
        case HandlesGone =>
        case Receive(fate) =>
          ConservesQuit(w, s.task);
          if s.queue != [] {
            ConservesCommand(w, s.task, s.queue[0], fate);
          }
        case Tick(script) => ConservesTick(settings, w, s.task, script);
      }
      RunConserves(settings, w, Step(settings, w, s, events[0]), events[1..]);
    }
  }

  // ------------------------------------------------------------------
  // Every served frame is the server's answer to the frame before it.

  /** A hook that reports success only when all its session calls came back. */
  predicate CandidTick(settings: Settings, w: World, t: Task, script: TickScript) {
    !t.shutdown && t.connection.None? && Attempts(settings, t) && settings.hook && script.hook.result.HookOk? ==>
      var (c, outcome) := Connect(w, |t.past|, t.config.value, settings.limit, script.connect);
      outcome.Connected? ==> AllAnswered(w, c, script.hook.calls)
  }

  predicate CandidRun(settings: Settings, w: World, s: System, events: seq<Event>)
    decreases events
  {
    events != [] ==>
    && (events[0].Tick? && s.running ==> CandidTick(settings, w, s.task, events[0].script))
    && CandidRun(settings, w, Step(settings, w, s, events[0]), events[1..])
  }

  /**
    If the event at position `i` on connection `k` is a served write, the frame
    read next is the server's answer to it.
   */
  predicate OwnAnswer(w: World, k: nat, log: Log, i: nat) {
    i + 1 < |log| && ServeWrite(log[i]) && log[i + 1].Read? ==> log[i + 1].frame == w.answer(k, Writes(log[..i]))
  }

  ghost predicate OwnAnswers(w: World, k: nat, log: Log) {
    forall i: nat :: OwnAnswer(w, k, log, i)
  }

  /** Connections that are gone obeyed the grammar; the one in hand is idle, with nothing outstanding. */
  ghost predicate InStep(settings: Settings, w: World, t: Task) {
    && (forall k :: 0 <= k < |t.past| ==> !Scan(settings.limit, t.past[k]).Bad? && OwnAnswers(w, k, t.past[k]))
    && (t.connection.Some? ==>
         var c := t.connection.value;
         && c.id == |t.past| && c.maxPayload == settings.limit
         && Scan(settings.limit, c.log).Idle() && Drained(c) && OwnAnswers(w, c.id, c.log))
  }

  lemma {:induction false} OwnAppend(w: World, k: nat, log: Log, event: WireEvent)
    requires OwnAnswers(w, k, log)
    requires event.Wrote? || log == [] || !ServeWrite(log[|log| - 1])
             || event.frame == w.answer(k, Writes(log[..|log| - 1]))
    ensures OwnAnswers(w, k, log + [event])
  {
    forall i: nat
      ensures OwnAnswer(w, k, log + [event], i)
    {
      if i + 1 < |log| {
        assert OwnAnswer(w, k, log, i);
        assert (log + [event])[..i] == log[..i];
      } else if i + 1 == |log| {
        assert (log + [event])[..i] == log[..|log| - 1];
      }
    }
  }

  lemma {:induction false} OwnExchange(w: World, c: Conn, origin: Origin, frame: RawMessage, fate: Fate)
    requires OwnAnswers(w, c.id, c.log)
    requires origin.KeepAlive? || origin.Request? ==> Drained(c)
    ensures OwnAnswers(w, c.id, Exchange(w, c, origin, frame, fate).0.log)
  {
    var sent := c.log + [Wrote(origin, frame)];
    OwnAppend(w, c.id, c.log, Wrote(origin, frame));
    assert sent[..|sent| - 1] == c.log;
    var next := Read(w.answer(c.id, c.received), c.maxPayload);
    OwnAppend(w, c.id, sent, next);
  }

  lemma {:induction false} OwnCalls(w: World, c: Conn, calls: seq<HookCall>)
    requires OwnAnswers(w, c.id, c.log)
    ensures OwnAnswers(w, c.id, RunCalls(w, c, calls).log)
    decreases calls
  {
    if calls != [] {
      OwnExchange(w, c, Hook, calls[0].frame, calls[0].fate);
      OwnCalls(w, Exchange(w, c, Hook, calls[0].frame, calls[0].fate).0, calls[1..]);
    }
  }

  lemma {:induction false} OwnGoodbye(w: World, c: Conn)
    requires OwnAnswers(w, c.id, c.log)
    ensures OwnAnswers(w, c.id, SayGoodbye(w, c).log)
  {
    if w.encode(Quit).Some? {
      OwnAppend(w, c.id, c.log, Wrote(Farewell, w.encode(Quit).value));
    }
  }

  lemma {:induction false} OwnConnect(w: World, id: nat, config: ConnectionConfig, limit: nat, script: ConnectScript)
    ensures OwnAnswers(w, id, Connect(w, id, config, limit, script).0.log)
  {
    if script.setup.SetUp? {
      var message := w.encode(ClientHandshake(PROTOCOL_VERSION, PROTOCOL_VERSION));
      if message.Some? {
        OwnExchange(w, Fresh(id), Handshake, message.value, script.handshake);
      }
      var (c1, negotiated) := Negotiate(w, Fresh(id), script.handshake);
      var login := w.encode(Authentication(config.clientId, config.clientSecret, script.setup.ip));
      if negotiated.Done? && login.Some? {
        OwnExchange(w, c1.(capabilities := negotiated.value), Auth, login.value, script.auth);
      }
    }
  }

  lemma {:induction false} InStepQuit(settings: Settings, w: World, t: Task)
    requires InStep(settings, w, t)
    ensures InStep(settings, w, QuitHeld(w, t))
  {
    if t.connection.Some? {
      GoodbyeStage(w, settings.limit, t.connection.value);
      OwnGoodbye(w, t.connection.value);
    }
  }

  lemma {:induction false} InStepRelease(settings: Settings, w: World, t: Task, c: Conn)
    requires InStep(settings, w, t)
    requires c.id == |t.past| && !Scan(settings.limit, c.log).Bad? && OwnAnswers(w, c.id, c.log)
    ensures InStep(settings, w, Drop(t, c)) && InStep(settings, w, Release(t, c))
  {
  }

  lemma {:induction false} InStepExchange(settings: Settings, w: World, t: Task, origin: Origin, frame: RawMessage,
          fate: Fate)
    requires InStep(settings, w, t) && t.connection.Some? && (origin.KeepAlive? || origin.Request?)
    ensures var (c, reply) := Exchange(w, t.connection.value, origin, frame, fate);
            && InStep(settings, w, Drop(t, c))
            && (reply.Answered? ==> InStep(settings, w, t.(connection := Some(c))))
  {
    var (c, reply) := Exchange(w, t.connection.value, origin, frame, fate);
    ExchangeStage(w, settings.limit, t.connection.value, origin, frame, fate);
    OwnExchange(w, t.connection.value, origin, frame, fate);
    InStepRelease(settings, w, t, c);
    if reply.Answered? {
      assert Scan(settings.limit, c.log).Serving? && Drained(c);
    }
  }

  lemma {:induction false} InStepAdmit(settings: Settings, w: World, t: Task, c: Conn, hook: HookScript)
    requires InStep(settings, w, t) && t.connection.None?
    requires c.id == |t.past| && c.maxPayload == settings.limit && OwnAnswers(w, c.id, c.log)
    requires Scan(settings.limit, c.log).Authed? && Drained(c)
    requires settings.hook && hook.result.HookOk? ==> AllAnswered(w, c, hook.calls)
    ensures InStep(settings, w, Admit(settings, w, t, c, hook))
  {
    if settings.hook {
      var c' := RunCalls(w, c, hook.calls);
      HookCalls(w, settings.limit, c, hook.calls);
      OwnCalls(w, c, hook.calls);
      if hook.result.HookErr? {
        GoodbyeStage(w, settings.limit, c');
        OwnGoodbye(w, c');
        InStepRelease(settings, w, t, SayGoodbye(w, c'));
      } else if hook.result.HookLate? {
        InStepRelease(settings, w, t, c');
      }
    }
  }

  lemma {:induction false} InStepConnect(settings: Settings, w: World, t: Task, script: TickScript)
    requires InStep(settings, w, t) && CandidTick(settings, w, t, script)
    requires !t.shutdown && t.connection.None?
    ensures InStep(settings, w, TryConnect(settings, w, t, script))
  {
    if Attempts(settings, t) {
      var (c, outcome) := Connect(w, |t.past|, t.config.value, settings.limit, script.connect);
      ConnectEstablishes(w, |t.past|, t.config.value, settings.limit, script.connect);
      OwnConnect(w, |t.past|, t.config.value, settings.limit, script.connect);
      if outcome.Connected? {
        InStepAdmit(settings, w, t, c, script.hook);
      } else {
        InStepRelease(settings, w, t, c);
      }
    }
  }

  lemma {:induction false} InStepTick(settings: Settings, w: World, t: Task, script: TickScript)
    requires InStep(settings, w, t) && CandidTick(settings, w, t, script)
    ensures InStep(settings, w, HandleTick(settings, w, t, script))
  {
    if t.shutdown {
    } else if t.connection.Some? {
      if w.encode(Ping).Some? {
        InStepExchange(settings, w, t, KeepAlive, w.encode(Ping).value, script.ping);
      } else {
        InStepRelease(settings, w, t, t.connection.value);
      }
    } else {
      InStepConnect(settings, w, t, script);
    }
  }

  lemma {:induction false} InStepCommand(settings: Settings, w: World, t: Task, command: Command, fate: Fate)
    requires InStep(settings, w, t)
    ensures InStep(settings, w, HandleCommand(w, t, command, fate))
  {
    if command.Ask? {
      if t.connection.Some? {
        InStepExchange(settings, w, t, Request(command.id), command.message, fate);
      }
    } else {
      InStepQuit(settings, w, t);
    }
  }

  lemma {:induction false} InStepStep(settings: Settings, w: World, s: System, event: Event)
    requires InStep(settings, w, s.task)
    requires event.Tick? && s.running ==> CandidTick(settings, w, s.task, event.script)
    ensures InStep(settings, w, Step(settings, w, s, event).task)
  {
    if event.Receive? && s.running {
      if s.queue != [] {
        InStepCommand(settings, w, s.task, s.queue[0], event.fate);
      } else {
        InStepQuit(settings, w, s.task);
      }
    } else if event.Tick? && s.running {
      InStepTick(settings, w, s.task, event.script);
    }
  }

  lemma {:induction false} RunInStep(settings: Settings, w: World, s: System, events: seq<Event>)
    requires InStep(settings, w, s.task) && CandidRun(settings, w, s, events)
    ensures InStep(settings, w, Run(settings, w, s, events).task)
    decreases events
  {
    if events != [] {
      InStepStep(settings, w, s, events[0]);
      RunInStep(settings, w, Step(settings, w, s, events[0]), events[1..]);
    }
  }

  lemma {:induction false} FindServed(log: Log, j: nat) returns (i: nat)
    requires j < |Served(log)|
    ensures i + 1 < |log| && log[i + 1].Read?
    ensures log[i] == Wrote(Request(Served(log)[j].id), Served(log)[j].message)
    ensures log[i + 1].frame == Served(log)[j].frame
  {
    var front := log[..|log| - 1];
    if j < |Served(front)| {
      i := FindServed(front, j);
    } else {
      i := |log| - 2;
    }
  }

  lemma {:induction false} FindServedAll(logs: seq<Log>, j: nat) returns (k: nat, i: nat)
    requires j < |ServedAll(logs)|
    ensures k < |logs| && i + 1 < |logs[k]| && logs[k][i + 1].Read?
    ensures logs[k][i] == Wrote(Request(ServedAll(logs)[j].id), ServedAll(logs)[j].message)
    ensures logs[k][i + 1].frame == ServedAll(logs)[j].frame
  {
    var front := logs[..|logs| - 1];
    if j < |ServedAll(front)| {
      k, i := FindServedAll(front, j);
    } else {
      k := |logs| - 1;
      i := FindServed(logs[k], j - |ServedAll(front)|);
    }
  }

  /**
    In every run with candid hooks the `j`-th frame handed to a caller is the
    server's answer to the very frame that caller asked to send: it was read
    right after that frame was written, and it is the answer to that write.
   */
  lemma {:induction false} AnswersArePaired(settings: Settings, w: World, config: Option<ConnectionConfig>,
          events: seq<Event>, j: nat)
    returns (k: nat, i: nat)
    requires CandidRun(settings, w, Start(config), events)
    requires j < |Delivered(Run(settings, w, Start(config), events).task.answered)|
    ensures var t := Run(settings, w, Start(config), events).task;
            var d := Delivered(t.answered)[j];
            && k < |Logs(t)| && i + 1 < |Logs(t)[k]|
            && Logs(t)[k][i] == Wrote(Request(d.id), d.message)
            && d.frame == Logs(t)[k][i + 1].frame == w.answer(k, Writes(Logs(t)[k][..i]))
  {
    var t := Run(settings, w, Start(config), events).task;
    RunConserves(settings, w, Start(config), events);
    RunInStep(settings, w, Start(config), events);
    k, i := FindServedAll(Logs(t), j);
    assert OwnAnswers(w, k, Logs(t)[k]);
    assert OwnAnswer(w, k, Logs(t)[k], i);
  }
}
