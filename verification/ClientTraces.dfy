/**
  The traces of the connections over whole runs: the shape that holds whatever
  hooks do, and which connections end with a farewell.
 */
module ClientTraces {
  import opened Basics
  import opened Protocol
  import opened Wire
  import opened Connections
  import opened ConnectionOutcomes
  import opened ClientModel
  import opened ClientPairing

  /** A connection past its login that has not said goodbye. */
  ghost predicate Live(limit: nat, c: Conn) {
    c.maxPayload == limit && |c.log| >= 4 && Framed(limit, c.log) && NeverQuits(c.log)
  }

  lemma {:induction false} ExchangeLive(w: World, limit: nat, c: Conn, origin: Origin, frame: RawMessage, fate: Fate)
    requires Live(limit, c) && !origin.Handshake? && !origin.Auth? && !origin.Farewell?
    requires origin.Hook? ==> NeverServes(c.log)
    ensures var c' := Exchange(w, c, origin, frame, fate).0;
            Live(limit, c') && (origin.Hook? ==> NeverServes(c'.log))
  {
    var log := c.log + [Wrote(origin, frame)];
    FramedWrite(limit, c.log, origin, frame);
    var next := w.answer(c.id, c.received);
    if |next.payload| <= limit {
      FramedRead(limit, log, next);
    }
  }

  lemma {:induction false} CallsLive(w: World, limit: nat, c: Conn, calls: seq<HookCall>)
    requires Live(limit, c) && NeverServes(c.log)
    ensures Live(limit, RunCalls(w, c, calls))
    decreases calls
  {
    if calls != [] {
      ExchangeLive(w, limit, c, Hook, calls[0].frame, calls[0].fate);
      CallsLive(w, limit, Exchange(w, c, Hook, calls[0].frame, calls[0].fate).0, calls[1..]);
    }
  }

  predicate EndsInFarewell(log: Log) {
    log != [] && QuitWrite(log[|log| - 1])
  }

  lemma {:induction false} GoodbyeFrames(w: World, limit: nat, c: Conn)
    requires Live(limit, c)
    ensures Framed(limit, SayGoodbye(w, c).log)
    ensures EndsInFarewell(SayGoodbye(w, c).log) <==> w.encode(Quit).Some?
  {
    if w.encode(Quit).Some? {
      FramedWrite(limit, c.log, Farewell, w.encode(Quit).value);
    }
  }

  /** An attempt leaves a shaped trace without a farewell, and a live connection if it succeeds. */
  lemma {:induction false} ConnectFrames(w: World, id: nat, config: ConnectionConfig, limit: nat, script: ConnectScript)
    ensures var (c, outcome) := Connect(w, id, config, limit, script);
            && Framed(limit, c.log) && NeverQuits(c.log)
            && (outcome.Connected? ==> Live(limit, c) && NeverServes(c.log))
  {
    var c := Connect(w, id, config, limit, script).0;
    ConnectEstablishes(w, id, config, limit, script);
    GrammarShape(limit, c.log);
  }

  /** Every trace is shaped and the connection in hand is live. */
  ghost predicate AllFramed(limit: nat, t: Task) {
    && (forall k :: 0 <= k < |t.past| ==> Framed(limit, t.past[k]))
    && (t.connection.Some? ==> Live(limit, t.connection.value))
  }

  lemma {:induction false} ReleaseFrames(limit: nat, t: Task, c: Conn)
    requires AllFramed(limit, t) && Framed(limit, c.log)
    ensures AllFramed(limit, Release(t, c)) && AllFramed(limit, Drop(t, c))
  {
  }

  lemma {:induction false} QuitFrames(w: World, limit: nat, t: Task)
    requires AllFramed(limit, t)
    ensures AllFramed(limit, QuitHeld(w, t))
  {
    if t.connection.Some? {
      GoodbyeFrames(w, limit, t.connection.value);
      ReleaseFrames(limit, t, SayGoodbye(w, t.connection.value));
    }
  }

  lemma {:induction false} CommandFrames(w: World, limit: nat, t: Task, command: Command, fate: Fate)
    requires AllFramed(limit, t)
    ensures AllFramed(limit, HandleCommand(w, t, command, fate))
  {
    QuitFrames(w, limit, t);
    if command.Ask? && !t.shutdown && t.connection.Some? {
      var c := Exchange(w, t.connection.value, Request(command.id), command.message, fate).0;
      ExchangeLive(w, limit, t.connection.value, Request(command.id), command.message, fate);
      ReleaseFrames(limit, t, c);
    }
  }

  lemma {:induction false} PingFrames(w: World, limit: nat, t: Task, fate: Fate)
    requires AllFramed(limit, t) && t.connection.Some?
    ensures var c := PingExchange(w, t.connection.value, fate).0;
            AllFramed(limit, t.(connection := Some(c))) && AllFramed(limit, Drop(t, c)) && NeverQuits(c.log)
  {
    var message := w.encode(Ping);
    if message.Some? {
      ExchangeLive(w, limit, t.connection.value, KeepAlive, message.value, fate);
    }
    ReleaseFrames(limit, t, PingExchange(w, t.connection.value, fate).0);
  }

  lemma {:induction false} AdmitFrames(settings: Settings, w: World, t: Task, c: Conn, hook: HookScript)
    requires AllFramed(settings.limit, t) && Live(settings.limit, c) && NeverServes(c.log)
    ensures AllFramed(settings.limit, Admit(settings, w, t, c, hook))
  {
    var c' := if settings.hook then RunCalls(w, c, hook.calls) else c;
    CallsLive(w, settings.limit, c, hook.calls);
    GoodbyeFrames(w, settings.limit, c');
    ReleaseFrames(settings.limit, t, SayGoodbye(w, c'));
    ReleaseFrames(settings.limit, t, c');
  }

  lemma {:induction false} TickFrames(settings: Settings, w: World, t: Task, script: TickScript)
    requires AllFramed(settings.limit, t)
    ensures AllFramed(settings.limit, HandleTick(settings, w, t, script))
  {
    if t.shutdown {
    } else if t.connection.Some? {
      PingFrames(w, settings.limit, t, script.ping);
    } else if Attempts(settings, t) {
      var (c, outcome) := Connect(w, |t.past|, t.config.value, settings.limit, script.connect);
      ConnectFrames(w, |t.past|, t.config.value, settings.limit, script.connect);
      if outcome.Connected? {
        AdmitFrames(settings, w, t, c, script.hook);
      } else {
        ReleaseFrames(settings.limit, t, c);
      }
    }
  }

  lemma {:induction false} StepFrames(settings: Settings, w: World, s: System, event: Event)
    requires AllFramed(settings.limit, s.task)
    ensures AllFramed(settings.limit, Step(settings, w, s, event).task)
  {
    match event
    case Offer(_) =>
    case HandlesGone =>
    case Receive(fate) =>
      QuitFrames(w, settings.limit, s.task);
      if s.queue != [] {
        CommandFrames(w, settings.limit, s.task, s.queue[0], fate);
      }
    case Tick(script) => TickFrames(settings, w, s.task, script);
  }

  lemma {:induction false} RunFrames(settings: Settings, w: World, s: System, events: seq<Event>)
    requires AllFramed(settings.limit, s.task)
    ensures AllFramed(settings.limit, Run(settings, w, s, events).task)
    decreases events
  {
    if events != [] {
      StepFrames(settings, w, s, events[0]);
      RunFrames(settings, w, Step(settings, w, s, events[0]), events[1..]);
    }
  }

  /**
    In every run, whatever its hooks do, every connection begins with one
    handshake and one login and has no other, every frame read follows a write
    and keeps the payload bound of its phase, no hook call comes after a served
    exchange, and nothing follows a farewell.
   */
  lemma {:induction false} EveryTraceIsFramed(settings: Settings, w: World, config: Option<ConnectionConfig>,
          events: seq<Event>, k: nat)
    requires k < |Logs(Run(settings, w, Start(config), events).task)|
    ensures var t := Run(settings, w, Start(config), events).task;
            && Framed(settings.limit, Logs(t)[k])
            && (k == |t.past| ==> |Logs(t)[k]| >= 4 && NeverQuits(Logs(t)[k]))
  {
    RunFrames(settings, w, Start(config), events);
  }

  // ------------------------------------------------------------------
  // Farewells.

  /**
    The step lets a connection go deliberately: a command other than a request,
    the end of the loop, or a hook's error.
   */
  predicate Announces(settings: Settings, w: World, s: System, event: Event) {
    match event
    case Offer(_) => false
    case HandlesGone => false
    case Receive(_) => s.queue == [] || !s.queue[0].Ask?
    case Tick(script) =>
      && s.task.connection.None? && settings.hook && script.hook.result.HookErr?
      && s.task.config.Some? && Accepted(w, |s.task.past|, s.task.config.value, script.connect)
  }

  /** The step lets a connection, or an attempt at one, go. */
  predicate LetsGo(s: System, s': System) {
    |s'.task.past| == |s.task.past| + 1
  }

  lemma {:induction false} AskFarewell(w: World, limit: nat, t: Task, id: nat, message: RawMessage, fate: Fate)
    requires AllFramed(limit, t)
    ensures var t' := HandleAsk(w, t, id, message, fate);
            |t'.past| == |t.past| + 1 ==> !EndsInFarewell(t'.past[|t.past|])
  {
    if t.connection.Some? {
      ExchangeLive(w, limit, t.connection.value, Request(id), message, fate);
    }
  }

  lemma {:induction false} QuitFarewell(w: World, limit: nat, t: Task, config: Option<ConnectionConfig>)
    requires AllFramed(limit, t) && w.encode(Quit).Some?
    ensures forall t' :: t' == WindDown(w, t) || t' == HandleStop(w, t) || t' == HandleConfigure(w, t, config) ==>
              |t'.past| == |t.past| + 1 ==> EndsInFarewell(t'.past[|t.past|])
  {
    if t.connection.Some? {
      GoodbyeFrames(w, limit, t.connection.value);
    }
  }

  lemma {:induction false} ReceiveFarewell(settings: Settings, w: World, s: System, fate: Fate)
    requires AllFramed(settings.limit, s.task) && w.encode(Quit).Some?
    ensures var s' := Step(settings, w, s, Receive(fate));
            LetsGo(s, s') ==>
              (EndsInFarewell(s'.task.past[|s.task.past|]) <==> Announces(settings, w, s, Receive(fate)))
  {
    if s.queue != [] && s.queue[0].Ask? {
      AskFarewell(w, settings.limit, s.task, s.queue[0].id, s.queue[0].message, fate);
    } else {
      var config := if s.queue != [] && s.queue[0].Configure? then s.queue[0].config else None;
      QuitFarewell(w, settings.limit, s.task, config);
    }
  }

  lemma {:induction false} AdmitFarewell(settings: Settings, w: World, t: Task, c: Conn, hook: HookScript)
    requires Live(settings.limit, c) && NeverServes(c.log) && w.encode(Quit).Some?
    ensures var t' := Admit(settings, w, t, c, hook);
            |t'.past| == |t.past| + 1 ==>
              (EndsInFarewell(t'.past[|t.past|]) <==> settings.hook && hook.result.HookErr?)
  {
    CallsLive(w, settings.limit, c, hook.calls);
    GoodbyeFrames(w, settings.limit, if settings.hook then RunCalls(w, c, hook.calls) else c);
  }

  lemma {:induction false} TickFarewell(settings: Settings, w: World, s: System, script: TickScript)
    requires AllFramed(settings.limit, s.task) && w.encode(Quit).Some?
    ensures var s' := Step(settings, w, s, Tick(script));
            LetsGo(s, s') ==>
              (EndsInFarewell(s'.task.past[|s.task.past|]) <==> Announces(settings, w, s, Tick(script)))
  {
    var t := s.task;
    if t.connection.Some? {
      PingFrames(w, settings.limit, t, script.ping);
    } else if !t.shutdown && Attempts(settings, t) {
      var (c, outcome) := Connect(w, |t.past|, t.config.value, settings.limit, script.connect);
      ConnectFrames(w, |t.past|, t.config.value, settings.limit, script.connect);
      ConnectIsExact(w, |t.past|, t.config.value, settings.limit, script.connect);
      if outcome.Connected? {
        AdmitFarewell(settings, w, t, c, script.hook);
      }
    }
  }

  /**
    In every run, a connection that is let go ends with a farewell exactly if it
    is let go by a new configuration, a shutdown, the end of the loop or an
    on-connect hook's error; a lost, rejected or unfinished one never does, nor
    does one whose hook ran out of time.
   */
  lemma {:induction false} FarewellIsExact(settings: Settings, w: World, config: Option<ConnectionConfig>,
          events: seq<Event>, event: Event)
    requires w.encode(Quit).Some?
    ensures var s := Run(settings, w, Start(config), events);
            var s' := Step(settings, w, s, event);
            LetsGo(s, s') ==>
              (EndsInFarewell(s'.task.past[|s.task.past|]) <==> Announces(settings, w, s, event))
  {
    var s := Run(settings, w, Start(config), events);
    RunFrames(settings, w, Start(config), events);
    match event
    case Offer(_) =>
    case HandlesGone =>
    case Receive(fate) => ReceiveFarewell(settings, w, s, fate);
    case Tick(script) => TickFarewell(settings, w, s, script);
  }
}
