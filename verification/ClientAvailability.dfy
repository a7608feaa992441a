/**
  What a run's status will be, told from its schedule alone: as long as the
  frames the client task takes off the stream are the ones it waits for, an
  automaton that knows no frame, no trace and no server says in every state
  whether it is connected.  With candid hooks that is what a server does that
  answers pings with pongs and requests without closing.
 */
module ClientAvailability {
  import opened Basics
  import opened Protocol
  import opened Connections
  import opened ConnectionOutcomes
  import opened ClientModel
  import opened ClientInvariants
  import opened ClientPairing
  import opened Wire

  /** The queue and its ends, whether there is a configuration and a connection, and whether a shutdown was handled. */
  datatype Forecast =
    Forecast(queue: seq<Command>, open: bool, running: bool, configured: bool, up: bool, stopped: bool)

  function Of(s: System): Forecast {
    Forecast(s.queue, s.open, s.running, s.task.config.Some?, s.task.connection.Some?, s.task.shutdown)
  }

  function ForecastCommand(f: Forecast, command: Command, fate: Fate): Forecast {
    match command
    case Configure(config) => if f.stopped then f else f.(configured := config.Some?, up := false)
    case Ask(_, _) => f.(up := f.up && fate.Arrives?)
    case Stop => f.(stopped := true, up := false)
  }

  /** Everything an attempt waits for arrives in time, and the hook, if there is one, agrees. */
  predicate AllInTime(settings: Settings, script: TickScript) {
    && script.connect.setup.SetUp? && script.connect.handshake.Arrives? && script.connect.auth.Arrives?
    && (settings.hook ==> script.hook.result.HookOk?)
  }

  function ForecastStep(settings: Settings, f: Forecast, event: Event): Forecast {
    match event
    case Offer(command) =>
      if f.running && f.open && |f.queue| < QUEUE_CAPACITY then f.(queue := f.queue + [command]) else f
    case HandlesGone => f.(open := false)
    case Receive(fate) =>
      if !f.running then f
      else if f.queue != [] then ForecastCommand(f, f.queue[0], fate).(queue := f.queue[1..])
      else if !f.open then f.(running := false, up := false)
      else f
    case Tick(script) =>
      if !f.running || f.stopped || !f.configured then f
      else f.(up := if f.up then script.ping.Arrives? else AllInTime(settings, script))
  }

  function ForecastRun(settings: Settings, f: Forecast, events: seq<Event>): Forecast
    decreases events
  {
    if events == [] then f else ForecastRun(settings, ForecastStep(settings, f, events[0]), events[1..])
  }

  // ------------------------------------------------------------------
  // The frames the client task waits for.

  /** On attempt `k` the server agrees on version 3 and accepts the credentials. */
  ghost predicate Welcomes(w: World, k: nat, config: ConnectionConfig) {
    && w.encode(ClientHandshake(3, 3)).Some?
    && (forall ip :: w.encode(Authentication(config.clientId, config.clientSecret, ip)).Some?)
    && |w.answer(k, 0).payload| <= 1024 && |w.answer(k, 1).payload| <= 1024
    && w.answer(k, 0).messageType != w.errorOpcode && w.answer(k, 1).messageType != w.errorOpcode
    && w.decodeHandshake(w.answer(k, 0)).Ok? && w.decodeHandshake(w.answer(k, 0)).value.acceptedVersion == 3
    && w.decodeAccepted(w.answer(k, 1)).Ok?
  }

  /** The frame next off the stream of the connection in hand is a pong. */
  predicate Pongs(w: World, c: Conn) {
    w.encode(Ping).Some? && IsPong(w, c.maxPayload, w.answer(c.id, c.received))
  }

  /** The frame next off the stream will do as the answer to a request. */
  ghost predicate Responds(w: World, c: Conn) {
    IsResponse(w, c.maxPayload, w.answer(c.id, c.received))
  }

  /** What this step takes off the stream, if anything, is what it waits for. */
  ghost predicate Helpful(w: World, s: System, event: Event) {
    match event
    case Offer(_) => true
    case HandlesGone => true
    case Receive(_) =>
      s.queue != [] && s.queue[0].Ask? && s.task.connection.Some? ==> Responds(w, s.task.connection.value)
    case Tick(_) =>
      && (s.task.connection.Some? ==> Pongs(w, s.task.connection.value))
      && (s.task.connection.None? && s.task.config.Some? ==> Welcomes(w, |s.task.past|, s.task.config.value))
  }

  ghost predicate HelpfulRun(settings: Settings, w: World, s: System, events: seq<Event>)
    decreases events
  {
    events != [] ==> Helpful(w, s, events[0]) && HelpfulRun(settings, w, Step(settings, w, s, events[0]), events[1..])
  }

  // ------------------------------------------------------------------
  // A server that keeps its side of the protocol.

  /** In this step the server answers the frame written in it as the protocol asks. */
  ghost predicate Proper(w: World, s: System, event: Event) {
    match event
    case Offer(_) => true
    case HandlesGone => true
    case Receive(_) =>
      s.queue != [] && s.queue[0].Ask? && s.task.connection.Some? ==>
        var c := s.task.connection.value;
        IsResponse(w, c.maxPayload, w.answer(c.id, Writes(c.log)))
    case Tick(_) =>
      && (s.task.connection.Some? ==>
           var c := s.task.connection.value;
           w.encode(Ping).Some? && IsPong(w, c.maxPayload, w.answer(c.id, Writes(c.log))))
      && (s.task.connection.None? && s.task.config.Some? ==> Welcomes(w, |s.task.past|, s.task.config.value))
  }

  ghost predicate ProperRun(settings: Settings, w: World, s: System, events: seq<Event>)
    decreases events
  {
    events != [] ==> Proper(w, s, events[0]) && ProperRun(settings, w, Step(settings, w, s, events[0]), events[1..])
  }

  /** With candid hooks, a server that answers every frame properly and only such a server is helpful. */
  lemma {:induction false} ProperIsHelpful(settings: Settings, w: World, s: System, events: seq<Event>)
    requires InStep(settings, w, s.task) && CandidRun(settings, w, s, events)
    ensures ProperRun(settings, w, s, events) <==> HelpfulRun(settings, w, s, events)
    decreases events
  {
    if events != [] {
      InStepStep(settings, w, s, events[0]);
      ProperIsHelpful(settings, w, Step(settings, w, s, events[0]), events[1..]);
    }
  }

  // ------------------------------------------------------------------
  // The forecast comes true.

  predicate Unlatched(settings: Settings, t: Task) {
    t.credentialsInvalid ==> settings.policy.Retry?
  }

  lemma {:induction false} WelcomeNegotiates(w: World, id: nat, config: ConnectionConfig, fate: Fate)
    requires Welcomes(w, id, config)
    ensures var (c, progress) := Negotiate(w, Fresh(id), fate);
            && (progress.Done? <==> fate.Arrives?)
            && (progress.Done? ==> c.id == id && c.received == 1 && c.maxPayload == 1024)
  {
  }

  lemma {:induction false} WelcomeConnects(w: World, id: nat, config: ConnectionConfig, limit: nat,
          script: ConnectScript)
    requires Welcomes(w, id, config)
    ensures var outcome := Connect(w, id, config, limit, script).1;
            && (outcome.Connected? <==> script.setup.SetUp? && script.handshake.Arrives? && script.auth.Arrives?)
            && !outcome.Rejected?
  {
    WelcomeNegotiates(w, id, config, script.handshake);
  }

  lemma {:induction false} AskForecast(w: World, t: Task, id: nat, message: RawMessage, fate: Fate)
    requires t.shutdown ==> t.connection.None?
    requires t.connection.Some? ==> Responds(w, t.connection.value)
    ensures var t' := HandleAsk(w, t, id, message, fate);
            && (t'.connection.Some? <==> t.connection.Some? && fate.Arrives?)
            && t'.config == t.config && t'.shutdown == t.shutdown && t'.credentialsInvalid == t.credentialsInvalid
  {
  }

  lemma {:induction false} CommandForecast(w: World, s: System, command: Command, fate: Fate)
    requires s.task.shutdown ==> s.task.connection.None?
    requires command.Ask? && s.task.connection.Some? ==> Responds(w, s.task.connection.value)
    ensures var t' := HandleCommand(w, s.task, command, fate);
            && Of(s.(task := t')) == ForecastCommand(Of(s), command, fate)
            && (t'.credentialsInvalid ==> s.task.credentialsInvalid)
  {
    if command.Ask? {
      AskForecast(w, s.task, command.id, command.message, fate);
    }
  }

  lemma {:induction false} TickForecast(settings: Settings, w: World, s: System, script: TickScript)
    requires s.running && Sound(settings, w, s.task) && Unlatched(settings, s.task) && Helpful(w, s, Tick(script))
    ensures var t' := HandleTick(settings, w, s.task, script);
            && Of(s.(task := t')) == ForecastStep(settings, Of(s), Tick(script))
            && (t'.credentialsInvalid ==> s.task.credentialsInvalid)
  {
    var t := s.task;
    if !t.shutdown && t.connection.None? && t.config.Some? {
      WelcomeConnects(w, |t.past|, t.config.value, settings.limit, script.connect);
    }
  }

  lemma {:induction false} StepForecast(settings: Settings, w: World, s: System, event: Event)
    requires SoundSystem(settings, w, s) && Unlatched(settings, s.task) && Helpful(w, s, event)
    ensures var s' := Step(settings, w, s, event);
            && Of(s') == ForecastStep(settings, Of(s), event)
            && (s'.task.credentialsInvalid ==> s.task.credentialsInvalid)
  {
    match event
    case Offer(_) =>
    case HandlesGone =>
    case Receive(fate) =>
      if s.running && s.queue != [] {
        CommandForecast(w, s, s.queue[0], fate);
      }
    case Tick(script) =>
      if s.running {
        TickForecast(settings, w, s, script);
      }
  }

  /**
    From every sound state that is not latched, in a helpful run, the client task
    does what the automaton says: which ticks connect, which exchanges keep
    the connection and which commands end it depends on the schedule alone.
   */
  lemma {:induction false} RunForecast(settings: Settings, w: World, s: System, events: seq<Event>)
    requires SoundSystem(settings, w, s) && Unlatched(settings, s.task) && HelpfulRun(settings, w, s, events)
    ensures var s' := Run(settings, w, s, events);
            && Of(s') == ForecastRun(settings, Of(s), events)
            && (s'.task.credentialsInvalid ==> s.task.credentialsInvalid)
    decreases events
  {
    if events != [] {
      StepForecast(settings, w, s, events[0]);
      StepSound(settings, w, s, events[0]);
      RunForecast(settings, w, Step(settings, w, s, events[0]), events[1..]);
    }
  }

  /** In a helpful run the published status is the forecast one, and credentials are never reported bad. */
  lemma {:induction false} StatusIsForecast(settings: Settings, w: World, config: Option<ConnectionConfig>,
          events: seq<Event>)
    requires HelpfulRun(settings, w, Start(config), events)
    ensures var status := Run(settings, w, Start(config), events).task.status;
            var f := ForecastRun(settings, Of(Start(config)), events);
            && (status.ShutDown? <==> f.stopped || !f.running)
            && (status.Unconfigured? <==> !f.stopped && f.running && !f.configured)
            && (status.Online? <==> f.up)
            && !status.BadCredentials?
  {
    EveryRunIsSound(settings, w, config, events);
    RunForecast(settings, w, Start(config), events);
  }

  /** So it is in every run with candid hooks against a server that keeps its side of the protocol. */
  lemma {:induction false} ProperServerForecast(settings: Settings, w: World, config: Option<ConnectionConfig>,
          events: seq<Event>)
    requires CandidRun(settings, w, Start(config), events) && ProperRun(settings, w, Start(config), events)
    ensures var status := Run(settings, w, Start(config), events).task.status;
            var f := ForecastRun(settings, Of(Start(config)), events);
            && (status.ShutDown? <==> f.stopped || !f.running)
            && (status.Unconfigured? <==> !f.stopped && f.running && !f.configured)
            && (status.Online? <==> f.up)
            && !status.BadCredentials?
  {
    ProperIsHelpful(settings, w, Start(config), events);
    StatusIsForecast(settings, w, config, events);
  }

  // ------------------------------------------------------------------
  // Coming up and staying up.

  /** The step brings no trouble: everything it waits for arrives, and no command but a request is offered. */
  predicate Calm(event: Event) {
    match event
    case Offer(command) => command.Ask?
    case HandlesGone => false
    case Receive(fate) => fate.Arrives?
    case Tick(script) => script.ping.Arrives?
  }

  predicate OnlyRequests(f: Forecast) {
    forall i :: 0 <= i < |f.queue| ==> f.queue[i].Ask?
  }

  lemma {:induction false} StaysUp(settings: Settings, f: Forecast, events: seq<Event>)
    requires f.running && f.open && f.up && f.configured && !f.stopped && OnlyRequests(f)
    requires forall i :: 0 <= i < |events| ==> Calm(events[i])
    ensures ForecastRun(settings, f, events).up
    decreases events
  {
    if events != [] {
      assert Calm(events[0]);
      StaysUp(settings, ForecastStep(settings, f, events[0]), events[1..]);
    }
  }

  /**
    From every sound, running, configured, unlatched state without a connection,
    a tick in which everything arrives in time connects, and the client task
    stays connected through any calm schedule of pings and requests.
   */
  lemma {:induction false} OneTickIsEnough(settings: Settings, w: World, s: System, script: TickScript,
          events: seq<Event>)
    requires SoundSystem(settings, w, s) && s.running && s.open && !s.task.shutdown
    requires s.task.config.Some? && s.task.connection.None? && Unlatched(settings, s.task) && OnlyRequests(Of(s))
    requires AllInTime(settings, script) && forall i :: 0 <= i < |events| ==> Calm(events[i])
    requires HelpfulRun(settings, w, s, [Tick(script)] + events)
    ensures Run(settings, w, s, [Tick(script)] + events).task.status.Online?
  {
    var all := [Tick(script)] + events;
    assert all[1..] == events;
    RunForecast(settings, w, s, all);
    StaysUp(settings, ForecastStep(settings, Of(s), Tick(script)), events);
    RunSound(settings, w, s, all);
  }
}
