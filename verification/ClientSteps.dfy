/**
  What every step of every run does to the configuration, the connection and
  the status, told from the commands handled, the environment and the server's
  raw frames alone.
 */
module ClientSteps {
  import opened Basics
  import opened Protocol
  import opened Wire
  import opened Connections
  import opened ConnectionOutcomes
  import opened ClientModel
  import opened ClientInvariants

  // ------------------------------------------------------------------
  // The configuration.

  /** The configuration after these commands: the last one given before the first shutdown. */
  function ConfigFrom(config: Option<ConnectionConfig>, handled: seq<Command>): Option<ConnectionConfig>
    decreases handled
  {
    if handled == [] || handled[0].Stop? then config
    else ConfigFrom(if handled[0].Configure? then handled[0].config else config, handled[1..])
  }

  ghost predicate HasStop(commands: seq<Command>) {
    exists i :: 0 <= i < |commands| && commands[i].Stop?
  }

  /** Command `i` gives a configuration, before any shutdown, and none follows it before one. */
  ghost predicate InForce(handled: seq<Command>, i: nat) {
    && i < |handled| && handled[i].Configure? && !HasStop(handled[..i])
    && forall j :: i < j < |handled| && handled[j].Configure? ==> HasStop(handled[i..j])
  }

  lemma {:induction false} StopAppend(handled: seq<Command>, command: Command)
    ensures HasStop(handled + [command]) <==> HasStop(handled) || command.Stop?
  {
    var all := handled + [command];
    if HasStop(handled) {
      var i :| 0 <= i < |handled| && handled[i].Stop?;
      assert all[i].Stop?;
    }
    if command.Stop? {
      assert all[|handled|].Stop?;
    }
  }

  lemma {:induction false} StopFirst(handled: seq<Command>)
    requires handled != []
    ensures HasStop(handled) <==> handled[0].Stop? || HasStop(handled[1..])
  {
    if HasStop(handled) && !handled[0].Stop? {
      var i :| 0 <= i < |handled| && handled[i].Stop?;
      assert handled[1..][i - 1].Stop?;
    }
    if HasStop(handled[1..]) {
      var i :| 0 <= i < |handled| - 1 && handled[1..][i].Stop?;
      assert handled[i + 1].Stop?;
    }
  }

  lemma {:induction false} ConfigAppend(config: Option<ConnectionConfig>, handled: seq<Command>, command: Command)
    ensures ConfigFrom(config, handled + [command])
         == if !HasStop(handled) && command.Configure? then command.config else ConfigFrom(config, handled)
    decreases handled
  {
    if handled == [] {
      assert (handled + [command])[1..] == [];
    } else {
      StopFirst(handled);
      assert (handled + [command])[1..] == handled[1..] + [command];
      if !handled[0].Stop? {
        ConfigAppend(if handled[0].Configure? then handled[0].config else config, handled[1..], command);
      }
    }
  }

  /** `ConfigFrom` is the argument of the configuration in force, or the one at the start if there is none. */
  lemma {:induction false} ConfigFromMeans(config: Option<ConnectionConfig>, handled: seq<Command>)
    ensures forall i: nat :: InForce(handled, i) ==> ConfigFrom(config, handled) == handled[i].config
    ensures (forall i: nat :: !InForce(handled, i)) ==> ConfigFrom(config, handled) == config
  {
    if handled != [] {
      var front, last := handled[..|handled| - 1], handled[|handled| - 1];
      assert handled == front + [last];
      ConfigAppend(config, front, last);
      ConfigFromMeans(config, front);
      if !HasStop(front) && last.Configure? {
        LastInForce(front, last);
        assert InForce(handled, |front|);
      } else {
        forall i: nat
          ensures InForce(handled, i) <==> InForce(front, i)
        {
          InForceStays(front, last, i);
        }
      }
    }
  }

  /** A configuration before any shutdown is the one in force. */
  lemma {:induction false} LastInForce(front: seq<Command>, last: Command)
    requires !HasStop(front) && last.Configure?
    ensures forall i: nat :: InForce(front + [last], i) <==> i == |front|
  {
    var all := front + [last];
    assert all[..|front|] == front;
    forall i: nat | i < |front|
      ensures !InForce(all, i)
    {
      assert all[|front|].Configure? && all[i..|front|] == front[i..];
      StopSplits(front, i);
    }
  }

  lemma {:induction false} InForceStays(front: seq<Command>, last: Command, i: nat)
    requires HasStop(front) || !last.Configure?
    ensures InForce(front + [last], i) <==> InForce(front, i)
  {
    var all := front + [last];
    if i < |front| {
      assert all[..i] == front[..i];
      assert forall j :: i < j < |front| ==> all[i..j] == front[i..j];
      if last.Configure? && !HasStop(front[..i]) {
        assert all[i..|front|] == front[i..];
        StopSplits(front, i);
      }
    } else if i == |front| {
      assert all[..i] == front;
    }
  }

  lemma {:induction false} StopSplits(commands: seq<Command>, i: nat)
    requires i <= |commands|
    ensures HasStop(commands) <==> HasStop(commands[..i]) || HasStop(commands[i..])
  {
    if HasStop(commands) {
      var j :| 0 <= j < |commands| && commands[j].Stop?;
      if j < i {
        assert commands[..i][j].Stop?;
      } else {
        assert commands[i..][j - i].Stop?;
      }
    }
  }

  /** The client task holds the configuration its handled commands give it, and is shut down exactly by one of them. */
  ghost predicate Governed(config: Option<ConnectionConfig>, s: System) {
    s.task.config == ConfigFrom(config, s.handled) && (s.task.shutdown <==> HasStop(s.handled))
  }

  lemma {:induction false} TickGoverns(settings: Settings, w: World, t: Task, script: TickScript)
    ensures var t' := HandleTick(settings, w, t, script);
            t'.config == t.config && t'.shutdown == t.shutdown
  {
  }

  lemma {:induction false} CommandGoverns(w: World, t: Task, command: Command, fate: Fate)
    ensures var t' := HandleCommand(w, t, command, fate);
            && t'.config == (if !t.shutdown && command.Configure? then command.config else t.config)
            && (t'.shutdown <==> t.shutdown || command.Stop?)
  {
  }

  lemma {:induction false} StepGoverned(settings: Settings, w: World, config: Option<ConnectionConfig>, s: System,
          event: Event)
    requires Governed(config, s)
    ensures Governed(config, Step(settings, w, s, event))
  {
    match event
    case Offer(_) =>
    case HandlesGone =>
    case Receive(fate) =>
      if s.running && s.queue != [] {
        CommandGoverns(w, s.task, s.queue[0], fate);
        ConfigAppend(config, s.handled, s.queue[0]);
        StopAppend(s.handled, s.queue[0]);
      }
    case Tick(script) => TickGoverns(settings, w, s.task, script);
  }

  lemma {:induction false} RunGoverned(settings: Settings, w: World, config: Option<ConnectionConfig>, s: System,
          events: seq<Event>)
    requires Governed(config, s)
    ensures Governed(config, Run(settings, w, s, events))
    decreases events
  {
    if events != [] {
      StepGoverned(settings, w, config, s, events[0]);
      RunGoverned(settings, w, config, Step(settings, w, s, events[0]), events[1..]);
    }
  }

  /**
    In every run the configuration held is the argument of the last `configure`
    handled before the first shutdown, or the starting one if there is none.
   */
  lemma {:induction false} ConfigIsLast(settings: Settings, w: World, config: Option<ConnectionConfig>,
          events: seq<Event>)
    ensures var s := Run(settings, w, Start(config), events);
            && s.task.config == ConfigFrom(config, s.handled)
            && (s.task.shutdown <==> HasStop(s.handled))
            && (forall i: nat :: InForce(s.handled, i) ==> s.task.config == s.handled[i].config)
            && ((forall i: nat :: !InForce(s.handled, i)) ==> s.task.config == config)
  {
    RunGoverned(settings, w, config, Start(config), events);
    ConfigFromMeans(config, Run(settings, w, Start(config), events).handled);
  }

  // ------------------------------------------------------------------
  // The connection.

  /** A connection in hand outlives the step. */
  ghost predicate Survives(w: World, s: System, event: Event)
    requires s.task.connection.Some?
  {
    var c := s.task.connection.value;
    var next := w.answer(c.id, c.received);
    match event
    case Offer(_) => true
    case HandlesGone => true
    case Receive(fate) =>
      if s.queue == [] then s.open
      else s.queue[0].Ask? && fate.Arrives? && IsResponse(w, c.maxPayload, next)
    case Tick(script) => w.encode(Ping).Some? && script.ping.Arrives? && IsPong(w, c.maxPayload, next)
  }

  /** The step is a connection attempt. */
  predicate Tries(settings: Settings, s: System, event: Event) {
    && event.Tick? && s.running && !s.task.shutdown && s.task.connection.None? && s.task.config.Some?
    && (s.task.credentialsInvalid ==> settings.policy.Retry?)
  }

  /** The attempt connects and the hook, if there is one, agrees. */
  predicate Gains(settings: Settings, w: World, s: System, event: Event) {
    && Tries(settings, s, event)
    && Accepted(w, |s.task.past|, s.task.config.value, event.script.connect)
    && (settings.hook ==> event.script.hook.result.HookOk?)
  }

  /** The server refuses the login of the attempt. */
  predicate IsRefused(settings: Settings, w: World, s: System, event: Event) {
    Tries(settings, s, event) && Refused(w, |s.task.past|, s.task.config.value, event.script.connect)
  }

  ghost predicate Holds(settings: Settings, w: World, s: System, event: Event) {
    if s.task.connection.Some? then Survives(w, s, event) else Gains(settings, w, s, event)
  }

  /** A command other than a request is handled, or the loop ends. */
  predicate Settles(s: System, event: Event) {
    event.Receive? && s.running && if s.queue == [] then !s.open else !s.queue[0].Ask?
  }

  /** The status such a step leads to. */
  function SettledStatus(s: System): Status {
    if s.queue == [] || s.queue[0].Stop? || s.task.shutdown then ShutDown
    else if s.queue[0].Configure? && s.queue[0].config.Some? then Offline
    else Unconfigured
  }

  /**
    The status after a step.  An attempt and the loss of a connection always
    bring one of their own; anything else but a command to settle keeps it.
   */
  ghost function StatusAfter(settings: Settings, w: World, s: System, event: Event): Status {
    if Settles(s, event) then SettledStatus(s)
    else if s.task.connection.Some? then if Survives(w, s, event) then s.task.status else Offline
    else if IsRefused(settings, w, s, event) then BadCredentials
    else if Gains(settings, w, s, event) then
      Online(w.decodeHandshake(w.answer(|s.task.past|, 0)).value.capabilities)
    else if Tries(settings, s, event) then Offline
    else s.task.status
  }

  /** The credentials flag after a step: set by a refusal, cleared by a connection or a new configuration. */
  predicate FlagAfter(settings: Settings, w: World, s: System, event: Event) {
    if IsRefused(settings, w, s, event) then true
    else if Gains(settings, w, s, event) then false
    else if Settles(s, event) && s.queue != [] && s.queue[0].Configure? && !s.task.shutdown then false
    else s.task.credentialsInvalid
  }

  /** Whether there is a connection, the status, the flag and what was published, as told from the state before. */
  ghost predicate StepsTo(settings: Settings, w: World, s: System, event: Event, t: Task) {
    && (t.connection.Some? <==> Holds(settings, w, s, event))
    && t.status == StatusAfter(settings, w, s, event)
    && (t.credentialsInvalid <==> FlagAfter(settings, w, s, event))
    && t.published == s.task.published + if t.status == s.task.status then [] else [t.status]
  }

  lemma {:induction false} AskIsExact(settings: Settings, w: World, s: System, fate: Fate)
    requires s.running && Sound(settings, w, s.task) && s.queue != [] && s.queue[0].Ask?
    ensures StepsTo(settings, w, s, Receive(fate), HandleCommand(w, s.task, s.queue[0], fate))
  {
    if s.task.connection.Some? {
      var c := s.task.connection.value;
      FatalIsExact(w, w.answer(c.id, c.received));
    }
  }

  lemma {:induction false} SettleIsExact(settings: Settings, w: World, s: System, fate: Fate)
    requires s.running && Sound(settings, w, s.task) && Settles(s, Receive(fate))
    ensures StepsTo(settings, w, s, Receive(fate), Step(settings, w, s, Receive(fate)).task)
  {
  }

  /**
    The keep-alive: a tick keeps the connection in hand exactly if a pong comes
    in time, and otherwise the status says that it is lost.
   */
  lemma {:induction false} KeepAliveIsExact(settings: Settings, w: World, t: Task, script: TickScript)
    requires Sound(settings, w, t) && !t.shutdown && t.connection.Some?
    ensures var c, t' := t.connection.value, HandleTick(settings, w, t, script);
            && (t'.connection.Some? <==>
                 w.encode(Ping).Some? && script.ping.Arrives? && IsPong(w, c.maxPayload, w.answer(c.id, c.received)))
            && t'.status == (if t'.connection.Some? then t.status else Offline)
            && t'.credentialsInvalid == t.credentialsInvalid
            && t'.published == t.published + if t'.status == t.status then [] else [t'.status]
  {
    PingIsExact(w, t.connection.value, script.ping);
  }

  /**
    The attempt: afterwards the status is `BadCredentials` exactly if the server
    refused the login, `Online` exactly if it accepted it and the hook agreed, and
    `Offline` otherwise, whatever it was before.
   */
  lemma {:induction false} AttemptIsExact(settings: Settings, w: World, t: Task, script: TickScript)
    requires Sound(settings, w, t) && !t.shutdown && t.connection.None? && t.config.Some?
    requires t.credentialsInvalid ==> settings.policy.Retry?
    ensures var t' := HandleTick(settings, w, t, script);
            var k, config := |t.past|, t.config.value;
            var agreed := Accepted(w, k, config, script.connect) && (settings.hook ==> script.hook.result.HookOk?);
            && (t'.status.BadCredentials? <==> Refused(w, k, config, script.connect))
            && (t'.status.Online? <==> agreed) && (t'.connection.Some? <==> agreed)
            && (t'.status.Offline? <==> !Refused(w, k, config, script.connect) && !agreed)
            && (agreed ==> t'.status == Online(w.decodeHandshake(w.answer(k, 0)).value.capabilities))
            && (t'.credentialsInvalid <==>
                 Refused(w, k, config, script.connect) || (t.credentialsInvalid && !agreed))
            && t'.published == t.published + if t'.status == t.status then [] else [t'.status]
  {
    var (c, outcome) := Connect(w, |t.past|, t.config.value, settings.limit, script.connect);
    ConnectIsExact(w, |t.past|, t.config.value, settings.limit, script.connect);
    if outcome.Connected? && settings.hook {
      CallsKeep(w, c, script.hook.calls);
    }
  }

  lemma {:induction false} CallsKeep(w: World, c: Conn, calls: seq<HookCall>)
    ensures RunCalls(w, c, calls).capabilities == c.capabilities
    decreases calls
  {
    if calls != [] {
      CallsKeep(w, Exchange(w, c, Hook, calls[0].frame, calls[0].fate).0, calls[1..]);
    }
  }

  lemma {:induction false} TickIsExact(settings: Settings, w: World, s: System, script: TickScript)
    requires s.running && Sound(settings, w, s.task)
    ensures StepsTo(settings, w, s, Tick(script), HandleTick(settings, w, s.task, script))
  {
    if s.task.shutdown {
    } else if s.task.connection.Some? {
      KeepAliveIsExact(settings, w, s.task, script);
    } else if Tries(settings, s, Tick(script)) {
      AttemptIsExact(settings, w, s.task, script);
    }
  }

  /** Every step of every run, whatever the environment and the server do. */
  lemma {:induction false} StepIsExact(settings: Settings, w: World, s: System, event: Event)
    requires SoundSystem(settings, w, s)
    ensures StepsTo(settings, w, s, event, Step(settings, w, s, event).task)
  {
    match event
    case Offer(_) =>
    case HandlesGone =>
    case Receive(fate) =>
      if s.running && s.queue != [] && s.queue[0].Ask? {
        AskIsExact(settings, w, s, fate);
      } else if Settles(s, event) {
        SettleIsExact(settings, w, s, fate);
      }
    case Tick(script) =>
      if s.running {
        TickIsExact(settings, w, s, script);
      }
  }

  // ------------------------------------------------------------------
  // Refusals over a run.

  /** A refusal stands: the last attempt was refused, and nothing was settled since. */
  predicate RefusalStands(settings: Settings, w: World, s: System, events: seq<Event>, stands: bool)
    decreases events
  {
    if events == [] then stands
    else
      var stands1 :=
        if Tries(settings, s, events[0]) then IsRefused(settings, w, s, events[0])
        else stands && !Settles(s, events[0]);
      RefusalStands(settings, w, Step(settings, w, s, events[0]), events[1..], stands1)
  }

  lemma {:induction false} RunRefusals(settings: Settings, w: World, s: System, events: seq<Event>)
    requires SoundSystem(settings, w, s)
    ensures Run(settings, w, s, events).task.status.BadCredentials? <==>
            RefusalStands(settings, w, s, events, s.task.status.BadCredentials?)
    decreases events
  {
    if events != [] {
      StepIsExact(settings, w, s, events[0]);
      StepSound(settings, w, s, events[0]);
      RunRefusals(settings, w, Step(settings, w, s, events[0]), events[1..]);
    }
  }

  /**
    In every run the status is `BadCredentials` exactly if the last attempt was
    refused and no configuration or shutdown was handled since.
   */
  lemma {:induction false} BadCredentialsExactly(settings: Settings, w: World, config: Option<ConnectionConfig>,
          events: seq<Event>)
    ensures Run(settings, w, Start(config), events).task.status.BadCredentials? <==>
            RefusalStands(settings, w, Start(config), events, false)
  {
    RunRefusals(settings, w, Start(config), events);
  }

  // ------------------------------------------------------------------
  // What a handled request gets.

  /**
    The caller of a handled request gets the next frame of the connection in hand
    exactly if it comes in time and within the limit, `Shutdown` exactly after a
    shutdown, and `Disconnected` otherwise.
   */
  lemma {:induction false} RequestIsExact(settings: Settings, w: World, t: Task, id: nat, message: RawMessage,
          fate: Fate)
    requires Sound(settings, w, t)
    ensures var answers := HandleAsk(w, t, id, message, fate).answered;
            var n := |t.answered|;
            && |answers| == n + 1 && answers[..n] == t.answered
            && answers[n].id == id && answers[n].message == message
            && (answers[n].result == Err(Shutdown) <==> t.shutdown)
            && (answers[n].result.Ok? <==>
                 && t.connection.Some?
                 && Comes(w, t.connection.value.id, t.connection.value.received, settings.limit, fate))
            && (answers[n].result.Ok? ==>
                 answers[n].result.value == w.answer(t.connection.value.id, t.connection.value.received))
            && (answers[n].result.Err? ==> answers[n].result.error.Shutdown? || answers[n].result.error.Disconnected?)
  {
  }
}
