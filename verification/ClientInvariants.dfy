/** What every command and every tick keeps, whatever the environment does. */
module ClientInvariants {
  import opened Basics
  import opened Protocol
  import opened Wire
  import opened Connections
  import opened ClientModel

  /** The client task's fields and the published status agree. */
  predicate Coherent(settings: Settings, t: Task) {
    && (t.connection.Some? ==> t.status == Online(t.connection.value.capabilities))
    && (t.status.Online? ==> t.connection.Some?)
    && (t.shutdown <==> t.status.ShutDown?)
    && (!t.shutdown ==> (t.config.None? <==> t.status.Unconfigured?))
    && (t.status.BadCredentials? ==> t.credentialsInvalid)
    && (t.connection.Some? ==> !t.credentialsInvalid)
    && (settings.policy.Latch? && t.credentialsInvalid && !t.shutdown ==> t.status.BadCredentials?)
  }

  /** The connection in hand was established with the configuration in hand. */
  ghost predicate Genuine(settings: Settings, w: World, t: Task) {
    t.connection.Some? ==>
      && t.connection.value.id == |t.past|
      && t.config.Some?
      && Established(w, settings.limit, t.config.value, t.connection.value)
  }

  /** A status may follow another: it differs, is not a second connection in a row, and shutdown is the last. */
  predicate MayFollow(a: Status, b: Status) {
    a != b && !(a.Online? && b.Online?) && !a.ShutDown?
  }

  predicate Orderly(published: seq<Status>) {
    var n := |published|;
    n <= 1 || (Orderly(published[..n - 1]) && MayFollow(published[n - 2], published[n - 1]))
  }

  predicate GoodHistory(t: Task) {
    |t.published| > 0 && t.published[|t.published| - 1] == t.status && Orderly(t.published)
  }

  /** In an orderly history every status may follow the one before it, so only the last can be shutdown. */
  lemma {:induction false} OrderlyMeans(published: seq<Status>, i: nat)
    requires Orderly(published) && i + 1 < |published|
    ensures MayFollow(published[i], published[i + 1])
  {
    if i + 2 < |published| {
      OrderlyMeans(published[..|published| - 1], i);
    }
  }

  /** An answer of the client task that tells of a lost connection comes when the status no longer claims one. */
  predicate HonestAnswer(w: World, a: Answer) {
    && (a.result == Err(Disconnected) ==> !a.status.Online?)
    && (a.result.Ok? && IsFatalAnswer(w, a.result.value) ==> !a.status.Online?)
    && (a.result.Err? ==> a.result.error.Disconnected? || a.result.error.Shutdown?)
    && (a.result == Err(Shutdown) <==> a.status.ShutDown?)
  }

  ghost predicate HonestAnswers(w: World, t: Task) {
    forall i :: 0 <= i < |t.answered| ==> HonestAnswer(w, t.answered[i])
  }

  ghost predicate Sound(settings: Settings, w: World, t: Task) {
    Coherent(settings, t) && Genuine(settings, w, t) && GoodHistory(t) && HonestAnswers(w, t)
  }

  lemma {:induction false} SetStatusHistory(t: Task, status: Status)
    requires GoodHistory(t)
    requires t.status.ShutDown? ==> status.ShutDown?
    requires !(t.status.Online? && status.Online?) || t.status == status
    ensures GoodHistory(SetStatus(t, status))
  {
    assert (t.published + [status])[..|t.published|] == t.published;
  }

  /** A step that only extends the log of the connection in hand keeps what established it. */
  lemma {:induction false} EstablishedExtends(w: World, limit: nat, config: ConnectionConfig, c: Conn, c': Conn)
    requires Established(w, limit, config, c)
    requires c.log <= c'.log && c'.(received := c.received, log := c.log) == c
    ensures Established(w, limit, config, c')
  {
  }

  lemma {:induction false} ConfigureSound(settings: Settings, w: World, t: Task, config: Option<ConnectionConfig>)
    requires Sound(settings, w, t)
    ensures Sound(settings, w, HandleConfigure(w, t, config))
  {
    if !t.shutdown {
      SetStatusHistory(QuitHeld(w, t).(credentialsInvalid := false), StatusFor(config));
    }
  }

  lemma {:induction false} StopSound(settings: Settings, w: World, t: Task)
    requires Sound(settings, w, t)
    ensures Sound(settings, w, HandleStop(w, t))
  {
    SetStatusHistory(QuitHeld(w, t).(shutdown := true), ShutDown);
  }

  lemma {:induction false} DropSound(settings: Settings, w: World, t: Task, c: Conn)
    requires Sound(settings, w, t) && !t.shutdown && t.config.Some? && !t.credentialsInvalid
    ensures Sound(settings, w, Drop(t, c)) && Drop(t, c).status.Offline?
  {
    SetStatusHistory(Release(t, c), Offline);
  }

  /** The connection in hand may be used, and kept or dropped afterwards. */
  lemma {:induction false} UseSound(settings: Settings, w: World, t: Task, c: Conn)
    requires Sound(settings, w, t) && t.connection.Some?
    requires var held := t.connection.value; held.log <= c.log && c.(received := held.received, log := held.log) == held
    ensures Sound(settings, w, t.(connection := Some(c)))
    ensures Sound(settings, w, Drop(t, c)) && Drop(t, c).status.Offline?
  {
    EstablishedExtends(w, settings.limit, t.config.value, t.connection.value, c);
    DropSound(settings, w, t, c);
  }

  lemma {:induction false} SendSound(settings: Settings, w: World, t: Task, id: nat, message: RawMessage,
          result: Result<RawMessage, RequestError>)
    requires Sound(settings, w, t) && HonestAnswer(w, Answer(id, message, result, t.status))
    ensures Sound(settings, w, Send(t, id, message, result))
  {
  }

  lemma {:induction false} AskSound(settings: Settings, w: World, t: Task, id: nat, message: RawMessage, fate: Fate)
    requires Sound(settings, w, t)
    ensures Sound(settings, w, HandleAsk(w, t, id, message, fate))
  {
    if t.shutdown {
      SendSound(settings, w, t, id, message, Err(Shutdown));
    } else if t.connection.None? {
      SendSound(settings, w, t, id, message, Err(Disconnected));
    } else {
      var (c, reply) := Exchange(w, t.connection.value, Request(id), message, fate);
      ExchangeStage(w, settings.limit, t.connection.value, Request(id), message, fate);
      UseSound(settings, w, t, c);
      if reply.Answered? {
        SendSound(settings, w, if IsFatalAnswer(w, reply.frame) then Drop(t, c) else t.(connection := Some(c)),
                  id, message, Ok(reply.frame));
      } else {
        SendSound(settings, w, Drop(t, c), id, message, Err(Disconnected));
      }
    }
  }

  lemma {:induction false} CommandSound(settings: Settings, w: World, t: Task, command: Command, fate: Fate)
    requires Sound(settings, w, t)
    ensures Sound(settings, w, HandleCommand(w, t, command, fate))
  {
    match command
    case Configure(config) => ConfigureSound(settings, w, t, config);
    case Ask(id, message) => AskSound(settings, w, t, id, message, fate);
    case Stop => StopSound(settings, w, t);
  }

  lemma {:induction false} TickSound(settings: Settings, w: World, t: Task, script: TickScript)
    requires Sound(settings, w, t)
    ensures Sound(settings, w, HandleTick(settings, w, t, script))
  {
    if t.shutdown {
    } else if t.connection.Some? {
      var held := t.connection.value;
      var c := PingExchange(w, held, script.ping).0;
      var message := w.encode(Ping);
      if message.Some? {
        ExchangeStage(w, settings.limit, held, KeepAlive, message.value, script.ping);
      }
      UseSound(settings, w, t, c);
    } else {
      ConnectSound(settings, w, t, script);
    }
  }

  lemma {:induction false} ConnectSound(settings: Settings, w: World, t: Task, script: TickScript)
    requires Sound(settings, w, t) && !t.shutdown && t.connection.None?
    ensures Sound(settings, w, TryConnect(settings, w, t, script))
  {
    if Attempts(settings, t) {
      var (c, outcome) := Connect(w, |t.past|, t.config.value, settings.limit, script.connect);
      ConnectEstablishes(w, |t.past|, t.config.value, settings.limit, script.connect);
      if outcome.Connected? {
        AdmitSound(settings, w, t, c, script.hook);
      } else {
        ReleaseSound(settings, w, t, c);
        SetStatusHistory(Release(t, c).(credentialsInvalid := true), BadCredentials);
      }
    }
  }

  /** A task without a connection that lets go of a fresh one. */
  lemma {:induction false} ReleaseSound(settings: Settings, w: World, t: Task, c: Conn)
    requires Sound(settings, w, t) && !t.shutdown && t.connection.None? && Attempts(settings, t)
    ensures Sound(settings, w, Drop(t, c))
  {
    SetStatusHistory(Release(t, c), Offline);
  }

  lemma {:induction false} AdmitSound(settings: Settings, w: World, t: Task, c: Conn, hook: HookScript)
    requires Sound(settings, w, t) && !t.shutdown && t.connection.None? && Attempts(settings, t)
    requires c.id == |t.past| && Established(w, settings.limit, t.config.value, c)
    requires Scan(settings.limit, c.log).Authed? && Drained(c)
    ensures Sound(settings, w, Admit(settings, w, t, c, hook))
  {
    var c' := if settings.hook then RunCalls(w, c, hook.calls) else c;
    if settings.hook && hook.result.HookErr? {
      ReleaseSound(settings, w, t, SayGoodbye(w, c'));
    } else if settings.hook && hook.result.HookLate? {
      ReleaseSound(settings, w, t, c');
    } else {
      HookCalls(w, settings.limit, c, hook.calls);
      EstablishedExtends(w, settings.limit, t.config.value, c, c');
      SetStatusHistory(t.(credentialsInvalid := false), Online(c'.capabilities));
    }
  }

  /** `Sound` while the loop runs; afterwards the connection is gone and shutdown is published. */
  ghost predicate SoundSystem(settings: Settings, w: World, s: System) {
    && (s.running ==> Sound(settings, w, s.task))
    && (!s.running ==>
         && s.task.connection.None? && s.task.status.ShutDown?
         && GoodHistory(s.task) && HonestAnswers(w, s.task))
  }

  lemma {:induction false} StepSound(settings: Settings, w: World, s: System, event: Event)
    requires SoundSystem(settings, w, s)
    ensures SoundSystem(settings, w, Step(settings, w, s, event))
  {
    match event
    case Offer(_) =>
    case HandlesGone =>
    case Receive(fate) =>
      if s.running && s.queue != [] {
        CommandSound(settings, w, s.task, s.queue[0], fate);
      } else if s.running && !s.open {
        SetStatusHistory(QuitHeld(w, s.task), ShutDown);
      }
    case Tick(script) =>
      if s.running {
        TickSound(settings, w, s.task, script);
      }
  }

  lemma {:induction false} RunSound(settings: Settings, w: World, s: System, events: seq<Event>)
    requires SoundSystem(settings, w, s)
    ensures SoundSystem(settings, w, Run(settings, w, s, events))
    decreases events
  {
    if events != [] {
      StepSound(settings, w, s, events[0]);
      RunSound(settings, w, Step(settings, w, s, events[0]), events[1..]);
    }
  }

  /**
    In every state of every run the fields and the status agree, the connection
    in hand is a version 3 connection accepted with the credentials in hand and
    with the capabilities of its own handshake, the published history has no
    repetition, and no answer of the client task tells of a loss before the status does.
   */
  lemma {:induction false} EveryRunIsSound(settings: Settings, w: World, config: Option<ConnectionConfig>,
          events: seq<Event>)
    ensures SoundSystem(settings, w, Run(settings, w, Start(config), events))
  {
    RunSound(settings, w, Start(config), events);
  }
}
