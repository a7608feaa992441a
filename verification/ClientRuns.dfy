/** Properties of whole runs of the client task: grammar, queue, latch, shutdown. */
module ClientRuns {
  import opened Basics
  import opened Protocol
  import opened Wire
  import opened Connections
  import opened ConnectionOutcomes
  import opened ClientModel
  import opened ClientInvariants
  import opened ClientPairing

  // ------------------------------------------------------------------
  // Connections.

  /** Logs only grow at the end, and only the log of the connection in hand grows. */
  ghost predicate Extends(t: Task, t': Task) {
    && t.past <= t'.past
    && |Logs(t)| <= |Logs(t')|
    && (t.connection.Some? ==> t.connection.value.log <= Logs(t')[|t.past|])
  }

  lemma {:induction false} LetGoExtends(t: Task, t': Task, c: Conn)
    requires t'.past == t.past + [c.log] && t'.connection.None?
    requires t.connection.Some? ==> t.connection.value.log <= c.log
    ensures Extends(t, t')
  {
  }

  lemma {:induction false} QuitExtends(w: World, t: Task)
    ensures Extends(t, WindDown(w, t)) && Extends(t, HandleStop(w, t))
    ensures forall config :: Extends(t, HandleConfigure(w, t, config))
  {
    if t.connection.Some? {
      var c := SayGoodbye(w, t.connection.value);
      LetGoExtends(t, WindDown(w, t), c);
      LetGoExtends(t, HandleStop(w, t), c);
      forall config
        ensures Extends(t, HandleConfigure(w, t, config))
      {
        if !t.shutdown {
          LetGoExtends(t, HandleConfigure(w, t, config), c);
        }
      }
    }
  }

  lemma {:induction false} CommandExtends(w: World, t: Task, command: Command, fate: Fate)
    ensures Extends(t, HandleCommand(w, t, command, fate))
    ensures Extends(t, WindDown(w, t))
  {
    QuitExtends(w, t);
    if command.Ask? && !t.shutdown && t.connection.Some? {
      var c := Exchange(w, t.connection.value, Request(command.id), command.message, fate).0;
      var t' := HandleAsk(w, t, command.id, command.message, fate);
      if t'.connection.None? {
        LetGoExtends(t, t', c);
      }
    }
  }

  lemma {:induction false} TickExtends(settings: Settings, w: World, t: Task, script: TickScript)
    ensures Extends(t, HandleTick(settings, w, t, script))
  {
    if t.connection.Some? {
      var c := PingExchange(w, t.connection.value, script.ping).0;
      assert t.connection.value.log <= c.log;
    }
  }

  /**
    However a run continues, a connection the client task has let go is never written
    to or read from again, and the one it holds keeps what happened on it; so at
    most one connection is ever live.
   */
  lemma {:induction false} RunExtends(settings: Settings, w: World, s: System, events: seq<Event>)
    ensures Extends(s.task, Run(settings, w, s, events).task)
    decreases events
  {
    if events != [] {
      var s' := Step(settings, w, s, events[0]);
      match events[0] {
        case Offer(_) =>
        case HandlesGone =>
        case Receive(fate) => CommandExtends(w, s.task, if s.queue != [] then s.queue[0] else Stop, fate);
        case Tick(script) => TickExtends(settings, w, s.task, script);
      }
      RunExtends(settings, w, s', events[1..]);
    }
  }

  /** In every run with candid hooks every connection's trace has the shape the protocol prescribes. */
  lemma {:induction false} EveryTraceIsWellShaped(settings: Settings, w: World, config: Option<ConnectionConfig>,
          events: seq<Event>, k: nat)
    requires CandidRun(settings, w, Start(config), events)
    requires k < |Logs(Run(settings, w, Start(config), events).task)|
    ensures var t := Run(settings, w, Start(config), events).task;
            && WellShaped(settings.limit, Logs(t)[k])
            && (k == |t.past| ==>
                 (forall i: nat :: !Abandoned(Logs(t)[k], i)) && NeverQuits(Logs(t)[k]))
  {
    var t := Run(settings, w, Start(config), events).task;
    RunInStep(settings, w, Start(config), events);
    GrammarShape(settings.limit, Logs(t)[k]);
  }

  // ------------------------------------------------------------------
  // The queue.

  function AsksOf(commands: seq<Command>): seq<Command> {
    if commands == [] then []
    else (if commands[0].Ask? then [commands[0]] else []) + AsksOf(commands[1..])
  }

  /** The requests the client task has answered, in the order it answered them. */
  function Asked(answers: seq<Answer>): seq<Command> {
    seq(|answers|, i requires 0 <= i < |answers| => Ask(answers[i].id, answers[i].message))
  }

  lemma {:induction false} AsksOfConcat(a: seq<Command>, b: seq<Command>)
    ensures AsksOf(a + b) == AsksOf(a) + AsksOf(b)
  {
    if a == [] {
      assert a + b == b;
    } else {
      assert (a + b)[0] == a[0] && (a + b)[1..] == a[1..] + b;
      AsksOfConcat(a[1..], b);
      var first := if a[0].Ask? then [a[0]] else [];
      assert AsksOf(a + b) == first + (AsksOf(a[1..]) + AsksOf(b)) == (first + AsksOf(a[1..])) + AsksOf(b);
    }
  }

  ghost predicate GoodQueue(s: System) {
    && s.accepted == s.handled + s.queue
    && |s.queue| <= QUEUE_CAPACITY
    && AsksOf(s.handled) == Asked(s.task.answered)
    && (!s.running ==> s.queue == [] && !s.open)
  }

  lemma {:induction false} CommandAnswers(w: World, t: Task, command: Command, fate: Fate)
    ensures Asked(HandleCommand(w, t, command, fate).answered) == Asked(t.answered) + AsksOf([command])
  {
    assert AsksOf([command]) == if command.Ask? then [command] else [];
    if command.Ask? {
      AskAnswers(w, t, command.id, command.message, fate);
    }
  }

  lemma {:induction false} AskAnswers(w: World, t: Task, id: nat, message: RawMessage, fate: Fate)
    ensures Asked(HandleAsk(w, t, id, message, fate).answered) == Asked(t.answered) + [Ask(id, message)]
  {
  }

  lemma {:induction false} TickAnswersNothing(settings: Settings, w: World, t: Task, script: TickScript)
    ensures HandleTick(settings, w, t, script).answered == t.answered
  {
  }

  lemma {:induction false} ReceiveGoodQueue(settings: Settings, w: World, s: System, fate: Fate)
    requires GoodQueue(s) && s.running && s.queue != []
    ensures GoodQueue(Step(settings, w, s, Receive(fate)))
  {
    var first, rest := s.queue[0], s.queue[1..];
    CommandAnswers(w, s.task, first, fate);
    AsksOfConcat(s.handled, [first]);
    assert s.handled + s.queue == (s.handled + [first]) + rest;
  }

  lemma {:induction false} OfferGoodQueue(s: System, command: Command)
    requires GoodQueue(s)
    ensures GoodQueue(HandleOffer(s, command))
  {
    assert s.handled + (s.queue + [command]) == (s.handled + s.queue) + [command];
  }

  lemma {:induction false} StepGoodQueue(settings: Settings, w: World, s: System, event: Event)
    requires GoodQueue(s)
    ensures GoodQueue(Step(settings, w, s, event))
  {
    match event
    case Offer(command) => OfferGoodQueue(s, command);
    case HandlesGone =>
    case Receive(fate) =>
      if s.running && s.queue != [] {
        ReceiveGoodQueue(settings, w, s, fate);
      }
    case Tick(script) => TickAnswersNothing(settings, w, s.task, script);
  }

  lemma {:induction false} RunGoodQueue(settings: Settings, w: World, s: System, events: seq<Event>)
    requires GoodQueue(s)
    ensures GoodQueue(Run(settings, w, s, events))
    decreases events
  {
    if events != [] {
      StepGoodQueue(settings, w, s, events[0]);
      RunGoodQueue(settings, w, Step(settings, w, s, events[0]), events[1..]);
    }
  }

  /**
    The requests accepted so far are, in order, the ones answered and then the
    ones still queued: none is lost, none answered twice, none overtakes another,
    and the loop ends only when all are answered.
   */
  lemma {:induction false} NoRequestIsLost(settings: Settings, w: World, config: Option<ConnectionConfig>,
          events: seq<Event>)
    ensures var s := Run(settings, w, Start(config), events);
            && AsksOf(s.accepted) == Asked(s.task.answered) + AsksOf(s.queue)
            && s.accepted == s.handled + s.queue
            && (!s.running ==> AsksOf(s.accepted) == Asked(s.task.answered))
  {
    RunGoodQueue(settings, w, Start(config), events);
    var s := Run(settings, w, Start(config), events);
    AsksOfConcat(s.handled, s.queue);
  }

  // ------------------------------------------------------------------
  // The credentials latch.

  predicate OnlyAsks(commands: seq<Command>) {
    forall i :: 0 <= i < |commands| ==> commands[i].Ask?
  }

  predicate Latched(settings: Settings, t: Task) {
    settings.policy.Latch? && t.credentialsInvalid && t.connection.None? && t.status.BadCredentials? && !t.shutdown
  }

  /** No attempt was made, the configuration is the same, and every new answer is a refusal. */
  ghost predicate Quiet(t: Task, t': Task, refusal: RequestError) {
    && t'.past == t.past && t'.connection.None?
    && t'.config == t.config
    && t.answered <= t'.answered
    && forall i :: |t.answered| <= i < |t'.answered| ==> t'.answered[i].result == Err(refusal)
  }

  lemma {:induction false} HandledGrows(settings: Settings, w: World, s: System, events: seq<Event>)
    ensures s.handled <= Run(settings, w, s, events).handled
    decreases events
  {
    if events != [] {
      HandledGrows(settings, w, Step(settings, w, s, events[0]), events[1..]);
    }
  }

  /** The commands a run handles. */
  function HandledBy(settings: Settings, w: World, s: System, events: seq<Event>): seq<Command> {
    HandledGrows(settings, w, s, events);
    Run(settings, w, s, events).handled[|s.handled|..]
  }

  lemma {:induction false} OnlyAsksSplits(a: seq<Command>, b: seq<Command>, c: seq<Command>)
    requires a <= b <= c && OnlyAsks(c[|a|..])
    ensures OnlyAsks(b[|a|..]) && OnlyAsks(c[|b|..])
  {
    forall i | 0 <= i < |b| - |a|
      ensures b[|a|..][i].Ask?
    {
      assert b[|a|..][i] == c[|a|..][i];
    }
    forall i | 0 <= i < |c| - |b|
      ensures c[|b|..][i].Ask?
    {
      assert c[|b|..][i] == c[|a|..][|b| - |a| + i];
    }
  }

  /** What a run handles is what its first step handles and then what the rest does. */
  lemma {:induction false} HandledFirst(settings: Settings, w: World, s: System, events: seq<Event>)
    requires events != [] && OnlyAsks(HandledBy(settings, w, s, events))
    ensures var s1 := Step(settings, w, s, events[0]);
            && OnlyAsks(HandledBy(settings, w, s1, events[1..]))
            && (s.running && s.queue != [] && events[0].Receive? ==> s.queue[0].Ask?)
  {
    var s1 := Step(settings, w, s, events[0]);
    HandledGrows(settings, w, s1, events[1..]);
    assert s.handled <= s1.handled;
    OnlyAsksSplits(s.handled, s1.handled, Run(settings, w, s1, events[1..]).handled);
    if s.running && s.queue != [] && events[0].Receive? {
      assert s1.handled[|s.handled|..][0] == s.queue[0];
    }
  }

  /**
    Under the latch, until a new configuration or a shutdown is handled, no run,
    however long and whatever is queued, makes another attempt or moves the
    status; only the end of the loop does.
   */
  lemma {:induction false} LatchHolds(settings: Settings, w: World, s: System, events: seq<Event>)
    requires s.running ==> Latched(settings, s.task)
    requires !s.running ==> s.task.connection.None?
    requires OnlyAsks(HandledBy(settings, w, s, events))
    ensures var s' := Run(settings, w, s, events);
            && Quiet(s.task, s'.task, Disconnected)
            && (s'.running ==> s'.task.(answered := s.task.answered) == s.task)
            && (s'.running ==> Latched(settings, s'.task))
    decreases events
  {
    if events != [] {
      var s1 := Step(settings, w, s, events[0]);
      HandledFirst(settings, w, s, events);
      LatchHolds(settings, w, s1, events[1..]);
    }
  }

  /** Under `Latch` the latch closes exactly when the server refuses a login; a connection in hand means it is open. */
  lemma {:induction false} LatchCloses(settings: Settings, w: World, t: Task, script: TickScript)
    requires Sound(settings, w, t) && settings.policy.Latch? && !t.shutdown && !t.credentialsInvalid
    ensures Latched(settings, HandleTick(settings, w, t, script)) <==>
              t.connection.None? && t.config.Some? && Refused(w, |t.past|, t.config.value, script.connect)
    ensures var t' := HandleTick(settings, w, t, script);
            t'.connection.Some? ==> !t'.credentialsInvalid
  {
    TickSound(settings, w, t, script);
    if t.config.Some? {
      ConnectIsExact(w, |t.past|, t.config.value, settings.limit, script.connect);
    }
  }

  // ------------------------------------------------------------------
  // Shutdown.

  /**
    Once shut down, over every continuation no connection is attempted, no frame
    is written, configuration and status stay, and every request is answered
    with `Shutdown`.
   */
  lemma {:induction false} ShutdownIsAbsorbing(settings: Settings, w: World, s: System, events: seq<Event>)
    requires s.task.shutdown && s.task.status.ShutDown? && s.task.connection.None?
    ensures var t' := Run(settings, w, s, events).task;
            && Quiet(s.task, t', Shutdown)
            && t'.(answered := s.task.answered) == s.task
    decreases events
  {
    if events != [] {
      ShutdownIsAbsorbing(settings, w, Step(settings, w, s, events[0]), events[1..]);
    }
  }
}
