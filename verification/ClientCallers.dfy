/**
  What the callers of a handle are told, and when: by the send alone, or by the
  answer to a request that found a place in the queue.
 */
module ClientCallers {
  import opened Basics
  import opened Protocol
  import opened Connections
  import opened ClientModel
  import opened ClientInvariants
  import opened ClientRuns
  import opened ClientTiming
  import opened ClientHooks

  // ------------------------------------------------------------------
  // Who hears of a lost connection while the status claims one.

  predicate TellsLossOnline(t: Told) {
    t.result == Err(Disconnected) && t.status.Online?
  }

  predicate AnswersLossOnline(a: Answer) {
    a.result == Err(Disconnected) && a.status.Online?
  }

  /** Between two states some caller was told `Disconnected` under the status `Connected`. */
  ghost predicate LossHeardOnline(s: System, s': System) {
    || (exists i :: |s.told| <= i < |s'.told| && TellsLossOnline(s'.told[i]))
    || (exists i :: |s.task.answered| <= i < |s'.task.answered| && AnswersLossOnline(s'.task.answered[i]))
  }

  /** A request's send runs into its deadline on a full queue, with a connection up. */
  predicate MeetsFullQueue(s: System, event: Event) {
    && event.Offer? && event.command.Ask?
    && s.running && s.open && |s.queue| >= QUEUE_CAPACITY && s.task.status.Online?
  }

  predicate SomeSendMeetsFullQueue(settings: Settings, w: World, s: System, events: seq<Event>)
    decreases events
  {
    events != [] &&
    (MeetsFullQueue(s, events[0]) || SomeSendMeetsFullQueue(settings, w, Step(settings, w, s, events[0]), events[1..]))
  }

  lemma {:induction false} HistoryGrows(settings: Settings, w: World, s: System, event: Event)
    ensures var s' := Step(settings, w, s, event);
            && s.told <= s'.told && s.task.answered <= s'.task.answered
            && (event.Offer? ==> s'.task == s.task)
            && (!event.Offer? ==> s'.told == s.told)
  {
    if event.Tick? {
      TickAnswersNothing(settings, w, s.task, event.script);
    }
  }

  lemma {:induction false} RunHistoryGrows(settings: Settings, w: World, s: System, events: seq<Event>)
    ensures var s' := Run(settings, w, s, events);
            s.told <= s'.told && s.task.answered <= s'.task.answered
    decreases events
  {
    if events != [] {
      HistoryGrows(settings, w, s, events[0]);
      RunHistoryGrows(settings, w, Step(settings, w, s, events[0]), events[1..]);
    }
  }

  lemma {:induction false} StepLossHeard(settings: Settings, w: World, s: System, event: Event)
    requires SoundSystem(settings, w, s)
    ensures LossHeardOnline(s, Step(settings, w, s, event)) <==> MeetsFullQueue(s, event)
  {
    var s' := Step(settings, w, s, event);
    HistoryGrows(settings, w, s, event);
    StepSound(settings, w, s, event);
    assert forall i :: 0 <= i < |s'.task.answered| ==> HonestAnswer(w, s'.task.answered[i]);
    if MeetsFullQueue(s, event) {
      assert TellsLossOnline(s'.told[|s.told|]);
    }
  }

  lemma {:induction false} LossHeardSplits(s: System, s1: System, s2: System)
    requires s.told <= s1.told <= s2.told
    requires s.task.answered <= s1.task.answered <= s2.task.answered
    ensures LossHeardOnline(s, s2) <==> LossHeardOnline(s, s1) || LossHeardOnline(s1, s2)
  {
    if LossHeardOnline(s, s1) {
      if i :| |s.told| <= i < |s1.told| && TellsLossOnline(s1.told[i]) {
        assert TellsLossOnline(s2.told[i]);
      } else {
        var j :| |s.task.answered| <= j < |s1.task.answered| && AnswersLossOnline(s1.task.answered[j]);
        assert AnswersLossOnline(s2.task.answered[j]);
      }
    }
    if LossHeardOnline(s, s2) {
      if i :| |s.told| <= i < |s2.told| && TellsLossOnline(s2.told[i]) {
        assert i < |s1.told| ==> TellsLossOnline(s1.told[i]);
      } else {
        var j :| |s.task.answered| <= j < |s2.task.answered| && AnswersLossOnline(s2.task.answered[j]);
        assert j < |s1.task.answered| ==> AnswersLossOnline(s1.task.answered[j]);
      }
    }
  }

  /**
    Over every run a caller hears of a lost connection while the status says
    `Connected` if and only if some request's send met a full queue; no answer of
    the client task ever does that.
   */
  lemma {:induction false} LossHeardOnlineExactly(settings: Settings, w: World, s: System, events: seq<Event>)
    requires SoundSystem(settings, w, s)
    ensures LossHeardOnline(s, Run(settings, w, s, events)) <==> SomeSendMeetsFullQueue(settings, w, s, events)
    decreases events
  {
    if events != [] {
      var s1 := Step(settings, w, s, events[0]);
      StepSound(settings, w, s, events[0]);
      StepLossHeard(settings, w, s, events[0]);
      LossHeardOnlineExactly(settings, w, s1, events[1..]);
      HistoryGrows(settings, w, s, events[0]);
      RunHistoryGrows(settings, w, s1, events[1..]);
      LossHeardSplits(s, s1, Run(settings, w, s1, events[1..]));
    }
  }

  function Offers(commands: seq<Command>): seq<Event> {
    seq(|commands|, i requires 0 <= i < |commands| => Offer(commands[i]))
  }

  lemma {:induction false} RunOffers(settings: Settings, w: World, s: System, commands: seq<Command>)
    requires s.running && s.open && OnlyAsks(commands) && |s.queue| + |commands| <= QUEUE_CAPACITY
    ensures Run(settings, w, s, Offers(commands)) == s.(queue := s.queue + commands, accepted := s.accepted + commands)
    decreases commands
  {
    if commands != [] {
      assert Offers(commands)[1..] == Offers(commands[1..]);
      var s1 := Step(settings, w, s, Offer(commands[0]));
      assert s1 == s.(queue := s.queue + [commands[0]], accepted := s.accepted + [commands[0]]);
      RunOffers(settings, w, s1, commands[1..]);
      assert s.queue + commands == s1.queue + commands[1..] && s.accepted + commands == s1.accepted + commands[1..];
    } else {
      assert s.queue + commands == s.queue && s.accepted + commands == s.accepted;
    }
  }

  /** Sixteen requests fill the queue of an idle connection, and the next is told that the connection is lost. */
  lemma {:induction false} FullQueueTells(settings: Settings, w: World, s: System, message: RawMessage)
    requires s.running && s.open && s.queue == []
    ensures var asks := seq(16, (i: nat) => Ask(i, message));
            var s' := Step(settings, w, Run(settings, w, s, Offers(asks)), Offer(Ask(16, message)));
            s'.told == s.told + [Told(Ask(16, message), Err(Disconnected), s.task.status)] && s'.task == s.task
  {
    var asks := seq(16, (i: nat) => Ask(i, message));
    RunOffers(settings, w, s, asks);
    assert s.queue + asks == asks;
  }

  /** A tick that connects, then seventeen requests: the last caller hears `Disconnected` under `Connected`. */
  lemma {:induction false} FullQueueExample(config: ConnectionConfig, message: RawMessage)
    ensures var settings, w := Settings(Latch, 1024, false), ExampleWorld();
            var s := Step(settings, w, Start(Some(config)), Tick(ExampleTick()));
            var asks := seq(16, (i: nat) => Ask(i, message));
            var s' := Step(settings, w, Run(settings, w, s, Offers(asks)), Offer(Ask(16, message)));
            && s'.task.status.Online? && s'.task.connection.Some?
            && s'.told == [Told(Ask(16, message), Err(Disconnected), s'.task.status)]
  {
    var settings, w := Settings(Latch, 1024, false), ExampleWorld();
    var s := Step(settings, w, Start(Some(config)), Tick(ExampleTick()));
    ExampleConnects(config);
    FullQueueTells(settings, w, s, message);
  }

  // ------------------------------------------------------------------
  // What a send reports.

  function ConfiguresOf(commands: seq<Command>): seq<Command> {
    if commands == [] then []
    else
      var last := commands[|commands| - 1];
      ConfiguresOf(commands[..|commands| - 1]) + if last.Configure? then [last] else []
  }

  /** The commands whose callers were told of success by the send. */
  function Confirmed(told: seq<Told>): seq<Command> {
    if told == [] then []
    else
      var last := told[|told| - 1];
      Confirmed(told[..|told| - 1]) + if last.result.Ok? then [last.command] else []
  }

  lemma {:induction false} ConfiguresAppend(commands: seq<Command>, command: Command)
    ensures ConfiguresOf(commands + [command]) == ConfiguresOf(commands) + if command.Configure? then [command] else []
  {
    assert (commands + [command])[..|commands|] == commands;
  }

  lemma {:induction false} ConfirmedAppend(told: seq<Told>, entry: Told)
    ensures Confirmed(told + [entry]) == Confirmed(told) + if entry.result.Ok? then [entry.command] else []
  {
    assert (told + [entry])[..|told|] == told;
  }

  lemma {:induction false} OfferConfirms(s: System, command: Command)
    requires Confirmed(s.told) == ConfiguresOf(s.accepted)
    ensures var s' := HandleOffer(s, command);
            Confirmed(s'.told) == ConfiguresOf(s'.accepted)
  {
    ConfiguresAppend(s.accepted, command);
    var report := SendReport(s, command);
    if report.Some? {
      ConfirmedAppend(s.told, Told(command, report.value, s.task.status));
    }
  }

  lemma {:induction false} StepConfirms(settings: Settings, w: World, s: System, event: Event)
    requires Confirmed(s.told) == ConfiguresOf(s.accepted)
    ensures var s' := Step(settings, w, s, event);
            Confirmed(s'.told) == ConfiguresOf(s'.accepted)
  {
    if event.Offer? {
      OfferConfirms(s, event.command);
    } else {
      var s' := Step(settings, w, s, event);
      assert s'.told == s.told && s'.accepted == s.accepted;
    }
  }

  lemma {:induction false} RunConfirms(settings: Settings, w: World, s: System, events: seq<Event>)
    requires Confirmed(s.told) == ConfiguresOf(s.accepted)
    ensures var s' := Run(settings, w, s, events);
            Confirmed(s'.told) == ConfiguresOf(s'.accepted)
    decreases events
  {
    if events != [] {
      StepConfirms(settings, w, s, events[0]);
      RunConfirms(settings, w, Step(settings, w, s, events[0]), events[1..]);
    }
  }

  /**
    Over every run the `configure` calls that were told of success are, in order,
    exactly the configurations that entered the queue.
   */
  lemma {:induction false} ConfirmedAreAccepted(settings: Settings, w: World, config: Option<ConnectionConfig>,
          events: seq<Event>)
    ensures var s := Run(settings, w, Start(config), events);
            Confirmed(s.told) == ConfiguresOf(s.accepted)
  {
    RunConfirms(settings, w, Start(config), events);
  }

  /**
    A request that is sent enters the queue, or its caller is told at once; never
    both and, while there is a handle, never neither.  It enters exactly if the
    loop runs and there is room, and the report is `Shutdown` exactly if the loop
    has ended.
   */
  lemma {:induction false} SentRequestIsSettled(s: System, id: nat, message: RawMessage)
    requires s.open || !s.running
    ensures var s' := HandleOffer(s, Ask(id, message));
            if s.running && |s.queue| < 16 then
              && s'.queue == s.queue + [Ask(id, message)] && s'.accepted == s.accepted + [Ask(id, message)]
              && s'.told == s.told
            else
              && s'.queue == s.queue && s'.accepted == s.accepted
              && s'.told == s.told +
                   [Told(Ask(id, message), Err(if s.running then Disconnected else Shutdown), s.task.status)]
  {
  }

  // ------------------------------------------------------------------
  // What an operation reports after shutdown.

  /** What the caller of an operation hears in the end: from the send, or from the answer in its turn. */
  function OperationReport(settings: Settings, w: World, s: System, command: Command, events: seq<Event>)
    : Option<Result<(), RequestError>>
  {
    var report := SendReport(s, command);
    var answers := Run(settings, w, Step(settings, w, s, Offer(command)), events).task.answered;
    var turn := |s.task.answered| + |AsksOf(s.queue)|;
    if report.Some? then report
    else if command.Ask? && turn < |answers| then
      Some(if answers[turn].result.Ok? then Ok(()) else Err(answers[turn].result.error))
    else None
  }

  /**
    After a shutdown has been handled, an operation reports `Shutdown` if and
    only if the loop has ended or it is a request that found a place in the
    queue; `configure` reports success and a request on a full queue a lost
    connection.
   */
  lemma {:induction false} ShutdownReportIsExact(settings: Settings, w: World, s: System, command: Command,
          events: seq<Event>)
    requires GoodQueue(s) && s.task.shutdown && s.task.status.ShutDown? && s.task.connection.None?
    requires !command.Stop? && (s.running ==> s.open && Receives(events) == |s.queue| + 1)
    ensures OperationReport(settings, w, s, command, events) == Some(Err(Shutdown))
            <==> !s.running || (command.Ask? && |s.queue| < QUEUE_CAPACITY)
    ensures s.running && command.Configure? && |s.queue| < QUEUE_CAPACITY ==>
              && OperationReport(settings, w, s, command, events) == Some(Ok(()))
              && Run(settings, w, Step(settings, w, s, Offer(command)), events).task.config == s.task.config
  {
    var s1 := Step(settings, w, s, Offer(command));
    ShutdownIsAbsorbing(settings, w, s1, events);
    if s.running && command.Ask? && |s.queue| < QUEUE_CAPACITY {
      StepGoodQueue(settings, w, s, Offer(command));
      AnsweredInTurn(settings, w, s1, events, |s.queue|);
      assert s1.queue[..|s.queue|] == s.queue;
      var answers := Run(settings, w, s1, events).task.answered;
      assert |Asked(answers)| == |answers| == |s.task.answered| + |AsksOf(s.queue)| + 1;
    }
  }

  /** `configure` on a surviving handle after a shutdown: it reports success, and nothing is configured. */
  lemma {:induction false} ConfigureAfterShutdownExample(settings: Settings, w: World, config: ConnectionConfig)
    ensures var s := Run(settings, w, Start(None), [Offer(Stop), Receive(Arrives)]);
            var s' := Step(settings, w, Step(settings, w, s, Offer(Configure(Some(config)))), Receive(Arrives));
            && s'.told == [Told(Configure(Some(config)), Ok(()), ShutDown)]
            && s'.task.config == None && s'.queue == []
  {
    var events := [Offer(Stop), Receive(Arrives)];
    var s1 := Step(settings, w, Start(None), events[0]);
    var s2 := Step(settings, w, s1, events[1]);
    assert events[1..] == [Receive(Arrives)] && events[1..][1..] == [];
    assert Run(settings, w, s1, events[1..]) == Run(settings, w, s2, []) == s2;
    assert s1.queue == [Stop] && s2.queue == [];
  }

  // ------------------------------------------------------------------
  // How long a caller waits.

  lemma {:induction false} BoundGrows(d: Deadlines, receives: nat, most: nat, ticks: nat)
    requires receives <= most
    ensures Bound(d, receives, ticks) <= Bound(d, most, ticks)
    decreases most - receives
  {
    if receives < most {
      BoundStep(d, receives, ticks);
      BoundGrows(d, receives + 1, most, ticks);
    }
  }

  lemma {:induction false} BoundAdds(d: Deadlines, receives: nat, ticks: nat, receives': nat, ticks': nat)
    ensures Bound(d, receives, ticks) + Bound(d, receives', ticks') == Bound(d, receives + receives', ticks + ticks')
  {
  }

  lemma {:induction false} RoomIsAnswered(settings: Settings, w: World, s: System, command: Command, after: seq<Event>)
    requires GoodQueue(s) && command.Ask? && s.running && s.open && |s.queue| < QUEUE_CAPACITY
    requires Receives(after) == |s.queue| + 1
    ensures var s1 := Step(settings, w, s, Offer(command));
            Asked(Run(settings, w, s1, after).task.answered) == Asked(s.task.answered) + AsksOf(s.queue) + [command]
  {
    var s1 := Step(settings, w, s, Offer(command));
    StepGoodQueue(settings, w, s, Offer(command));
    AnsweredInTurn(settings, w, s1, after, |s.queue|);
    assert s1.queue[..|s.queue|] == s.queue;
  }

  /** At most one step of the loop, with whatever other callers do meanwhile. */
  predicate OneStep(events: seq<Event>) {
    Receives(events) + Ticks(events) <= 1
  }

  /** The step during which a request takes its place and the steps up to its answer. */
  lemma {:induction false} PlaceIsAnsweredWithin(settings: Settings, w: World, s0: System, during: seq<Event>,
          spent: seq<Spent>, command: Command, after: seq<Event>, times: seq<Spent>, d: Deadlines)
    requires GoodQueue(s0) && command.Ask? && OneStep(during)
    requires |spent| == |during| && forall i :: 0 <= i < |spent| ==> InTime(d, spent[i])
    requires |times| == |after| && forall i :: 0 <= i < |times| ==> InTime(d, times[i])
    requires |Run(settings, w, s0, during).queue| < QUEUE_CAPACITY
    requires Receives(after) == |Run(settings, w, s0, during).queue| + 1
    ensures var s1 := Step(settings, w, Run(settings, w, s0, during), Offer(command));
            Elapsed(settings, w, s0, during, spent) + Elapsed(settings, w, s1, after, times)
            <= Bound(d, 17, Ticks(during) + Ticks(after))
  {
    var s1 := Step(settings, w, Run(settings, w, s0, during), Offer(command));
    ElapsedWithin(settings, w, s0, during, spent, d);
    ElapsedWithin(settings, w, s1, after, times, d);
    BoundAdds(d, Receives(during), Ticks(during), Receives(after), Ticks(after));
    BoundGrows(d, Receives(during) + Receives(after), 17, Ticks(during) + Ticks(after));
  }

  /**
    From the call on.  The call comes at time `called` into the steps `before`,
    which fill its wait; they last at most the request deadline from then.  A
    place that a receive frees is taken at once, while the command received is
    only begun, so the step `during` which the request takes its place counts
    apart.  After it come the steps up to its turn.  Altogether the request is
    answered within the deadline, seventeen commands and the ticks among them; if
    no place came free its caller is told that the connection is lost.
   */
  lemma {:induction false} CallerWaitsWithin(settings: Settings, w: World, start: System, called: nat,
          before: seq<Event>, waited: seq<Spent>, during: seq<Event>, spent: seq<Spent>, command: Command,
          after: seq<Event>, times: seq<Spent>, d: Deadlines)
    requires GoodQueue(start) && command.Ask? && OneStep(during)
    requires |waited| == |before| && Elapsed(settings, w, start, before, waited) <= called + d.request
    requires |spent| == |during| && forall i :: 0 <= i < |spent| ==> InTime(d, spent[i])
    requires |times| == |after| && forall i :: 0 <= i < |times| ==> InTime(d, times[i])
    requires var s := Run(settings, w, Run(settings, w, start, before), during);
             s.running && s.open && (|s.queue| < QUEUE_CAPACITY ==> Receives(after) == |s.queue| + 1)
    ensures var s0 := Run(settings, w, start, before);
            var s := Run(settings, w, s0, during);
            var s1 := Step(settings, w, s, Offer(command));
            if |s.queue| < QUEUE_CAPACITY then
              && Elapsed(settings, w, start, before, waited) + Elapsed(settings, w, s0, during, spent)
                 + Elapsed(settings, w, s1, after, times)
                 <= called + d.request + Bound(d, 17, Ticks(during) + Ticks(after))
              && Asked(Run(settings, w, s1, after).task.answered)
                 == Asked(s.task.answered) + AsksOf(s.queue) + [command]
            else
              s1.told == s.told + [Told(command, Err(Disconnected), s.task.status)]
  {
    var s0 := Run(settings, w, start, before);
    var s := Run(settings, w, s0, during);
    RunGoodQueue(settings, w, start, before);
    RunGoodQueue(settings, w, s0, during);
    if |s.queue| < QUEUE_CAPACITY {
      RoomIsAnswered(settings, w, s, command, after);
      PlaceIsAnsweredWithin(settings, w, s0, during, spent, command, after, times, d);
    }
  }

  // ------------------------------------------------------------------
  // The bound is reached.

  /** A connected client task with nothing but requests queued. */
  predicate Serving(s: System) {
    s.running && s.open && !s.task.shutdown && s.task.connection.Some? && OnlyAsks(s.queue)
  }

  function Receptions(n: nat): seq<Event> {
    if n == 0 then [] else [Receive(Arrives)] + Receptions(n - 1)
  }

  function Each(spent: Spent, n: nat): (times: seq<Spent>)
    ensures |times| == n && forall i :: 0 <= i < n ==> times[i] == spent
  {
    if n == 0 then [] else [spent] + Each(spent, n - 1)
  }

  lemma {:induction false} ReceptionsCount(n: nat)
    ensures |Receptions(n)| == n && Receives(Receptions(n)) == n && Ticks(Receptions(n)) == 0
  {
    if n > 0 {
      ReceptionsCount(n - 1);
      assert Receptions(n)[1..] == Receptions(n - 1);
    }
  }

  lemma {:induction false} ReceiveServes(settings: Settings, s: System, spent: Spent)
    requires Serving(s) && s.queue != []
    ensures var s' := Step(settings, ExampleWorld(), s, Receive(Arrives));
            && Serving(s') && s'.queue == s.queue[1..]
            && StepCost(settings, ExampleWorld(), s, Receive(Arrives), spent) == spent.exchange
  {
  }

  lemma {:induction false} ReceptionsStep(settings: Settings, w: World, s: System, n: nat, spent: Spent)
    requires n > 0
    ensures |Receptions(n)| == n && |Receptions(n - 1)| == n - 1
    ensures var s1 := Step(settings, w, s, Receive(Arrives));
            && Run(settings, w, s, Receptions(n)) == Run(settings, w, s1, Receptions(n - 1))
            && Elapsed(settings, w, s, Receptions(n), Each(spent, n))
               == StepCost(settings, w, s, Receive(Arrives), spent)
                  + Elapsed(settings, w, s1, Receptions(n - 1), Each(spent, n - 1))
  {
    ReceptionsCount(n);
    ReceptionsCount(n - 1);
    assert Receptions(n)[0] == Receive(Arrives) && Receptions(n)[1..] == Receptions(n - 1);
    assert Each(spent, n)[0] == spent && Each(spent, n)[1..] == Each(spent, n - 1);
  }

  /** Each of `n` queued requests takes an exchange of its own. */
  lemma {:induction false} ServingCosts(settings: Settings, s: System, n: nat, spent: Spent)
    requires Serving(s) && n <= |s.queue|
    ensures |Receptions(n)| == n
    ensures Elapsed(settings, ExampleWorld(), s, Receptions(n), Each(spent, n)) == n * spent.exchange
    ensures var s' := Run(settings, ExampleWorld(), s, Receptions(n));
            Serving(s') && s'.queue == s.queue[n..]
    decreases n
  {
    if n > 0 {
      ReceptionsStep(settings, ExampleWorld(), s, n, spent);
      ReceiveServes(settings, s, spent);
      ServingCosts(settings, Step(settings, ExampleWorld(), s, Receive(Arrives)), n - 1, spent);
      assert s.queue[1..][n - 1..] == s.queue[n..];
      assert n * spent.exchange == spent.exchange + (n - 1) * spent.exchange;
    }
  }

  lemma {:induction false} OffersCostNothing(settings: Settings, w: World, s: System, commands: seq<Command>,
          spent: Spent)
    ensures Elapsed(settings, w, s, Offers(commands), Each(spent, |commands|)) == 0
    decreases commands
  {
    if commands != [] {
      assert Offers(commands)[1..] == Offers(commands[1..]);
      assert Each(spent, |commands|)[1..] == Each(spent, |commands| - 1);
      OffersCostNothing(settings, w, Step(settings, w, s, Offer(commands[0])), commands[1..], spent);
    }
  }

  /** A tick that dials, runs a hook that fails and says goodbye takes the whole of what the bound allows for a tick. */
  lemma {:induction false} SlowestTick(config: ConnectionConfig, d: Deadlines)
    ensures var script := TickScript(Arrives, ExampleTick().connect, HookScript([], HookErr));
            StepCost(Settings(Latch, 1024, true), ExampleWorld(), Start(Some(config)), Tick(script),
                     Spent(d.request, d.request, d.request, d.farewell))
            == Bound(d, 0, 1)
  {
    ExampleConnects(config);
  }

  /** On a connection every command takes its time: a request an exchange, any other a farewell. */
  lemma {:induction false} SlowestCommand(settings: Settings, w: World, s: System, fate: Fate, d: Deadlines)
    requires s.running && !s.task.shutdown && s.task.connection.Some? && s.queue != []
    ensures StepCost(settings, w, s, Receive(fate), Spent(d.request, d.request, d.request, d.farewell))
         == if s.queue[0].Ask? then d.request else d.farewell
  {
  }

  /** One request is handled, in one exchange, while others fill the queue. */
  function Filling(asks: seq<Command>): seq<Event> {
    [Receive(Arrives)] + Offers(asks)
  }

  lemma {:induction false} FillingFills(settings: Settings, s: System, asks: seq<Command>, spent: Spent)
    requires Serving(s) && |s.queue| == 1 && |asks| == 16 && OnlyAsks(asks)
    ensures var filled := Run(settings, ExampleWorld(), s, Filling(asks));
            Serving(filled) && filled.queue == asks
    ensures Elapsed(settings, ExampleWorld(), s, Filling(asks), Each(spent, 17)) == spent.exchange
  {
    var begun := Step(settings, ExampleWorld(), s, Receive(Arrives));
    ReceiveServes(settings, s, spent);
    RunOffers(settings, ExampleWorld(), begun, asks);
    OffersCostNothing(settings, ExampleWorld(), begun, asks, spent);
    assert Filling(asks)[0] == Receive(Arrives) && Filling(asks)[1..] == Offers(asks);
    assert Each(spent, 17)[0] == spent && Each(spent, 17)[1..] == Each(spent, 16);
    assert begun.queue + asks == asks;
  }

  lemma {:induction false} FullQueueCosts(settings: Settings, s: System, command: Command, spent: Spent)
    requires Serving(s) && |s.queue| == 16 && command.Ask?
    ensures |Receptions(1)| == 1 && |Receptions(16)| == 16
    ensures var s' := Step(settings, ExampleWorld(), Run(settings, ExampleWorld(), s, Receptions(1)), Offer(command));
            && s'.queue == s.queue[1..] + [command]
            && Elapsed(settings, ExampleWorld(), s, Receptions(1), Each(spent, 1)) == spent.exchange
            && Elapsed(settings, ExampleWorld(), s', Receptions(16), Each(spent, 16)) == 16 * spent.exchange
  {
    ServingCosts(settings, s, 1, spent);
    var s' := Step(settings, ExampleWorld(), Run(settings, ExampleWorld(), s, Receptions(1)), Offer(command));
    assert Serving(s');
    ServingCosts(settings, s', 16, spent);
  }

  /**
    The slowest case.  A request is being handled and sixteen fill the queue
    behind it when the call comes; every exchange takes the whole deadline `T`.
    The wait takes `T`; the request that makes room, the fifteen ahead and the
    caller's own take the time of the seventeen commands of the bound.
   */
  lemma {:induction false} SlowestCaller(settings: Settings, s: System, asks: seq<Command>, command: Command,
          deadline: nat)
    requires Serving(s) && |s.queue| == 1 && |asks| == 16 && OnlyAsks(asks) && command.Ask?
    ensures |Receptions(1)| == 1 && |Receptions(16)| == 16
    ensures var w, spent := ExampleWorld(), Spent(deadline, 0, 0, 0);
            var filled := Run(settings, w, s, Filling(asks));
            var placed := Step(settings, w, Run(settings, w, filled, Receptions(1)), Offer(command));
            && |filled.queue| == QUEUE_CAPACITY && placed.queue == asks[1..] + [command]
            && Elapsed(settings, w, s, Filling(asks), Each(spent, 17)) == deadline
            && Elapsed(settings, w, filled, Receptions(1), Each(spent, 1))
               + Elapsed(settings, w, placed, Receptions(16), Each(spent, 16))
               == Bound(Deadlines(deadline, 0), 17, 0)
  {
    var spent := Spent(deadline, 0, 0, 0);
    FillingFills(settings, s, asks, spent);
    FullQueueCosts(settings, Run(settings, ExampleWorld(), s, Filling(asks)), command, spent);
  }
}
