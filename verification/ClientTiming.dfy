/** How long a queued request can wait: the awaits of each step, summed over a run. */
module ClientTiming {
  import opened Basics
  import opened Protocol
  import opened Connections
  import opened ClientModel
  import opened ClientRuns

  /** The time each await of a step took, had the step come to it. */
  datatype Spent = Spent(exchange: nat, dial: nat, hook: nat, quit: nat)

  /** Deadlines: `request` for exchanges, attempts and hooks, `farewell` for the write of a farewell. */
  datatype Deadlines = Deadlines(request: nat, farewell: nat)

  predicate InTime(d: Deadlines, spent: Spent) {
    spent.exchange <= d.request && spent.dial <= d.request && spent.hook <= d.request && spent.quit <= d.farewell
  }

  function QuitCost(t: Task, spent: Spent): nat {
    if t.connection.Some? then spent.quit else 0
  }

  function CommandCost(t: Task, command: Command, spent: Spent): nat {
    match command
    case Configure(_) => if t.shutdown then 0 else QuitCost(t, spent)
    case Ask(_, _) => if t.shutdown || t.connection.None? then 0 else spent.exchange
    case Stop => QuitCost(t, spent)
  }

  function TickCost(settings: Settings, w: World, t: Task, script: TickScript, spent: Spent): nat {
    if t.shutdown then 0
    else if t.connection.Some? then spent.exchange
    else if !Attempts(settings, t) then 0
    else
      spent.dial +
      if Connect(w, |t.past|, t.config.value, settings.limit, script.connect).1.Connected? && settings.hook
      then spent.hook + if script.hook.result.HookErr? then spent.quit else 0
      else 0
  }

  function StepCost(settings: Settings, w: World, s: System, event: Event, spent: Spent): nat {
    match event
    case Offer(_) => 0
    case HandlesGone => 0
    case Receive(_) =>
      if !s.running then 0
      else if s.queue != [] then CommandCost(s.task, s.queue[0], spent)
      else if !s.open then QuitCost(s.task, spent)
      else 0
    case Tick(script) => if s.running then TickCost(settings, w, s.task, script, spent) else 0
  }

  function Elapsed(settings: Settings, w: World, s: System, events: seq<Event>, times: seq<Spent>): nat
    requires |times| == |events|
    decreases events
  {
    if events == [] then 0
    else
      StepCost(settings, w, s, events[0], times[0]) +
      Elapsed(settings, w, Step(settings, w, s, events[0]), events[1..], times[1..])
  }

  function Receives(events: seq<Event>): nat {
    if events == [] then 0 else Receives(events[1..]) + if events[0].Receive? then 1 else 0
  }

  function Ticks(events: seq<Event>): nat {
    if events == [] then 0 else Ticks(events[1..]) + if events[0].Tick? then 1 else 0
  }

  function Bound(d: Deadlines, receives: nat, ticks: nat): nat {
    receives * Max(d.request, d.farewell) + ticks * (2 * d.request + d.farewell)
  }

  lemma {:induction false} BoundStep(d: Deadlines, receives: nat, ticks: nat)
    ensures Bound(d, receives + 1, ticks) == Bound(d, receives, ticks) + Max(d.request, d.farewell)
    ensures Bound(d, receives, ticks + 1) == Bound(d, receives, ticks) + 2 * d.request + d.farewell
  {
  }

  lemma {:induction false} ElapsedWithin(settings: Settings, w: World, s: System, events: seq<Event>, times: seq<Spent>,
          d: Deadlines)
    requires |times| == |events| && forall i :: 0 <= i < |times| ==> InTime(d, times[i])
    ensures Elapsed(settings, w, s, events, times) <= Bound(d, Receives(events), Ticks(events))
    decreases events
  {
    if events != [] {
      BoundStep(d, Receives(events[1..]), Ticks(events[1..]));
      ElapsedWithin(settings, w, Step(settings, w, s, events[0]), events[1..], times[1..], d);
    }
  }

  /** With enough commands queued, each receive handles the next one, whatever else happens between. */
  lemma {:induction false} ReceivesHandle(settings: Settings, w: World, s: System, events: seq<Event>)
    requires s.running && Receives(events) <= |s.queue|
    ensures var s' := Run(settings, w, s, events);
            s'.running && s'.handled == s.handled + s.queue[..Receives(events)]
    decreases events
  {
    if events != [] {
      var s1 := Step(settings, w, s, events[0]);
      ReceivesHandle(settings, w, s1, events[1..]);
      if events[0].Receive? {
        assert s.queue[..Receives(events)] == [s.queue[0]] + s1.queue[..Receives(events[1..])];
      } else {
        assert s.queue[..Receives(events)] == s1.queue[..Receives(events[1..])];
      }
    }
  }

  /** After `k + 1` receives the request that had `k` commands ahead is the last one answered. */
  lemma {:induction false} AnsweredInTurn(settings: Settings, w: World, s: System, events: seq<Event>, k: nat)
    requires GoodQueue(s) && s.running && k < |s.queue| && s.queue[k].Ask?
    requires Receives(events) == k + 1
    ensures Asked(Run(settings, w, s, events).task.answered)
         == Asked(s.task.answered) + AsksOf(s.queue[..k]) + [s.queue[k]]
  {
    ReceivesHandle(settings, w, s, events);
    RunGoodQueue(settings, w, s, events);
    assert s.queue[..k + 1] == s.queue[..k] + [s.queue[k]];
    AsksOfConcat(s.handled, s.queue[..k + 1]);
    AsksOfConcat(s.queue[..k], [s.queue[k]]);
    assert AsksOf([s.queue[k]]) == [s.queue[k]];
  }

  /**
    A request with `k` commands ahead of it in the queue is answered by the
    `k + 1`st receive, within `(k + 1) * max(T, Q) + m * (2T + Q)` of work when `m`
    ticks come between; its answer is the one after those to the requests ahead.
    The time runs from between two steps: a command in progress when the request
    takes its place has left the queue and is to be counted as one more ahead.
   */
  lemma {:induction false} AnsweredWithin(settings: Settings, w: World, s: System, events: seq<Event>,
          times: seq<Spent>, d: Deadlines, k: nat)
    requires GoodQueue(s) && s.running && k < |s.queue| && s.queue[k].Ask?
    requires Receives(events) == k + 1
    requires |times| == |events| && forall i :: 0 <= i < |times| ==> InTime(d, times[i])
    ensures Elapsed(settings, w, s, events, times)
            <= (k + 1) * Max(d.request, d.farewell) + Ticks(events) * (2 * d.request + d.farewell)
    ensures var answers := Run(settings, w, s, events).task.answered;
            var ahead := |s.task.answered| + |AsksOf(s.queue[..k])|;
            |answers| == ahead + 1 && Ask(answers[ahead].id, answers[ahead].message) == s.queue[k]
  {
    ElapsedWithin(settings, w, s, events, times, d);
    AnsweredInTurn(settings, w, s, events, k);
    var answers := Run(settings, w, s, events).task.answered;
    assert |Asked(answers)| == |answers| && |Asked(s.task.answered)| == |s.task.answered|;
    assert Asked(answers)[|answers| - 1] == s.queue[k];
  }
}
