/**
  What is written to and read from one connection, and the grammar such a
  trace obeys.
 */
module Wire {
  import opened Protocol

  /** Who writes a frame. */
  datatype Origin = Handshake | Auth | Hook | KeepAlive | Request(id: nat) | Farewell

  /** `bound` is the payload limit in force when the frame was read. */
  datatype WireEvent =
    | Wrote(origin: Origin, frame: RawMessage)
    | Read(frame: RawMessage, bound: nat)

  type Log = seq<WireEvent>

  function Writes(log: Log): nat {
    if log == [] then 0
    else Writes(log[..|log| - 1]) + if log[|log| - 1].Wrote? then 1 else 0
  }

  /**
    The stages a connection passes through.  `Lagging` and `LagWaiting` have a
    hook call without an answer behind them, and never lead to `Serving`.
   */
  datatype Stage =
    | Opening | Shaking | Shaken | Authing | Authed
    | Hooking | Lagging | LagWaiting | Serving | Waiting | Ended | Bad
  {
    predicate HookUnanswered() {
      Hooking? || Lagging? || LagWaiting?
    }

    predicate Idle() {
      Authed? || Serving?
    }
  }

  const HANDSHAKE_LIMIT: nat := 1024

  /** One step of the grammar; `limit` is the configured payload limit. */
  function Next(limit: nat, stage: Stage, event: WireEvent): Stage {
    match event
    case Wrote(origin, _) => (
      match origin
      case Handshake => if stage.Opening? then Shaking else Bad
      case Auth => if stage.Shaken? then Authing else Bad
      case Hook =>
        if stage.Authed? then Hooking
        else if stage.HookUnanswered() then LagWaiting
        else Bad
      case KeepAlive => if stage.Idle() then Waiting else Bad
      case Request(_) => if stage.Idle() then Waiting else Bad
      case Farewell => if stage.Idle() || stage.HookUnanswered() then Ended else Bad)
    case Read(frame, bound) =>
      if |frame.payload| > bound then Bad
      else
        match stage
        case Shaking => if bound == HANDSHAKE_LIMIT then Shaken else Bad
        case Authing => if bound == HANDSHAKE_LIMIT then Authed else Bad
        case Hooking => if bound == limit then Authed else Bad
        case LagWaiting => if bound == limit then Lagging else Bad
        case Waiting => if bound == limit then Serving else Bad
        case _ => Bad
  }

  function Scan(limit: nat, log: Log): Stage {
    if log == [] then Opening
    else Next(limit, Scan(limit, log[..|log| - 1]), log[|log| - 1])
  }

  lemma {:induction false} ScanAppend(limit: nat, log: Log, event: WireEvent)
    ensures Scan(limit, log + [event]) == Next(limit, Scan(limit, log), event)
    ensures Writes(log + [event]) == Writes(log) + if event.Wrote? then 1 else 0
  {
    assert (log + [event])[..|log|] == log;
  }

  predicate ServeWrite(event: WireEvent) {
    event.Wrote? && (event.origin.KeepAlive? || event.origin.Request?)
  }

  predicate QuitWrite(event: WireEvent) {
    event.Wrote? && event.origin.Farewell?
  }

  predicate HookWrite(event: WireEvent) {
    event.Wrote? && event.origin.Hook?
  }

  /** The events at positions `i` and `i + 1` are both writes. */
  predicate Abandoned(log: Log, i: nat) {
    i + 1 < |log| && log[i].Wrote? && log[i + 1].Wrote?
  }

  /** The read at `i` directly follows a write that the server answers. */
  predicate FollowsWrite(log: Log, i: nat) {
    0 < i < |log| && log[i - 1].Wrote? && !QuitWrite(log[i - 1])
  }

  ghost predicate NeverServes(log: Log) {
    forall j :: 0 <= j < |log| ==> !ServeWrite(log[j])
  }

  /** Every read comes right after the write it is the answer to, within the bound of its phase. */
  ghost predicate ReadsFollowWrites(limit: nat, log: Log) {
    forall i :: 0 <= i < |log| && log[i].Read? ==>
      && FollowsWrite(log, i)
      && |log[i].frame.payload| <= log[i].bound
      && log[i].bound == if i < 4 then HANDSHAKE_LIMIT else limit
  }

  /** Handshake and authentication are the first two exchanges and occur nowhere else. */
  ghost predicate OpensInOrder(log: Log) {
    && (forall i :: 0 <= i < |log| && log[i].Wrote? ==>
         && (log[i].origin.Handshake? <==> i == 0)
         && (log[i].origin.Auth? <==> i == 2))
    && (forall i :: 0 <= i < 4 && i < |log| ==> (log[i].Read? <==> i % 2 == 1))
  }

  ghost predicate QuitsLast(log: Log) {
    forall i :: 0 <= i < |log| && QuitWrite(log[i]) ==> i == |log| - 1
  }

  ghost predicate HooksBeforeServing(log: Log) {
    forall i, j :: 0 <= i < j < |log| && ServeWrite(log[i]) ==> !HookWrite(log[j])
  }

  /** Only a hook call is ever followed by another write instead of its answer, and then nothing is served. */
  ghost predicate AbandonsOnlyHooks(log: Log) {
    forall i: nat :: Abandoned(log, i) ==> HookWrite(log[i]) && NeverServes(log)
  }

  /** The grammar read off position by position, without stages. */
  ghost predicate WellShaped(limit: nat, log: Log) {
    && ReadsFollowWrites(limit, log) && OpensInOrder(log) && QuitsLast(log) && HooksBeforeServing(log)
    && AbandonsOnlyHooks(log)
  }

  /** What a stage says about the end of the log. */
  predicate StageEnds(stage: Stage, log: Log) {
    var last := |log| - 1;
    && (stage.Opening? <==> |log| == 0)
    && (stage.Shaking? <==> |log| == 1)
    && (stage.Shaken? <==> |log| == 2)
    && (stage.Authing? <==> |log| == 3)
    && (stage.Shaking? || stage.Authing? || stage.Hooking? || stage.LagWaiting? || stage.Waiting? ==>
         log[last].Wrote? && !QuitWrite(log[last]))
    && (stage.Hooking? || stage.LagWaiting? ==> HookWrite(log[last]))
    && (stage.Idle() || stage.Shaken? || stage.Lagging? ==> log[last].Read?)
  }

  /** What a stage says about the whole log. */
  ghost predicate StageMeans(stage: Stage, log: Log) {
    && StageEnds(stage, log)
    && (!stage.Ended? ==> forall i :: 0 <= i < |log| ==> !QuitWrite(log[i]))
    && (stage.Authed? || stage.HookUnanswered() || |log| < 4 ==> NeverServes(log))
    && (stage.Idle() || stage.Waiting? || stage.Hooking? || |log| < 4 ==> forall i: nat :: !Abandoned(log, i))
  }

  lemma {:induction false} StageStep(limit: nat, log: Log, event: WireEvent)
    requires StageMeans(Scan(limit, log), log)
    requires !Scan(limit, log + [event]).Bad?
    ensures StageMeans(Scan(limit, log + [event]), log + [event])
  {
    ScanAppend(limit, log, event);
    var log' := log + [event];
    assert forall i: nat :: Abandoned(log', i) ==> Abandoned(log, i) || (i == |log| - 1 && event.Wrote?);
  }

  lemma {:induction false} ReadsStep(limit: nat, log: Log, event: WireEvent)
    requires StageEnds(Scan(limit, log), log) && ReadsFollowWrites(limit, log)
    requires !Scan(limit, log + [event]).Bad?
    ensures ReadsFollowWrites(limit, log + [event])
  {
    ScanAppend(limit, log, event);
    var log' := log + [event];
    forall i | 0 <= i < |log'| && log'[i].Read?
      ensures FollowsWrite(log', i)
      ensures |log'[i].frame.payload| <= log'[i].bound
      ensures log'[i].bound == if i < 4 then HANDSHAKE_LIMIT else limit
    {
      if i < |log| {
        assert log[i].Read? && FollowsWrite(log, i);
      }
    }
  }

  lemma {:induction false} OrderStep(limit: nat, log: Log, event: WireEvent)
    requires StageMeans(Scan(limit, log), log)
    requires OpensInOrder(log) && QuitsLast(log) && HooksBeforeServing(log)
    requires !Scan(limit, log + [event]).Bad?
    ensures OpensInOrder(log + [event]) && QuitsLast(log + [event]) && HooksBeforeServing(log + [event])
  {
    ScanAppend(limit, log, event);
  }

  lemma {:induction false} AbandonStep(limit: nat, log: Log, event: WireEvent)
    requires StageMeans(Scan(limit, log), log) && AbandonsOnlyHooks(log)
    requires !Scan(limit, log + [event]).Bad?
    ensures AbandonsOnlyHooks(log + [event])
  {
    ScanAppend(limit, log, event);
    var log' := log + [event];
    forall i: nat | Abandoned(log', i)
      ensures HookWrite(log'[i]) && NeverServes(log')
    {
      if i + 1 < |log| {
        assert Abandoned(log, i);
      }
    }
  }

  /**
    Every log the grammar accepts is a handshake exchange, an authentication
    exchange, hook calls, then served exchanges; every read answers the write
    just before it; a write left without an answer is the last event, or a hook
    call on a connection that never serves; and nothing follows a farewell.
   */
  lemma {:induction false} GrammarShape(limit: nat, log: Log)
    requires !Scan(limit, log).Bad?
    ensures WellShaped(limit, log) && StageMeans(Scan(limit, log), log)
  {
    if log != [] {
      var front, event := log[..|log| - 1], log[|log| - 1];
      assert log == front + [event];
      ScanAppend(limit, front, event);
      GrammarShape(limit, front);
      StageStep(limit, front, event);
      ReadsStep(limit, front, event);
      OrderStep(limit, front, event);
      AbandonStep(limit, front, event);
    }
  }

  // ------------------------------------------------------------------
  // The part of the shape that no hook can spoil.

  /** The shape but for writes that go without their answer. */
  ghost predicate Framed(limit: nat, log: Log) {
    ReadsFollowWrites(limit, log) && OpensInOrder(log) && QuitsLast(log) && HooksBeforeServing(log)
  }

  ghost predicate NeverQuits(log: Log) {
    forall i :: 0 <= i < |log| ==> !QuitWrite(log[i])
  }

  lemma {:induction false} FramedWrite(limit: nat, log: Log, origin: Origin, frame: RawMessage)
    requires Framed(limit, log) && NeverQuits(log) && |log| >= 4
    requires !origin.Handshake? && !origin.Auth? && (origin.Hook? ==> NeverServes(log))
    ensures Framed(limit, log + [Wrote(origin, frame)])
    ensures !origin.Farewell? ==> NeverQuits(log + [Wrote(origin, frame)])
    ensures origin.Hook? ==> NeverServes(log + [Wrote(origin, frame)])
  {
    var log' := log + [Wrote(origin, frame)];
    forall i | 0 <= i < |log'| && log'[i].Read?
      ensures FollowsWrite(log', i)
    {
      assert FollowsWrite(log, i);
    }
  }

  lemma {:induction false} FramedRead(limit: nat, log: Log, frame: RawMessage)
    requires Framed(limit, log) && NeverQuits(log) && |log| >= 4
    requires log[|log| - 1].Wrote? && |frame.payload| <= limit
    ensures Framed(limit, log + [Read(frame, limit)])
    ensures NeverQuits(log + [Read(frame, limit)])
    ensures NeverServes(log) ==> NeverServes(log + [Read(frame, limit)])
  {
    var log' := log + [Read(frame, limit)];
    forall i | 0 <= i < |log'| && log'[i].Read?
      ensures FollowsWrite(log', i)
    {
      if i < |log| {
        assert FollowsWrite(log, i);
      }
    }
  }
}
