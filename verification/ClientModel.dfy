/**
  The connection task as a state machine: what each command and each tick does
  to the client task's fields, its published statuses, its answers and its connections.
 */
module ClientModel {
  import opened Basics
  import opened Protocol
  import opened Wire
  import opened Connections

  datatype Status =
    | Unconfigured
    | Offline
    | Online(capabilities: nat)
    | BadCredentials
    | ShutDown

  datatype Policy = Latch | Retry

  datatype Command =
    | Configure(config: Option<ConnectionConfig>)
    | Ask(id: nat, message: RawMessage)
    | Stop

  /** One response send of the client task, with the status that was published at that moment. */
  datatype Answer = Answer(id: nat, message: RawMessage, result: Result<RawMessage, RequestError>, status: Status)

  datatype Settings = Settings(policy: Policy, limit: nat, hook: bool)

  /**
    The fields of the client task, then its history: the logs of the connection
    attempts it no longer holds, the statuses published, the answers sent.
   */
  datatype Task = Task(
    config: Option<ConnectionConfig>,
    connection: Option<Conn>,
    credentialsInvalid: bool,
    shutdown: bool,
    status: Status,
    past: seq<Log>,
    published: seq<Status>,
    answered: seq<Answer>)

  function Initial(config: Option<ConnectionConfig>): Task {
    var status := StatusFor(config);
    Task(config, None, false, false, status, [], [status], [])
  }

  function StatusFor(config: Option<ConnectionConfig>): Status {
    if config.Some? then Offline else Unconfigured
  }

  /** Publishes a status unless it is the current one. */
  function SetStatus(t: Task, status: Status): Task {
    if t.status == status then t
    else t.(status := status, published := t.published + [status])
  }

  /** The client task lets go of a connection, which closes it. */
  function Release(t: Task, c: Conn): Task {
    t.(connection := None, past := t.past + [c.log])
  }

  function Drop(t: Task, c: Conn): Task {
    SetStatus(Release(t, c), Offline)
  }

  function QuitHeld(w: World, t: Task): Task {
    if t.connection.Some? then Release(t, SayGoodbye(w, t.connection.value)) else t
  }

  function Send(t: Task, id: nat, message: RawMessage, result: Result<RawMessage, RequestError>): Task {
    t.(answered := t.answered + [Answer(id, message, result, t.status)])
  }

  function HandleConfigure(w: World, t: Task, config: Option<ConnectionConfig>): Task {
    if t.shutdown then t
    else SetStatus(QuitHeld(w, t).(credentialsInvalid := false), StatusFor(config)).(config := config)
  }

  function HandleAsk(w: World, t: Task, id: nat, message: RawMessage, fate: Fate): Task {
    if t.shutdown then Send(t, id, message, Err(Shutdown))
    else if t.connection.None? then Send(t, id, message, Err(Disconnected))
    else
      var (c, reply) := Exchange(w, t.connection.value, Request(id), message, fate);
      match reply
      case Answered(raw) =>
        Send(if IsFatalAnswer(w, raw) then Drop(t, c) else t.(connection := Some(c)), id, message, Ok(raw))
      case Broken => Send(Drop(t, c), id, message, Err(Disconnected))
      case Late => Send(Drop(t, c), id, message, Err(Disconnected))
  }

  function HandleStop(w: World, t: Task): Task {
    SetStatus(QuitHeld(w, t).(shutdown := true), ShutDown)
  }

  function HandleCommand(w: World, t: Task, command: Command, fate: Fate): Task {
    match command
    case Configure(config) => HandleConfigure(w, t, config)
    case Ask(id, message) => HandleAsk(w, t, id, message, fate)
    case Stop => HandleStop(w, t)
  }

  datatype TickScript = TickScript(ping: Fate, connect: ConnectScript, hook: HookScript)

  /** What becomes of a connection that `Connect` handed over, once the hook has run on it. */
  function Admit(settings: Settings, w: World, t: Task, c: Conn, hook: HookScript): Task {
    var c' := if settings.hook then RunCalls(w, c, hook.calls) else c;
    if settings.hook && hook.result.HookErr? then Drop(t, SayGoodbye(w, c'))
    else if settings.hook && hook.result.HookLate? then Drop(t, c')
    else SetStatus(t.(credentialsInvalid := false), Online(c'.capabilities)).(connection := Some(c'))
  }

  /** True when a tick on a task without a connection makes a connection attempt. */
  predicate Attempts(settings: Settings, t: Task) {
    !(t.credentialsInvalid && settings.policy.Latch?) && t.config.Some?
  }

  function TryConnect(settings: Settings, w: World, t: Task, script: TickScript): Task {
    if !Attempts(settings, t) then t
    else
      var (c, outcome) := Connect(w, |t.past|, t.config.value, settings.limit, script.connect);
      match outcome
      case TimedOut => Drop(t, c)
      case Failed(_) => Drop(t, c)
      case Rejected => SetStatus(Release(t, c).(credentialsInvalid := true), BadCredentials)
      case Connected => Admit(settings, w, t, c, script.hook)
  }

  function HandleTick(settings: Settings, w: World, t: Task, script: TickScript): Task {
    if t.shutdown then t
    else if t.connection.Some? then
      var (c, result) := PingExchange(w, t.connection.value, script.ping);
      if result.PingOk? then t.(connection := Some(c)) else Drop(t, c)
    else TryConnect(settings, w, t, script)
  }

  /** After the loop: the last handle is gone. */
  function WindDown(w: World, t: Task): Task {
    SetStatus(QuitHeld(w, t), ShutDown)
  }

  // ------------------------------------------------------------------
  // The client task with its command queue, driven by any schedule of events.

  /** What a send reported to its caller without an answer from the client task, and the status published then. */
  datatype Told = Told(command: Command, result: Result<(), RequestError>, status: Status)

  /**
    `accepted` and `handled` record the commands that entered and left the
    queue; `told` what callers were told by the send alone.
   */
  datatype System = System(
    task: Task,
    queue: seq<Command>,
    open: bool,
    running: bool,
    accepted: seq<Command>,
    handled: seq<Command>,
    told: seq<Told>)

  const QUEUE_CAPACITY: nat := 16

  datatype Event =
    | Offer(command: Command)
    | HandlesGone
    | Receive(fate: Fate)
    | Tick(script: TickScript)

  function Start(config: Option<ConnectionConfig>): System {
    System(Initial(config), [], true, true, [], [], [])
  }

  function Tell(s: System, command: Command, result: Result<(), RequestError>): System {
    s.(told := s.told + [Told(command, result, s.task.status)])
  }

  /**
    What a send reports at once: a closed channel as `Shutdown`; a place in the
    queue as success to `configure`, while a request goes on to wait for its
    answer; no place before the deadline as `Disconnected` to a request, while
    `configure` and `shutdown` have no report yet.
   */
  function SendReport(s: System, command: Command): Option<Result<(), RequestError>> {
    if command.Stop? then None
    else if !s.running then Some(Err(Shutdown))
    else if !s.open then None
    else if |s.queue| < QUEUE_CAPACITY then if command.Configure? then Some(Ok(())) else None
    else if command.Ask? then Some(Err(Disconnected))
    else None
  }

  function HandleOffer(s: System, command: Command): System {
    var queued :=
      if s.running && s.open && |s.queue| < QUEUE_CAPACITY
      then s.(queue := s.queue + [command], accepted := s.accepted + [command]) else s;
    var report := SendReport(s, command);
    if report.Some? then Tell(queued, command, report.value) else queued
  }

  function Step(settings: Settings, w: World, s: System, event: Event): System {
    match event
    case Offer(command) => HandleOffer(s, command)
    case HandlesGone => s.(open := false)
    case Receive(fate) =>
      if !s.running then s
      else if s.queue != [] then
        s.(task := HandleCommand(w, s.task, s.queue[0], fate),
           queue := s.queue[1..], handled := s.handled + [s.queue[0]])
      else if !s.open then s.(task := WindDown(w, s.task), running := false)
      else s
    case Tick(script) =>
      if !s.running then s
      else s.(task := HandleTick(settings, w, s.task, script))
  }

  function Run(settings: Settings, w: World, s: System, events: seq<Event>): System
    decreases events
  {
    if events == [] then s
    else Run(settings, w, Step(settings, w, s, events[0]), events[1..])
  }
}
