/**
  One connection: the request primitive, the keep-alive, the farewell, and the
  steps that establish it.  The `Conn` functions say what each step does to the
  connection's value; the `Connection` class performs the steps in place.
 */
module Connections {
  import opened Basics
  import opened Protocol
  import opened Wire

  datatype ConnectionConfig =
    ConnectionConfig(host: string, port: nat, clientId: string, clientSecret: string)

  /** How the environment lets an exchange end: in time, in a transport error, or not before the deadline. */
  datatype Fate = Arrives | Fails | Expires

  datatype Reply = Answered(frame: RawMessage) | Broken | Late

  /** `received` counts the frames taken off the stream; `log` is the trace. */
  datatype Conn = Conn(id: nat, capabilities: nat, maxPayload: nat, received: nat, log: Log)

  function Fresh(id: nat): Conn {
    Conn(id, 0, HANDSHAKE_LIMIT, 0, [])
  }

  /** Writes a frame, then takes the next frame off the stream unless that fails or comes too late. */
  function Exchange(w: World, c: Conn, origin: Origin, frame: RawMessage, fate: Fate): (Conn, Reply) {
    var sent := c.(log := c.log + [Wrote(origin, frame)]);
    var next := w.answer(c.id, c.received);
    if fate.Expires? then (sent, Late)
    else if fate.Fails? || |next.payload| > c.maxPayload then (sent, Broken)
    else (sent.(received := c.received + 1, log := sent.log + [Read(next, c.maxPayload)]), Answered(next))
  }

  datatype PingResult = PingOk | PingFailed(error: RequestError) | PingLate

  function PingOutcome(w: World, reply: Reply): PingResult {
    match reply
    case Answered(raw) => (
      match DecodeResponse(w, w.decodePong, raw)
      case Ok(_) => PingOk
      case Err(error) => PingFailed(error))
    case Broken => PingFailed(Disconnected)
    case Late => PingLate
  }

  function PingExchange(w: World, c: Conn, fate: Fate): (Conn, PingResult) {
    match w.encode(Ping)
    case None => (c, PingFailed(EncodeFailed))
    case Some(frame) =>
      var (c', reply) := Exchange(w, c, KeepAlive, frame, fate);
      (c', PingOutcome(w, reply))
  }

  function SayGoodbye(w: World, c: Conn): Conn {
    match w.encode(Quit)
    case None => c
    case Some(frame) => c.(log := c.log + [Wrote(Farewell, frame)])
  }

  datatype ConnectError =
    | SetupError
    | FrameError
    | EncodeError
    | UnsupportedVersion(version: nat)
    | VersionRangeError
    | Unexpected(error: RequestError)

  /** A step of `connect`; `Cut` when the deadline around the whole attempt fires during it. */
  datatype Progress<T> = Done(value: T) | Stopped(error: ConnectError) | Cut

  const PROTOCOL_VERSION: nat := 3

  function HandshakeOutcome(w: World, reply: Reply): Progress<nat> {
    match reply
    case Answered(raw) => (
      match DecodeResponse(w, w.decodeHandshake, raw)
      case Ok(handshake) =>
        if handshake.acceptedVersion != PROTOCOL_VERSION then Stopped(UnsupportedVersion(handshake.acceptedVersion))
        else Done(handshake.capabilities)
      case Err(error) =>
        if error == Error(UnsupportedVersionRange) then Stopped(VersionRangeError) else Stopped(Unexpected(error)))
    case Broken => Stopped(FrameError)
    case Late => Cut
  }

  function Negotiate(w: World, c: Conn, fate: Fate): (Conn, Progress<nat>) {
    match w.encode(ClientHandshake(PROTOCOL_VERSION, PROTOCOL_VERSION))
    case None => (c, Stopped(EncodeError))
    case Some(frame) =>
      var (c', reply) := Exchange(w, c, Handshake, frame, fate);
      (c', HandshakeOutcome(w, reply))
  }

  function AuthOutcome(w: World, reply: Reply): Progress<bool> {
    match reply
    case Answered(raw) => (
      match DecodeResponse(w, w.decodeAccepted, raw)
      case Ok(_) => Done(true)
      case Err(error) => if error == Error(InvalidCredentials) then Done(false) else Stopped(Unexpected(error)))
    case Broken => Stopped(FrameError)
    case Late => Cut
  }

  function Authenticate(w: World, c: Conn, config: ConnectionConfig, ip: nat, fate: Fate): (Conn, Progress<bool>) {
    match w.encode(Authentication(config.clientId, config.clientSecret, ip))
    case None => (c, Stopped(EncodeError))
    case Some(frame) =>
      var (c', reply) := Exchange(w, c, Auth, frame, fate);
      (c', AuthOutcome(w, reply))
  }

  /** Resolving, connecting and the TLS handshake, which end in a local address, an error or the deadline. */
  datatype Setup = SetUp(ip: nat) | SetupFails | SetupExpires

  datatype ConnectScript = ConnectScript(setup: Setup, handshake: Fate, auth: Fate)

  datatype ConnectOutcome = Connected | Rejected | Failed(error: ConnectError) | TimedOut

  function Connect(w: World, id: nat, config: ConnectionConfig, limit: nat, script: ConnectScript)
    : (Conn, ConnectOutcome)
  {
    if script.setup.SetupFails? then (Fresh(id), Failed(SetupError))
    else if script.setup.SetupExpires? then (Fresh(id), TimedOut)
    else
      var (c1, negotiated) := Negotiate(w, Fresh(id), script.handshake);
      match negotiated
      case Stopped(error) => (c1, Failed(error))
      case Cut => (c1, TimedOut)
      case Done(capabilities) =>
        var (c2, accepted) := Authenticate(w, c1.(capabilities := capabilities), config, script.setup.ip, script.auth);
        match accepted
        case Stopped(error) => (c2, Failed(error))
        case Cut => (c2, TimedOut)
        case Done(ok) => if ok then (c2.(maxPayload := limit), Connected) else (c2, Rejected)
  }

  /** A hook is the application's code: any session calls, then any result. */
  datatype HookCall = HookCall(frame: RawMessage, fate: Fate)
  datatype HookResult = HookOk | HookErr | HookLate
  datatype HookScript = HookScript(calls: seq<HookCall>, result: HookResult)

  function RunCalls(w: World, c: Conn, calls: seq<HookCall>): Conn
    decreases calls
  {
    if calls == [] then c
    else RunCalls(w, Exchange(w, c, Hook, calls[0].frame, calls[0].fate).0, calls[1..])
  }

  predicate AllAnswered(w: World, c: Conn, calls: seq<HookCall>)
    decreases calls
  {
    calls == [] ||
    var (c', reply) := Exchange(w, c, Hook, calls[0].frame, calls[0].fate);
    reply.Answered? && AllAnswered(w, c', calls[1..])
  }

  /** Every frame begun on the connection has had its answer taken off the stream. */
  predicate Drained(c: Conn) {
    c.received == Writes(c.log)
  }

  /** The first two exchanges of the log are a version 3 handshake and an accepted login with `config`. */
  ghost predicate Established(w: World, limit: nat, config: ConnectionConfig, c: Conn) {
    && |c.log| >= 4
    && c.maxPayload == limit
    && c.log[0].Wrote? && w.encode(ClientHandshake(3, 3)) == Some(c.log[0].frame)
    && c.log[1] == Read(w.answer(c.id, 0), 1024)
    && DecodeResponse(w, w.decodeHandshake, c.log[1].frame) == Ok(ServerHandshake(3, c.capabilities))
    && c.log[2].Wrote?
    && (exists ip: nat :: w.encode(Authentication(config.clientId, config.clientSecret, ip)) == Some(c.log[2].frame))
    && c.log[3] == Read(w.answer(c.id, 1), 1024)
    && DecodeResponse(w, w.decodeAccepted, c.log[3].frame).Ok?
  }

  lemma {:induction false} ExchangeStage(w: World, limit: nat, c: Conn, origin: Origin, frame: RawMessage, fate: Fate)
    ensures var (c', reply) := Exchange(w, c, origin, frame, fate);
            var middle := Next(limit, Scan(limit, c.log), Wrote(origin, frame));
            && c.log <= c'.log
            && c'.(received := c.received, log := c.log) == c
            && c'.received - Writes(c'.log) == c.received - Writes(c.log) - (if reply.Answered? then 0 else 1)
            && (!reply.Answered? ==> Scan(limit, c'.log) == middle)
            && (reply.Answered? ==>
                 && Scan(limit, c'.log) == Next(limit, middle, Read(reply.frame, c.maxPayload))
                 && reply.frame == w.answer(c.id, c.received))
  {
    ScanAppend(limit, c.log, Wrote(origin, frame));
    ScanAppend(limit, c.log + [Wrote(origin, frame)], Read(w.answer(c.id, c.received), c.maxPayload));
  }

  lemma {:induction false} NegotiateStage(w: World, limit: nat, id: nat, fate: Fate)
    ensures var (c, progress) := Negotiate(w, Fresh(id), fate);
            && !Scan(limit, c.log).Bad? && !Scan(limit, c.log).Ended?
            && c.id == id && c.maxPayload == HANDSHAKE_LIMIT
            && (progress.Done? ==>
                 && Scan(limit, c.log).Shaken? && c.received == 1 && Drained(c) && |c.log| == 2
                 && c.log[0].Wrote? && w.encode(ClientHandshake(3, 3)) == Some(c.log[0].frame)
                 && c.log[1] == Read(w.answer(id, 0), 1024)
                 && DecodeResponse(w, w.decodeHandshake, c.log[1].frame) == Ok(ServerHandshake(3, progress.value)))
  {
    var message := w.encode(ClientHandshake(PROTOCOL_VERSION, PROTOCOL_VERSION));
    if message.Some? {
      ExchangeStage(w, limit, Fresh(id), Handshake, message.value, fate);
    }
  }

  lemma {:induction false} AuthenticateStage(w: World, limit: nat, c: Conn, config: ConnectionConfig, ip: nat,
          fate: Fate)
    requires Scan(limit, c.log).Shaken? && c.received == 1 && Drained(c) && |c.log| == 2
    requires c.maxPayload == HANDSHAKE_LIMIT
    ensures var (c', progress) := Authenticate(w, c, config, ip, fate);
            && !Scan(limit, c'.log).Bad? && !Scan(limit, c'.log).Ended?
            && c.log <= c'.log && c'.(received := c.received, log := c.log) == c
            && (progress.Done? ==>
                 && Scan(limit, c'.log).Authed? && Drained(c') && |c'.log| == 4
                 && c'.log[2].Wrote?
                 && w.encode(Authentication(config.clientId, config.clientSecret, ip)) == Some(c'.log[2].frame)
                 && c'.log[3] == Read(w.answer(c.id, 1), 1024)
                 && (progress.value ==> DecodeResponse(w, w.decodeAccepted, c'.log[3].frame).Ok?)
                 && (!progress.value ==>
                      DecodeResponse(w, w.decodeAccepted, c'.log[3].frame) == Err(Error(InvalidCredentials))))
  {
    var message := w.encode(Authentication(config.clientId, config.clientSecret, ip));
    if message.Some? {
      ExchangeStage(w, limit, c, Auth, message.value, fate);
    }
  }

  /**
    An attempt that reports `Connected` has shaken hands at version 3 and been
    accepted with the given credentials, keeps the capabilities of its own
    handshake and the configured payload bound, and has nothing outstanding;
    every other outcome still leaves a trace within the grammar.
   */
  lemma {:induction false} ConnectEstablishes(w: World, id: nat, config: ConnectionConfig, limit: nat,
          script: ConnectScript)
    ensures var (c, outcome) := Connect(w, id, config, limit, script);
            && c.id == id
            && !Scan(limit, c.log).Bad? && !Scan(limit, c.log).Ended?
            && (outcome.Connected? ==>
                 Established(w, limit, config, c) && Scan(limit, c.log).Authed? && Drained(c))
            && (outcome.Rejected? ==>
                 DecodeResponse(w, w.decodeAccepted, w.answer(id, 1)) == Err(Error(InvalidCredentials)))
  {
    if script.setup.SetUp? {
      NegotiateStage(w, limit, id, script.handshake);
      var (c1, negotiated) := Negotiate(w, Fresh(id), script.handshake);
      if negotiated.Done? {
        AuthenticateStage(w, limit, c1.(capabilities := negotiated.value), config, script.setup.ip, script.auth);
      }
    }
  }

  lemma {:induction false} LaggingCalls(w: World, limit: nat, c: Conn, calls: seq<HookCall>)
    requires c.maxPayload == limit && Scan(limit, c.log).HookUnanswered() && c.received < Writes(c.log)
    ensures var c' := RunCalls(w, c, calls);
            && Scan(limit, c'.log).HookUnanswered() && c'.received < Writes(c'.log)
            && c.log <= c'.log && c'.(received := c.received, log := c.log) == c
    decreases calls
  {
    if calls != [] {
      ExchangeStage(w, limit, c, Hook, calls[0].frame, calls[0].fate);
      LaggingCalls(w, limit, Exchange(w, c, Hook, calls[0].frame, calls[0].fate).0, calls[1..]);
    }
  }

  /** Whether a hook's calls all came back decides whether the connection is in step afterwards. */
  lemma {:induction false} HookCalls(w: World, limit: nat, c: Conn, calls: seq<HookCall>)
    requires c.maxPayload == limit && Scan(limit, c.log).Authed? && Drained(c)
    ensures var c' := RunCalls(w, c, calls);
            && c.log <= c'.log && c'.(received := c.received, log := c.log) == c
            && (AllAnswered(w, c, calls) ==> Scan(limit, c'.log).Authed? && Drained(c'))
            && (!AllAnswered(w, c, calls) ==> Scan(limit, c'.log).HookUnanswered() && c'.received < Writes(c'.log))
    decreases calls
  {
    if calls != [] {
      ExchangeStage(w, limit, c, Hook, calls[0].frame, calls[0].fate);
      var (c', reply) := Exchange(w, c, Hook, calls[0].frame, calls[0].fate);
      if reply.Answered? {
        HookCalls(w, limit, c', calls[1..]);
      } else {
        LaggingCalls(w, limit, c', calls[1..]);
      }
    }
  }

  lemma {:induction false} GoodbyeStage(w: World, limit: nat, c: Conn)
    requires Scan(limit, c.log).Idle() || Scan(limit, c.log).HookUnanswered()
    ensures !Scan(limit, SayGoodbye(w, c).log).Bad?
    ensures c.log <= SayGoodbye(w, c).log
  {
    var message := w.encode(Quit);
    if message.Some? {
      FarewellStage(limit, c.log, message.value);
    }
  }

  lemma {:induction false} FarewellStage(limit: nat, log: Log, frame: RawMessage)
    requires Scan(limit, log).Idle() || Scan(limit, log).HookUnanswered()
    ensures Scan(limit, log + [Wrote(Farewell, frame)]).Ended?
  {
    ScanAppend(limit, log, Wrote(Farewell, frame));
  }

  /** A connection whose stream position moves as frames are exchanged. */
  class Connection {
    const world: World
    const id: nat
    var capabilities: nat
    var maxPayload: nat
    var received: nat
    ghost var log: Log

    ghost function Value(): Conn
      reads this
    {
      Conn(id, capabilities, maxPayload, received, log)
    }

    constructor (world: World, id: nat)
      ensures this.world == world && Value() == Fresh(id)
    {
      this.world, this.id := world, id;
      capabilities, maxPayload, received, log := 0, HANDSHAKE_LIMIT, 0, [];
    }

    method RequestRaw(ghost origin: Origin, message: RawMessage, fate: Fate) returns (reply: Reply)
      modifies this
      ensures (Value(), reply) == old(Exchange(world, Value(), origin, message, fate))
    {
      log := log + [Wrote(origin, message)];
      if fate.Expires? {
        return Late;
      }
      var next := world.answer(id, received);
      if fate.Fails? || |next.payload| > maxPayload {
        return Broken;
      }
      received := received + 1;
      log := log + [Read(next, maxPayload)];
      return Answered(next);
    }

    method PingServer(fate: Fate) returns (result: PingResult)
      modifies this
      ensures (Value(), result) == old(PingExchange(world, Value(), fate))
    {
      var message := world.encode(Ping);
      if message.None? {
        return PingFailed(EncodeFailed);
      }
      var reply := RequestRaw(KeepAlive, message.value, fate);
      result := PingOutcome(world, reply);
    }

    method SayQuit()
      modifies this
      ensures Value() == old(SayGoodbye(world, Value()))
    {
      if world.encode(Quit).Some? {
        log := log + [Wrote(Farewell, world.encode(Quit).value)];
      }
    }

    method NegotiateVersion(fate: Fate) returns (progress: Progress<nat>)
      modifies this
      ensures (Value(), progress) == old(Negotiate(world, Value(), fate))
    {
      var message := world.encode(ClientHandshake(PROTOCOL_VERSION, PROTOCOL_VERSION));
      if message.None? {
        return Stopped(EncodeError);
      }
      var reply := RequestRaw(Handshake, message.value, fate);
      progress := HandshakeOutcome(world, reply);
    }

    method LogIn(config: ConnectionConfig, ip: nat, fate: Fate) returns (progress: Progress<bool>)
      modifies this
      ensures (Value(), progress) == old(Authenticate(world, Value(), config, ip, fate))
    {
      var message := world.encode(Authentication(config.clientId, config.clientSecret, ip));
      if message.None? {
        return Stopped(EncodeError);
      }
      var reply := RequestRaw(Auth, message.value, fate);
      progress := AuthOutcome(world, reply);
    }

    /** Plays a hook's session calls on this connection. */
    method RunHook(calls: seq<HookCall>)
      modifies this
      ensures Value() == old(RunCalls(world, Value(), calls))
    {
      var i := 0;
      while i < |calls|
        invariant 0 <= i <= |calls|
        invariant RunCalls(world, Value(), calls[i..]) == old(RunCalls(world, Value(), calls))
      {
        assert calls[i..][1..] == calls[i + 1..];
        var _ := RequestRaw(Hook, calls[i].frame, calls[i].fate);
        i := i + 1;
      }
    }
  }

  /** Establishes, negotiates and authenticates a new connection. */
  method Dial(world: World, id: nat, config: ConnectionConfig, limit: nat, script: ConnectScript)
    returns (connection: Connection, outcome: ConnectOutcome)
    ensures fresh(connection) && connection.world == world
    ensures (connection.Value(), outcome) == Connect(world, id, config, limit, script)
  {
    connection := new Connection(world, id);
    if script.setup.SetupFails? {
      return connection, Failed(SetupError);
    }
    if script.setup.SetupExpires? {
      return connection, TimedOut;
    }
    var negotiated := connection.NegotiateVersion(script.handshake);
    match negotiated {
      case Stopped(error) => return connection, Failed(error);
      case Cut => return connection, TimedOut;
      case Done(capabilities) => connection.capabilities := capabilities;
    }
    var authenticated := connection.LogIn(config, script.setup.ip, script.auth);
    match authenticated {
      case Stopped(error) => return connection, Failed(error);
      case Cut => return connection, TimedOut;
      case Done(accepted) =>
        if !accepted {
          return connection, Rejected;
        }
    }
    connection.maxPayload := limit;
    return connection, Connected;
  }
}
