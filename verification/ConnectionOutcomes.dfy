/**
  How a connection attempt and an exchange end, told from the environment and
  the server's raw frames alone.
 */
module ConnectionOutcomes {
  import opened Basics
  import opened Protocol
  import opened Wire
  import opened Connections

  /** Frame number `i` on attempt `k` is taken off the stream in time and within the limit. */
  predicate Comes(w: World, k: nat, i: nat, limit: nat, fate: Fate) {
    fate.Arrives? && |w.answer(k, i).payload| <= limit
  }

  /** The frame is an error frame that says `error`. */
  predicate Says(w: World, frame: RawMessage, error: ErrorResponse) {
    frame.messageType == w.errorOpcode && w.decodeError(frame) == Ok(error)
  }

  /** The frame is a pong within the limit. */
  predicate IsPong(w: World, limit: nat, frame: RawMessage) {
    |frame.payload| <= limit && frame.messageType != w.errorOpcode && w.decodePong(frame).Ok?
  }

  /** The frame is within the limit and the server means to go on after it. */
  ghost predicate IsResponse(w: World, limit: nat, frame: RawMessage) {
    |frame.payload| <= limit && forall error :: Says(w, frame, error) ==> !w.isFatal(error)
  }

  // ------------------------------------------------------------------
  // The steps of an attempt.

  predicate SendsHandshake(w: World, script: ConnectScript) {
    script.setup.SetUp? && w.encode(ClientHandshake(3, 3)).Some?
  }

  /** The handshake is answered, by a frame that is not an error and decodes. */
  predicate HearsHandshake(w: World, k: nat, script: ConnectScript) {
    && SendsHandshake(w, script) && Comes(w, k, 0, 1024, script.handshake)
    && w.answer(k, 0).messageType != w.errorOpcode && w.decodeHandshake(w.answer(k, 0)).Ok?
  }

  predicate AgreesOnVersion(w: World, k: nat, script: ConnectScript) {
    HearsHandshake(w, k, script) && w.decodeHandshake(w.answer(k, 0)).value.acceptedVersion == 3
  }

  function Login(config: ConnectionConfig, script: ConnectScript): ClientMessage
    requires script.setup.SetUp?
  {
    Authentication(config.clientId, config.clientSecret, script.setup.ip)
  }

  predicate SendsLogin(w: World, k: nat, config: ConnectionConfig, script: ConnectScript) {
    AgreesOnVersion(w, k, script) && w.encode(Login(config, script)).Some?
  }

  predicate HearsVerdict(w: World, k: nat, config: ConnectionConfig, script: ConnectScript) {
    SendsLogin(w, k, config, script) && Comes(w, k, 1, 1024, script.auth)
  }

  predicate Accepted(w: World, k: nat, config: ConnectionConfig, script: ConnectScript) {
    && HearsVerdict(w, k, config, script)
    && w.answer(k, 1).messageType != w.errorOpcode && w.decodeAccepted(w.answer(k, 1)).Ok?
  }

  predicate Refused(w: World, k: nat, config: ConnectionConfig, script: ConnectScript) {
    HearsVerdict(w, k, config, script) && Says(w, w.answer(k, 1), InvalidCredentials)
  }

  /** The deadline around the whole attempt fires while something is awaited. */
  predicate RunsOut(w: World, k: nat, config: ConnectionConfig, script: ConnectScript) {
    || script.setup.SetupExpires?
    || (SendsHandshake(w, script) && script.handshake.Expires?)
    || (SendsLogin(w, k, config, script) && script.auth.Expires?)
  }

  /** A frame that is awaited is not read: the transport fails or the frame is over the limit. */
  predicate ReadFails(w: World, k: nat, i: nat, fate: Fate) {
    fate.Fails? || (fate.Arrives? && |w.answer(k, i).payload| > 1024)
  }

  lemma {:induction false} NegotiateIsExact(w: World, k: nat, script: ConnectScript)
    requires script.setup.SetUp?
    ensures var (c, progress) := Negotiate(w, Fresh(k), script.handshake);
            && (progress.Done? <==> AgreesOnVersion(w, k, script))
            && (progress.Done? ==>
                 && progress.value == w.decodeHandshake(w.answer(k, 0)).value.capabilities
                 && c.(log := []) == Conn(k, 0, 1024, 1, [])
                 && c.log == [Wrote(Handshake, w.encode(ClientHandshake(3, 3)).value), Read(w.answer(k, 0), 1024)])
            && (progress.Cut? <==> SendsHandshake(w, script) && script.handshake.Expires?)
  {
  }

  lemma {:induction false} AuthenticateIsExact(w: World, k: nat, c: Conn, config: ConnectionConfig,
          script: ConnectScript)
    requires SendsLogin(w, k, config, script) && c.id == k && c.received == 1 && c.maxPayload == 1024
    ensures var (c', progress) := Authenticate(w, c, config, script.setup.ip, script.auth);
            && (progress == Done(true) <==> Accepted(w, k, config, script))
            && (progress == Done(false) <==> Refused(w, k, config, script))
            && (progress.Cut? <==> script.auth.Expires?)
            && (progress.Done? ==>
                 && c' == c.(received := 2, log := c'.log)
                 && c'.log == c.log + [Wrote(Auth, w.encode(Login(config, script)).value), Read(w.answer(k, 1), 1024)])
  {
  }

  /** The connection an accepted attempt hands over. */
  ghost predicate HandedOver(w: World, k: nat, config: ConnectionConfig, limit: nat, script: ConnectScript, c: Conn)
    requires Accepted(w, k, config, script)
  {
    && c == Conn(k, w.decodeHandshake(w.answer(k, 0)).value.capabilities, limit, 2, c.log)
    && c.log == [Wrote(Handshake, w.encode(ClientHandshake(3, 3)).value), Read(w.answer(k, 0), 1024),
                 Wrote(Auth, w.encode(Login(config, script)).value), Read(w.answer(k, 1), 1024)]
  }

  /**
    An attempt connects exactly if the server agrees on version 3 and accepts the
    login, is rejected exactly if the server answers the login with the
    invalid-credentials error, and times out exactly if the deadline fires; the
    connection handed over has the limit, the capabilities and the two exchanges
    of that.
   */
  lemma {:induction false} ConnectIsExact(w: World, k: nat, config: ConnectionConfig, limit: nat, script: ConnectScript)
    ensures var (c, outcome) := Connect(w, k, config, limit, script);
            && (outcome.Connected? <==> Accepted(w, k, config, script))
            && (outcome.Rejected? <==> Refused(w, k, config, script))
            && (outcome.TimedOut? <==> RunsOut(w, k, config, script))
            && (outcome.Connected? ==> HandedOver(w, k, config, limit, script, c))
  {
    if script.setup.SetUp? {
      NegotiateIsExact(w, k, script);
      var (c1, negotiated) := Negotiate(w, Fresh(k), script.handshake);
      if negotiated.Done? && w.encode(Login(config, script)).Some? {
        AuthenticateIsExact(w, k, c1.(capabilities := negotiated.value), config, script);
      }
    }
  }

  /** Which error a failed attempt reports. */
  lemma {:induction false} ConnectErrorsAreExact(w: World, k: nat, config: ConnectionConfig, limit: nat,
          script: ConnectScript)
    ensures var outcome := Connect(w, k, config, limit, script).1;
            && (outcome == Failed(SetupError) <==> script.setup.SetupFails?)
            && (outcome == Failed(EncodeError) <==>
                 || (script.setup.SetUp? && w.encode(ClientHandshake(3, 3)).None?)
                 || (AgreesOnVersion(w, k, script) && w.encode(Login(config, script)).None?))
            && (outcome == Failed(FrameError) <==>
                 || (SendsHandshake(w, script) && ReadFails(w, k, 0, script.handshake))
                 || (SendsLogin(w, k, config, script) && ReadFails(w, k, 1, script.auth)))
            && (outcome == Failed(VersionRangeError) <==>
                 && SendsHandshake(w, script) && Comes(w, k, 0, 1024, script.handshake)
                 && Says(w, w.answer(k, 0), UnsupportedVersionRange))
            && (forall version :: outcome == Failed(UnsupportedVersion(version)) <==>
                 && HearsHandshake(w, k, script) && version != 3
                 && w.decodeHandshake(w.answer(k, 0)).value.acceptedVersion == version)
  {
    if script.setup.SetUp? {
      NegotiateIsExact(w, k, script);
    }
  }

  /** A ping succeeds exactly if a pong comes in time. */
  lemma {:induction false} PingIsExact(w: World, c: Conn, fate: Fate)
    ensures PingExchange(w, c, fate).1.PingOk? <==>
            w.encode(Ping).Some? && fate.Arrives? && IsPong(w, c.maxPayload, w.answer(c.id, c.received))
  {
  }

  /** A fatal answer is an error frame that says something fatal. */
  lemma {:induction false} FatalIsExact(w: World, frame: RawMessage)
    ensures IsFatalAnswer(w, frame) <==> exists error :: Says(w, frame, error) && w.isFatal(error)
  {
    if IsFatalAnswer(w, frame) {
      assert Says(w, frame, w.decodeError(frame).value);
    }
  }

  // ------------------------------------------------------------------
  // What is written.

  /** The frames written, in order. */
  function FramesOf(log: Log): seq<RawMessage> {
    if log == [] then []
    else
      var last := log[|log| - 1];
      FramesOf(log[..|log| - 1]) + if last.Wrote? then [last.frame] else []
  }

  lemma {:induction false} FramesAppend(log: Log, event: WireEvent)
    ensures FramesOf(log + [event]) == FramesOf(log) + if event.Wrote? then [event.frame] else []
  {
    assert (log + [event])[..|log|] == log;
  }

  lemma {:induction false} ExchangeWrites(w: World, c: Conn, origin: Origin, frame: RawMessage, fate: Fate)
    ensures FramesOf(Exchange(w, c, origin, frame, fate).0.log) == FramesOf(c.log) + [frame]
  {
    FramesAppend(c.log, Wrote(origin, frame));
    FramesAppend(c.log + [Wrote(origin, frame)], Read(w.answer(c.id, c.received), c.maxPayload));
  }

  function CallFrames(calls: seq<HookCall>): seq<RawMessage> {
    if calls == [] then [] else [calls[0].frame] + CallFrames(calls[1..])
  }

  /** A hook's session calls write their frames, all of them and in order. */
  lemma {:induction false} HookWrites(w: World, c: Conn, calls: seq<HookCall>)
    ensures FramesOf(RunCalls(w, c, calls).log) == FramesOf(c.log) + CallFrames(calls)
    decreases calls
  {
    if calls != [] {
      var c1 := Exchange(w, c, Hook, calls[0].frame, calls[0].fate).0;
      ExchangeWrites(w, c, Hook, calls[0].frame, calls[0].fate);
      HookWrites(w, c1, calls[1..]);
      assert FramesOf(c.log) + ([calls[0].frame] + CallFrames(calls[1..]))
          == (FramesOf(c.log) + [calls[0].frame]) + CallFrames(calls[1..]);
    }
  }

  /** A farewell writes the quit message if it can be encoded, and a ping the ping. */
  lemma {:induction false} MessagesWritten(w: World, c: Conn, fate: Fate)
    ensures FramesOf(SayGoodbye(w, c).log) == FramesOf(c.log) + FrameOf(w, Quit)
    ensures FramesOf(PingExchange(w, c, fate).0.log) == FramesOf(c.log) + FrameOf(w, Ping)
  {
    if w.encode(Quit).Some? {
      FramesAppend(c.log, Wrote(Farewell, w.encode(Quit).value));
    }
    if w.encode(Ping).Some? {
      ExchangeWrites(w, c, KeepAlive, w.encode(Ping).value, fate);
    }
  }

  function FrameOf(w: World, message: ClientMessage): seq<RawMessage> {
    if w.encode(message).Some? then [w.encode(message).value] else []
  }
}
