/** The client task itself: it updates its fields, its connection and its queue in place. */
module ClientTasks {
  import opened Basics
  import opened Protocol
  import opened Wire
  import opened Connections
  import opened ClientModel
  import opened ClientInvariants

  class ClientTask {
    const settings: Settings
    const world: World
    var config: Option<ConnectionConfig>
    var connection: Connection?
    var credentialsInvalid: bool
    var shutdown: bool
    var status: Status
    var attempts: nat
    var queue: seq<Command>
    var open: bool
    var running: bool
    ghost var past: seq<Log>
    ghost var published: seq<Status>
    ghost var answered: seq<Answer>
    ghost var accepted: seq<Command>
    ghost var handled: seq<Command>
    ghost var told: seq<Told>

    /** The counter numbers the attempts, and the connection lives in the same world. */
    ghost predicate Wired()
      reads this, connection
    {
      && attempts == |past| + (if connection == null then 0 else 1)
      && (connection != null ==> connection.world == world)
    }

    /** What holds between any two steps of the loop. */
    ghost predicate Valid()
      reads this, connection
    {
      Wired() && Sound(settings, world, Value())
    }

    ghost function Value(): Task
      reads this, connection
    {
      Task(config, if connection == null then None else Some(connection.Value()),
           credentialsInvalid, shutdown, status, past, published, answered)
    }

    /** The client task with its queue. */
    ghost function Whole(): System
      reads this, connection
    {
      System(Value(), queue, open, running, accepted, handled, told)
    }

    twostate predicate SameQueue()
      reads this
    {
      unchanged(this`queue, this`open, this`running, this`accepted, this`handled, this`told)
    }

    constructor (settings: Settings, world: World, config: Option<ConnectionConfig>)
      ensures Valid() && this.settings == settings && this.world == world
      ensures connection == null
      ensures Whole() == ClientModel.Start(config)
    {
      this.settings, this.world, this.config := settings, world, config;
      connection, credentialsInvalid, shutdown, attempts := null, false, false, 0;
      status := StatusFor(config);
      queue, open, running := [], true, true;
      past, published, answered := [], [StatusFor(config)], [];
      accepted, handled, told := [], [], [];
    }

    method Publish(next: Status)
      modifies this`status, this`published
      ensures Value() == old(SetStatus(Value(), next))
    {
      if status != next {
        status := next;
        published := published + [next];
      }
    }

    method DropConnection()
      requires Wired() && connection != null
      modifies this
      ensures SameQueue()
      ensures Wired() && connection == null
      ensures Value() == old(ClientModel.Drop(Value(), connection.Value()))
    {
      past := past + [connection.log];
      connection := null;
      Publish(Offline);
    }

    method QuitConnection()
      requires Wired()
      modifies this, connection
      ensures SameQueue()
      ensures Wired() && connection == null
      ensures Value() == old(QuitHeld(world, Value()))
    {
      if connection != null {
        connection.SayQuit();
        past := past + [connection.log];
        connection := null;
      }
    }

    ghost method Respond(id: nat, message: RawMessage, result: Result<RawMessage, RequestError>)
      modifies this`answered
      ensures Value() == old(Send(Value(), id, message, result))
    {
      answered := answered + [Answer(id, message, result, status)];
    }

    method HandleRequest(id: nat, message: RawMessage, fate: Fate) returns (result: Result<RawMessage, RequestError>)
      requires Wired()
      modifies this, connection
      ensures SameQueue()
      ensures Wired() && (connection == null || connection == old(connection))
      ensures Value() == old(HandleAsk(world, Value(), id, message, fate))
      ensures answered == old(answered) + [Answer(id, message, result, status)]
    {
      if shutdown {
        result := Err(RequestError.Shutdown);
      } else if connection == null {
        result := Err(Disconnected);
      } else {
        var reply := connection.RequestRaw(Request(id), message, fate);
        match reply {
          case Answered(raw) =>
            if IsFatalAnswer(world, raw) {
              DropConnection();
            }
            result := Ok(raw);
          case Broken =>
            DropConnection();
            result := Err(Disconnected);
          case Late =>
            DropConnection();
            result := Err(Disconnected);
        }
      }
      Respond(id, message, result);
    }

    method Reconfigure(newConfig: Option<ConnectionConfig>)
      requires Wired()
      modifies this, connection
      ensures SameQueue()
      ensures Wired() && (connection == null || connection == old(connection))
      ensures Value() == old(HandleConfigure(world, Value(), newConfig))
    {
      if shutdown {
        return;
      }
      QuitConnection();
      credentialsInvalid := false;
      Publish(StatusFor(newConfig));
      config := newConfig;
    }

    method ShutDownTask()
      requires Wired()
      modifies this, connection
      ensures SameQueue()
      ensures Wired() && connection == null
      ensures Value() == old(HandleStop(world, Value()))
    {
      QuitConnection();
      shutdown := true;
      Publish(ShutDown);
    }

    /** After the loop: announces the disconnect and leaves a terminal status to whoever watches. */
    method FinishTask()
      requires Wired()
      modifies this, connection
      ensures Wired() && connection == null
      ensures Whole() == old(Whole().(task := WindDown(world, Value()), running := false))
    {
      QuitConnection();
      Publish(ShutDown);
      running := false;
    }

    method Handle(command: Command, fate: Fate)
      requires Valid()
      modifies this, connection
      ensures SameQueue()
      ensures Valid() && (connection == null || connection == old(connection))
      ensures Value() == old(HandleCommand(world, Value(), command, fate))
    {
      CommandSound(settings, world, Value(), command, fate);
      match command {
        case Configure(newConfig) =>
          Reconfigure(newConfig);
        case Ask(id, message) =>
          var _ := HandleRequest(id, message, fate);
        case Stop =>
          ShutDownTask();
      }
    }

    /** Lets go of a connection that was never taken up. */
    method GiveUp(dialed: Connection, next: Status)
      requires connection == null && attempts == |past| + 1
      modifies this`past, this`status, this`published
      ensures Wired() && connection == null
      ensures Value() == old(SetStatus(Release(Value(), dialed.Value()), next))
    {
      past := past + [dialed.log];
      Publish(next);
    }

    /** Runs the hook, if any, on a connection just dialed, and takes the connection up if the hook agrees. */
    method AdmitConnection(dialed: Connection, hook: HookScript)
      requires connection == null && attempts == |past| + 1 && dialed.world == world
      modifies this, dialed
      ensures SameQueue()
      ensures Wired() && (connection == null || connection == dialed)
      ensures Value() == old(Admit(settings, world, Value(), dialed.Value(), hook))
    {
      if settings.hook {
        dialed.RunHook(hook.calls);
        if !hook.result.HookOk? {
          if hook.result.HookErr? {
            dialed.SayQuit();
          }
          GiveUp(dialed, Offline);
          return;
        }
      }
      credentialsInvalid := false;
      Publish(Online(dialed.capabilities));
      connection := dialed;
    }

    method Reconnect(script: TickScript)
      requires Wired() && connection == null
      modifies this
      ensures SameQueue()
      ensures Wired() && (connection == null || fresh(connection))
      ensures Value() == old(TryConnect(settings, world, Value(), script))
    {
      if credentialsInvalid && settings.policy.Latch? {
        return;
      }
      if config.None? {
        return;
      }
      var dialed, outcome := Dial(world, attempts, config.value, settings.limit, script.connect);
      attempts := attempts + 1;
      match outcome {
        case TimedOut =>
          GiveUp(dialed, Offline);
        case Failed(_) =>
          GiveUp(dialed, Offline);
        case Rejected =>
          credentialsInvalid := true;
          GiveUp(dialed, BadCredentials);
        case Connected =>
          AdmitConnection(dialed, script.hook);
      }
    }

    method OnTick(script: TickScript)
      requires Valid()
      modifies this, connection
      ensures SameQueue()
      ensures Valid() && (connection == null || connection == old(connection) || fresh(connection))
      ensures Value() == old(HandleTick(settings, world, Value(), script))
    {
      TickSound(settings, world, Value(), script);
      if shutdown {
        return;
      }
      if connection != null {
        var result := connection.PingServer(script.ping);
        if !result.PingOk? {
          DropConnection();
        }
        return;
      }
      Reconnect(script);
    }

    /** A caller's send, once it found room or gave up: what it reports there and then. */
    method Enqueue(command: Command) returns (report: Option<Result<(), RequestError>>)
      modifies this`queue, this`accepted, this`told
      ensures Whole() == old(ClientModel.Step(settings, world, Whole(), Offer(command)))
      ensures report == old(SendReport(Whole(), command))
    {
      report := None;
      if !running {
        if !command.Stop? {
          report := Some(Err(RequestError.Shutdown));
        }
      } else if open {
        if |queue| < QUEUE_CAPACITY {
          queue := queue + [command];
          accepted := accepted + [command];
          if command.Configure? {
            report := Some(Ok(()));
          }
        } else if command.Ask? {
          report := Some(Err(Disconnected));
        }
      }
      if report.Some? {
        told := told + [Told(command, report.value, status)];
      }
    }

    /** The command branch of the loop; without commands and without handles, the end of the loop. */
    method Dequeue(fate: Fate)
      requires Wired() && SoundSystem(settings, world, Whole())
      modifies this, connection
      ensures Wired() && SoundSystem(settings, world, Whole())
      ensures connection == null || connection == old(connection)
      ensures Whole() == old(ClientModel.Step(settings, world, Whole(), Receive(fate)))
    {
      StepSound(settings, world, Whole(), Receive(fate));
      if running {
        if queue != [] {
          var command := queue[0];
          Handle(command, fate);
          queue := queue[1..];
          handled := handled + [command];
        } else if !open {
          FinishTask();
        }
      }
    }

    /** One turn of the loop, or one thing its surroundings do. */
    method Turn(event: Event)
      requires Wired() && SoundSystem(settings, world, Whole())
      modifies this, connection
      ensures Wired() && SoundSystem(settings, world, Whole())
      ensures connection == null || connection == old(connection) || fresh(connection)
      ensures Whole() == old(ClientModel.Step(settings, world, Whole(), event))
    {
      StepSound(settings, world, Whole(), event);
      match event {
        case Offer(command) =>
          var _ := Enqueue(command);
        case HandlesGone =>
          open := false;
        case Receive(fate) =>
          Dequeue(fate);
        case Tick(script) =>
          if running {
            OnTick(script);
          }
      }
    }

    /**
      The loop over any schedule of events: the client task and its queue end up exactly
      as `Run` says, with the fields and the status in agreement.
     */
    method Serve(events: seq<Event>)
      requires Wired() && SoundSystem(settings, world, Whole())
      modifies this, connection
      ensures Wired() && SoundSystem(settings, world, Whole())
      ensures Whole() == old(ClientModel.Run(settings, world, Whole(), events))
    {
      var i := 0;
      while i < |events|
        invariant 0 <= i <= |events|
        invariant Wired() && SoundSystem(settings, world, Whole())
        invariant connection == null || connection == old(connection) || fresh(connection)
        invariant ClientModel.Run(settings, world, Whole(), events[i..])
                  == old(ClientModel.Run(settings, world, Whole(), events))
      {
        assert events[i..][1..] == events[i + 1..];
        Turn(events[i]);
        i := i + 1;
      }
    }
  }
}
