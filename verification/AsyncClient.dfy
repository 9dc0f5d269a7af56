/**
 `AsyncGDSClient` in its own form: methods that work on the shared fields, with everybody else let loose between any
 two accesses. The ghost field `schedule` records what has been done. `Valid` says that the fields, the frames handed
 to the socket and the calls of the listener are what the transition system reaches by that schedule, so each method
 is proved to be a thread of the transition system, and every theorem about schedules is one about these methods.
 */
module AsyncClient {
  import opened Results
  import opened ConnectionState
  import opened AsyncClientModel
  import opened AsyncClientLaws
  import opened AsyncClientTheorems
  import opened AsyncClientOutcomes

  /** The frames that a log sent, in order. */
  function Frames(log: Log): seq<Frame> {
    if log == [] then []
    else
      var last := log[|log| - 1].event;
      Frames(log[..|log| - 1]) + if last.Sent? then [last.frame] else []
  }

  /** The calls of the socket's other methods that a log made, in order. */
  function SocketCalls(log: Log): seq<SocketCall> {
    if log == [] then []
    else
      var last := log[|log| - 1].event;
      SocketCalls(log[..|log| - 1]) + if last.Called? then [last.call] else []
  }

  /** The listener calls that a log made, in order. */
  function Callbacks(log: Log): seq<Callback> {
    if log == [] then []
    else
      var last := log[|log| - 1].event;
      Callbacks(log[..|log| - 1]) + if last.Notified? then [last.callback] else []
  }

  lemma OutputsGrow(log: Log, x: Entry)
    ensures Frames(log + [x]) == Frames(log) + if x.event.Sent? then [x.event.frame] else []
    ensures SocketCalls(log + [x]) == SocketCalls(log) + if x.event.Called? then [x.event.call] else []
    ensures Callbacks(log + [x]) == Callbacks(log) + if x.event.Notified? then [x.event.callback] else []
  {
    assert (log + [x])[..|log|] == log;
  }

  /** What a step of thread `me` leaves to be seen: its log, its program counter, and what it hands out. */
  lemma MoveShows(c: Client, me: nat, op: Operation, pc: Counter, expire: bool)
    requires At(c, me, op, pc)
    ensures
      var o, c' := Step(op, pc, c.shared, expire), Move(c, me, expire);
      && c'.shared == o.shared
      && At(c', me, op, o.next)
      && c.log <= c'.log
      && (forall e :: Logged(c, me, e) ==> Logged(c', me, e))
      && (o.event.Some? ==> Logged(c', me, o.event.value))
      && Frames(c'.log) ==
         Frames(c.log) + (if o.event.Some? && o.event.value.Sent? then [o.event.value.frame] else [])
      && SocketCalls(c'.log) ==
         SocketCalls(c.log) + (if o.event.Some? && o.event.value.Called? then [o.event.value.call] else [])
      && Callbacks(c'.log) ==
         Callbacks(c.log) + if o.event.Some? && o.event.value.Notified? then [o.event.value.callback] else []
  {
    var o := Step(op, pc, c.shared, expire);
    hide Step, Frames, SocketCalls, Callbacks;
    if o.event.Some? {
      OutputsGrow(c.log, Entry(me, o.event.value));
    } else {
      assert c.log + Trail(me, o) == c.log;
    }
  }

  lemma StepIsMove(c: Client, me: nat, op: Operation, pc: Counter, expire: bool)
    requires At(c, me, op, pc)
    ensures Perform(c, if expire then Expire(me) else Advance(me)) == Move(c, me, expire)
  {
    hide Move;
  }

  lemma OneMore(schedule: seq<Action>, a: Action)
    ensures After(schedule + [a]) == Perform(After(schedule), a)
  {
    assert (schedule + [a])[..|schedule|] == schedule;
  }

  /** Thread `me` runs the given operation and stands at the given program counter. */
  ghost predicate At(c: Client, me: nat, op: Operation, pc: Counter) {
    me < |c.threads| && c.threads[me] == Thread(op, pc)
  }

  ghost predicate Logged(c: Client, me: nat, event: Event) {
    Entry(me, event) in c.log
  }

  /** The reply has been told to the listener as what it is, unless the client had been closed. */
  ghost predicate Concluded(c: Client, me: nat, ok: bool) {
    || Logged(c, me, Notified(if ok then ConnectionSuccess else ConnectionFailure(LoginRefused)))
    || Entered(c.log, DISCONNECTED)
  }

  datatype Exception = InvalidOperation

  class AsyncGDSClient {
    var state: int
    var isConnectionClosed: int
    var countdown: nat
    var handlersRegistered: bool
    var frames: seq<Frame>
    var socketCalls: seq<SocketCall>
    var callbacks: seq<Callback>
    ghost var schedule: seq<Action>
    ghost var world: Client

    /** The fields, the outputs included, are those of the given client. */
    ghost predicate Shows(c: Client)
      reads this`state, this`isConnectionClosed, this`countdown, this`handlersRegistered
      reads this`frames, this`socketCalls, this`callbacks
    {
      && c.shared == Shared(state, isConnectionClosed, countdown, handlersRegistered)
      && frames == Frames(c.log)
      && socketCalls == SocketCalls(c.log)
      && callbacks == Callbacks(c.log)
    }

    ghost predicate Valid()
      reads this
    {
      world == After(schedule) && Shows(world)
    }

    constructor ()
      ensures Valid() && schedule == []
    {
      state, isConnectionClosed, countdown, handlersRegistered := NOT_CONNECTED, 1, 1, false;
      frames, socketCalls, callbacks := [], [], [];
      schedule, world := [], INITIAL;
    }

    /**
     A user calls the client, or the socket raises an event: a thread for it is there, and nothing else has changed. Its
     first access follows at once: `old` in a method's contract is the state at that access, and what the others do
     before it they have done before this.
     */
    ghost method Enter(op: Operation) returns (me: nat)
      requires Valid() && Callable(op, world.shared)
      modifies this`schedule, this`world
      ensures Valid() && schedule == old(schedule) + [Invoke(op)]
      ensures At(world, me, op, Entrance(op)) && me == |old(world).threads|
    {
      me := |world.threads|;
      InvokeShows(op);
      hide After, Shows;
      Record(Invoke(op));
    }

    /** A decision is recorded once the fields are what it makes of the world. */
    ghost method Record(a: Action)
      requires world == After(schedule) && Shows(Perform(world, a))
      modifies this`schedule, this`world
      ensures Valid() && schedule == old(schedule) + [a] && world == Perform(old(world), a)
    {
      OneMore(schedule, a);
      hide After, Perform, Shows;
      schedule := schedule + [a];
      world := Perform(world, a);
    }

    /**
     Thread `me`, running `op` and standing at `pc`, has made its access: the fields are what its step makes of the
     world. The access is recorded, and then the other threads may do whatever they do before its next one.
     */
    method Yield(ghost me: nat, ghost op: Operation, ghost pc: Counter, ghost expire: bool := false)
      requires world == After(schedule) && At(world, me, op, pc)
      requires Accessed(world, Step(op, pc, world.shared, expire))
      modifies this
      ensures Valid() && old(schedule) <= schedule
      ensures At(world, me, op, Step(op, pc, old(world.shared), expire).next)
      ensures old(world).log <= world.log
      ensures forall e :: Logged(old(world), me, e) ==> Logged(world, me, e)
      ensures
        var event := Step(op, pc, old(world.shared), expire).event;
        event.Some? ==> Logged(world, me, event.value)
    {
      ghost var a := if expire then Expire(me) else Advance(me);
      StepIsMove(world, me, op, pc, expire);
      MoveShows(world, me, op, pc, expire);
      AccessShows(me, op, pc, expire);
      hide *;
      Record(a);
    }

    lemma InvokeShows(op: Operation)
      requires Shows(world) && Callable(op, world.shared)
      ensures Shows(Perform(world, Invoke(op)))
    {
      OutputsGrow(world.log, Entry(|world.threads|, Invoked(op)));
      hide Frames, SocketCalls, Callbacks;
    }

    lemma AccessShows(me: nat, op: Operation, pc: Counter, expire: bool)
      requires At(world, me, op, pc) && Accessed(world, Step(op, pc, world.shared, expire))
      ensures Shows(Move(world, me, expire))
    {
      MoveShows(world, me, op, pc, expire);
      hide Frames, SocketCalls, Callbacks, Step, Move;
    }

    /** The fields are what the outcome of a step makes of the given world. */
    ghost predicate Accessed(c: Client, o: Outcome)
      reads this
    {
      && o.shared == Shared(state, isConnectionClosed, countdown, handlersRegistered)
      && frames ==
         (if o.event.Some? && o.event.value.Sent?
          then Frames(c.log) + [o.event.value.frame] else Frames(c.log))
      && socketCalls ==
         (if o.event.Some? && o.event.value.Called?
          then SocketCalls(c.log) + [o.event.value.call] else SocketCalls(c.log))
      && callbacks ==
         (if o.event.Some? && o.event.value.Notified?
          then Callbacks(c.log) + [o.event.value.callback] else Callbacks(c.log))
    }

    /** At most one call returns normally; every other call throws. */
    method Connect() returns (r: Result<(), Exception>, ghost me: nat)
      requires Valid()
      modifies this
      ensures Valid() && old(schedule) <= schedule && At(world, me, Operation.Connect, Finished)
      ensures r.Ok? <==> old(state) == NOT_CONNECTED
      ensures r.Ok? ==> Logged(world, me, Started) && forall t :: Logged(world, t, Started) ==> t == me
      ensures r.Ok? ==> HasWatch(world)
      ensures r.Err? ==> Logged(world, me, Threw)
    {
      hide After, Frames, SocketCalls, Callbacks;
      me := Enter(Operation.Connect);
      var seen := state;
      if seen == NOT_CONNECTED {
        state := INITIALIZING;
      }
      Yield(me, Operation.Connect, ConnectCas);
      if seen != NOT_CONNECTED {
        return Err(InvalidOperation), me;
      }
      Yield(me, Operation.Connect, ConnectStart);  // the watch thread starts
      OnlyStarted(me);
      WatchAlways(schedule);
      r := Ok(());
    }

    lemma OnlyStarted(me: nat)
      requires world == After(schedule) && Logged(world, me, Started)
      ensures forall t :: Logged(world, t, Started) ==> t == me
    {
      hide After;
      forall t | Logged(world, t, Started) ensures t == me {
        var i: nat :| i < |world.log| && world.log[i] == Entry(me, Started);
        var j: nat :| j < |world.log| && world.log[j] == Entry(t, Started);
        ConnectHasOneWinner(schedule, i, j);
      }
    }

    /**
     The thread that `Connect` starts; `patience` is how often it finds no reply before its wait runs out. When it ends
     a reply has come or the client is closed or failed, and the listener has been told of the timeout exactly if the
     thread has failed the client.
     */
    method Watch(ghost me: nat, patience: nat)
      requires Valid() && At(world, me, Operation.Watch, WatchRegister)
      modifies this
      ensures Valid() && old(schedule) <= schedule && At(world, me, Operation.Watch, Finished)
      ensures countdown == 0 || state == DISCONNECTED || state == FAILED
      ensures FailedBy(world.log, me) <==> Logged(world, me, Notified(ConnectionFailure(TimedOut)))
    {
      hide After, Frames, SocketCalls, Callbacks;
      hide ConnectStep, CloseStep, SendStep, OpenedStep, ErrorStep, ClosedStep, AckStep, DispatchStep, FailedBy;
      handlersRegistered := true;
      Yield(me, Operation.Watch, WatchRegister);
      socketCalls := socketCalls + [OpenCall];
      Yield(me, Operation.Watch, WatchOpen);
      if state == INITIALIZING {
        state := CONNECTING;
      }
      Yield(me, Operation.Watch, WatchCas);
      Await(me, patience);
      WatchHasEnded(schedule, me);
    }

    /** The wait for the login reply, and the failure reported if none comes in time. */
    method Await(ghost me: nat, patience: nat)
      requires Valid() && At(world, me, Operation.Watch, WatchWait)
      modifies this
      ensures Valid() && old(schedule) <= schedule && At(world, me, Operation.Watch, Finished)
    {
      hide After, Frames, SocketCalls, Callbacks;
      hide ConnectStep, CloseStep, SendStep, OpenedStep, ErrorStep, ClosedStep, AckStep, DispatchStep;
      var left := patience;
      while countdown != 0 && left != 0
        invariant Valid() && old(schedule) <= schedule && At(world, me, Operation.Watch, WatchWait)
        decreases left
      {
        Yield(me, Operation.Watch, WatchWait);
        left := left - 1;
      }
      if countdown == 0 {
        Yield(me, Operation.Watch, WatchWait);
        return;
      }
      Yield(me, Operation.Watch, WatchWait, true);
      FailOnTimeout(me);
    }

    /** What the watch does once its wait has run out. */
    method FailOnTimeout(ghost me: nat)
      requires Valid() && At(world, me, Operation.Watch, WatchRead)
      modifies this
      ensures Valid() && old(schedule) <= schedule && At(world, me, Operation.Watch, Finished)
    {
      hide After, Frames, SocketCalls, Callbacks;
      hide ConnectStep, CloseStep, SendStep, OpenedStep, ErrorStep, ClosedStep, AckStep, DispatchStep;
      var currentState := state;
      Yield(me, Operation.Watch, WatchRead);
      if currentState != FAILED && currentState != DISCONNECTED {
        state := FAILED;
        Yield(me, Operation.Watch, WatchWrite);
        callbacks := callbacks + [ConnectionFailure(TimedOut)];
        Yield(me, Operation.Watch, WatchReport);
      }
    }

    /** Closes the client, on a user's behalf or for a refused login. */
    method DoClose(ghost me: nat, ghost op: Operation, ghost nested: bool)
      requires Valid() && At(world, me, op, CloseRead(nested))
      requires op == if nested then MessageReceived(ConnectionAck(false)) else Operation.Close
      modifies this
      ensures Valid() && old(schedule) <= schedule && Logged(world, me, Called(CloseCall))
      ensures At(world, me, op, if nested then AckRefused else Finished)
    {
      hide After, Frames, SocketCalls, Callbacks;
      var seen := state;
      Yield(me, op, CloseRead(nested));
      if seen != FAILED {
        state := DISCONNECTED;
        Yield(me, op, CloseWrite(nested));
      }
      CloseSocket(me, op, nested);
    }

    method CloseSocket(ghost me: nat, ghost op: Operation, ghost nested: bool)
      requires Valid() && At(world, me, op, CloseExchange(nested))
      requires op == if nested then MessageReceived(ConnectionAck(false)) else Operation.Close
      modifies this
      ensures Valid() && old(schedule) <= schedule && Logged(world, me, Called(CloseCall))
      ensures At(world, me, op, if nested then AckRefused else Finished)
    {
      hide After, Frames, SocketCalls, Callbacks;
      isConnectionClosed := 1;
      Yield(me, op, CloseExchange(nested));
      socketCalls := socketCalls + [CloseCall];
      Yield(me, op, Counter.CloseSocket(nested));
    }

    /** When it returns the client is closed or failed, and the socket has been closed. */
    method Close() returns (ghost me: nat)
      requires Valid()
      modifies this
      ensures Valid() && old(schedule) <= schedule && At(world, me, Operation.Close, Finished)
      ensures (state == DISCONNECTED || state == FAILED) && Logged(world, me, Called(CloseCall))
    {
      hide After, Frames, SocketCalls, Callbacks;
      me := Enter(Operation.Close);
      DoClose(me, Operation.Close, false);
      assert schedule[..|schedule|] == schedule;
      CloseIsFinal(schedule, |schedule|, me);
    }

    /** The frame is sent exactly if the client is logged in, the types agree and the body is one that is written. */
    method SendMessage(headerType: int, bodyType: int) returns (r: Result<(), Exception>, ghost me: nat)
      requires Valid()
      modifies this
      ensures Valid() && old(schedule) <= schedule
      ensures At(world, me, Operation.SendMessage(headerType, bodyType), Finished)
      ensures r.Ok? <==>
              && old(state) == LOGGED_IN && headerType == bodyType
              && bodyType in {0, 1, 2, 4, 5, 6, 7, 8, 9, 10, 12}
      ensures r.Ok? ==> Logged(world, me, Sent(Payload(headerType, bodyType)))
      ensures r.Err? ==> Logged(world, me, Threw)
    {
      hide After, Frames, SocketCalls, Callbacks;
      ghost var op := Operation.SendMessage(headerType, bodyType);
      me := Enter(op);
      var seen := state;
      Yield(me, op, SendRead);
      if seen != LOGGED_IN {
        return Err(InvalidOperation), me;
      }
      if headerType != bodyType {
        return Err(InvalidOperation), me;
      }
      if !Serializable(bodyType) {
        return Err(InvalidOperation), me;
      }
      frames := frames + [Payload(headerType, bodyType)];
      Yield(me, op, SendFrame);
      r := Ok(());
    }

    /** A normal return means that the login was sent. */
    method OnSocketOpened() returns (r: Result<(), Exception>, ghost me: nat)
      requires Valid() && handlersRegistered
      modifies this
      ensures Valid() && old(schedule) <= schedule && At(world, me, SocketOpened, Finished)
      ensures r.Ok? ==> Logged(world, me, Sent(Login))
      ensures r.Err? ==> Logged(world, me, Threw)
    {
      hide After, Frames, SocketCalls, Callbacks;
      me := Enter(SocketOpened);
      isConnectionClosed := 0;
      Yield(me, SocketOpened, OpenedExchange);
      var oldState := state;
      if oldState == CONNECTING {
        state := CONNECTED;
      }
      Yield(me, SocketOpened, OpenedCas);
      if oldState != CONNECTING && oldState != DISCONNECTED {
        return Err(InvalidOperation), me;
      }
      r := SendLogin(me);
    }

    method SendLogin(ghost me: nat) returns (r: Result<(), Exception>)
      requires Valid() && At(world, me, SocketOpened, OpenedSend)
      modifies this
      ensures Valid() && old(schedule) <= schedule && At(world, me, SocketOpened, Finished)
      ensures Logged(world, me, Sent(Login))
      ensures r.Err? ==> Logged(world, me, Threw)
    {
      hide After, Frames, SocketCalls, Callbacks;
      frames := frames + [Login];
      Yield(me, SocketOpened, OpenedSend);
      var oldState := state;
      if oldState == CONNECTED {
        state := LOGGING_IN;
      }
      Yield(me, SocketOpened, OpenedLogin);
      if oldState != CONNECTED && oldState != DISCONNECTED {
        return Err(InvalidOperation);
      }
      r := Ok(());
    }

    /**
     When it returns the client is logged in, closed or failed; the listener is told exactly if this failed it. A socket
     that was open has been closed.
     */
    method OnSocketError() returns (ghost me: nat)
      requires Valid() && handlersRegistered
      modifies this
      ensures Valid() && old(schedule) <= schedule && At(world, me, SocketError, Finished)
      ensures old(isConnectionClosed) != 1 ==> Logged(world, me, Called(CloseCall))
      ensures state == LOGGED_IN || state == DISCONNECTED || state == FAILED
      ensures FailedBy(world.log, me) <==> Logged(world, me, Notified(ConnectionFailure(SocketFault)))
    {
      hide After, Frames, SocketCalls, Callbacks;
      hide ConnectStep, CloseStep, SendStep, OpenedStep, WatchStep, ClosedStep, AckStep, DispatchStep, FailedBy;
      me := Enter(SocketError);
      var closed := isConnectionClosed;
      Yield(me, SocketError, ErrorFlag);
      if closed != 1 {
        socketCalls := socketCalls + [CloseCall];
        Yield(me, SocketError, ErrorClose);
      }
      var seen := state;
      Yield(me, SocketError, ErrorReadFailed);
      if seen != FAILED {
        FailOnError(me);
      }
      ErrorHasEnded(schedule, me);
    }

    /** The rest of the error handler: the state is read a second time. */
    method FailOnError(ghost me: nat)
      requires Valid() && At(world, me, SocketError, ErrorReadLoggedIn)
      modifies this
      ensures old(world).log <= world.log
      ensures Valid() && old(schedule) <= schedule && At(world, me, SocketError, Finished)
    {
      hide After, Frames, SocketCalls, Callbacks;
      hide ConnectStep, CloseStep, SendStep, OpenedStep, WatchStep, ClosedStep, AckStep, DispatchStep;
      var seen := state;
      Yield(me, SocketError, ErrorReadLoggedIn);
      if seen != LOGGED_IN {
        state := FAILED;
        Yield(me, SocketError, ErrorWrite);
        callbacks := callbacks + [ConnectionFailure(SocketFault)];
        Yield(me, SocketError, ErrorReport);
      }
    }

    /** It tells the listener of a disconnection or of a failure, unless a failure has been recorded before. */
    method OnSocketClosed() returns (ghost me: nat)
      requires Valid() && handlersRegistered
      modifies this
      ensures Valid() && old(schedule) <= schedule && At(world, me, SocketClosed, Finished)
      ensures
        || Logged(world, me, Notified(Disconnect))
        || Logged(world, me, Notified(ConnectionFailure(SocketLost)))
        || Entered(world.log, FAILED)
    {
      hide After, Frames, SocketCalls, Callbacks;
      hide Entered;
      hide ConnectStep, CloseStep, SendStep, OpenedStep, ErrorStep, WatchStep, AckStep, DispatchStep;
      me := Enter(SocketClosed);
      isConnectionClosed := 1;
      Yield(me, SocketClosed, ClosedExchange);
      var disconnected := Disconnects(me);
      ReportClosed(me, disconnected);
      ClosedHasEnded(schedule, me);
    }

    /** Whether the client is closed, or was logged in and has been closed by this swap. */
    method Disconnects(ghost me: nat) returns (disconnected: bool)
      requires Valid() && At(world, me, SocketClosed, ClosedRead)
      modifies this
      ensures Valid() && old(schedule) <= schedule
      ensures At(world, me, SocketClosed, if disconnected then ClosedDisconnect else ClosedReread)
    {
      hide After, Frames, SocketCalls, Callbacks;
      hide ConnectStep, CloseStep, SendStep, OpenedStep, ErrorStep, WatchStep, AckStep, DispatchStep;
      disconnected := state == DISCONNECTED;
      Yield(me, SocketClosed, ClosedRead);
      if !disconnected {
        disconnected := state == LOGGED_IN;
        if disconnected {
          state := DISCONNECTED;
        }
        Yield(me, SocketClosed, ClosedCas);
      }
    }

    /** Tells the listener of a disconnection, or else of a failure unless one has been recorded. */
    method ReportClosed(ghost me: nat, disconnected: bool)
      requires Valid() && At(world, me, SocketClosed, if disconnected then ClosedDisconnect else ClosedReread)
      modifies this
      ensures Valid() && old(schedule) <= schedule && At(world, me, SocketClosed, Finished)
      ensures disconnected ==> Logged(world, me, Notified(Disconnect))
    {
      hide After, Frames, SocketCalls, Callbacks;
      if disconnected {
        callbacks := callbacks + [Disconnect];
        Yield(me, SocketClosed, ClosedDisconnect);
        return;
      }
      var seen := state;
      Yield(me, SocketClosed, ClosedReread);
      if seen != FAILED {
        callbacks := callbacks + [ConnectionFailure(SocketLost)];
        Yield(me, SocketClosed, ClosedFailure);
      }
    }

    /** The state that is read has been entered, and so it has been in every later log. */
    lemma Seen(c: Client)
      requires Valid() && c == world
      ensures state != NOT_CONNECTED ==> Entered(c.log, state)
      ensures forall log :: c.log <= log && state != NOT_CONNECTED ==> Entered(log, state)
    {
      LogsAreLawful(schedule);
      if state != NOT_CONNECTED {
        StateWasEntered(c.log);
        var x :| x in c.log && x.event.Stored? && x.event.now == state;
        var i: nat :| i < |c.log| && c.log[i] == x;
        assert forall log :: c.log <= log ==> log[i] == x;
        assert forall log :: c.log <= log ==> x in log;
      }
    }

    /** A login reply. Only the first one gets past the countdown. */
    method OnConnectionAck(ghost me: nat, ok: bool) returns (r: Result<(), Exception>)
      requires Valid() && At(world, me, MessageReceived(ConnectionAck(ok)), AckSignal)
      modifies this
      ensures Valid() && old(schedule) <= schedule && At(world, me, MessageReceived(ConnectionAck(ok)), Finished)
      ensures old(countdown) == 0 ==> r.Err?
      ensures r.Err? ==> Logged(world, me, Threw)
      ensures r.Ok? ==> Concluded(world, me, ok)
    {
      hide After, Frames, SocketCalls, Callbacks;
      ghost var op := MessageReceived(ConnectionAck(ok));
      if countdown == 0 {
        Yield(me, op, AckSignal);
        return Err(InvalidOperation);
      }
      countdown := countdown - 1;
      Yield(me, op, AckSignal);
      r := Judge(me, ok);
    }

    /** The reply that got past the countdown swaps the state. */
    method Judge(ghost me: nat, ok: bool) returns (r: Result<(), Exception>)
      requires Valid() && At(world, me, MessageReceived(ConnectionAck(ok)), if ok then AckAccept else AckReject)
      modifies this
      ensures Valid() && old(schedule) <= schedule && At(world, me, MessageReceived(ConnectionAck(ok)), Finished)
      ensures r.Err? ==> Logged(world, me, Threw)
      ensures r.Ok? ==> Concluded(world, me, ok)
    {
      hide After, Frames, SocketCalls, Callbacks;
      ghost var op := MessageReceived(ConnectionAck(ok));
      var oldState := state;
      if oldState == LOGGING_IN {
        state := if ok then LOGGED_IN else FAILED;
      }
      Yield(me, op, if ok then AckAccept else AckReject);
      if oldState != LOGGING_IN {
        r := Recheck(me, ok);
      } else {
        Conclude(me, ok);
        r := Ok(());
      }
    }

    /** The swap has failed: that is an error unless the client has been closed. */
    method Recheck(ghost me: nat, ghost ok: bool) returns (r: Result<(), Exception>)
      requires Valid() && At(world, me, MessageReceived(ConnectionAck(ok)), AckRecheck)
      modifies this
      ensures Valid() && old(schedule) <= schedule && At(world, me, MessageReceived(ConnectionAck(ok)), Finished)
      ensures r.Err? ==> Logged(world, me, Threw)
      ensures r.Ok? ==> Entered(world.log, DISCONNECTED)
    {
      hide After, Frames, SocketCalls, Callbacks;
      var currentState := state;
      Seen(world);
      Yield(me, MessageReceived(ConnectionAck(ok)), AckRecheck);
      r := if currentState != DISCONNECTED then Err(InvalidOperation) else Ok(());
    }

    /** After the swap of the state that a login reply asks for: the listener is told, a refused client is closed. */
    method Conclude(ghost me: nat, ok: bool)
      requires Valid() && At(world, me, MessageReceived(ConnectionAck(ok)), if ok then AckSuccess else CloseRead(true))
      modifies this
      ensures Valid() && old(schedule) <= schedule && At(world, me, MessageReceived(ConnectionAck(ok)), Finished)
      ensures Logged(world, me, Notified(if ok then ConnectionSuccess else ConnectionFailure(LoginRefused)))
    {
      hide After, Frames, SocketCalls, Callbacks;
      hide ConnectStep, SendStep, OpenedStep, WatchStep, ErrorStep, ClosedStep, DispatchStep;
      ghost var op := MessageReceived(ConnectionAck(ok));
      if ok {
        callbacks := callbacks + [ConnectionSuccess];
        Yield(me, op, AckSuccess);
      } else {
        DoClose(me, op, true);
        callbacks := callbacks + [ConnectionFailure(LoginRefused)];
        Yield(me, op, AckRefused);
      }
    }

    method OnMessageReceived(message: Incoming) returns (r: Result<(), Exception>, ghost me: nat)
      requires Valid() && handlersRegistered
      modifies this
      ensures Valid() && old(schedule) <= schedule && At(world, me, MessageReceived(message), Finished)
      ensures r.Err? ==> Logged(world, me, Threw)
      ensures r.Err? ==> message.ConnectionAck?
      ensures message.ConnectionAck? && old(countdown) == 0 ==> r.Err?
      ensures r.Ok? && message.ConnectionAck? ==> Concluded(world, me, message.ok)
      ensures message.OtherMessage? ==>
                forall callback :: Logged(world, me, Notified(callback)) <==>
                  callback == Delivery(message.dataType) && message.dataType in {3, 4, 5, 6, 7, 8, 9, 11}
    {
      hide After, Frames, SocketCalls, Callbacks;
      me := Enter(MessageReceived(message));
      match message
      case ConnectionAck(ok) =>
        r := OnConnectionAck(me, ok);
      case OtherMessage(dataType) =>
        if Delivered(dataType) {
          callbacks := callbacks + [Delivery(dataType)];
        }
        Yield(me, MessageReceived(message), ReceivedDispatch);
        OthersOnlyDeliver(schedule, me, dataType);
        r := Ok(());
      case Malformed =>
        Yield(me, MessageReceived(message), ReceivedDispatch);
        r := Ok(());
    }
  }
}
