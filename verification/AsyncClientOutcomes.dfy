/**
 What a handler that has ended has told the listener, and when the listener of a client that is at rest has been told
 nothing.
 */
module AsyncClientOutcomes {
  import opened Results
  import opened ConnectionState
  import opened AsyncClientModel
  import opened AsyncClientLaws
  import opened AsyncClientTheorems

  ghost predicate Told(log: Log, t: nat, callback: Callback) {
    Entry(t, Notified(callback)) in log
  }

  /** The thread has set the state to `LOGGED_IN`. */
  ghost predicate AcceptedBy(log: Log, t: nat) {
    exists x :: x in log && x.thread == t && x.event.Stored? && x.event.now == LOGGED_IN
  }

  ghost predicate StoredBy(log: Log, t: nat) {
    exists x :: x in log && x.thread == t && x.event.Stored?
  }

  predicate InWatch(pc: Counter) {
    || pc == WatchRegister || pc == WatchOpen || pc == WatchCas || pc == WatchWait || pc == WatchRead
    || pc == WatchWrite || pc == WatchReport || pc == Finished
  }

  predicate InError(pc: Counter) {
    || pc == ErrorFlag || pc == ErrorClose || pc == ErrorReadFailed || pc == ErrorReadLoggedIn || pc == ErrorWrite
    || pc == ErrorReport || pc == Finished
  }

  predicate InClosed(pc: Counter) {
    || pc == ClosedExchange || pc == ClosedRead || pc == ClosedCas || pc == ClosedReread || pc == ClosedDisconnect
    || pc == ClosedFailure || pc == Finished
  }

  /** A watch thread that has failed the client says so; it ends only after a reply or when the client is over. */
  ghost predicate WatchEnds(log: Log, count: nat, t: nat, pc: Counter) {
    && InWatch(pc)
    && !AcceptedBy(log, t)
    && (FailedBy(log, t) ==> pc == WatchReport || Told(log, t, ConnectionFailure(TimedOut)))
    && (pc == WatchReport || pc == Finished ==> count == 0 || Over(log))
  }

  ghost predicate ErrorEnds(log: Log, t: nat, pc: Counter) {
    && InError(pc)
    && !AcceptedBy(log, t)
    && (FailedBy(log, t) ==> pc == ErrorReport || Told(log, t, ConnectionFailure(SocketFault)))
    && (pc == ErrorReport || pc == Finished ==> Entered(log, LOGGED_IN) || Over(log))
  }

  ghost predicate ClosedEnds(log: Log, t: nat, pc: Counter) {
    && InClosed(pc)
    && !AcceptedBy(log, t) && !FailedBy(log, t)
    && (pc == Finished ==>
          Told(log, t, Disconnect) || Told(log, t, ConnectionFailure(SocketLost)) || Entered(log, FAILED))
  }

  predicate Refusing(pc: Counter) {
    pc == CloseRead(true) || pc == CloseWrite(true) || pc == CloseExchange(true) || pc == CloseSocket(true)
    || pc == AckRefused
  }

  predicate InAck(pc: Counter) {
    || pc == AckSignal || pc == AckAccept || pc == AckReject || pc == AckSuccess || pc == AckRecheck || Refusing(pc)
    || pc == Finished
  }

  /** A login reply that has swapped the state says so; one that ends without a word threw or found a closed client. */
  ghost predicate AckEnds(log: Log, t: nat, pc: Counter) {
    && InAck(pc)
    && (StoredBy(log, t) ==> FailedBy(log, t) || AcceptedBy(log, t))
    && (FailedBy(log, t) ==> Refusing(pc) || Told(log, t, ConnectionFailure(LoginRefused)))
    && (Refusing(pc) ==> FailedBy(log, t))
    && (AcceptedBy(log, t) ==> pc == AckSuccess || Told(log, t, ConnectionSuccess))
    && (pc == Finished ==>
          || Told(log, t, ConnectionSuccess) || Told(log, t, ConnectionFailure(LoginRefused))
          || Entry(t, Threw) in log || Entered(log, DISCONNECTED))
  }

  ghost predicate Ends(log: Log, count: nat, t: nat, th: Thread) {
    match th.op
    case Watch => WatchEnds(log, count, t, th.pc)
    case SocketError => ErrorEnds(log, t, th.pc)
    case SocketClosed => ClosedEnds(log, t, th.pc)
    case MessageReceived(m) =>
      if m.ConnectionAck? then AckEnds(log, t, th.pc) else !AcceptedBy(log, t) && !FailedBy(log, t)
    case _ => !AcceptedBy(log, t) && !FailedBy(log, t)
  }

  /** What other threads do takes nothing away. */
  lemma EndsStays(log: Log, count: nat, t: nat, th: Thread, x: Entry, count': nat)
    requires Ends(log, count, t, th) && x.thread != t && count' <= count
    ensures Ends(log + [x], count', t, th)
  {
    assert forall y :: y in log ==> y in log + [x];
    assert forall y :: y in log + [x] && y.thread == t ==> y in log;
    PastStays(log, x);
  }

  /** The thread's outcome is a store of the given value. */
  predicate Stores(o: Outcome, value: int) {
    o.event.Some? && o.event.value.Stored? && o.event.value.now == value
  }

  /** What a step adds to what its thread has stored and told. */
  lemma OwnGrows(log: Log, t: nat, o: Outcome)
    ensures
      var log' := log + Trail(t, o);
      && (AcceptedBy(log', t) <==> AcceptedBy(log, t) || Stores(o, LOGGED_IN))
      && (FailedBy(log', t) <==> FailedBy(log, t) || Stores(o, FAILED))
      && (StoredBy(log', t) <==> StoredBy(log, t) || (o.event.Some? && o.event.value.Stored?))
      && (Entry(t, Threw) in log' <==> Entry(t, Threw) in log || o.event == Some(Threw))
      && (forall callback :: Told(log', t, callback) <==> Told(log, t, callback) || o.event == Some(Notified(callback)))
      && (forall v :: Entered(log, v) || Stores(o, v) ==> Entered(log', v))
  {
    if o.event.Some? {
      var x := Entry(t, o.event.value);
      assert log + Trail(t, o) == log + [x];
      assert forall y :: y in log + [x] <==> y in log || y == x;
      assert x in log + [x];
      PastStays(log, x);
    } else {
      assert log + Trail(t, o) == log;
    }
  }

  /** The log has seen the present state. */
  ghost predicate Sees(log: Log, state: int) {
    state != NOT_CONNECTED ==> Entered(log, state)
  }

  lemma WatchEndsStep(log: Log, sh: Shared, t: nat, pc: Counter, expire: bool)
    requires WatchEnds(log, sh.count, t, pc) && Sees(log, sh.state)
    ensures var o := WatchStep(pc, sh, expire); WatchEnds(log + Trail(t, o), o.shared.count, t, o.next)
  {
    OwnGrows(log, t, WatchStep(pc, sh, expire));
    hide Entered, AcceptedBy, FailedBy, StoredBy, Told, Trail;
  }

  lemma ErrorEndsStep(log: Log, sh: Shared, t: nat, pc: Counter)
    requires ErrorEnds(log, t, pc) && Sees(log, sh.state)
    ensures var o := ErrorStep(pc, sh); ErrorEnds(log + Trail(t, o), t, o.next)
  {
    OwnGrows(log, t, ErrorStep(pc, sh));
    hide Entered, AcceptedBy, FailedBy, StoredBy, Told, Trail;
  }

  lemma ClosedEndsStep(log: Log, sh: Shared, t: nat, pc: Counter)
    requires ClosedEnds(log, t, pc) && Sees(log, sh.state)
    ensures var o := ClosedStep(pc, sh); ClosedEnds(log + Trail(t, o), t, o.next)
  {
    OwnGrows(log, t, ClosedStep(pc, sh));
    hide Entered, AcceptedBy, FailedBy, StoredBy, Told, Trail;
  }

  /** A reply that has refused the login closes the socket and reports. */
  lemma RefusingEndsStep(log: Log, sh: Shared, t: nat, ok: bool, pc: Counter)
    requires AckEnds(log, t, pc) && Refusing(pc)
    ensures var o := AckStep(ok, pc, sh); AckEnds(log + Trail(t, o), t, o.next)
  {
    var o := AckStep(ok, pc, sh);
    OwnGrows(log, t, o);
    assert if pc == AckRefused then o.next == Finished && o.event == Some(Notified(ConnectionFailure(LoginRefused)))
           else Refusing(o.next) && !Stores(o, LOGGED_IN);
    hide AckStep, CloseStep, Entered, AcceptedBy, FailedBy, StoredBy, Told, Trail;
  }

  /** A reply before its swap has stored nothing. */
  lemma SwappingEndsStep(log: Log, sh: Shared, t: nat, ok: bool, pc: Counter)
    requires AckEnds(log, t, pc) && (pc == AckSignal || pc == AckAccept || pc == AckReject)
    ensures var o := AckStep(ok, pc, sh); AckEnds(log + Trail(t, o), t, o.next)
  {
    hide CloseStep;
    OwnGrows(log, t, AckStep(ok, pc, sh));
    hide Entered, AcceptedBy, FailedBy, StoredBy, Told, Trail;
  }

  /** A reply after its swap has only to report. */
  lemma ReportingEndsStep(log: Log, sh: Shared, t: nat, ok: bool, pc: Counter)
    requires AckEnds(log, t, pc) && (pc == AckSuccess || pc == AckRecheck) && Sees(log, sh.state)
    ensures var o := AckStep(ok, pc, sh); AckEnds(log + Trail(t, o), t, o.next)
  {
    hide CloseStep;
    OwnGrows(log, t, AckStep(ok, pc, sh));
    hide Entered, AcceptedBy, FailedBy, StoredBy, Told, Trail;
  }

  lemma AckEndsStep(log: Log, sh: Shared, t: nat, ok: bool, pc: Counter)
    requires AckEnds(log, t, pc) && Sees(log, sh.state)
    ensures var o := AckStep(ok, pc, sh); AckEnds(log + Trail(t, o), t, o.next)
  {
    assert InAck(pc);
    assert AckStep(ok, Finished, sh) == Go(Finished, sh) && log + [] == log;
    hide AckEnds, AckStep;
    if Refusing(pc) {
      RefusingEndsStep(log, sh, t, ok, pc);
    } else if pc == AckSignal || pc == AckAccept || pc == AckReject {
      SwappingEndsStep(log, sh, t, ok, pc);
    } else if pc != Finished {
      ReportingEndsStep(log, sh, t, ok, pc);
    }
  }

  /** No other operation logs the client in or fails it. */
  lemma OtherEndsStep(log: Log, sh: Shared, t: nat, th: Thread, expire: bool)
    requires !th.op.Watch? && !th.op.SocketError? && !th.op.SocketClosed? && !IsReply(th.op)
    ensures var o := Step(th.op, th.pc, sh, expire); !Stores(o, LOGGED_IN) && !Stores(o, FAILED)
  {
  }

  lemma EndsStep(log: Log, sh: Shared, t: nat, th: Thread, expire: bool)
    requires Lawful(log) && sh.state == StateOf(log) && Ends(log, sh.count, t, th)
    ensures var o := Step(th.op, th.pc, sh, expire); Ends(log + Trail(t, o), o.shared.count, t, th.(pc := o.next))
  {
    hide AckStep, ErrorStep, ClosedStep, WatchStep, AckEnds, ErrorEnds, ClosedEnds, WatchEnds;
    hide Lawful, Entered, AcceptedBy, FailedBy, Trail, Stores, StateOf;
    var o := Step(th.op, th.pc, sh, expire);
    if sh.state != NOT_CONNECTED {
      StateWasEntered(log);
    }
    match th.op
    case Watch => WatchEndsStep(log, sh, t, th.pc, expire);
    case SocketError => ErrorEndsStep(log, sh, t, th.pc);
    case SocketClosed => ClosedEndsStep(log, sh, t, th.pc);
    case MessageReceived(ConnectionAck(ok)) => AckEndsStep(log, sh, t, ok, th.pc);
    case _ =>
      OtherEndsStep(log, sh, t, th, expire);
      OwnGrows(log, t, o);
  }

  predicate IsReply(op: Operation) {
    op.MessageReceived? && op.message.ConnectionAck?
  }

  /** A step changes the countdown exactly when it logs the signal. */
  predicate Signals(sh: Shared, o: Outcome) {
    o.event == Some(Signalled) <==> o.shared.count != sh.count
  }

  predicate LeavesCountdown(sh: Shared, o: Outcome) {
    o.event != Some(Signalled) && o.shared.count == sh.count
  }

  lemma SocketNeverSignals(pc: Counter, sh: Shared)
    ensures LeavesCountdown(sh, OpenedStep(pc, sh))
    ensures LeavesCountdown(sh, ErrorStep(pc, sh))
    ensures LeavesCountdown(sh, ClosedStep(pc, sh))
  {
  }

  lemma UserNeverSignals(pc: Counter, sh: Shared, headerType: int, bodyType: int)
    ensures LeavesCountdown(sh, ConnectStep(pc, sh))
    ensures LeavesCountdown(sh, CloseStep(pc, sh))
    ensures LeavesCountdown(sh, SendStep(headerType, bodyType, pc, sh))
  {
  }

  lemma OthersNeverSignal(pc: Counter, sh: Shared, expire: bool, message: Incoming)
    ensures LeavesCountdown(sh, WatchStep(pc, sh, expire))
    ensures LeavesCountdown(sh, DispatchStep(message, pc, sh))
  {
  }

  lemma ReplySignals(ok: bool, pc: Counter, sh: Shared)
    ensures Signals(sh, AckStep(ok, pc, sh))
  {
    UserNeverSignals(pc, sh, 0, 0);
    hide CloseStep;
  }

  lemma SignalSteps(op: Operation, pc: Counter, sh: Shared, expire: bool)
    ensures
      var o := Step(op, pc, sh, expire);
      Signals(sh, o) && (o.event == Some(Signalled) ==> IsReply(op))
  {
    hide ConnectStep, CloseStep, SendStep, OpenedStep, ErrorStep, ClosedStep, AckStep, WatchStep, DispatchStep;
    match op
    case MessageReceived(m) =>
      if m.ConnectionAck? {
        ReplySignals(m.ok, pc, sh);
      } else {
        OthersNeverSignal(pc, sh, expire, m);
      }
    case SendMessage(headerType, bodyType) => UserNeverSignals(pc, sh, headerType, bodyType);
    case Watch => OthersNeverSignal(pc, sh, expire, ConnectionAck(true));
    case _ =>
      SocketNeverSignals(pc, sh);
      UserNeverSignals(pc, sh, 0, 0);
  }

  /** The countdown is used up only by a reply, and only replies use it. */
  ghost predicate CountdownLogged(c: Client) {
    && (c.shared.count == 0 ==> Happened(c.log, Signalled))
    && (forall x :: x in c.log && x.event == Signalled ==>
          x.thread < |c.threads| && IsReply(c.threads[x.thread].op))
  }

  ghost predicate AllEnd(c: Client) {
    && CountdownLogged(c)
    && (forall t :: 0 <= t < |c.threads| ==> Ends(c.log, c.shared.count, t, c.threads[t]))
  }

  lemma MoveKeepsCountdown(c: Client, t: nat, expire: bool)
    requires CountdownLogged(c) && t < |c.threads|
    ensures CountdownLogged(Move(c, t, expire))
  {
    var th, c' := c.threads[t], Move(c, t, expire);
    var o := Step(th.op, th.pc, c.shared, expire);
    SignalSteps(th.op, th.pc, c.shared, expire);
    hide Step;
    if o.event.Some? {
      PastStays(c.log, Entry(t, o.event.value));
      assert Entry(t, o.event.value) in c'.log;
    } else {
      assert c'.log == c.log;
    }
  }

  lemma MoveKeepsEnds(c: Client, t: nat, expire: bool)
    requires Inv(c) && AllEnd(c) && t < |c.threads|
    ensures AllEnd(Move(c, t, expire))
  {
    var th, c' := c.threads[t], Move(c, t, expire);
    var o := Step(th.op, th.pc, c.shared, expire);
    EndsStep(c.log, c.shared, t, th, expire);
    StepFrame(th.op, th.pc, c.shared, expire);
    MoveKeepsCountdown(c, t, expire);
    hide Ends, Step, ThreadInv, Lawful, CountdownLogged, Trail;
    if o.starts {
      WatchBegins(c, t, expire);
    }
    forall u | 0 <= u < |c'.threads|
      ensures Ends(c'.log, c'.shared.count, u, c'.threads[u])
    {
      if u < |c.threads| && u != t {
        OtherKeepsEnds(c, u, t, o);
      }
    }
  }

  /** The thread that a step starts has done nothing. */
  lemma WatchBegins(c: Client, t: nat, expire: bool)
    requires Inv(c) && t < |c.threads|
    ensures var c' := Move(c, t, expire); Ends(c'.log, c'.shared.count, |c.threads|, Thread(Watch, WatchRegister))
  {
    hide Step, Ends, ThreadInv, Lawful;
    StartsFresh(Move(c, t, expire).log, Move(c, t, expire).shared.count, |c.threads|);
  }

  lemma OtherKeepsEnds(c: Client, u: nat, t: nat, o: Outcome)
    requires u < |c.threads| && u != t && Ends(c.log, c.shared.count, u, c.threads[u])
    requires o.shared.count <= c.shared.count
    ensures Ends(c.log + Trail(t, o), o.shared.count, u, c.threads[u])
  {
    if o.event.Some? {
      EndsStays(c.log, c.shared.count, u, c.threads[u], Entry(t, o.event.value), o.shared.count);
    } else {
      assert c.log + Trail(t, o) == c.log;
    }
  }

  lemma StartsFresh(log: Log, count: nat, t: nat)
    requires forall x :: x in log ==> x.thread < t
    ensures Ends(log, count, t, Thread(Watch, WatchRegister))
  {
  }

  lemma InvokeKeepsCountdown(c: Client, op: Operation)
    requires CountdownLogged(c) && Callable(op, c.shared)
    ensures CountdownLogged(Perform(c, Invoke(op)))
  {
    PastStays(c.log, Entry(|c.threads|, Invoked(op)));
  }

  lemma InvokeKeepsEnds(c: Client, op: Operation)
    requires Inv(c) && AllEnd(c) && Callable(op, c.shared)
    ensures AllEnd(Perform(c, Invoke(op)))
  {
    var c', t := Perform(c, Invoke(op)), |c.threads|;
    InvokeKeepsCountdown(c, op);
    FreshEnds(c, op);
    hide Ends, CountdownLogged, ThreadInv, Lawful;
    forall u | 0 <= u < t ensures Ends(c'.log, c'.shared.count, u, c'.threads[u]) {
      EndsStays(c.log, c.shared.count, u, c.threads[u], Entry(t, Invoked(op)), c.shared.count);
    }
  }

  /** A new thread has stored nothing. */
  lemma FreshEnds(c: Client, op: Operation)
    requires Inv(c) && Callable(op, c.shared)
    ensures Ends(c.log + [Entry(|c.threads|, Invoked(op))], c.shared.count, |c.threads|, Thread(op, Entrance(op)))
  {
    hide ThreadInv, Lawful;
    var log := c.log + [Entry(|c.threads|, Invoked(op))];
    assert forall x :: x in log && x.thread == |c.threads| ==> !x.event.Stored?;
  }

  lemma {:induction false} EndsAlways(schedule: seq<Action>)
    ensures AllEnd(After(schedule))
  {
    if schedule != [] {
      var a, init := schedule[|schedule| - 1], schedule[..|schedule| - 1];
      EndsAlways(init);
      LogsAreLawful(init);
      var c := After(init);
      assert After(schedule) == Perform(c, a);
      hide After, AllEnd, Inv, Move;
      match a
      case Invoke(op) => if Callable(op, c.shared) { InvokeKeepsEnds(c, op); }
      case Advance(t) => if t < |c.threads| { MoveKeepsEnds(c, t, false); }
      case Expire(t) => if t < |c.threads| { MoveKeepsEnds(c, t, true); }
    }
  }

  // Handlers that have ended.

  lemma EndedThread(schedule: seq<Action>, t: nat, op: Operation)
    requires t < |After(schedule).threads| && After(schedule).threads[t] == Thread(op, Finished)
    ensures Ends(After(schedule).log, After(schedule).shared.count, t, Thread(op, Finished))
    ensures Lawful(After(schedule).log) && After(schedule).shared.state == StateOf(After(schedule).log)
  {
    EndsAlways(schedule);
    LogsAreLawful(schedule);
  }

  lemma FailedIsTold(schedule: seq<Action>, t: nat, cause: Cause)
    requires cause == TimedOut || cause == SocketFault
    requires Told(After(schedule).log, t, ConnectionFailure(cause))
    ensures FailedBy(After(schedule).log, t)
  {
    var log := After(schedule).log;
    var i: nat :| i < |log| && log[i] == Entry(t, Notified(ConnectionFailure(cause)));
    CallbacksAreCaused(schedule, i);
    hide After;
    assert forall x :: x in log[..i] ==> x in log;
  }

  /**
   The watch ends only after a login reply or when the client is closed or failed, and it tells the listener of the
   timeout exactly if it has failed the client itself.
   */
  lemma WatchHasEnded(schedule: seq<Action>, t: nat)
    requires t < |After(schedule).threads| && After(schedule).threads[t] == Thread(Watch, Finished)
    ensures
      var c := After(schedule);
      && (c.shared.count == 0 || c.shared.state == DISCONNECTED || c.shared.state == FAILED)
      && (FailedBy(c.log, t) <==> Told(c.log, t, ConnectionFailure(TimedOut)))
  {
    var c := After(schedule);
    EndedThread(schedule, t, Watch);
    hide After, Told, FailedBy, Over, Lawful;
    if Over(c.log) {
      OverIsOver(c.log);
    }
    if Told(c.log, t, ConnectionFailure(TimedOut)) {
      FailedIsTold(schedule, t, TimedOut);
    }
  }

  /**
   When the handler of a socket error has ended the client is logged in, closed or failed, and the listener has been
   told of the fault exactly if the handler has failed the client itself.
   */
  lemma ErrorHasEnded(schedule: seq<Action>, t: nat)
    requires t < |After(schedule).threads| && After(schedule).threads[t] == Thread(SocketError, Finished)
    ensures
      var c := After(schedule);
      && (c.shared.state == LOGGED_IN || c.shared.state == DISCONNECTED || c.shared.state == FAILED)
      && (FailedBy(c.log, t) <==> Told(c.log, t, ConnectionFailure(SocketFault)))
  {
    var c := After(schedule);
    EndedThread(schedule, t, SocketError);
    hide After, Told, FailedBy, Over, Entered, Lawful;
    StateRange(c.log);
    if Over(c.log) {
      OverIsOver(c.log);
    } else {
      EnteredIsKept(c.log, LOGGED_IN);
    }
    if Told(c.log, t, ConnectionFailure(SocketFault)) {
      FailedIsTold(schedule, t, SocketFault);
    }
  }

  /**
   The handler of a closed socket has told of a disconnection or of a failure, unless the client had failed before.
   */
  lemma ClosedHasEnded(schedule: seq<Action>, t: nat)
    requires t < |After(schedule).threads| && After(schedule).threads[t] == Thread(SocketClosed, Finished)
    ensures
      var log := After(schedule).log;
      Told(log, t, Disconnect) || Told(log, t, ConnectionFailure(SocketLost)) || Entered(log, FAILED)
  {
    EndedThread(schedule, t, SocketClosed);
  }

  lemma OnlyDelivery(before: Log, log: Log, t: nat, callback: Callback, dataType: int)
    requires Caused(before, t, callback) && !AcceptedBy(log, t) && !FailedBy(log, t)
    requires forall x :: x in before ==> x in log
    requires forall op :: Entry(t, Invoked(op)) in log ==> op == MessageReceived(OtherMessage(dataType))
    ensures callback == Delivery(dataType) && dataType in {3, 4, 5, 6, 7, 8, 9, 11}
  {
    hide NoOutcome, Happened, Entered;
  }

  /** The handler of a message that is no login reply tells the listener of nothing but that message. */
  lemma OthersOnlyDeliver(schedule: seq<Action>, t: nat, dataType: int)
    requires t < |After(schedule).threads|
    requires After(schedule).threads[t] == Thread(MessageReceived(OtherMessage(dataType)), Finished)
    ensures
      forall callback :: Entry(t, Notified(callback)) in After(schedule).log ==>
        callback == Delivery(dataType) && dataType in {3, 4, 5, 6, 7, 8, 9, 11}
  {
    var log := After(schedule).log;
    EndedThread(schedule, t, MessageReceived(OtherMessage(dataType)));
    LogsAreLawful(schedule);
    assert !AcceptedBy(log, t) && !FailedBy(log, t);
    assert forall op :: Entry(t, Invoked(op)) in log ==> op == MessageReceived(OtherMessage(dataType));
    forall callback | Entry(t, Notified(callback)) in log
      ensures callback == Delivery(dataType) && dataType in {3, 4, 5, 6, 7, 8, 9, 11}
    {
      var i: nat :| i < |log| && log[i] == Entry(t, Notified(callback));
      LawfulAt(log, i);
      assert Caused(log[..i], t, callback);
      hide *;
      assert forall x :: x in log[..i] ==> x in log;
      OnlyDelivery(log[..i], log, t, callback, dataType);
    }
  }

  // Clients at rest.

  /** Every thread has ended. */
  ghost predicate AtRest(c: Client) {
    forall th :: th in c.threads ==> th.pc == Finished
  }

  /** The listener has been told of no success, no failure and no disconnection. */
  ghost predicate Silent(log: Log) {
    forall x :: x in log && x.event.Notified? ==> x.event.callback.Delivery?
  }

  /** The thread's reply got past the countdown and swapped nothing: the client was not `LOGGING_IN`. */
  ghost predicate Wasted(log: Log, t: nat) {
    Entry(t, Signalled) in log && !StoredBy(log, t)
  }

  /** The thread of an entry of the log, in a client at rest. */
  lemma RestingThread(schedule: seq<Action>, x: Entry) returns (t: nat)
    requires AtRest(After(schedule)) && x in After(schedule).log
    ensures var c := After(schedule); t == x.thread && t < |c.threads| && c.threads[t].pc == Finished
    ensures var c := After(schedule); Ends(c.log, c.shared.count, t, c.threads[t])
    ensures x.event.Invoked? ==> After(schedule).threads[t].op == x.event.op
  {
    LogsAreLawful(schedule);
    EndsAlways(schedule);
    t := x.thread;
    assert After(schedule).threads[t] in After(schedule).threads;
  }

  /** In a client at rest whoever has logged the client in or failed it has said so, and so has every closed socket. */
  lemma RestingHasTold(schedule: seq<Action>, x: Entry)
    requires AtRest(After(schedule)) && Silent(After(schedule).log) && x in After(schedule).log
    ensures x.event.Stored? ==> x.event.now != LOGGED_IN && x.event.now != FAILED
    ensures x.event == Invoked(SocketClosed) ==> Entered(After(schedule).log, FAILED)
  {
    var log := After(schedule).log;
    hide After;
    var t := RestingThread(schedule, x);
    if x.event.Stored? {
      assert x.event.now == LOGGED_IN ==> AcceptedBy(log, t);
      assert x.event.now == FAILED ==> FailedBy(log, t);
    }
  }

  lemma ToldHasCause(log: Log)
    requires Lawful(log) && !Silent(log)
    ensures Entered(log, LOGGED_IN) || Entered(log, FAILED) || Happened(log, Invoked(SocketClosed))
  {
    var x :| x in log && x.event.Notified? && !x.event.callback.Delivery?;
    var i: nat :| i < |log| && log[i] == x;
    LawfulAt(log, i);
    assert Caused(log[..i], x.thread, x.event.callback);
    hide Lawful, Justified;
    assert forall y :: y in log[..i] ==> y in log;
  }

  /**
   The listener of a client at rest has been told nothing exactly if the client has neither been logged in nor failed
   and its socket has not closed.
   */
  lemma SilenceExactly(schedule: seq<Action>)
    requires AtRest(After(schedule))
    ensures
      var log := After(schedule).log;
      Silent(log) <==> !Entered(log, LOGGED_IN) && !Entered(log, FAILED) && !Happened(log, Invoked(SocketClosed))
  {
    var log := After(schedule).log;
    LogsAreLawful(schedule);
    hide After, Inv, Lawful, AtRest;
    if Silent(log) {
      forall x | x in log
        ensures x.event.Stored? ==> x.event.now != LOGGED_IN && x.event.now != FAILED
        ensures x.event == Invoked(SocketClosed) ==> Entered(log, FAILED)
      {
        RestingHasTold(schedule, x);
      }
    } else {
      ToldHasCause(log);
    }
  }

  /**
   A client at rest that has been connected without its listener being told anything has been closed by a user, or a
   login reply has been used up, and has thrown, while the client was not `LOGGING_IN`.
   */
  lemma SilenceExplained(schedule: seq<Action>)
    requires AtRest(After(schedule)) && Happened(After(schedule).log, Started) && Silent(After(schedule).log)
    ensures
      var log := After(schedule).log;
      || (Entered(log, DISCONNECTED) && Happened(log, Invoked(Close)))
      || exists t :: Wasted(log, t) && Entry(t, Threw) in log
  {
    var c := After(schedule);
    WatchAlways(schedule);
    SilenceExactly(schedule);
    hide After, Silent;
    if Entered(c.log, DISCONNECTED) {
      LogsAreLawful(schedule);
      DisconnectedIsOwed(c.log);
    } else {
      hide Entered, AtRest;
      var w :| 0 <= w < |c.threads| && c.threads[w].op == Watch;
      ReplyWasWasted(schedule, w);
    }
  }

  /** If the watch of a client at rest has ended although nothing was entered, a reply has been used up in vain. */
  lemma ReplyWasWasted(schedule: seq<Action>, w: nat)
    requires AtRest(After(schedule)) && w < |After(schedule).threads| && After(schedule).threads[w].op == Watch
    requires var log := After(schedule).log; !Over(log) && !Entered(log, LOGGED_IN) && Silent(log)
    ensures exists t :: Wasted(After(schedule).log, t) && Entry(t, Threw) in After(schedule).log
  {
    var c := After(schedule);
    EndsAlways(schedule);
    hide After;
    assert c.threads[w] in c.threads;
    assert Ends(c.log, c.shared.count, w, c.threads[w]);
    var x :| x in c.log && x.event == Signalled;
    var t := RestingThread(schedule, x);
    assert !AcceptedBy(c.log, t) && !FailedBy(c.log, t);
    assert Wasted(c.log, t) && Entry(t, Threw) in c.log;
  }
}
