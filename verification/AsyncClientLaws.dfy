/**
 The law of the client's log: what must already have happened before each event. `Justified` says it per event,
 `Lawful` for a whole log, and `LogsAreLawful` proves it of every schedule.
 */
module AsyncClientLaws {
  import opened Results
  import opened ConnectionState
  import opened AsyncClientModel

  type Log = seq<Entry>

  /** The value of `state` that a log leads to. */
  function StateOf(log: Log): int {
    if log == [] then NOT_CONNECTED
    else
      var last := log[|log| - 1].event;
      if last.Stored? then last.now else StateOf(log[..|log| - 1])
  }

  ghost predicate Happened(log: Log, event: Event) {
    exists x :: x in log && x.event == event
  }

  /** The state was at some time set to the given value. */
  ghost predicate Entered(log: Log, value: int) {
    exists x :: x in log && x.event.Stored? && x.event.now == value
  }

  /** The client was closed or has failed. */
  ghost predicate Over(log: Log) {
    Entered(log, DISCONNECTED) || Entered(log, FAILED)
  }

  /** `DISCONNECTED` written over `FAILED`: the only store that lowers the state. */
  predicate IsDrop(event: Event) {
    event == Stored(FAILED, DISCONNECTED)
  }

  /** The outcome of a login as told to the listener: accepted, or refused by the server. */
  predicate IsVerdict(event: Event) {
    event == Notified(ConnectionSuccess) || event == Notified(ConnectionFailure(LoginRefused))
  }

  /** `OnConnectionFailure`, for whatever reason. */
  predicate IsFailure(event: Event) {
    event.Notified? && event.callback.ConnectionFailure?
  }

  /** The thread has made no close check, no drop, and has told the listener of no success and of no failure. */
  ghost predicate NoCheck(log: Log, t: nat) {
    forall x :: x in log && x.thread == t ==> !x.event.Checked?
  }

  ghost predicate NoDrop(log: Log, t: nat) {
    forall x :: x in log && x.thread == t ==> !IsDrop(x.event)
  }

  ghost predicate NoOutcome(log: Log, t: nat) {
    forall x :: x in log && x.thread == t ==> !IsVerdict(x.event) && !IsFailure(x.event)
  }

  /** The thread has set the state to `FAILED`. */
  ghost predicate FailedBy(log: Log, t: nat) {
    exists x :: x in log && x.thread == t && x.event.Stored? && x.event.now == FAILED
  }

  /** What has led a thread to call the listener. */
  ghost predicate Caused(before: Log, t: nat, callback: Callback) {
    match callback
    case ConnectionSuccess =>
      Entry(t, Signalled) in before && Entry(t, Stored(LOGGING_IN, LOGGED_IN)) in before && NoOutcome(before, t)
    case ConnectionFailure(LoginRefused) =>
      && Entry(t, Signalled) in before && Entry(t, Stored(LOGGING_IN, FAILED)) in before && NoOutcome(before, t)
      && Entry(t, Invoked(MessageReceived(ConnectionAck(false)))) in before
    case ConnectionFailure(SocketFault) =>
      Entry(t, Invoked(SocketError)) in before && FailedBy(before, t) && NoOutcome(before, t)
    case ConnectionFailure(SocketLost) => Entry(t, Invoked(SocketClosed)) in before && NoOutcome(before, t)
    case ConnectionFailure(TimedOut) => FailedBy(before, t) && NoOutcome(before, t)
    case Disconnect =>
      && Entry(t, Invoked(SocketClosed)) in before
      && (Happened(before, Invoked(Close)) || Entered(before, LOGGED_IN))
    case Delivery(dataType) =>
      Delivered(dataType) && Entry(t, Invoked(MessageReceived(OtherMessage(dataType)))) in before
  }

  /** The thread is in a close whose check saw something other than `FAILED`. */
  ghost predicate SawOpen(log: Log, t: nat) {
    exists x :: x in log && x.thread == t && x.event.Checked? && x.event.seen != FAILED
  }

  /** The thread is that of a call of `Close`, of a socket error or of a refusal. */
  ghost predicate MayClose(log: Log, t: nat) {
    || Entry(t, Invoked(Close)) in log
    || Entry(t, Invoked(SocketError)) in log
    || Entry(t, Invoked(MessageReceived(ConnectionAck(false)))) in log
  }

  ghost predicate Justified(before: Log, x: Entry) {
    var t := x.thread;
    match x.event
    case Invoked(op) => forall y :: y in before ==> y.thread != t
    case Stored(was, now) =>
      && was == StateOf(before)
      && (now == was + 1 <= LOGGED_IN || now == DISCONNECTED || now == FAILED)
      && (now == INITIALIZING ==> Entry(t, Invoked(Connect)) in before)
      && (now == LOGGING_IN ==> Entry(t, Sent(Login)) in before)
      && (now == LOGGED_IN ==>
            Entry(t, Invoked(MessageReceived(ConnectionAck(true)))) in before && Entry(t, Signalled) in before)
      && (now == DISCONNECTED ==> was == LOGGED_IN || (SawOpen(before, t) && Happened(before, Invoked(Close))))
      && (IsDrop(x.event) ==> NoDrop(before, t))
    case Checked(seen) => seen == StateOf(before) && NoCheck(before, t)
    case Signalled => !Happened(before, Signalled)
    case Sent(frame) =>
      if frame.Login?
      then Entry(t, Invoked(SocketOpened)) in before && x !in before
      else
        && frame.headerType == frame.bodyType
        && Serializable(frame.bodyType)
        && Entry(t, Invoked(SendMessage(frame.headerType, frame.bodyType))) in before
        && Entered(before, LOGGED_IN)
    case Called(call) => call.CloseCall? ==> MayClose(before, t)
    case Notified(callback) => Caused(before, t, callback)
    case Started => Entry(t, Stored(NOT_CONNECTED, INITIALIZING)) in before && x !in before
    case Threw => Entry(t, Invoked(Connect)) in before ==> StateOf(before) != NOT_CONNECTED
  }

  ghost predicate Lawful(log: Log) {
    log == [] || (Lawful(log[..|log| - 1]) && Justified(log[..|log| - 1], log[|log| - 1]))
  }

  lemma StateOfAppend(log: Log, x: Entry)
    ensures StateOf(log + [x]) == if x.event.Stored? then x.event.now else StateOf(log)
  {
    assert (log + [x])[..|log|] == log;
  }

  lemma LawfulAppend(log: Log, x: Entry)
    requires Lawful(log) && Justified(log, x)
    ensures Lawful(log + [x])
  {
    assert (log + [x])[..|log|] == log;
  }

  lemma {:induction false} LawfulPrefix(log: Log, i: nat)
    requires Lawful(log) && i <= |log|
    ensures Lawful(log[..i])
  {
    if i == |log| {
      assert log[..i] == log;
    } else {
      LawfulPrefix(log[..|log| - 1], i);
      assert log[..|log| - 1][..i] == log[..i];
    }
  }

  lemma {:induction false} LawfulAt(log: Log, i: nat)
    requires Lawful(log) && i < |log|
    ensures Lawful(log[..i]) && Justified(log[..i], log[i])
  {
    LawfulPrefix(log, i);
    LawfulPrefix(log, i + 1);
    assert log[..i + 1][..i] == log[..i];
  }

  // What follows from the law alone.

  lemma {:induction false} StateRange(log: Log)
    requires Lawful(log)
    ensures NOT_CONNECTED <= StateOf(log) <= FAILED
  {
    if log != [] {
      StateRange(log[..|log| - 1]);
    }
  }

  /** Once entered, `FAILED` is left only through a drop, and a drop is the work of a user's close. */
  lemma {:induction false} FailedLeftByClose(log: Log)
    requires Lawful(log) && Entered(log, FAILED) && StateOf(log) != FAILED
    ensures Happened(log, Invoked(Close))
  {
    var init, last := log[..|log| - 1], log[|log| - 1];
    assert log == init + [last];
    if last.event.Stored? && StateOf(init) == FAILED {
      assert last.event.now == DISCONNECTED;
      assert Happened(init, Invoked(Close));
    } else {
      assert Entered(init, FAILED);
      FailedLeftByClose(init);
    }
    var x :| x in init && x.event == Invoked(Close);
    assert x in log;
  }

  /** In state `LOGGING_IN` the login frame has been sent. */
  lemma {:induction false} LoggingInHasSent(log: Log)
    requires Lawful(log) && StateOf(log) == LOGGING_IN
    ensures Happened(log, Sent(Login))
  {
    var init, last := log[..|log| - 1], log[|log| - 1];
    assert log == init + [last];
    if last.event.Stored? {
      assert Entry(last.thread, Sent(Login)) in log;
    } else {
      LoggingInHasSent(init);
      var x :| x in init && x.event == Sent(Login);
      assert x in log;
    }
  }

  lemma {:induction false} StateWasEntered(log: Log)
    requires Lawful(log) && StateOf(log) != NOT_CONNECTED
    ensures Entered(log, StateOf(log))
  {
    var init, last := log[..|log| - 1], log[|log| - 1];
    assert log == init + [last];
    if last.event.Stored? {
      assert last in log;
    } else {
      StateWasEntered(init);
      var x :| x in init && x.event.Stored? && x.event.now == StateOf(init);
      assert x in log;
    }
  }

  /** `DISCONNECTED` is owed to a user's close or follows a login. */
  lemma {:induction false} DisconnectedIsOwed(log: Log)
    requires Lawful(log) && Entered(log, DISCONNECTED)
    ensures Happened(log, Invoked(Close)) || Entered(log, LOGGED_IN)
  {
    var init, last := log[..|log| - 1], log[|log| - 1];
    assert log == init + [last];
    if last.event.Stored? && last.event.now == DISCONNECTED {
      if last.event.was == LOGGED_IN {
        StateWasEntered(init);
      }
    } else {
      assert Entered(init, DISCONNECTED);
      DisconnectedIsOwed(init);
    }
    if Happened(init, Invoked(Close)) {
      var x :| x in init && x.event == Invoked(Close);
      assert x in log;
    } else {
      var x :| x in init && x.event.Stored? && x.event.now == LOGGED_IN;
      assert x in log;
    }
  }

  // The invariant of reachable clients.

  ghost predicate ConnectKnows(log: Log, t: nat, pc: Counter) {
    match pc
    case ConnectCas => Entry(t, Started) !in log
    case ConnectStart => Entry(t, Stored(NOT_CONNECTED, INITIALIZING)) in log && Entry(t, Started) !in log
    case Finished => Entry(t, Started) in log || Entry(t, Threw) in log
    case _ => false
  }

  ghost predicate CloseKnows(log: Log, t: nat, pc: Counter) {
    match pc
    case CloseRead(_) => NoCheck(log, t) && NoDrop(log, t)
    case CloseWrite(_) => SawOpen(log, t) && Happened(log, Invoked(Close)) && NoDrop(log, t)
    case CloseExchange(_) => Over(log)
    case CloseSocket(_) => Over(log)
    case _ => false
  }

  ghost predicate OpenedKnows(log: Log, t: nat, pc: Counter) {
    match pc
    case OpenedLogin => Entry(t, Sent(Login)) in log
    case Finished => true
    case _ => Entry(t, Sent(Login)) !in log
  }

  ghost predicate AckKnows(log: Log, t: nat, ok: bool, pc: Counter) {
    match pc
    case AckSignal => NoCheck(log, t) && NoDrop(log, t) && NoOutcome(log, t)
    case AckAccept => ok && Entry(t, Signalled) in log && NoOutcome(log, t)
    case AckReject =>
      !ok && Entry(t, Signalled) in log && NoOutcome(log, t) && NoCheck(log, t) && NoDrop(log, t)
    case AckSuccess =>
      Entry(t, Signalled) in log && NoOutcome(log, t) && Entry(t, Stored(LOGGING_IN, LOGGED_IN)) in log
    case AckRefused => WasRefused(log, t, ok)
    case AckRecheck => true
    case Finished => true
    case _ => CloseKnows(log, t, pc) && pc.nested && WasRefused(log, t, ok)
  }

  /** The thread's reply refused the login, and it has moved the state to `FAILED`. */
  ghost predicate WasRefused(log: Log, t: nat, ok: bool) {
    !ok && Entry(t, Signalled) in log && NoOutcome(log, t) && Entry(t, Stored(LOGGING_IN, FAILED)) in log
  }

  /** What a thread at a given program counter knows of the past. */
  ghost predicate Knows(log: Log, t: nat, th: Thread) {
    match th.op
    case Connect => ConnectKnows(log, t, th.pc)
    case Close => if th.pc == Finished then Over(log) else CloseKnows(log, t, th.pc) && !th.pc.nested
    case SendMessage(headerType, bodyType) =>
      th.pc == SendFrame ==> headerType == bodyType && Serializable(bodyType) && Entered(log, LOGGED_IN)
    case SocketOpened => OpenedKnows(log, t, th.pc)
    case SocketError => (th.pc != Finished ==> NoOutcome(log, t)) && (th.pc == ErrorReport ==> FailedBy(log, t))
    case SocketClosed =>
      && (th.pc != Finished ==> NoOutcome(log, t))
      && (th.pc == ClosedDisconnect ==> Happened(log, Invoked(Close)) || Entered(log, LOGGED_IN))
    case MessageReceived(m) => m.ConnectionAck? ==> AckKnows(log, t, m.ok, th.pc)
    case Watch => (th.pc != Finished ==> NoOutcome(log, t)) && (th.pc == WatchReport ==> FailedBy(log, t))
  }

  // Writing `Knows(..) == true` here, and the like for `Justified` below, keeps the verifier from splitting a
  // conclusion into one proof obligation for each of their cases.
  ghost predicate ThreadInv(log: Log, t: nat, th: Thread) {
    && (th.op != Watch ==> Entry(t, Invoked(th.op)) in log)
    && Knows(log, t, th) == true
  }

  ghost predicate Inv(c: Client) {
    && Lawful(c.log)
    && c.shared.state == StateOf(c.log)
    && c.shared.count <= 1
    && (c.shared.count == 1 ==> !Happened(c.log, Signalled))
    && (forall x :: x in c.log ==> x.thread < |c.threads|)
    && (forall x :: x in c.log && x.event.Invoked? ==> c.threads[x.thread].op == x.event.op)
    && (forall t :: 0 <= t < |c.threads| ==> ThreadInv(c.log, t, c.threads[t]))
  }

  /** What other threads do takes nothing away from what a thread knows. */
  lemma KnowsStays(log: Log, t: nat, th: Thread, x: Entry)
    requires ThreadInv(log, t, th) && x.thread != t
    ensures ThreadInv(log + [x], t, th)
  {
    assert forall y :: y in log ==> y in log + [x];
    assert forall y :: y in log + [x] && y.thread == t ==> y in log;
  }

  /** What one thread may rely on: the log's law, what the shared fields say of the log, and what it knows itself. */
  ghost predicate Local(log: Log, sh: Shared, t: nat, th: Thread) {
    && Lawful(log)
    && sh.state == StateOf(log)
    && sh.count <= 1
    && (sh.count == 1 ==> !Happened(log, Signalled))
    && ThreadInv(log, t, th)
    && (forall op :: Entry(t, Invoked(op)) in log ==> op == th.op)
  }

  /**
   The thread's step leaves an event that the log before it justifies, and afterwards the thread knows what its new
   program counter asks of it.
   */
  ghost predicate StepSafe(log: Log, sh: Shared, t: nat, th: Thread, expire: bool) {
    var o := Step(th.op, th.pc, sh, expire);
    && (o.event.Some? ==> Justified(log, Entry(t, o.event.value)) == true)
    && ThreadInv(log + Trail(t, o), t, th.(pc := o.next))
  }

  lemma PastStays(log: Log, x: Entry)
    ensures forall e :: Happened(log, e) ==> Happened(log + [x], e)
    ensures forall v :: Entered(log, v) ==> Entered(log + [x], v)
  {
    forall e | Happened(log, e) ensures Happened(log + [x], e) {
      var y :| y in log && y.event == e;
      assert y in log + [x];
    }
    forall v | Entered(log, v) ensures Entered(log + [x], v) {
      var y :| y in log && y.event.Stored? && y.event.now == v;
      assert y in log + [x];
    }
  }

  lemma ConnectStepSafe(log: Log, sh: Shared, t: nat, th: Thread, expire: bool)
    requires Local(log, sh, t, th)
    requires th.op == Connect
    ensures StepSafe(log, sh, t, th, expire)
  {
  }

  lemma WatchStepSafe(log: Log, sh: Shared, t: nat, th: Thread, expire: bool)
    requires Local(log, sh, t, th)
    requires th.op == Watch
    ensures StepSafe(log, sh, t, th, expire)
  {
  }

  /** A close, user's or nested, is checked by its first step and stores at most once. */
  lemma CloseStepSafe(log: Log, sh: Shared, t: nat, pc: Counter)
    requires Lawful(log) && sh.state == StateOf(log) && CloseKnows(log, t, pc) && MayClose(log, t)
    requires Happened(log, Invoked(Close)) || Entered(log, FAILED)
    ensures
      var o := CloseStep(pc, sh);
      && (o.event.Some? ==> Justified(log, Entry(t, o.event.value)))
      && (if pc.CloseSocket? then Over(log) else CloseKnows(log + Trail(t, o), t, o.next))
  {
    if pc.CloseRead? {
      var x := Entry(t, Checked(sh.state));
      assert x in log + [x];
      if sh.state == FAILED {
        StateWasEntered(log);
      } else if Entered(log, FAILED) {
        FailedLeftByClose(log);
      }
      PastStays(log, x);
    } else if pc.CloseWrite? {
      var x := Entry(t, Stored(sh.state, DISCONNECTED));
      assert x in log + [x];
    }
  }

  lemma UserCloseSafe(log: Log, sh: Shared, t: nat, th: Thread, expire: bool)
    requires Local(log, sh, t, th)
    requires th.op == Close
    ensures StepSafe(log, sh, t, th, expire)
  {
    if th.pc != Finished {
      assert Entry(t, Invoked(Close)) in log;
      CloseStepSafe(log, sh, t, th.pc);
    }
  }

  lemma NestedCloseSafe(log: Log, sh: Shared, t: nat, th: Thread, expire: bool)
    requires Local(log, sh, t, th)
    requires th.op == MessageReceived(ConnectionAck(false)) && CloseKnows(log, t, th.pc)
    ensures StepSafe(log, sh, t, th, expire)
  {
    assert Entry(t, Stored(LOGGING_IN, FAILED)) in log;
    CloseStepSafe(log, sh, t, th.pc);
  }

  lemma SendStepSafe(log: Log, sh: Shared, t: nat, th: Thread, expire: bool)
    requires Local(log, sh, t, th)
    requires th.op.SendMessage?
    ensures StepSafe(log, sh, t, th, expire)
  {
    if sh.state == LOGGED_IN {
      StateWasEntered(log);
    }
  }

  lemma OpenedStepSafe(log: Log, sh: Shared, t: nat, th: Thread, expire: bool)
    requires Local(log, sh, t, th)
    requires th.op.SocketOpened?
    ensures StepSafe(log, sh, t, th, expire)
  {
  }

  lemma ErrorStepSafe(log: Log, sh: Shared, t: nat, th: Thread, expire: bool)
    requires Local(log, sh, t, th)
    requires th.op.SocketError?
    ensures StepSafe(log, sh, t, th, expire)
  {
  }

  lemma ClosedToldSafe(log: Log, sh: Shared, t: nat, th: Thread, expire: bool)
    requires Local(log, sh, t, th)
    requires th.op.SocketClosed? && (th.pc == ClosedDisconnect || th.pc == ClosedFailure)
    ensures StepSafe(log, sh, t, th, expire)
  {
  }

  /** A client found closed was closed by a user or had been logged in. */
  lemma ClosedFoundSafe(log: Log, sh: Shared, t: nat, th: Thread, expire: bool)
    requires Local(log, sh, t, th)
    requires th.op.SocketClosed? && th.pc == ClosedRead
    ensures StepSafe(log, sh, t, th, expire)
  {
    if sh.state == DISCONNECTED {
      StateWasEntered(log);
      DisconnectedIsOwed(log);
    }
    assert log + [] == log;
  }

  lemma ClosedSwapSafe(log: Log, sh: Shared, t: nat, th: Thread, expire: bool)
    requires Local(log, sh, t, th)
    requires th.op.SocketClosed? && th.pc == ClosedCas
    ensures StepSafe(log, sh, t, th, expire)
  {
    if sh.state == LOGGED_IN {
      StateWasEntered(log);
      PastStays(log, Entry(t, Stored(LOGGED_IN, DISCONNECTED)));
    }
  }

  lemma ClosedStepSafe(log: Log, sh: Shared, t: nat, th: Thread, expire: bool)
    requires Local(log, sh, t, th)
    requires th.op.SocketClosed?
    ensures StepSafe(log, sh, t, th, expire)
  {
    if th.pc == ClosedDisconnect || th.pc == ClosedFailure {
      hide *;
      ClosedToldSafe(log, sh, t, th, expire);
    } else if th.pc == ClosedRead {
      hide *;
      ClosedFoundSafe(log, sh, t, th, expire);
    } else if th.pc == ClosedCas {
      hide *;
      ClosedSwapSafe(log, sh, t, th, expire);
    }
  }

  lemma DispatchStepSafe(log: Log, sh: Shared, t: nat, th: Thread, expire: bool)
    requires Local(log, sh, t, th)
    requires th.op.MessageReceived? && !th.op.message.ConnectionAck?
    ensures StepSafe(log, sh, t, th, expire)
  {
  }

  lemma AckSignalSafe(log: Log, sh: Shared, t: nat, th: Thread, expire: bool)
    requires Local(log, sh, t, th)
    requires th.op.MessageReceived? && th.op.message.ConnectionAck? && th.pc == AckSignal
    ensures StepSafe(log, sh, t, th, expire)
  {
    hide CloseStep;
  }

  lemma AckSwapSafe(log: Log, sh: Shared, t: nat, th: Thread, expire: bool)
    requires Local(log, sh, t, th)
    requires th.op.MessageReceived? && th.op.message.ConnectionAck? && (th.pc == AckAccept || th.pc == AckReject)
    ensures StepSafe(log, sh, t, th, expire)
  {
    hide CloseStep;
  }

  lemma AckToldSafe(log: Log, sh: Shared, t: nat, th: Thread, expire: bool)
    requires Local(log, sh, t, th)
    requires th.op.MessageReceived? && th.op.message.ConnectionAck? && (th.pc == AckSuccess || th.pc == AckRefused)
    ensures StepSafe(log, sh, t, th, expire)
  {
    hide CloseStep;
  }

  lemma AckEndSafe(log: Log, sh: Shared, t: nat, th: Thread, expire: bool)
    requires Local(log, sh, t, th)
    requires th.op.MessageReceived? && th.op.message.ConnectionAck? && (th.pc == AckRecheck || th.pc == Finished)
    ensures StepSafe(log, sh, t, th, expire)
  {
  }

  lemma AckStepSafe(log: Log, sh: Shared, t: nat, th: Thread, expire: bool)
    requires Local(log, sh, t, th)
    requires th.op.MessageReceived?
    ensures StepSafe(log, sh, t, th, expire)
  {
    if !th.op.message.ConnectionAck? {
      DispatchStepSafe(log, sh, t, th, expire);
    } else if th.pc == AckSignal {
      AckSignalSafe(log, sh, t, th, expire);
    } else if th.pc == AckAccept || th.pc == AckReject {
      AckSwapSafe(log, sh, t, th, expire);
    } else if th.pc == AckSuccess || th.pc == AckRefused {
      AckToldSafe(log, sh, t, th, expire);
    } else if th.pc == AckRecheck || th.pc == Finished {
      AckEndSafe(log, sh, t, th, expire);
    } else {
      assert CloseKnows(log, t, th.pc);
      NestedCloseSafe(log, sh, t, th, expire);
    }
  }

  lemma EveryStepSafe(log: Log, sh: Shared, t: nat, th: Thread, expire: bool)
    requires Local(log, sh, t, th)
    ensures StepSafe(log, sh, t, th, expire)
  {
    match th.op
    case Connect => ConnectStepSafe(log, sh, t, th, expire);
    case Watch => WatchStepSafe(log, sh, t, th, expire);
    case Close => UserCloseSafe(log, sh, t, th, expire);
    case SendMessage(_, _) => SendStepSafe(log, sh, t, th, expire);
    case SocketOpened => OpenedStepSafe(log, sh, t, th, expire);
    case SocketError => ErrorStepSafe(log, sh, t, th, expire);
    case SocketClosed => ClosedStepSafe(log, sh, t, th, expire);
    case MessageReceived(_) => AckStepSafe(log, sh, t, th, expire);
  }

  /** What a step does to the fields that the countdown's part of the invariant is about. */
  predicate Framed(sh: Shared, o: Outcome) {
    && o.shared.count <= sh.count
    && (o.shared.count == 1 ==> o.event != Some(Signalled))
    && (o.event.Some? ==> !o.event.value.Invoked?)
    && o.shared.state == (if o.event.Some? && o.event.value.Stored? then o.event.value.now else sh.state)
  }

  lemma StepFrame(op: Operation, pc: Counter, sh: Shared, expire: bool)
    requires sh.count <= 1
    ensures Framed(sh, Step(op, pc, sh, expire))
  {
    if op.MessageReceived? && op.message.ConnectionAck? {
      AckFrame(op.message.ok, pc, sh);
      hide AckStep;
    } else if op.SocketError? || op.SocketClosed? || op.SocketOpened? {
      SocketFrame(pc, sh);
      hide ErrorStep, ClosedStep, OpenedStep;
    } else {
      hide AckStep, ErrorStep, ClosedStep, OpenedStep;
    }
  }

  lemma AckFrame(ok: bool, pc: Counter, sh: Shared)
    requires sh.count <= 1
    ensures Framed(sh, AckStep(ok, pc, sh))
  {
  }

  lemma SocketFrame(pc: Counter, sh: Shared)
    ensures Framed(sh, ErrorStep(pc, sh)) && Framed(sh, ClosedStep(pc, sh)) && Framed(sh, OpenedStep(pc, sh))
  {
  }

  /** What a step leaves of the log is lawful, and the shared fields still agree with it. */
  lemma MoveKeepsLaw(c: Client, t: nat, expire: bool)
    requires Inv(c) && t < |c.threads|
    ensures
      var c' := Move(c, t, expire);
      && Lawful(c'.log)
      && c'.shared.state == StateOf(c'.log)
      && c'.shared.count <= 1
      && (c'.shared.count == 1 ==> !Happened(c'.log, Signalled))
      && (forall x :: x in c'.log ==> x.thread < |c'.threads|)
      && (forall x :: x in c'.log && x.event.Invoked? ==> x in c.log)
  {
    var th, c' := c.threads[t], Move(c, t, expire);
    var o := Step(th.op, th.pc, c.shared, expire);
    EveryStepSafe(c.log, c.shared, t, th, expire);
    StepFrame(th.op, th.pc, c.shared, expire);
    hide Step, ThreadInv;
    if o.event.Some? {
      LawfulAppend(c.log, Entry(t, o.event.value));
      StateOfAppend(c.log, Entry(t, o.event.value));
    } else {
      assert c'.log == c.log;
    }
  }

  lemma MoveKeepsThreads(c: Client, t: nat, expire: bool, u: nat)
    requires Inv(c) && t < |c.threads| && u < |Move(c, t, expire).threads|
    ensures var c' := Move(c, t, expire); ThreadInv(c'.log, u, c'.threads[u])
  {
    var th, c' := c.threads[t], Move(c, t, expire);
    var o := Step(th.op, th.pc, c.shared, expire);
    if u == t {
      EveryStepSafe(c.log, c.shared, t, th, expire);
    } else if u < |c.threads| {
      hide Step, Knows, Lawful;
      if o.event.Some? {
        KnowsStays(c.log, u, c.threads[u], Entry(t, o.event.value));
      } else {
        assert c'.log == c.log;
      }
    } else {
      hide Step, Lawful;
      assert forall x :: x in c'.log ==> x.thread != u;
    }
  }

  lemma MoveKeepsInv(c: Client, t: nat, expire: bool)
    requires Inv(c) && t < |c.threads|
    ensures Inv(Move(c, t, expire))
  {
    var c' := Move(c, t, expire);
    MoveKeepsLaw(c, t, expire);
    assert forall u :: 0 <= u < |c.threads| ==> c'.threads[u].op == c.threads[u].op;
    hide Step, Lawful, ThreadInv, Move;
    forall u | 0 <= u < |c'.threads| ensures ThreadInv(c'.log, u, c'.threads[u]) {
      MoveKeepsThreads(c, t, expire, u);
    }
  }

  lemma InvokeKeepsInv(c: Client, op: Operation)
    requires Inv(c) && Callable(op, c.shared)
    ensures Inv(Perform(c, Invoke(op)))
  {
    var t := |c.threads|;
    var x := Entry(t, Invoked(op));
    var c' := Perform(c, Invoke(op));
    LawfulAppend(c.log, x);
    StateOfAppend(c.log, x);
    forall u | 0 <= u < t
      ensures ThreadInv(c'.log, u, c'.threads[u])
    {
      KnowsStays(c.log, u, c.threads[u], x);
    }
    NewThread(c, op);
  }

  lemma NewThread(c: Client, op: Operation)
    requires Inv(c) && Callable(op, c.shared)
    ensures
      var t, c' := |c.threads|, Perform(c, Invoke(op));
      ThreadInv(c'.log, t, c'.threads[t])
  {
    var t, c' := |c.threads|, Perform(c, Invoke(op));
    assert forall y :: y in c.log ==> y.thread != t;
    assert Entry(t, Invoked(op)) in c'.log;
  }

  /** Every schedule, whatever the interleaving, leaves a lawful log, and the log leads to the state it ends in. */
  lemma {:induction false} LogsAreLawful(schedule: seq<Action>)
    ensures Inv(After(schedule))
    ensures Lawful(After(schedule).log) && After(schedule).shared.state == StateOf(After(schedule).log)
  {
    if schedule != [] {
      var a := schedule[|schedule| - 1];
      LogsAreLawful(schedule[..|schedule| - 1]);
      var c := After(schedule[..|schedule| - 1]);
      match a
      case Invoke(op) => if Callable(op, c.shared) { InvokeKeepsInv(c, op); }
      case Advance(t) => if t < |c.threads| { MoveKeepsInv(c, t, false); }
      case Expire(t) => if t < |c.threads| { MoveKeepsInv(c, t, true); }
    }
  }
}
