/**
 What each handler does to a client in any reachable state if nothing disturbs it: the whole effect on the shared
 fields and on the log.
 */
module AsyncClientAlone {
  import opened Results
  import opened ConnectionState
  import opened AsyncClientModel
  import opened AsyncClientLaws

  lemma Then(s: seq<Action>, a: Action) returns (s': seq<Action>)
    ensures s' == s + [a] && After(s') == Perform(After(s), a)
  {
    s' := s + [a];
    assert s'[..|s|] == s;
  }

  /** A thread that is no caller of `Connect` takes a step. */
  lemma ThreadSteps(s: seq<Action>, t: nat) returns (s': seq<Action>)
    requires t < |After(s).threads| && After(s).threads[t].op != Connect
    ensures s <= s'
    ensures
      var c := After(s);
      var o := Step(c.threads[t].op, c.threads[t].pc, c.shared, false);
      After(s') == Client(o.shared, c.threads[t := c.threads[t].(pc := o.next)], c.log + Trail(t, o))
  {
    s' := Then(s, Advance(t));
  }

  /** The last thread takes a step. */
  lemma LastSteps(s: seq<Action>, others: seq<Thread>, th: Thread) returns (s': seq<Action>)
    requires After(s).threads == others + [th] && th.op != Connect
    ensures s <= s'
    ensures
      var o := Step(th.op, th.pc, After(s).shared, false);
      After(s') == Client(o.shared, others + [th.(pc := o.next)], After(s).log + Trail(|others|, o))
  {
    s' := Then(s, Advance(|others|));
    assert (others + [th])[|others| := th.(pc := Step(th.op, th.pc, After(s).shared, false).next)]
        == others + [th.(pc := Step(th.op, th.pc, After(s).shared, false).next)];
  }

  /** What a thread has come to after at most `n` steps: its program counter, the shared fields and its log. */
  datatype Course = Course(pc: Counter, shared: Shared, log: Log)

  function Ran(op: Operation, pc: Counter, sh: Shared, t: nat, n: nat): Course
    decreases n
  {
    if n == 0 || pc == Finished then Course(pc, sh, [])
    else
      var o := Step(op, pc, sh, false);
      var rest := Ran(op, o.next, o.shared, t, n - 1);
      rest.(log := Trail(t, o) + rest.log)
  }

  lemma {:induction false} GoesOn(s: seq<Action>, rest: seq<Thread>, th: Thread, n: nat) returns (s': seq<Action>)
    requires After(s).threads == rest + [th] && th.op != Connect
    ensures s <= s'
    ensures
      var r := Ran(th.op, th.pc, After(s).shared, |rest|, n);
      After(s') == Client(r.shared, rest + [th.(pc := r.pc)], After(s).log + r.log)
    decreases n
  {
    hide After, Step, Trail;
    s' := s;
    if n != 0 && th.pc != Finished {
      var o := Step(th.op, th.pc, After(s).shared, false);
      s' := LastSteps(s, rest, th);
      s' := GoesOn(s', rest, th.(pc := o.next), n - 1);
    }
  }

  /** The operation is invoked and its thread takes up to `n` steps, nobody else taking any. */
  lemma RunsAlone(s: seq<Action>, op: Operation, n: nat) returns (s': seq<Action>)
    requires Callable(op, After(s).shared) && op != Connect
    ensures s <= s'
    ensures
      var c, t := After(s), |After(s).threads|;
      var r := Ran(op, Entrance(op), c.shared, t, n);
      After(s') == Client(r.shared, c.threads + [Thread(op, r.pc)], c.log + ([Entry(t, Invoked(op))] + r.log))
  {
    hide After, Step, Ran;
    s' := Then(s, Invoke(op));
    s' := GoesOn(s', After(s).threads, Thread(op, Entrance(op)), n);
  }

  lemma RanGo(op: Operation, pc: Counter, sh: Shared, t: nat, n: nat, next: Counter, after: Shared)
    requires n > 0 && pc != Finished && Step(op, pc, sh, false) == Go(next, after)
    ensures Ran(op, pc, sh, t, n) == Ran(op, next, after, t, n - 1)
  {
    hide Step;
  }

  lemma RanSay(op: Operation, pc: Counter, sh: Shared, t: nat, n: nat, next: Counter, after: Shared, event: Event)
    requires n > 0 && pc != Finished && Step(op, pc, sh, false) == Say(next, after, event)
    ensures
      var rest := Ran(op, next, after, t, n - 1);
      Ran(op, pc, sh, t, n) == rest.(log := [Entry(t, event)] + rest.log)
  {
    hide Step;
  }

  lemma RanEnd(op: Operation, sh: Shared, t: nat, n: nat)
    ensures Ran(op, Finished, sh, t, n) == Course(Finished, sh, [])
  {
  }

  // Close.

  lemma CloseRan(sh: Shared, t: nat)
    ensures
      var failed := sh.state == FAILED;
      Ran(Close, CloseRead(false), sh, t, 4) == Course(
        Finished,
        sh.(state := if failed then FAILED else DISCONNECTED, closed := 1),
        [Entry(t, Checked(sh.state))] + (if failed then [] else [Entry(t, Stored(sh.state, DISCONNECTED))])
        + [Entry(t, Called(CloseCall))])
  {
    hide Ran, ConnectStep, WatchStep, SendStep, OpenedStep, ErrorStep, ClosedStep, AckStep, DispatchStep;
    if sh.state == FAILED {
      RanSay(Close, CloseRead(false), sh, t, 4, CloseExchange(false), sh, Checked(FAILED));
      ClosingRan(sh, t, 3);
    } else {
      RanSay(Close, CloseRead(false), sh, t, 4, CloseWrite(false), sh, Checked(sh.state));
      RanSay(Close, CloseWrite(false), sh, t, 3, CloseExchange(false), sh.(state := DISCONNECTED),
             Stored(sh.state, DISCONNECTED));
      ClosingRan(sh.(state := DISCONNECTED), t, 2);
    }
  }

  /** The last two steps of a close. */
  lemma ClosingRan(sh: Shared, t: nat, n: nat)
    requires n >= 2
    ensures
      Ran(Close, CloseExchange(false), sh, t, n) == Course(Finished, sh.(closed := 1), [Entry(t, Called(CloseCall))])
  {
    hide Ran;
    RanGo(Close, CloseExchange(false), sh, t, n, CloseSocket(false), sh.(closed := 1));
    RanSay(Close, CloseSocket(false), sh.(closed := 1), t, n - 1, Finished, sh.(closed := 1), Called(CloseCall));
    RanEnd(Close, sh.(closed := 1), t, n - 2);
  }

  /** A close that runs undisturbed writes `DISCONNECTED` unless it finds `FAILED`, and closes the socket. */
  function CloseTrail(t: nat, state: int): Log {
    [Entry(t, Invoked(Close)), Entry(t, Checked(state))]
    + (if state == FAILED then [] else [Entry(t, Stored(state, DISCONNECTED))])
    + [Entry(t, Called(CloseCall))]
  }

  lemma ClosedAlone(s: seq<Action>) returns (s': seq<Action>)
    ensures s <= s'
    ensures
      var c := After(s);
      After(s') == Client(
        c.shared.(state := if c.shared.state == FAILED then FAILED else DISCONNECTED, closed := 1),
        c.threads + [Thread(Close, Finished)],
        c.log + CloseTrail(|c.threads|, c.shared.state))
  {
    hide After, Ran;
    var c, t := After(s), |After(s).threads|;
    CloseRan(c.shared, t);
    s' := RunsAlone(s, Close, 4);
    assert [Entry(t, Invoked(Close))] + Ran(Close, CloseRead(false), c.shared, t, 4).log ==
           CloseTrail(t, c.shared.state);
  }

  // A closed socket.

  /** What a socket-closed event does to a client in the given state if nothing disturbs its handler. */
  function ClosedTrail(t: nat, state: int): Log {
    [Entry(t, Invoked(SocketClosed))] +
    if state == DISCONNECTED then [Entry(t, Notified(Disconnect))]
    else if state == LOGGED_IN then [Entry(t, Stored(LOGGED_IN, DISCONNECTED)), Entry(t, Notified(Disconnect))]
    else if state == FAILED then []
    else [Entry(t, Notified(ConnectionFailure(SocketLost)))]
  }

  lemma ClosedRan(sh: Shared, t: nat)
    ensures
      var r := Ran(SocketClosed, ClosedExchange, sh, t, 5);
      && r.pc == Finished
      && r.shared == sh.(state := if sh.state == LOGGED_IN then DISCONNECTED else sh.state, closed := 1)
      && [Entry(t, Invoked(SocketClosed))] + r.log == ClosedTrail(t, sh.state)
  {
    hide Ran, ConnectStep, WatchStep, CloseStep, SendStep, OpenedStep, ErrorStep, AckStep, DispatchStep;
    var after := sh.(closed := 1);
    RanGo(SocketClosed, ClosedExchange, sh, t, 5, ClosedRead, after);
    if sh.state == DISCONNECTED {
      RanGo(SocketClosed, ClosedRead, after, t, 4, ClosedDisconnect, after);
      RanSay(SocketClosed, ClosedDisconnect, after, t, 3, Finished, after, Notified(Disconnect));
      RanEnd(SocketClosed, after, t, 2);
    } else {
      RanGo(SocketClosed, ClosedRead, after, t, 4, ClosedCas, after);
      SwappedRan(after, t);
    }
  }

  /** The rest of the handler from the swap on. */
  lemma SwappedRan(sh: Shared, t: nat)
    requires sh.state != DISCONNECTED
    ensures
      Ran(SocketClosed, ClosedCas, sh, t, 3) == Course(
        Finished,
        sh.(state := if sh.state == LOGGED_IN then DISCONNECTED else sh.state),
        ClosedTrail(t, sh.state)[1..])
  {
    hide Ran, ConnectStep, WatchStep, CloseStep, SendStep, OpenedStep, ErrorStep, AckStep, DispatchStep;
    if sh.state == LOGGED_IN {
      var after := sh.(state := DISCONNECTED);
      RanSay(SocketClosed, ClosedCas, sh, t, 3, ClosedDisconnect, after, Stored(LOGGED_IN, DISCONNECTED));
      RanSay(SocketClosed, ClosedDisconnect, after, t, 2, Finished, after, Notified(Disconnect));
      RanEnd(SocketClosed, after, t, 1);
    } else {
      RanGo(SocketClosed, ClosedCas, sh, t, 3, ClosedReread, sh);
      if sh.state == FAILED {
        RanGo(SocketClosed, ClosedReread, sh, t, 2, Finished, sh);
        RanEnd(SocketClosed, sh, t, 1);
      } else {
        RanGo(SocketClosed, ClosedReread, sh, t, 2, ClosedFailure, sh);
        RanSay(SocketClosed, ClosedFailure, sh, t, 1, Finished, sh, Notified(ConnectionFailure(SocketLost)));
        RanEnd(SocketClosed, sh, t, 0);
      }
    }
  }

  lemma SocketClosedAlone(s: seq<Action>) returns (s': seq<Action>)
    requires After(s).shared.registered
    ensures s <= s'
    ensures
      var c := After(s);
      After(s') == Client(
        c.shared.(state := if c.shared.state == LOGGED_IN then DISCONNECTED else c.shared.state, closed := 1),
        c.threads + [Thread(SocketClosed, Finished)],
        c.log + ClosedTrail(|c.threads|, c.shared.state))
  {
    hide After, Ran, ClosedTrail;
    ClosedRan(After(s).shared, |After(s).threads|);
    s' := RunsAlone(s, SocketClosed, 5);
  }

  // An opened socket.

  /** What a socket-opened event does to a client in the given state if nothing disturbs its handler. */
  function OpenedTrail(t: nat, state: int): Log {
    [Entry(t, Invoked(SocketOpened))] +
    if state == CONNECTING then
      [Entry(t, Stored(CONNECTING, CONNECTED)), Entry(t, Sent(Login)), Entry(t, Stored(CONNECTED, LOGGING_IN))]
    else if state == DISCONNECTED then [Entry(t, Sent(Login))]
    else [Entry(t, Threw)]
  }

  lemma OpenedRan(sh: Shared, t: nat)
    ensures
      var r := Ran(SocketOpened, OpenedExchange, sh, t, 4);
      && r.pc == Finished
      && r.shared == sh.(state := if sh.state == CONNECTING then LOGGING_IN else sh.state, closed := 0)
      && [Entry(t, Invoked(SocketOpened))] + r.log == OpenedTrail(t, sh.state)
  {
    hide Ran, ConnectStep, WatchStep, CloseStep, SendStep, ErrorStep, ClosedStep, AckStep, DispatchStep;
    var after := sh.(closed := 0);
    RanGo(SocketOpened, OpenedExchange, sh, t, 4, OpenedCas, after);
    if sh.state == CONNECTING {
      var connected := after.(state := CONNECTED);
      RanSay(SocketOpened, OpenedCas, after, t, 3, OpenedSend, connected, Stored(CONNECTING, CONNECTED));
      LoginRan(connected, t);
    } else if sh.state == DISCONNECTED {
      RanGo(SocketOpened, OpenedCas, after, t, 3, OpenedSend, after);
      LoginRan(after, t);
    } else {
      RanSay(SocketOpened, OpenedCas, after, t, 3, Finished, after, Threw);
      RanEnd(SocketOpened, after, t, 2);
    }
  }

  /** The rest of the handler from the sending of the login on. */
  lemma LoginRan(sh: Shared, t: nat)
    requires sh.state == CONNECTED || sh.state == DISCONNECTED
    ensures
      Ran(SocketOpened, OpenedSend, sh, t, 2) == Course(
        Finished,
        sh.(state := if sh.state == CONNECTED then LOGGING_IN else sh.state),
        [Entry(t, Sent(Login))] + if sh.state == CONNECTED then [Entry(t, Stored(CONNECTED, LOGGING_IN))] else [])
  {
    hide Ran, ConnectStep, WatchStep, CloseStep, SendStep, ErrorStep, ClosedStep, AckStep, DispatchStep;
    RanSay(SocketOpened, OpenedSend, sh, t, 2, OpenedLogin, sh, Sent(Login));
    if sh.state == CONNECTED {
      var after := sh.(state := LOGGING_IN);
      RanSay(SocketOpened, OpenedLogin, sh, t, 1, Finished, after, Stored(CONNECTED, LOGGING_IN));
      RanEnd(SocketOpened, after, t, 0);
    } else {
      RanGo(SocketOpened, OpenedLogin, sh, t, 1, Finished, sh);
      RanEnd(SocketOpened, sh, t, 0);
    }
  }

  /** It sends the login exactly if the client is connecting or has been closed, and throws exactly otherwise. */
  lemma OpenedAlone(s: seq<Action>) returns (s': seq<Action>)
    requires After(s).shared.registered
    ensures s <= s'
    ensures
      var c := After(s);
      After(s') == Client(
        c.shared.(state := if c.shared.state == CONNECTING then LOGGING_IN else c.shared.state, closed := 0),
        c.threads + [Thread(SocketOpened, Finished)],
        c.log + OpenedTrail(|c.threads|, c.shared.state))
  {
    hide After, Ran, OpenedTrail;
    OpenedRan(After(s).shared, |After(s).threads|);
    s' := RunsAlone(s, SocketOpened, 4);
  }

  // A login reply.

  /** What an OK reply does to a client in the given state if nothing disturbs its handler. */
  function AcceptedTrail(t: nat, state: int, count: nat): Log {
    [Entry(t, Invoked(MessageReceived(ConnectionAck(true))))] +
    if count == 0 then [Entry(t, Threw)]
    else if state == LOGGING_IN then
      [Entry(t, Signalled), Entry(t, Stored(LOGGING_IN, LOGGED_IN)), Entry(t, Notified(ConnectionSuccess))]
    else if state == DISCONNECTED then [Entry(t, Signalled)]
    else [Entry(t, Signalled), Entry(t, Threw)]
  }

  /** The shared fields after a reply has been handled: only the first one has an effect. */
  function Replied(sh: Shared, ok: bool): Shared {
    if sh.count == 0 then sh
    else if sh.state != LOGGING_IN then sh.(count := sh.count - 1)
    else if ok then sh.(state := LOGGED_IN, count := sh.count - 1)
    else sh.(state := FAILED, closed := 1, count := sh.count - 1)
  }

  /** The rest of the handler from the swap on, which succeeds. */
  lemma AcceptingRan(sh: Shared, t: nat)
    requires sh.state == LOGGING_IN
    ensures
      Ran(MessageReceived(ConnectionAck(true)), AckAccept, sh, t, 5) == Course(
        Finished,
        sh.(state := LOGGED_IN),
        [Entry(t, Stored(LOGGING_IN, LOGGED_IN)), Entry(t, Notified(ConnectionSuccess))])
  {
    hide Ran, ConnectStep, WatchStep, CloseStep, SendStep, OpenedStep, ErrorStep, ClosedStep, DispatchStep;
    var op, after := MessageReceived(ConnectionAck(true)), sh.(state := LOGGED_IN);
    RanSay(op, AckAccept, sh, t, 5, AckSuccess, after, Stored(LOGGING_IN, LOGGED_IN));
    RanSay(op, AckSuccess, after, t, 4, Finished, after, Notified(ConnectionSuccess));
    RanEnd(op, after, t, 3);
  }

  lemma AcceptedRan(sh: Shared, t: nat)
    ensures
      var op := MessageReceived(ConnectionAck(true));
      var r := Ran(op, AckSignal, sh, t, 6);
      && r.pc == Finished
      && r.shared == Replied(sh, true)
      && [Entry(t, Invoked(op))] + r.log == AcceptedTrail(t, sh.state, sh.count)
  {
    hide Ran, ConnectStep, WatchStep, CloseStep, SendStep, OpenedStep, ErrorStep, ClosedStep, DispatchStep;
    var op := MessageReceived(ConnectionAck(true));
    if sh.count == 0 {
      RanSay(op, AckSignal, sh, t, 6, Finished, sh, Threw);
      RanEnd(op, sh, t, 5);
    } else {
      var after := sh.(count := sh.count - 1);
      RanSay(op, AckSignal, sh, t, 6, AckAccept, after, Signalled);
      if sh.state == LOGGING_IN {
        AcceptingRan(after, t);
      } else {
        RanGo(op, AckAccept, after, t, 5, AckRecheck, after);
        RecheckRan(true, after, t);
      }
    }
  }

  /** A reply that swapped nothing throws unless the client has been closed. */
  lemma RecheckRan(ok: bool, sh: Shared, t: nat)
    ensures
      Ran(MessageReceived(ConnectionAck(ok)), AckRecheck, sh, t, 4)
      == Course(Finished, sh, if sh.state != DISCONNECTED then [Entry(t, Threw)] else [])
  {
    hide Ran, ConnectStep, WatchStep, CloseStep, SendStep, OpenedStep, ErrorStep, ClosedStep, DispatchStep;
    var op := MessageReceived(ConnectionAck(ok));
    if sh.state != DISCONNECTED {
      RanSay(op, AckRecheck, sh, t, 4, Finished, sh, Threw);
    } else {
      RanGo(op, AckRecheck, sh, t, 4, Finished, sh);
    }
    RanEnd(op, sh, t, 3);
  }

  /**
   An OK reply logs the client in and is told to the listener exactly if it is the first and the client is
   `LOGGING_IN`. In any other state a first reply uses up the countdown all the same, and the listener is told nothing.
   */
  lemma AcceptedAlone(s: seq<Action>) returns (s': seq<Action>)
    requires After(s).shared.registered
    ensures s <= s'
    ensures
      var c := After(s);
      After(s') == Client(
        Replied(c.shared, true),
        c.threads + [Thread(MessageReceived(ConnectionAck(true)), Finished)],
        c.log + AcceptedTrail(|c.threads|, c.shared.state, c.shared.count))
  {
    hide After, Ran, AcceptedTrail, Replied;
    AcceptedRan(After(s).shared, |After(s).threads|);
    s' := RunsAlone(s, MessageReceived(ConnectionAck(true)), 6);
  }

  /** What a refusal does to a client in the given state if nothing disturbs its handler. */
  function RefusedTrail(t: nat, state: int, count: nat): Log {
    [Entry(t, Invoked(MessageReceived(ConnectionAck(false))))] +
    if count == 0 then [Entry(t, Threw)]
    else if state == LOGGING_IN then
      [Entry(t, Signalled), Entry(t, Stored(LOGGING_IN, FAILED)), Entry(t, Checked(FAILED)),
       Entry(t, Called(CloseCall)), Entry(t, Notified(ConnectionFailure(LoginRefused)))]
    else if state == DISCONNECTED then [Entry(t, Signalled)]
    else [Entry(t, Signalled), Entry(t, Threw)]
  }

  lemma RefusedRan(sh: Shared, t: nat)
    ensures
      var op := MessageReceived(ConnectionAck(false));
      var r := Ran(op, AckSignal, sh, t, 6);
      && r.pc == Finished
      && r.shared == Replied(sh, false)
      && [Entry(t, Invoked(op))] + r.log == RefusedTrail(t, sh.state, sh.count)
  {
    hide Ran, ConnectStep, WatchStep, CloseStep, SendStep, OpenedStep, ErrorStep, ClosedStep, DispatchStep;
    var op := MessageReceived(ConnectionAck(false));
    if sh.count == 0 {
      RanSay(op, AckSignal, sh, t, 6, Finished, sh, Threw);
      RanEnd(op, sh, t, 5);
    } else {
      var after := sh.(count := sh.count - 1);
      RanSay(op, AckSignal, sh, t, 6, AckReject, after, Signalled);
      if sh.state == LOGGING_IN {
        var failed := after.(state := FAILED);
        RanSay(op, AckReject, after, t, 5, CloseRead(true), failed, Stored(LOGGING_IN, FAILED));
        RefusingRan(failed, t);
      } else {
        RanGo(op, AckReject, after, t, 5, AckRecheck, after);
        RecheckRan(false, after, t);
      }
    }
  }

  /** The rest of the handler from its own close on: that finds `FAILED` and leaves it. */
  lemma RefusingRan(sh: Shared, t: nat)
    requires sh.state == FAILED
    ensures
      Ran(MessageReceived(ConnectionAck(false)), CloseRead(true), sh, t, 4) == Course(
        Finished,
        sh.(closed := 1),
        [Entry(t, Checked(FAILED)), Entry(t, Called(CloseCall)), Entry(t, Notified(ConnectionFailure(LoginRefused)))])
  {
    hide Ran, ConnectStep, WatchStep, SendStep, OpenedStep, ErrorStep, ClosedStep, DispatchStep;
    var op, after := MessageReceived(ConnectionAck(false)), sh.(closed := 1);
    RanSay(op, CloseRead(true), sh, t, 4, CloseExchange(true), sh, Checked(FAILED));
    RanGo(op, CloseExchange(true), sh, t, 3, CloseSocket(true), after);
    RanSay(op, CloseSocket(true), after, t, 2, AckRefused, after, Called(CloseCall));
    ReportRan(after, t);
  }

  lemma ReportRan(sh: Shared, t: nat)
    ensures Ran(MessageReceived(ConnectionAck(false)), AckRefused, sh, t, 1) ==
            Course(Finished, sh, [Entry(t, Notified(ConnectionFailure(LoginRefused)))])
  {
    hide Ran, ConnectStep, WatchStep, SendStep, OpenedStep, ErrorStep, ClosedStep, DispatchStep;
    var op := MessageReceived(ConnectionAck(false));
    RanSay(op, AckRefused, sh, t, 1, Finished, sh, Notified(ConnectionFailure(LoginRefused)));
    RanEnd(op, sh, t, 0);
  }

  /**
   A refusal fails and closes a client that is logging in, its own close leaving `FAILED` in place. In any other state a
   first refusal uses up the countdown and the listener is told nothing.
   */
  lemma RefusedAlone(s: seq<Action>) returns (s': seq<Action>)
    requires After(s).shared.registered
    ensures s <= s'
    ensures
      var c := After(s);
      After(s') == Client(
        Replied(c.shared, false),
        c.threads + [Thread(MessageReceived(ConnectionAck(false)), Finished)],
        c.log + RefusedTrail(|c.threads|, c.shared.state, c.shared.count))
  {
    hide After, Ran, RefusedTrail, Replied;
    RefusedRan(After(s).shared, |After(s).threads|);
    s' := RunsAlone(s, MessageReceived(ConnectionAck(false)), 6);
  }

  // A socket error.

  /** What a socket error does to a client in the given state if nothing disturbs its handler, closing apart. */
  function FaultTrail(t: nat, state: int): Log {
    if state == FAILED || state == LOGGED_IN then []
    else [Entry(t, Stored(state, FAILED)), Entry(t, Notified(ConnectionFailure(SocketFault)))]
  }

  lemma ErrorRan(sh: Shared, t: nat, n: nat)
    requires n >= 4
    ensures
      var r := Ran(SocketError, ErrorReadFailed, sh, t, n);
      && r.pc == Finished
      && r.shared == sh.(state := if sh.state == LOGGED_IN then LOGGED_IN else FAILED)
      && r.log == FaultTrail(t, sh.state)
  {
    hide Ran, ConnectStep, WatchStep, CloseStep, SendStep, OpenedStep, ClosedStep, AckStep, DispatchStep;
    if sh.state == FAILED {
      RanGo(SocketError, ErrorReadFailed, sh, t, n, Finished, sh);
      RanEnd(SocketError, sh, t, n - 1);
    } else {
      RanGo(SocketError, ErrorReadFailed, sh, t, n, ErrorReadLoggedIn, sh);
      if sh.state == LOGGED_IN {
        RanGo(SocketError, ErrorReadLoggedIn, sh, t, n - 1, Finished, sh);
        RanEnd(SocketError, sh, t, n - 2);
      } else {
        RanGo(SocketError, ErrorReadLoggedIn, sh, t, n - 1, ErrorWrite, sh);
        FaultRan(sh, t, n - 2);
      }
    }
  }

  lemma FaultRan(sh: Shared, t: nat, n: nat)
    requires n >= 2
    ensures
      Ran(SocketError, ErrorWrite, sh, t, n) == Course(
        Finished,
        sh.(state := FAILED),
        [Entry(t, Stored(sh.state, FAILED)), Entry(t, Notified(ConnectionFailure(SocketFault)))])
  {
    hide Ran, ConnectStep, WatchStep, CloseStep, SendStep, OpenedStep, ClosedStep, AckStep, DispatchStep;
    var after := sh.(state := FAILED);
    RanSay(SocketError, ErrorWrite, sh, t, n, ErrorReport, after, Stored(sh.state, FAILED));
    RanSay(SocketError, ErrorReport, after, t, n - 1, Finished, after, Notified(ConnectionFailure(SocketFault)));
    RanEnd(SocketError, after, t, n - 2);
  }

  /**
   It closes the socket exactly if that is open, and fails the client in every state but `FAILED` and `LOGGED_IN`; even
   a closed one becomes `FAILED`.
   */
  lemma ErrorAlone(s: seq<Action>) returns (s': seq<Action>)
    requires After(s).shared.registered
    ensures s <= s'
    ensures
      var c := After(s);
      After(s') == Client(
        c.shared.(state := if c.shared.state == LOGGED_IN then LOGGED_IN else FAILED),
        c.threads + [Thread(SocketError, Finished)],
        c.log + ([Entry(|c.threads|, Invoked(SocketError))]
                 + (if c.shared.closed == 1 then [] else [Entry(|c.threads|, Called(CloseCall))])
                 + FaultTrail(|c.threads|, c.shared.state)))
  {
    hide After, Ran, FaultTrail;
    var sh, t := After(s).shared, |After(s).threads|;
    if sh.closed != 1 {
      RanGo(SocketError, ErrorFlag, sh, t, 6, ErrorClose, sh);
      RanSay(SocketError, ErrorClose, sh, t, 5, ErrorReadFailed, sh, Called(CloseCall));
      ErrorRan(sh, t, 4);
    } else {
      RanGo(SocketError, ErrorFlag, sh, t, 6, ErrorReadFailed, sh);
      ErrorRan(sh, t, 5);
    }
    s' := RunsAlone(s, SocketError, 6);
  }

  // The timeout.

  function TimeoutTrail(t: nat, state: int): Log {
    [Entry(t, Stored(state, FAILED)), Entry(t, Notified(ConnectionFailure(TimedOut)))]
  }

  /** The watch thread, past its wait, fails the client exactly if it is neither closed nor failed by then. */
  lemma TimesOut(s: seq<Action>, t: nat) returns (s': seq<Action>)
    requires t < |After(s).threads| && After(s).threads[t] == Thread(Watch, WatchRead)
    ensures s <= s'
    ensures
      var c := After(s);
      var ended := c.threads[t := Thread(Watch, Finished)];
      After(s') ==
        if c.shared.state == DISCONNECTED || c.shared.state == FAILED then c.(threads := ended)
        else Client(c.shared.(state := FAILED), ended, c.log + TimeoutTrail(t, c.shared.state))
  {
    hide After;
    s' := ThreadSteps(s, t);
    if After(s).shared.state != DISCONNECTED && After(s).shared.state != FAILED {
      s' := ThreadSteps(s', t);
      s' := ThreadSteps(s', t);
    }
  }

  // Connecting, sending and other messages.

  /** A call of `Connect` that runs undisturbed starts the watch thread of a new client, and throws otherwise. */
  lemma ConnectedAlone(s: seq<Action>) returns (s': seq<Action>)
    ensures s <= s'
    ensures
      var c, t := After(s), |After(s).threads|;
      After(s') ==
        if c.shared.state == NOT_CONNECTED then Client(
          c.shared.(state := INITIALIZING),
          c.threads + [Thread(Connect, Finished), Thread(Watch, WatchRegister)],
          c.log + [Entry(t, Invoked(Connect)), Entry(t, Stored(NOT_CONNECTED, INITIALIZING)), Entry(t, Started)])
        else Client(
          c.shared,
          c.threads + [Thread(Connect, Finished)],
          c.log + [Entry(t, Invoked(Connect)), Entry(t, Threw)])
  {
    hide After;
    var c, t := After(s), |After(s).threads|;
    s' := Then(s, Invoke(Connect));
    s' := Then(s', Advance(t));
    if c.shared.state == NOT_CONNECTED {
      assert After(s').threads == c.threads + [Thread(Connect, ConnectStart)];
      s' := Then(s', Advance(t));
      assert After(s').threads == c.threads + [Thread(Connect, Finished), Thread(Watch, WatchRegister)];
    } else {
      assert After(s').threads == c.threads + [Thread(Connect, Finished)];
    }
  }

  /** The watch thread registers the handlers, opens the socket, and moves an `INITIALIZING` client to `CONNECTING`. */
  lemma OpensAlone(s: seq<Action>, t: nat) returns (s': seq<Action>)
    requires t < |After(s).threads| && After(s).threads[t] == Thread(Watch, WatchRegister)
    ensures s <= s'
    ensures
      var c := After(s);
      var starting := c.shared.state == INITIALIZING;
      After(s') == Client(
        c.shared.(state := if starting then CONNECTING else c.shared.state, registered := true),
        c.threads[t := Thread(Watch, WatchWait)],
        c.log + [Entry(t, Called(OpenCall))]
          + if starting then [Entry(t, Stored(INITIALIZING, CONNECTING))] else [])
  {
    hide After;
    s' := ThreadSteps(s, t);
    s' := ThreadSteps(s', t);
    s' := ThreadSteps(s', t);
  }

  /** The message goes out exactly if the client is logged in, the types agree, and the body is one that is written. */
  lemma SentAlone(s: seq<Action>, headerType: int, bodyType: int) returns (s': seq<Action>)
    ensures s <= s'
    ensures
      var c, t, op := After(s), |After(s).threads|, SendMessage(headerType, bodyType);
      var sends :=
        c.shared.state == LOGGED_IN && headerType == bodyType && bodyType in {0, 1, 2, 4, 5, 6, 7, 8, 9, 10, 12};
      After(s') == Client(
        c.shared,
        c.threads + [Thread(op, Finished)],
        c.log + [Entry(t, Invoked(op)), Entry(t, if sends then Sent(Payload(headerType, bodyType)) else Threw)])
  {
    hide After, Ran;
    var sh, t, op := After(s).shared, |After(s).threads|, SendMessage(headerType, bodyType);
    if sh.state == LOGGED_IN && headerType == bodyType && Serializable(bodyType) {
      RanGo(op, SendRead, sh, t, 2, SendFrame, sh);
      RanSay(op, SendFrame, sh, t, 1, Finished, sh, Sent(Payload(headerType, bodyType)));
      RanEnd(op, sh, t, 0);
    } else {
      RanSay(op, SendRead, sh, t, 2, Finished, sh, Threw);
      RanEnd(op, sh, t, 1);
    }
    s' := RunsAlone(s, op, 2);
  }

  /** A message of another type than a login reply is delivered exactly if it has a listener method. */
  lemma DeliveredAlone(s: seq<Action>, dataType: int) returns (s': seq<Action>)
    requires After(s).shared.registered
    ensures s <= s'
    ensures
      var c, t, op := After(s), |After(s).threads|, MessageReceived(OtherMessage(dataType));
      After(s') == Client(
        c.shared,
        c.threads + [Thread(op, Finished)],
        c.log + [Entry(t, Invoked(op))]
          + if dataType in {3, 4, 5, 6, 7, 8, 9, 11} then [Entry(t, Notified(Delivery(dataType)))] else [])
  {
    hide After, Ran;
    var sh, t, op := After(s).shared, |After(s).threads|, MessageReceived(OtherMessage(dataType));
    if Delivered(dataType) {
      RanSay(op, ReceivedDispatch, sh, t, 1, Finished, sh, Notified(Delivery(dataType)));
    } else {
      RanGo(op, ReceivedDispatch, sh, t, 1, Finished, sh);
    }
    RanEnd(op, sh, t, 0);
    s' := RunsAlone(s, op, 1);
  }

  /** Bytes that do not decode are dropped. */
  lemma DroppedAlone(s: seq<Action>) returns (s': seq<Action>)
    requires After(s).shared.registered
    ensures s <= s'
    ensures
      var c, t, op := After(s), |After(s).threads|, MessageReceived(Malformed);
      After(s') == Client(c.shared, c.threads + [Thread(op, Finished)], c.log + [Entry(t, Invoked(op))])
  {
    hide After, Ran;
    var sh, t, op := After(s).shared, |After(s).threads|, MessageReceived(Malformed);
    RanGo(op, ReceivedDispatch, sh, t, 1, Finished, sh);
    RanEnd(op, sh, t, 0);
    s' := RunsAlone(s, op, 1);
  }
}
