/** What `AsyncGDSClient` guarantees under every interleaving, and schedules that refute what it does not. */
module AsyncClientTheorems {
  import opened Results
  import opened ConnectionState
  import opened AsyncClientModel
  import opened AsyncClientLaws

  // The state never moves back.

  function Capped(state: int): int {
    if state < DISCONNECTED then state else DISCONNECTED
  }

  lemma {:induction false} CappedGrows(log: Log, i: nat)
    requires Lawful(log) && i <= |log|
    ensures Capped(StateOf(log[..i])) <= Capped(StateOf(log))
  {
    if i == |log| {
      assert log[..i] == log;
    } else {
      StateRange(log[..|log| - 1]);
      CappedGrows(log[..|log| - 1], i);
      assert log[..|log| - 1][..i] == log[..i];
    }
  }

  lemma CappedBetween(a: Log, b: Log)
    requires Lawful(b) && a <= b
    ensures Capped(StateOf(a)) <= Capped(StateOf(b))
  {
    assert b[..|a|] == a;
    CappedGrows(b, |a|);
  }

  /** A longer schedule only adds to the log. */
  lemma {:induction false} LogGrows(schedule: seq<Action>, i: nat)
    requires i <= |schedule|
    ensures After(schedule[..i]).log <= After(schedule).log
  {
    if i == |schedule| {
      assert schedule[..i] == schedule;
    } else {
      LogGrows(schedule[..|schedule| - 1], i);
      assert schedule[..|schedule| - 1][..i] == schedule[..i];
    }
  }

  /** In any run the value of `state`, with `FAILED` counted as `DISCONNECTED`, never decreases. */
  lemma StateNeverMovesBack(schedule: seq<Action>, i: nat, j: nat)
    requires i <= j <= |schedule|
    ensures Capped(After(schedule[..i]).shared.state) <= Capped(After(schedule[..j]).shared.state)
  {
    var early, late := schedule[..i], schedule[..j];
    assert late[..i] == early;
    LogGrows(late, i);
    LogsAreLawful(early);
    LogsAreLawful(late);
    CappedBetween(After(early).log, After(late).log);
  }

  /** A store that lowers `state` writes `DISCONNECTED` over `FAILED`, for a close whose check has been overtaken. */
  lemma LoweredOnlyByOvertakenClose(schedule: seq<Action>, i: nat)
    requires i < |After(schedule).log|
    requires var e := After(schedule).log[i].event; e.Stored? && e.now < e.was
    ensures
      var log := After(schedule).log;
      && log[i].event == Stored(FAILED, DISCONNECTED)
      && Happened(log[..i], Invoked(Close))
      && exists k: nat | k < i ::
           log[k].thread == log[i].thread && log[k].event.Checked? && StateOf(log[..k]) != FAILED
  {
    var log := After(schedule).log;
    LogsAreLawful(schedule);
    LawfulAt(log, i);
    StateRange(log[..i]);
    var x :| x in log[..i] && x.thread == log[i].thread && x.event.Checked? && x.event.seen != FAILED;
    var k: nat :| k < i && log[..i][k] == x;
    LawfulAt(log, k);
    assert log[k] == x;
  }

  // Login.

  /** The successive values of `state`. */
  function History(log: Log): seq<int> {
    if log == [] then [NOT_CONNECTED]
    else
      var init, last := log[..|log| - 1], log[|log| - 1].event;
      if last.Stored? && last.now != last.was then History(init) + [last.now] else History(init)
  }

  function UpTo(n: int): seq<int>
    requires 0 <= n
  {
    seq(n + 1, k => k)
  }

  /** Until it is closed or fails, the client has gone through every state in order and through no other. */
  lemma {:induction false} EarlyHistory(log: Log)
    requires Lawful(log) && StateOf(log) <= LOGGED_IN
    ensures 0 <= StateOf(log) && History(log) == UpTo(StateOf(log))
    ensures forall x :: x in log && x.event.Stored? ==> x.event.now <= StateOf(log)
  {
    StateRange(log);
    if log != [] {
      var init, last := log[..|log| - 1], log[|log| - 1];
      assert log == init + [last];
      StateRange(init);
      EarlyHistory(init);
      assert UpTo(StateOf(log)) ==
             if last.event.Stored? then UpTo(StateOf(init)) + [StateOf(log)] else UpTo(StateOf(init));
    }
  }

  /**
   Whenever `LOGGED_IN` is written, the state has gone exactly through 0, 1, 2, 3, 4, 5, the login frame was sent
   before, and so was an OK reply received and the countdown signalled for it; and it is never written again.
   */
  lemma LoginSafety(schedule: seq<Action>, i: nat)
    requires i < |After(schedule).log|
    requires var e := After(schedule).log[i].event; e.Stored? && e.now == LOGGED_IN
    ensures
      var log := After(schedule).log;
      && History(log[..i + 1]) == [0, 1, 2, 3, 4, 5]
      && Happened(log[..i], Sent(Login))
      && Entry(log[i].thread, Invoked(MessageReceived(ConnectionAck(true)))) in log[..i]
      && Entry(log[i].thread, Signalled) in log[..i]
      && !Entered(log[..i], DISCONNECTED) && !Entered(log[..i], FAILED)
      && forall j: nat :: j < |log| && log[j].event.Stored? && log[j].event.now == LOGGED_IN ==> j == i
  {
    var log := After(schedule).log;
    LogsAreLawful(schedule);
    LoginAt(log, i);
    forall j: nat | j < |log| && log[j].event.Stored? && log[j].event.now == LOGGED_IN
      ensures j == i
    {
      LoggedInOnce(log, i, j);
    }
  }

  lemma LoginHistory(log: Log, i: nat)
    requires Lawful(log) && i < |log| && log[i].event.Stored? && log[i].event.now == LOGGED_IN
    ensures History(log[..i + 1]) == [0, 1, 2, 3, 4, 5]
  {
    hide *;
    LawfulPrefix(log, i + 1);
    StateOfAppend(log[..i], log[i]);
    assert log[..i + 1] == log[..i] + [log[i]];
    EarlyHistory(log[..i + 1]);
    UpToLoggedIn();
  }

  lemma UpToLoggedIn()
    ensures UpTo(LOGGED_IN) == [0, 1, 2, 3, 4, 5]
  {
    assert UpTo(2) == [0, 1, 2];
    assert UpTo(4) == UpTo(2) + [3, 4];
  }

  lemma LoginAt(log: Log, i: nat)
    requires Lawful(log) && i < |log| && log[i].event.Stored? && log[i].event.now == LOGGED_IN
    ensures History(log[..i + 1]) == [0, 1, 2, 3, 4, 5]
    ensures Happened(log[..i], Sent(Login))
    ensures Entry(log[i].thread, Invoked(MessageReceived(ConnectionAck(true)))) in log[..i]
    ensures Entry(log[i].thread, Signalled) in log[..i]
    ensures !Entered(log[..i], DISCONNECTED) && !Entered(log[..i], FAILED)
  {
    LoginHistory(log, i);
    LawfulAt(log, i);
    StateRange(log[..i]);
    EarlyHistory(log[..i]);
    LoggingInHasSent(log[..i]);
  }

  /** A store of a value up to `LOGGED_IN` is made once: the state is past it ever after. */
  lemma StoredInOrder(log: Log, i: nat, j: nat)
    requires Lawful(log) && i < j < |log| && log[i].event.Stored?
    ensures Capped(log[i].event.now) <= Capped(StateOf(log[..j]))
  {
    LawfulPrefix(log, j);
    assert log[..i + 1] == log[..i] + [log[i]];
    StateOfAppend(log[..i], log[i]);
    CappedBetween(log[..i + 1], log[..j]);
  }

  lemma LoggedInOnce(log: Log, i: nat, j: nat)
    requires Lawful(log) && i < |log| && j < |log|
    requires log[i].event.Stored? && log[i].event.now == LOGGED_IN
    requires log[j].event.Stored? && log[j].event.now == LOGGED_IN
    ensures i == j
  {
    if i < j {
      StoredInOrder(log, i, j);
      LawfulAt(log, j);
    } else if j < i {
      StoredInOrder(log, j, i);
      LawfulAt(log, i);
    }
  }

  // Frames.

  predicate IsLogin(event: Event) {
    event == Sent(Login)
  }

  predicate IsOpening(event: Event) {
    event == Invoked(SocketOpened)
  }

  predicate IsCheck(event: Event) {
    event.Checked?
  }

  /** How many events of a kind a log holds. */
  function Tally(log: Log, kind: Event -> bool): nat {
    if log == [] then 0
    else Tally(log[..|log| - 1], kind) + (if kind(log[|log| - 1].event) then 1 else 0)
  }

  lemma TallyAppend(log: Log, x: Entry, kind: Event -> bool)
    ensures Tally(log + [x], kind) == Tally(log, kind) + if kind(x.event) then 1 else 0
  {
    assert (log + [x])[..|log|] == log;
  }

  lemma {:induction false} TallyJoin(a: Log, b: Log, kind: Event -> bool)
    ensures Tally(a + b, kind) == Tally(a, kind) + Tally(b, kind)
  {
    if b == [] {
      assert a + b == a;
    } else {
      var init, last := b[..|b| - 1], b[|b| - 1];
      assert a + b == (a + init) + [last] && b == init + [last];
      TallyJoin(a, init, kind);
      TallyAppend(a + init, last, kind);
    }
  }

  /** The threads that left an event of a kind. */
  function Owners(log: Log, kind: Event -> bool): set<nat> {
    set x | x in log && kind(x.event) :: x.thread
  }

  lemma OwnersAppend(init: Log, last: Entry, kind: Event -> bool)
    ensures Owners(init + [last], kind) == Owners(init, kind) + (if kind(last.event) then {last.thread} else {})
  {
    var log := init + [last];
    forall x | x in init && kind(x.event) ensures x.thread in Owners(log, kind) {
      assert x in log;
    }
    if kind(last.event) {
      assert last in log;
    }
  }

  /** No thread has left two events of a kind. */
  ghost predicate OneEach(log: Log, kind: Event -> bool) {
    forall i: nat :: i < |log| && kind(log[i].event) ==> log[i].thread !in Owners(log[..i], kind)
  }

  lemma OneEachBefore(log: Log, kind: Event -> bool)
    requires log != [] && OneEach(log, kind)
    ensures OneEach(log[..|log| - 1], kind)
  {
    hide Owners;
    var init := log[..|log| - 1];
    forall i: nat | i < |init| && kind(init[i].event)
      ensures init[i].thread !in Owners(init[..i], kind)
    {
      assert init[..i] == log[..i] && log[i] == init[i];
    }
  }

  /** If no thread leaves two events of a kind, there are as many events as there are threads that left one. */
  lemma {:induction false} TallyCountsOwners(log: Log, kind: Event -> bool)
    requires OneEach(log, kind)
    ensures Tally(log, kind) == |Owners(log, kind)|
  {
    if log != [] {
      var init, last := log[..|log| - 1], log[|log| - 1];
      assert log == init + [last];
      OwnersAppend(init, last, kind);
      OneEachBefore(log, kind);
      assert kind(last.event) ==> last.thread !in Owners(init, kind);
      hide Owners, OneEach;
      TallyCountsOwners(init, kind);
    }
  }

  lemma SubsetIsSmaller(a: set<nat>, b: set<nat>)
    requires a <= b
    ensures |a| <= |b|
  {
    assert b == a + (b - a);
  }

  /** There are at most as many login frames as times the socket was opened. */
  lemma LoginsAreOpenings(schedule: seq<Action>)
    ensures Tally(After(schedule).log, IsLogin) <= Tally(After(schedule).log, IsOpening)
  {
    var log := After(schedule).log;
    LogsAreLawful(schedule);
    forall i: nat | i < |log|
      ensures IsLogin(log[i].event) ==> log[i].thread !in Owners(log[..i], IsLogin)
      ensures IsOpening(log[i].event) ==> log[i].thread !in Owners(log[..i], IsOpening)
      ensures IsLogin(log[i].event) ==> log[i].thread in Owners(log, IsOpening)
    {
      LawfulAt(log, i);
      assert forall x :: x in log[..i] ==> x in log;
    }
    TallyCountsOwners(log, IsLogin);
    TallyCountsOwners(log, IsOpening);
    SubsetIsSmaller(Owners(log, IsLogin), Owners(log, IsOpening));
  }

  /**
   The discipline of the wire, whatever close races with it. The first frame is the login. A later frame that is no
   login follows the login and an OK reply that was accepted, and its header states the type of its body.
   */
  lemma WireDiscipline(schedule: seq<Action>, i: nat)
    requires i < |After(schedule).log| && After(schedule).log[i].event.Sent?
    ensures
      var log := After(schedule).log;
      var frame := log[i].event.frame;
      && (frame.Login? || Happened(log[..i], Sent(Login)))
      && (frame.Payload? ==>
            && frame.headerType == frame.bodyType
            && Entry(log[i].thread, Invoked(SendMessage(frame.headerType, frame.bodyType))) in log[..i]
            && Entered(log[..i], LOGGED_IN)
            && Happened(log[..i], Invoked(MessageReceived(ConnectionAck(true)))))
  {
    var log := After(schedule).log;
    LogsAreLawful(schedule);
    LawfulAt(log, i);
    if log[i].event.frame.Payload? {
      var x :| x in log[..i] && x.event.Stored? && x.event.now == LOGGED_IN;
      var k: nat :| k < i && log[..i][k] == x;
      LoginSafety(schedule, k);
      assert forall y :: y in log[..k] ==> y in log[..i];
    }
  }

  /** If the socket is opened at most once, the login is sent at most once, and nothing is sent before it. */
  lemma LoginIsFirstAndOnly(schedule: seq<Action>, i: nat, j: nat)
    requires Tally(After(schedule).log, IsOpening) <= 1
    requires i < |After(schedule).log| && j < |After(schedule).log|
    requires After(schedule).log[i].event == Sent(Login) && After(schedule).log[j].event.Sent?
    ensures i == j || (i < j && After(schedule).log[j].event.frame.Payload?)
  {
    var log := After(schedule).log;
    LoginsAreOpenings(schedule);
    WireDiscipline(schedule, j);
    if log[j].event.frame.Login? {
      TallyTwo(log, IsLogin, i, j);
    } else {
      var x :| x in log[..j] && x.event == Sent(Login);
      var k: nat :| k < j && log[..j][k] == x;
      TallyTwo(log, IsLogin, i, k);
    }
  }

  lemma {:induction false} TallyTwo(log: Log, kind: Event -> bool, i: nat, j: nat)
    requires i < |log| && j < |log| && kind(log[i].event) && kind(log[j].event)
    ensures Tally(log, kind) >= 1
    ensures Tally(log, kind) <= 1 ==> i == j
  {
    var n := |log| - 1;
    if i < n {
      TallyTwo(log[..n], kind, i, if j < n then j else i);
    } else if j < n {
      TallyTwo(log[..n], kind, j, j);
    }
  }

  // Changes of state are bounded by the closes.

  function Changes(log: Log): nat {
    if log == [] then 0
    else
      var last := log[|log| - 1].event;
      Changes(log[..|log| - 1]) + (if last.Stored? && last.now != last.was then 1 else 0)
  }

  /** The potential argument: a rise is at least 1, a drop is exactly 1. */
  lemma {:induction false} ChangesPotential(log: Log)
    requires Lawful(log)
    ensures Changes(log) <= StateOf(log) + 2 * Tally(log, IsDrop)
  {
    if log != [] {
      StateRange(log[..|log| - 1]);
      ChangesPotential(log[..|log| - 1]);
    }
  }

  lemma {:induction false} DropsAreCloses(log: Log)
    requires Lawful(log)
    ensures Tally(log, IsDrop) <= Tally(log, IsCheck)
  {
    forall i: nat | i < |log|
      ensures IsDrop(log[i].event) ==> log[i].thread !in Owners(log[..i], IsDrop)
      ensures IsCheck(log[i].event) ==> log[i].thread !in Owners(log[..i], IsCheck)
      ensures IsDrop(log[i].event) ==> log[i].thread in Owners(log, IsCheck)
    {
      LawfulAt(log, i);
      assert forall x :: x in log[..i] ==> x in log;
    }
    TallyCountsOwners(log, IsDrop);
    TallyCountsOwners(log, IsCheck);
    SubsetIsSmaller(Owners(log, IsDrop), Owners(log, IsCheck));
  }

  /** With c executions of `Close`, users' and nested ones, `state` changes at most 7 + 2c times. */
  lemma ChangesAreBounded(schedule: seq<Action>)
    ensures Changes(After(schedule).log) <= 7 + 2 * Tally(After(schedule).log, IsCheck)
  {
    LogsAreLawful(schedule);
    StateRange(After(schedule).log);
    ChangesPotential(After(schedule).log);
    DropsAreCloses(After(schedule).log);
  }

  // Login replies, Connect, and OnDisconnect.

  lemma SignalledOnce(log: Log, x: Entry, y: Entry)
    requires Lawful(log) && x in log && y in log && x.event == Signalled && y.event == Signalled
    ensures x == y
  {
    var i: nat :| i < |log| && log[i] == x;
    var j: nat :| j < |log| && log[j] == y;
    assert i < j ==> log[..j][i] == x;
    assert j < i ==> log[..i][j] == y;
    LawfulAt(log, i);
    LawfulAt(log, j);
  }

  lemma VerdictFollowsSignal(log: Log, i: nat)
    requires Lawful(log) && i < |log| && IsVerdict(log[i].event)
    ensures Entry(log[i].thread, Signalled) in log[..i] && NoOutcome(log[..i], log[i].thread)
  {
    LawfulAt(log, i);
  }

  lemma OutcomeOnce(log: Log, i: nat, j: nat)
    requires i < j < |log| && NoOutcome(log[..j], log[j].thread) && IsVerdict(log[i].event)
    ensures log[i].thread != log[j].thread
  {
    assert log[..j][i] == log[i];
  }

  /** Of all login replies at most one is told to the listener, as a success or as a refusal. */
  lemma OneVerdict(schedule: seq<Action>, i: nat, j: nat)
    requires i < |After(schedule).log| && j < |After(schedule).log|
    requires IsVerdict(After(schedule).log[i].event) && IsVerdict(After(schedule).log[j].event)
    ensures i == j
  {
    var log := After(schedule).log;
    LogsAreLawful(schedule);
    hide After, Lawful, Inv;
    VerdictFollowsSignal(log, i);
    VerdictFollowsSignal(log, j);
    var x, y := Entry(log[i].thread, Signalled), Entry(log[j].thread, Signalled);
    assert x in log && y in log;
    SignalledOnce(log, x, y);
    if i < j {
      OutcomeOnce(log, i, j);
    } else if j < i {
      OutcomeOnce(log, j, i);
    }
  }

  /** The swap that wins `Connect` precedes every other store, so it happens once. */
  lemma FreshIsFirst(log: Log, i: nat, j: nat)
    requires Lawful(log) && i < |log| && j < |log|
    requires log[i].event.Stored? && log[j].event == Stored(NOT_CONNECTED, INITIALIZING)
    ensures j <= i
  {
    if i < j {
      LawfulAt(log, i);
      StateRange(log[..i]);
      StoredInOrder(log, i, j);
      LawfulAt(log, j);
    }
  }

  lemma StartedOnce(log: Log, i: nat, j: nat)
    requires Lawful(log) && i < |log| && j < |log| && log[i].event == Started && log[j].event == Started
    ensures i == j
  {
    assert i < j ==> log[..j][i] == log[i];
    assert j < i ==> log[..i][j] == log[j];
    LawfulAt(log, i);
    LawfulAt(log, j);
    var x := Entry(log[i].thread, Stored(NOT_CONNECTED, INITIALIZING));
    var y := Entry(log[j].thread, Stored(NOT_CONNECTED, INITIALIZING));
    var k: nat :| k < i && log[..i][k] == x;
    var l: nat :| l < j && log[..j][l] == y;
    FreshIsFirst(log, k, l);
    FreshIsFirst(log, l, k);
  }

  /** At most one call of `Connect` starts the connection. */
  lemma ConnectHasOneWinner(schedule: seq<Action>, i: nat, j: nat)
    requires i < |After(schedule).log| && j < |After(schedule).log|
    requires After(schedule).log[i].event == Started && After(schedule).log[j].event == Started
    ensures i == j
  {
    LogsAreLawful(schedule);
    StartedOnce(After(schedule).log, i, j);
  }

  /** Of any two calls of `Connect` that have ended, one has thrown. */
  lemma OtherConnectsThrow(schedule: seq<Action>, t: nat, u: nat)
    requires t < |After(schedule).threads| && u < |After(schedule).threads| && t != u
    requires After(schedule).threads[t] == Thread(Connect, Finished) == After(schedule).threads[u]
    ensures Entry(t, Threw) in After(schedule).log || Entry(u, Threw) in After(schedule).log
  {
    var c := After(schedule);
    LogsAreLawful(schedule);
    assert ThreadInv(c.log, t, c.threads[t]) && ThreadInv(c.log, u, c.threads[u]);
    if Entry(t, Started) in c.log && Entry(u, Started) in c.log {
      var i: nat :| i < |c.log| && c.log[i] == Entry(t, Started);
      var j: nat :| j < |c.log| && c.log[j] == Entry(u, Started);
      ConnectHasOneWinner(schedule, i, j);
    }
  }

  /** No call of `Connect` wins once the client has been closed or has failed. */
  lemma NoConnectAfterClose(schedule: seq<Action>, i: nat, j: nat)
    requires i < |After(schedule).log| && j < |After(schedule).log|
    requires After(schedule).log[i].event.Stored? && After(schedule).log[i].event.now in {DISCONNECTED, FAILED}
    requires After(schedule).log[j].event == Stored(NOT_CONNECTED, INITIALIZING)
    ensures j < i
  {
    LogsAreLawful(schedule);
    FreshIsFirst(After(schedule).log, i, j);
  }

  /** A state that has been entered, `FAILED` counted as `DISCONNECTED`, is never fallen below. */
  lemma EnteredIsKept(log: Log, value: int)
    requires Lawful(log) && Entered(log, value)
    ensures Capped(value) <= Capped(StateOf(log))
  {
    var x :| x in log && x.event.Stored? && x.event.now == value;
    var i: nat :| i < |log| && log[i] == x;
    assert log[..i + 1] == log[..i] + [log[i]];
    StateOfAppend(log[..i], log[i]);
    CappedBetween(log[..i + 1], log);
  }

  lemma OverIsOver(log: Log)
    requires Lawful(log) && Over(log)
    ensures StateOf(log) == DISCONNECTED || StateOf(log) == FAILED
  {
    StateRange(log);
    EnteredIsKept(log, if Entered(log, DISCONNECTED) then DISCONNECTED else FAILED);
  }

  /** Once a call of `Close` has ended the client is closed or failed, and stays so. */
  lemma CloseIsFinal(schedule: seq<Action>, i: nat, t: nat)
    requires i <= |schedule| && t < |After(schedule[..i]).threads|
    requires After(schedule[..i]).threads[t] == Thread(Close, Finished)
    ensures After(schedule).shared.state == DISCONNECTED || After(schedule).shared.state == FAILED
  {
    var early, late := After(schedule[..i]), After(schedule);
    LogsAreLawful(schedule[..i]);
    LogsAreLawful(schedule);
    LogGrows(schedule, i);
    assert ThreadInv(early.log, t, early.threads[t]);
    var x :| x in early.log && x.event.Stored? && x.event.now in {DISCONNECTED, FAILED};
    assert x in late.log;
    assert Over(late.log);
    OverIsOver(late.log);
  }

  /** Every `OnDisconnect` follows a user's call of `Close` or a login. */
  lemma DisconnectIsOwed(schedule: seq<Action>, i: nat)
    requires i < |After(schedule).log| && After(schedule).log[i].event == Notified(Disconnect)
    ensures Happened(After(schedule).log[..i], Invoked(Close)) || Entered(After(schedule).log[..i], LOGGED_IN)
  {
    LogsAreLawful(schedule);
    LawfulAt(After(schedule).log, i);
  }

  /**
   Every call of the listener has its cause in its own thread: a success the accepted reply, a failure the write of
   `FAILED` or the lost socket, a delivery the message of that type; no thread reports two outcomes.
   */
  lemma CallbacksAreCaused(schedule: seq<Action>, i: nat)
    requires i < |After(schedule).log| && After(schedule).log[i].event.Notified?
    ensures var log := After(schedule).log; Caused(log[..i], log[i].thread, log[i].event.callback)
  {
    LogsAreLawful(schedule);
    LawfulAt(After(schedule).log, i);
  }

  // How often a failure is reported.

  /** An event that a thread may report as a failure: a socket error, a closed socket, a refused login. */
  predicate IsTrouble(event: Event) {
    event == Invoked(SocketError) || event == Invoked(SocketClosed)
    || event == Invoked(MessageReceived(ConnectionAck(false)))
  }

  predicate IsTimeout(event: Event) {
    event == Notified(ConnectionFailure(TimedOut))
  }

  ghost predicate HasWatch(c: Client) {
    exists t :: 0 <= t < |c.threads| && c.threads[t].op == Watch
  }

  /** There is one watch thread at most, it is there once `Connect` has started it, and it alone reports the timeout. */
  ghost predicate WatchInv(c: Client) {
    && (forall t, u :: 0 <= t < |c.threads| && 0 <= u < |c.threads| && c.threads[t].op == Watch == c.threads[u].op
          ==> t == u)
    && (Happened(c.log, Started) <==> HasWatch(c))
    && (forall x :: x in c.log && IsTimeout(x.event) ==> x.thread < |c.threads| && c.threads[x.thread].op == Watch)
  }

  lemma {:induction false} WatchAlways(schedule: seq<Action>)
    ensures WatchInv(After(schedule))
  {
    if schedule != [] {
      var a, init := schedule[|schedule| - 1], schedule[..|schedule| - 1];
      WatchAlways(init);
      LogsAreLawful(schedule);
      var c := After(init);
      assert After(schedule) == Perform(c, a);
      hide WatchInv, Move, After, Lawful;
      match a
      case Invoke(op) => WatchNotInvoked(c, op);
      case Advance(t) => if t < |c.threads| { WatchStays(c, t, false); }
      case Expire(t) => if t < |c.threads| { WatchStays(c, t, true); }
    }
  }

  lemma WatchNotInvoked(c: Client, op: Operation)
    requires WatchInv(c)
    ensures WatchInv(Perform(c, Invoke(op)))
  {
    var c' := Perform(c, Invoke(op));
    if x :| x in c.log && x.event == Started {
      assert x in c'.log;
    }
    assert forall t :: 0 <= t < |c.threads| ==> c'.threads[t] == c.threads[t];
    assert HasWatch(c') ==> HasWatch(c);
  }

  /** The step starts no thread and reports no timeout. */
  predicate Quiet(o: Outcome) {
    !o.starts && (o.event.Some? ==> !IsTimeout(o.event.value) && o.event.value != Started)
  }

  lemma UsersAreQuiet(headerType: int, bodyType: int, pc: Counter, sh: Shared)
    ensures Quiet(CloseStep(pc, sh)) && Quiet(SendStep(headerType, bodyType, pc, sh))
  {
  }

  lemma SocketIsQuiet(pc: Counter, sh: Shared)
    ensures Quiet(OpenedStep(pc, sh)) && Quiet(ErrorStep(pc, sh)) && Quiet(ClosedStep(pc, sh))
  {
  }

  lemma MessagesAreQuiet(message: Incoming, ok: bool, pc: Counter, sh: Shared)
    ensures Quiet(AckStep(ok, pc, sh)) && Quiet(DispatchStep(message, pc, sh))
  {
  }

  lemma ConnectStarts(pc: Counter, sh: Shared, expire: bool)
    ensures var o := WatchStep(pc, sh, expire); !o.starts && o.event != Some(Started)
    ensures var o := ConnectStep(pc, sh); Quiet(o) || (o.starts && o.event == Some(Started))
  {
  }

  /** Only `Connect` starts a thread, and only the watch thread reports the timeout. */
  lemma WatchSteps(op: Operation, pc: Counter, sh: Shared, expire: bool)
    ensures
      var o := Step(op, pc, sh, expire);
      && (o.starts <==> o.event == Some(Started))
      && (o.event.Some? && IsTimeout(o.event.value) ==> op == Watch)
  {
    hide ConnectStep, WatchStep, CloseStep, SendStep, OpenedStep, ErrorStep, ClosedStep, AckStep, DispatchStep;
    match op
    case Connect => ConnectStarts(pc, sh, expire);
    case Watch => ConnectStarts(pc, sh, expire);
    case Close => UsersAreQuiet(0, 0, pc, sh);
    case SendMessage(headerType, bodyType) => UsersAreQuiet(headerType, bodyType, pc, sh);
    case MessageReceived(m) => MessagesAreQuiet(m, m.ConnectionAck? && m.ok, pc, sh);
    case _ => SocketIsQuiet(pc, sh);
  }

  lemma WatchStays(c: Client, t: nat, expire: bool)
    requires WatchInv(c) && t < |c.threads| && Lawful(Move(c, t, expire).log)
    ensures WatchInv(Move(c, t, expire))
  {
    hide Step, Lawful;
    var th, c' := c.threads[t], Move(c, t, expire);
    var o := Step(th.op, th.pc, c.shared, expire);
    WatchSteps(th.op, th.pc, c.shared, expire);
    assert forall u :: 0 <= u < |c.threads| ==> c'.threads[u].op == c.threads[u].op;
    if o.starts {
      NotStartedBefore(c.log, Entry(t, Started));
      assert Entry(t, Started) in c'.log;
      assert c'.threads[|c.threads|].op == Watch;
    }
    if x :| x in c.log && x.event == Started {
      assert x in c'.log;
    }
    assert HasWatch(c) ==> HasWatch(c');
    assert HasWatch(c') ==> HasWatch(c) || o.starts;
  }

  lemma NotStartedBefore(log: Log, x: Entry)
    requires Lawful(log + [x]) && x.event == Started
    ensures !Happened(log, Started)
  {
    if y :| y in log && y.event == Started {
      var i: nat :| i < |log| && log[i] == y;
      assert (log + [x])[i] == y;
      StartedOnce(log + [x], i, |log|);
    }
  }

  /** The timeout is reported at most once in a run. */
  lemma OneTimeout(schedule: seq<Action>, i: nat, j: nat)
    requires i < |After(schedule).log| && j < |After(schedule).log|
    requires IsTimeout(After(schedule).log[i].event) && IsTimeout(After(schedule).log[j].event)
    ensures i == j
  {
    var log := After(schedule).log;
    assert i < j ==> log[..j][i] == log[i];
    assert j < i ==> log[..i][j] == log[j];
    WatchAlways(schedule);
    assert log[i] in log && log[j] in log;
    LogsAreLawful(schedule);
    hide After;
    LawfulAt(log, i);
    LawfulAt(log, j);
  }

  /** Each failure is reported by a thread of its own, for an event that opened this thread or for the timeout. */
  lemma FailuresAreOwned(schedule: seq<Action>)
    ensures
      var log := After(schedule).log;
      && OneEach(log, IsFailure) && OneEach(log, IsTrouble)
      && Owners(log, IsFailure) <= Owners(log, IsTrouble) + Owners(log, IsTimeout)
  {
    var log := After(schedule).log;
    LogsAreLawful(schedule);
    hide After;
    forall i: nat | i < |log|
      ensures IsFailure(log[i].event) ==> log[i].thread !in Owners(log[..i], IsFailure)
      ensures IsTrouble(log[i].event) ==> log[i].thread !in Owners(log[..i], IsTrouble)
      ensures IsFailure(log[i].event) ==> log[i].thread in Owners(log, IsTrouble) + Owners(log, IsTimeout)
    {
      LawfulAt(log, i);
      assert forall x :: x in log[..i] ==> x in log;
      assert log[i] in log;
    }
  }

  /** `OnConnectionFailure` is called once at most for each socket error, closed socket and refusal, and once more. */
  lemma FailuresAreBounded(schedule: seq<Action>)
    ensures Tally(After(schedule).log, IsFailure) <= Tally(After(schedule).log, IsTrouble) + 1
  {
    var log := After(schedule).log;
    FailuresAreOwned(schedule);
    var timeouts := Owners(log, IsTimeout);
    forall t, u | t in timeouts && u in timeouts ensures t == u {
      var i: nat :| i < |log| && log[i].thread == t && IsTimeout(log[i].event);
      var j: nat :| j < |log| && log[j].thread == u && IsTimeout(log[j].event);
      OneTimeout(schedule, i, j);
    }
    hide After, OneEach;
    TallyCountsOwners(log, IsFailure);
    TallyCountsOwners(log, IsTrouble);
    SubsetIsSmaller(Owners(log, IsFailure), Owners(log, IsTrouble) + timeouts);
    hide Owners;
    if t :| t in timeouts {
      assert timeouts == {t};
    }
  }
}
