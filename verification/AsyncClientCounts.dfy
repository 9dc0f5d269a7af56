/**
 How often the listener is told of an outcome: a balance, kept by every step, between what threads have stored, what
 they have reported, and what they still owe.
 */
module AsyncClientCounts {
  import opened Results
  import opened ConnectionState
  import opened AsyncClientModel
  import opened AsyncClientLaws
  import opened AsyncClientTheorems
  import opened AsyncClientOutcomes
  import opened AsyncClientReach

  /** A thread of which `owes` holds has still to report, in an event that `tells`, what it has stored. */
  datatype Account = Account(stores: Event -> bool, tells: Event -> bool, owes: Thread -> bool)

  /** How many threads still owe a report. */
  function Owing(threads: seq<Thread>, owes: Thread -> bool): nat {
    if threads == [] then 0
    else Owing(threads[..|threads| - 1], owes) + (if owes(threads[|threads| - 1]) then 1 else 0)
  }

  lemma OwingAppend(threads: seq<Thread>, th: Thread, owes: Thread -> bool)
    ensures Owing(threads + [th], owes) == Owing(threads, owes) + if owes(th) then 1 else 0
  {
    assert (threads + [th])[..|threads|] == threads;
  }

  lemma {:induction false} OwingUpdate(threads: seq<Thread>, t: nat, th: Thread, owes: Thread -> bool)
    requires t < |threads|
    ensures Owing(threads[t := th], owes) + (if owes(threads[t]) then 1 else 0) ==
            Owing(threads, owes) + if owes(th) then 1 else 0
  {
    var init := threads[..|threads| - 1];
    if t < |init| {
      OwingUpdate(init, t, th, owes);
      assert threads[t := th][..|init|] == init[t := th];
    } else {
      assert threads[t := th][..|init|] == init;
    }
  }

  lemma {:induction false} NobodyOwes(threads: seq<Thread>, owes: Thread -> bool)
    requires forall th :: th in threads ==> !owes(th)
    ensures Owing(threads, owes) == 0
  {
    if threads != [] {
      assert threads[|threads| - 1] in threads;
      NobodyOwes(threads[..|threads| - 1], owes);
    }
  }

  function Ones(e: Option<Event>, kind: Event -> bool): nat {
    if e.Some? && kind(e.value) then 1 else 0
  }

  /** A step that stores has its thread owe a report, and only a report pays. */
  predicate Balances(a: Account, th: Thread, o: Outcome) {
    (if a.owes(th) then 1 else 0) + Ones(o.event, a.stores) ==
    (if a.owes(th.(pc := o.next)) then 1 else 0) + Ones(o.event, a.tells)
  }

  /** Every step balances; calls store and tell nothing, and new threads owe nothing. */
  ghost predicate Sound(a: Account) {
    && (forall th: Thread, sh: Shared, expire: bool :: Balances(a, th, Step(th.op, th.pc, sh, expire)))
    && (forall op: Operation :: !a.owes(Thread(op, Entrance(op))) && !a.stores(Invoked(op)) && !a.tells(Invoked(op)))
  }

  /** What has been stored is what has been told and what is still owed. */
  ghost predicate Balanced(a: Account, c: Client) {
    Tally(c.log, a.stores) == Tally(c.log, a.tells) + Owing(c.threads, a.owes)
  }

  lemma TrailTally(log: Log, t: nat, o: Outcome, kind: Event -> bool)
    ensures Tally(log + Trail(t, o), kind) == Tally(log, kind) + Ones(o.event, kind)
  {
    if o.event.Some? {
      TallyAppend(log, Entry(t, o.event.value), kind);
    } else {
      assert log + Trail(t, o) == log;
    }
  }

  lemma MoveBalances(a: Account, c: Client, t: nat, expire: bool)
    requires Sound(a) && Balanced(a, c) && t < |c.threads|
    ensures Balanced(a, Move(c, t, expire))
  {
    var th := c.threads[t];
    var o := Step(th.op, th.pc, c.shared, expire);
    var moved, watch := th.(pc := o.next), Thread(Watch, Entrance(Watch));
    assert Balances(a, th, o);
    assert !a.owes(watch);
    hide Sound, Step, Tally, Owing, Trail, Entrance;
    TrailTally(c.log, t, o, a.stores);
    TrailTally(c.log, t, o, a.tells);
    OwingUpdate(c.threads, t, moved, a.owes);
    OwingAppend(c.threads[t := moved], watch, a.owes);
    assert c.threads[t := moved] + [] == c.threads[t := moved];
  }

  lemma InvokeBalances(a: Account, c: Client, op: Operation)
    requires Sound(a) && Balanced(a, c)
    ensures Balanced(a, Perform(c, Invoke(op)))
  {
    var x := Entry(|c.threads|, Invoked(op));
    assert !a.owes(Thread(op, Entrance(op)));
    hide Sound, Tally, Owing;
    TallyAppend(c.log, x, a.stores);
    TallyAppend(c.log, x, a.tells);
    OwingAppend(c.threads, Thread(op, Entrance(op)), a.owes);
  }

  lemma {:induction false} AlwaysBalanced(a: Account, schedule: seq<Action>)
    requires Sound(a)
    ensures Balanced(a, After(schedule))
  {
    if schedule != [] {
      var last, init := schedule[|schedule| - 1], schedule[..|schedule| - 1];
      AlwaysBalanced(a, init);
      var c := After(init);
      assert After(schedule) == Perform(c, last);
      hide After, Balanced, Sound, Move;
      match last
      case Invoke(op) => InvokeBalances(a, c, op);
      case Advance(t) => if t < |c.threads| { MoveBalances(a, c, t, false); }
      case Expire(t) => if t < |c.threads| { MoveBalances(a, c, t, true); }
    }
  }

  // Failures.

  predicate StoresFailed(event: Event) {
    event.Stored? && event.now == FAILED
  }

  predicate IsLoss(event: Event) {
    event == Notified(ConnectionFailure(SocketLost))
  }

  /** A failure that its thread has written to the state. */
  predicate IsRecorded(event: Event) {
    IsFailure(event) && !IsLoss(event)
  }

  /** The thread has written `FAILED` and not yet reported it. */
  predicate OwesFailure(th: Thread) {
    || (th.op == Watch && th.pc == WatchReport)
    || (th.op == SocketError && th.pc == ErrorReport)
    || (IsReply(th.op) && Refusing(th.pc))
  }

  const FAILURES := Account(StoresFailed, IsRecorded, OwesFailure)

  lemma ReplyBalances(th: Thread, sh: Shared)
    requires IsReply(th.op)
    ensures Balances(FAILURES, th, AckStep(th.op.message.ok, th.pc, sh))
  {
  }

  lemma SocketBalances(th: Thread, sh: Shared)
    ensures th.op.SocketOpened? ==> Balances(FAILURES, th, OpenedStep(th.pc, sh))
    ensures th.op.SocketError? ==> Balances(FAILURES, th, ErrorStep(th.pc, sh))
    ensures th.op.SocketClosed? ==> Balances(FAILURES, th, ClosedStep(th.pc, sh))
  {
  }

  lemma FailureBalances(th: Thread, sh: Shared, expire: bool)
    ensures Balances(FAILURES, th, Step(th.op, th.pc, sh, expire))
  {
    if IsReply(th.op) {
      ReplyBalances(th, sh);
      hide AckStep;
    } else if th.op.SocketOpened? || th.op.SocketError? || th.op.SocketClosed? {
      SocketBalances(th, sh);
      hide OpenedStep, ErrorStep, ClosedStep;
    } else {
      hide AckStep, OpenedStep, ErrorStep, ClosedStep;
    }
  }

  lemma FailuresAreSound()
    ensures Sound(FAILURES)
  {
    forall th: Thread, sh: Shared, expire: bool ensures Balances(FAILURES, th, Step(th.op, th.pc, sh, expire)) {
      FailureBalances(th, sh, expire);
    }
  }

  lemma {:induction false} RecordedAndLost(log: Log)
    ensures Tally(log, IsFailure) == Tally(log, IsRecorded) + Tally(log, IsLoss)
  {
    if log != [] {
      RecordedAndLost(log[..|log| - 1]);
    }
  }

  /**
   In every reachable state `OnConnectionFailure` has been called as often as `FAILED` has been written and a socket
   been reported lost, but for the threads that have written it and not yet reported; at rest there are none.
   */
  lemma FailuresExactly(schedule: seq<Action>)
    ensures
      var c := After(schedule);
      && Tally(c.log, IsFailure) + Owing(c.threads, OwesFailure) == Tally(c.log, StoresFailed) + Tally(c.log, IsLoss)
      && (AtRest(c) ==> Owing(c.threads, OwesFailure) == 0)
  {
    var c := After(schedule);
    FailuresAreSound();
    AlwaysBalanced(FAILURES, schedule);
    RecordedAndLost(c.log);
    if AtRest(c) {
      NobodyOwes(c.threads, OwesFailure);
    }
  }

  // Successes.

  predicate IsSuccess(event: Event) {
    event == Notified(ConnectionSuccess)
  }

  /** The thread has logged the client in and not yet reported it. */
  predicate OwesSuccess(th: Thread) {
    IsReply(th.op) && th.pc == AckSuccess
  }

  const SUCCESSES := Account(EntersLogin, IsSuccess, OwesSuccess)

  lemma AcceptanceBalances(th: Thread, sh: Shared)
    requires IsReply(th.op)
    ensures Balances(SUCCESSES, th, AckStep(th.op.message.ok, th.pc, sh))
  {
  }

  lemma SuccessBalances(th: Thread, sh: Shared, expire: bool)
    ensures Balances(SUCCESSES, th, Step(th.op, th.pc, sh, expire))
  {
    if IsReply(th.op) {
      AcceptanceBalances(th, sh);
      hide AckStep;
    } else {
      hide AckStep;
    }
  }

  lemma SuccessesAreSound()
    ensures Sound(SUCCESSES)
  {
    forall th: Thread, sh: Shared, expire: bool ensures Balances(SUCCESSES, th, Step(th.op, th.pc, sh, expire)) {
      SuccessBalances(th, sh, expire);
    }
  }

  /** `OnConnectionSuccess` has been called as often as `LOGGED_IN` has been entered, less a thread about to call it. */
  lemma SuccessesExactly(schedule: seq<Action>)
    ensures
      var c := After(schedule);
      && Tally(c.log, IsSuccess) + Owing(c.threads, OwesSuccess) == Tally(c.log, EntersLogin)
      && (AtRest(c) ==> Owing(c.threads, OwesSuccess) == 0)
  {
    var c := After(schedule);
    SuccessesAreSound();
    AlwaysBalanced(SUCCESSES, schedule);
    if AtRest(c) {
      NobodyOwes(c.threads, OwesSuccess);
    }
  }
}
