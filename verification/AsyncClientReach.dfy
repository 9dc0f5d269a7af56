/** From which reachable states a client can still be logged in, whatever happened before: an exact condition. */
module AsyncClientReach {
  import opened Results
  import opened ConnectionState
  import opened AsyncClientModel
  import opened AsyncClientLaws
  import opened AsyncClientTheorems
  import opened AsyncClientAlone

  // Who carries the client on.

  /** The thread that won `Connect` and has not started the watch, or the watch on its way to the first swap. */
  predicate Starting(th: Thread) {
    || (th.op == Connect && th.pc == ConnectStart)
    || (th.op == Watch && (th.pc == WatchRegister || th.pc == WatchOpen || th.pc == WatchCas))
  }

  /** The socket-opened event that has made the client `CONNECTED` and goes on to log it in. */
  predicate Opening(th: Thread) {
    th.op == SocketOpened && (th.pc == OpenedSend || th.pc == OpenedLogin)
  }

  /** A client on its way to a login has a thread that carries it on. */
  ghost predicate Carried(c: Client) {
    && (c.shared.state == INITIALIZING ==> exists t :: 0 <= t < |c.threads| && Starting(c.threads[t]))
    && (c.shared.state == CONNECTED ==> exists t :: 0 <= t < |c.threads| && Opening(c.threads[t]))
    && (CONNECTING <= c.shared.state <= LOGGING_IN ==> c.shared.registered)
    && (forall t :: 0 <= t < |c.threads| && c.threads[t].op == Watch && !c.shared.registered ==>
          c.threads[t].pc == WatchRegister)
  }

  /** What a step does for those that carry the client on. */
  predicate Carries(th: Thread, sh: Shared, o: Outcome) {
    && (sh.registered ==> o.shared.registered)
    && (o.shared.state == sh.state == INITIALIZING && Starting(th) ==> o.starts || Starting(th.(pc := o.next)))
    && (o.shared.state == INITIALIZING != sh.state ==> Starting(th.(pc := o.next)))
    && (o.shared.state == sh.state == CONNECTED && Opening(th) ==> Opening(th.(pc := o.next)))
    && (o.shared.state == CONNECTED != sh.state ==> Opening(th.(pc := o.next)) && sh.state == CONNECTING)
    && (o.shared.state == CONNECTING != sh.state ==> th.op == Watch && th.pc == WatchCas)
    && (o.shared.state == LOGGING_IN != sh.state ==> sh.state == CONNECTED)
    && (o.shared.state == NOT_CONNECTED ==> sh.state == NOT_CONNECTED)
    && (th.op == Watch && th.pc != WatchRegister ==> o.next != WatchRegister)
    && (th.op == Watch && th.pc == WatchRegister ==> o.shared.registered)
  }

  lemma ReplyCarries(th: Thread, sh: Shared)
    requires th.op.MessageReceived? && th.op.message.ConnectionAck?
    ensures Carries(th, sh, AckStep(th.op.message.ok, th.pc, sh))
  {
  }

  lemma SocketCarries(th: Thread, sh: Shared)
    ensures th.op.SocketOpened? ==> Carries(th, sh, OpenedStep(th.pc, sh))
    ensures th.op.SocketError? ==> Carries(th, sh, ErrorStep(th.pc, sh))
    ensures th.op.SocketClosed? ==> Carries(th, sh, ClosedStep(th.pc, sh))
  {
  }

  lemma StepCarries(th: Thread, sh: Shared, expire: bool)
    ensures Carries(th, sh, Step(th.op, th.pc, sh, expire))
  {
    if th.op.MessageReceived? && th.op.message.ConnectionAck? {
      ReplyCarries(th, sh);
      hide AckStep;
    } else if th.op.SocketOpened? || th.op.SocketError? || th.op.SocketClosed? {
      SocketCarries(th, sh);
      hide OpenedStep, ErrorStep, ClosedStep;
    } else {
      hide AckStep, OpenedStep, ErrorStep, ClosedStep;
    }
  }

  lemma MoveKeepsCarried(c: Client, t: nat, expire: bool)
    requires Carried(c) && t < |c.threads|
    ensures Carried(Move(c, t, expire))
  {
    hide Step, Starting, Opening;
    var th, c' := c.threads[t], Move(c, t, expire);
    var o := Step(th.op, th.pc, c.shared, expire);
    StepCarries(th, c.shared, expire);
    assert c'.threads[t] == th.(pc := o.next);
    assert forall u :: 0 <= u < |c.threads| && u != t ==> c'.threads[u] == c.threads[u];
    if o.starts {
      assert c'.threads[|c.threads|] == Thread(Watch, WatchRegister);
      assert Starting(c'.threads[|c.threads|]) by {
        NewWatchStarts();
      }
    }
  }

  lemma NewWatchStarts()
    ensures Starting(Thread(Watch, WatchRegister))
  {
  }

  lemma InvokeKeepsCarried(c: Client, op: Operation)
    requires Carried(c)
    ensures Carried(Perform(c, Invoke(op)))
  {
    hide Starting, Opening;
    var c' := Perform(c, Invoke(op));
    assert forall u :: 0 <= u < |c.threads| ==> c'.threads[u] == c.threads[u];
  }

  lemma {:induction false} CarriedAlways(schedule: seq<Action>)
    ensures Carried(After(schedule))
  {
    if schedule != [] {
      var a, init := schedule[|schedule| - 1], schedule[..|schedule| - 1];
      CarriedAlways(init);
      var c := After(init);
      assert After(schedule) == Perform(c, a);
      hide Carried, After, Move;
      match a
      case Invoke(op) => InvokeKeepsCarried(c, op);
      case Advance(t) => if t < |c.threads| { MoveKeepsCarried(c, t, false); }
      case Expire(t) => if t < |c.threads| { MoveKeepsCarried(c, t, true); }
    }
  }

  // What bars a login.

  /** The reply that is about to swap the state to `LOGGED_IN`. */
  predicate Accepting(th: Thread) {
    th.op.MessageReceived? && th.op.message.ConnectionAck? && th.pc == AckAccept
  }

  predicate EntersLogin(event: Event) {
    event.Stored? && event.now == LOGGED_IN
  }

  /** The client is not past a login, and a first reply can still come or has come and is about to swap the state. */
  ghost predicate CanLogIn(c: Client) {
    && c.shared.state < LOGGED_IN
    && (c.shared.count != 0 || exists t :: 0 <= t < |c.threads| && Accepting(c.threads[t]))
  }

  /** The step neither enters `LOGGED_IN` nor comes to do so. */
  predicate Bars(th: Thread, sh: Shared, o: Outcome) {
    var enters := o.event.Some? && EntersLogin(o.event.value);
    && (sh.state >= LOGGED_IN ==> o.shared.state >= LOGGED_IN && !enters)
    && (sh.count == 0 ==> o.shared.count == 0 && !Accepting(th.(pc := o.next)))
    && (sh.count == 0 && !Accepting(th) ==> !enters)
  }

  lemma ReplyBars(th: Thread, sh: Shared)
    requires th.op.MessageReceived? && th.op.message.ConnectionAck?
    ensures Bars(th, sh, AckStep(th.op.message.ok, th.pc, sh))
  {
  }

  lemma SocketBars(th: Thread, sh: Shared)
    requires th.op.SocketOpened? || th.op.SocketError? || th.op.SocketClosed?
    ensures
      Bars(th, sh, OpenedStep(th.pc, sh)) && Bars(th, sh, ErrorStep(th.pc, sh)) && Bars(th, sh, ClosedStep(th.pc, sh))
  {
  }

  lemma StepBars(th: Thread, sh: Shared, expire: bool)
    ensures Bars(th, sh, Step(th.op, th.pc, sh, expire))
  {
    if th.op.MessageReceived? && th.op.message.ConnectionAck? {
      ReplyBars(th, sh);
      hide AckStep;
    } else if th.op.SocketOpened? || th.op.SocketError? || th.op.SocketClosed? {
      SocketBars(th, sh);
      hide OpenedStep, ErrorStep, ClosedStep;
    } else {
      hide AckStep, OpenedStep, ErrorStep, ClosedStep;
    }
  }

  lemma MoveStaysBarred(c: Client, t: nat, expire: bool)
    requires !CanLogIn(c) && t < |c.threads|
    ensures var c' := Move(c, t, expire); !CanLogIn(c') && Tally(c'.log, EntersLogin) == Tally(c.log, EntersLogin)
  {
    hide Step, Accepting, Tally, EntersLogin;
    var th, c' := c.threads[t], Move(c, t, expire);
    var o := Step(th.op, th.pc, c.shared, expire);
    StepBars(th, c.shared, expire);
    if o.event.Some? {
      TallyAppend(c.log, Entry(t, o.event.value), EntersLogin);
    } else {
      assert c'.log == c.log;
    }
    assert forall u :: 0 <= u < |c.threads| && u != t ==> c'.threads[u] == c.threads[u];
    NewWatchAcceptsNothing();
  }

  lemma NewWatchAcceptsNothing()
    ensures !Accepting(Thread(Watch, Entrance(Watch)))
  {
  }

  lemma InvokeStaysBarred(c: Client, op: Operation)
    requires !CanLogIn(c)
    ensures
      var c' := Perform(c, Invoke(op));
      !CanLogIn(c') && Tally(c'.log, EntersLogin) == Tally(c.log, EntersLogin)
  {
    hide Tally;
    TallyAppend(c.log, Entry(|c.threads|, Invoked(op)), EntersLogin);
  }

  lemma {:induction false} StaysBarred(schedule: seq<Action>, more: seq<Action>)
    requires !CanLogIn(After(schedule))
    ensures !CanLogIn(After(schedule + more))
    ensures Tally(After(schedule + more).log, EntersLogin) == Tally(After(schedule).log, EntersLogin)
  {
    if more == [] {
      assert schedule + more == schedule;
    } else {
      var a, init := more[|more| - 1], more[..|more| - 1];
      StaysBarred(schedule, init);
      assert (schedule + more)[..|schedule + more| - 1] == schedule + init;
      var c := After(schedule + init);
      assert After(schedule + more) == Perform(c, a);
      hide After, Move, CanLogIn, Tally;
      match a
      case Invoke(op) => InvokeStaysBarred(c, op);
      case Advance(t) => if t < |c.threads| { MoveStaysBarred(c, t, false); }
      case Expire(t) => if t < |c.threads| { MoveStaysBarred(c, t, true); }
    }
  }

  // What leads to a login.

  /** The threads that run replies stand where they stood, with the same countdown, and there has been no login. */
  ghost predicate RepliesKept(c: Client, c': Client) {
    && |c.threads| <= |c'.threads|
    && (forall t :: 0 <= t < |c.threads| && c.threads[t].op.MessageReceived? ==> c'.threads[t] == c.threads[t])
    && c'.shared.count == c.shared.count
    && Tally(c'.log, EntersLogin) == Tally(c.log, EntersLogin)
  }

  lemma NoReplyStep(op: Operation, pc: Counter, sh: Shared)
    requires !op.MessageReceived?
    ensures
      var o := Step(op, pc, sh, false);
      o.shared.count == sh.count && (o.event.Some? ==> !EntersLogin(o.event.value))
  {
    if op.SocketOpened? || op.SocketError? || op.SocketClosed? {
      hide ConnectStep, WatchStep, CloseStep, SendStep, AckStep, DispatchStep;
    } else {
      hide OpenedStep, ErrorStep, ClosedStep, AckStep, DispatchStep;
    }
  }

  /** A thread that runs no reply takes a step. */
  lemma Onward(s: seq<Action>, t: nat) returns (s': seq<Action>)
    requires t < |After(s).threads| && !After(s).threads[t].op.MessageReceived?
    ensures s <= s' && After(s') == Move(After(s), t, false) && RepliesKept(After(s), After(s'))
  {
    hide After, Step, Tally, EntersLogin;
    var c := After(s);
    var o := Step(c.threads[t].op, c.threads[t].pc, c.shared, false);
    NoReplyStep(c.threads[t].op, c.threads[t].pc, c.shared);
    s' := Then(s, Advance(t));
    if o.event.Some? {
      TallyAppend(c.log, Entry(t, o.event.value), EntersLogin);
    } else {
      assert After(s').log == c.log;
    }
  }

  /** An operation that is no reply is invoked. */
  lemma Enters(s: seq<Action>, op: Operation) returns (s': seq<Action>)
    requires Callable(op, After(s).shared) && !op.MessageReceived?
    ensures s <= s' && RepliesKept(After(s), After(s')) && After(s').shared == After(s).shared
    ensures After(s').threads == After(s).threads + [Thread(op, Entrance(op))]
  {
    hide After, Tally;
    s' := Then(s, Invoke(op));
    TallyAppend(After(s).log, Entry(|After(s).threads|, Invoked(op)), EntersLogin);
  }

  lemma FromNotConnected(s: seq<Action>) returns (s': seq<Action>)
    requires After(s).shared.state == NOT_CONNECTED
    ensures s <= s' && RepliesKept(After(s), After(s')) && After(s').shared.state == INITIALIZING
  {
    hide After, Tally;
    s' := Enters(s, Connect);
    s' := Onward(s', |After(s).threads|);
  }

  predicate OnWay(pc: Counter) {
    pc == WatchRegister || pc == WatchOpen || pc == WatchCas
  }

  /** The watch goes on to its swap. */
  lemma WatchSwaps(s: seq<Action>, w: nat) returns (s': seq<Action>)
    requires w < |After(s).threads| && After(s).threads[w].op == Watch && OnWay(After(s).threads[w].pc)
    requires After(s).shared.state == INITIALIZING
    ensures s <= s' && RepliesKept(After(s), After(s')) && After(s').shared.state == CONNECTING
    decreases match After(s).threads[w].pc case WatchRegister => 2 case WatchOpen => 1 case _ => 0
  {
    var pc := After(s).threads[w].pc;
    hide After, Tally;
    s' := Onward(s, w);
    if pc != WatchCas {
      s' := WatchSwaps(s', w);
    }
  }

  lemma FromInitializing(s: seq<Action>) returns (s': seq<Action>)
    requires After(s).shared.state == INITIALIZING
    ensures s <= s' && RepliesKept(After(s), After(s')) && After(s').shared.state == CONNECTING
  {
    CarriedAlways(s);
    hide After, Tally;
    var t :| 0 <= t < |After(s).threads| && Starting(After(s).threads[t]);
    if After(s).threads[t].op == Connect {
      s' := Onward(s, t);
      assert After(s').threads[|After(s).threads|] == Thread(Watch, WatchRegister);
      s' := WatchSwaps(s', |After(s).threads|);
    } else {
      s' := WatchSwaps(s, t);
    }
  }

  lemma FromConnecting(s: seq<Action>) returns (s': seq<Action>)
    requires After(s).shared.state == CONNECTING
    ensures s <= s' && RepliesKept(After(s), After(s')) && After(s').shared.state == CONNECTED
  {
    CarriedAlways(s);
    hide After, Tally;
    s' := Enters(s, SocketOpened);
    s' := Onward(s', |After(s).threads|);
    s' := Onward(s', |After(s).threads|);
  }

  lemma FromConnected(s: seq<Action>) returns (s': seq<Action>)
    requires After(s).shared.state == CONNECTED
    ensures s <= s' && RepliesKept(After(s), After(s')) && After(s').shared.state == LOGGING_IN
  {
    CarriedAlways(s);
    hide After, Tally;
    var t :| 0 <= t < |After(s).threads| && Opening(After(s).threads[t]);
    s' := s;
    if After(s).threads[t].pc == OpenedSend {
      s' := Onward(s, t);
    }
    s' := Onward(s', t);
  }

  /** From every state below it a client can be brought to `LOGGING_IN` with its replies untouched. */
  lemma ComesToLoggingIn(s: seq<Action>) returns (s': seq<Action>)
    requires NOT_CONNECTED <= After(s).shared.state <= LOGGING_IN
    ensures s <= s' && RepliesKept(After(s), After(s')) && After(s').shared.state == LOGGING_IN
    decreases LOGGING_IN - After(s).shared.state
  {
    hide After, Tally;
    s' := s;
    if After(s).shared.state == NOT_CONNECTED {
      s' := FromNotConnected(s);
    } else if After(s).shared.state == INITIALIZING {
      s' := FromInitializing(s);
    } else if After(s).shared.state == CONNECTING {
      s' := FromConnecting(s);
    } else if After(s).shared.state == CONNECTED {
      s' := FromConnected(s);
    }
    if After(s').shared.state != LOGGING_IN {
      s' := ComesToLoggingIn(s');
    }
  }

  /** A client that is `LOGGING_IN` and has a reply to come, or one about to swap the state, logs in. */
  lemma LogsIn(s: seq<Action>) returns (s': seq<Action>)
    requires CanLogIn(After(s)) && After(s).shared.state == LOGGING_IN
    ensures s <= s' && Tally(After(s').log, EntersLogin) > Tally(After(s).log, EntersLogin)
  {
    var c := After(s);
    if c.shared.count != 0 {
      CarriedAlways(s);
      hide After, Tally;
      s' := AcceptedAlone(s);
      LoginTallied(c.log, |c.threads|);
    } else {
      hide After, Tally;
      var t :| 0 <= t < |c.threads| && Accepting(c.threads[t]);
      s' := SwapsIn(s, t);
    }
  }

  lemma SwapsIn(s: seq<Action>, t: nat) returns (s': seq<Action>)
    requires t < |After(s).threads| && Accepting(After(s).threads[t]) && After(s).shared.state == LOGGING_IN
    ensures s <= s' && Tally(After(s').log, EntersLogin) > Tally(After(s).log, EntersLogin)
  {
    var c := After(s);
    OnlyOkAccepts(s, t);
    hide After, Tally;
    hide ConnectStep, CloseStep, SendStep, OpenedStep, ErrorStep, ClosedStep, WatchStep, DispatchStep;
    assert Step(c.threads[t].op, AckAccept, c.shared, false) == Put(AckSuccess, c.shared, LOGGED_IN);
    hide Step;
    s' := ThreadSteps(s, t);
    TallyAppend(c.log, Entry(t, Stored(LOGGING_IN, LOGGED_IN)), EntersLogin);
  }

  /** Only an OK reply comes to the swap that logs the client in. */
  lemma OnlyOkAccepts(s: seq<Action>, t: nat)
    requires t < |After(s).threads| && Accepting(After(s).threads[t])
    ensures After(s).threads[t].op.message.ok
  {
    LogsAreLawful(s);
    hide After, Lawful;
    assert ThreadInv(After(s).log, t, After(s).threads[t]);
  }

  lemma LoginTallied(log: Log, t: nat)
    ensures Tally(log + AcceptedTrail(t, LOGGING_IN, 1), EntersLogin) > Tally(log, EntersLogin)
  {
    var trail := AcceptedTrail(t, LOGGING_IN, 1);
    hide Tally;
    TallyJoin(log, trail, EntersLogin);
    TallyJoin(trail[..3], trail[3..], EntersLogin);
    TallyAppend(trail[..2], trail[2], EntersLogin);
    assert trail[..3] == trail[..2] + [trail[2]] && trail == trail[..3] + trail[3..];
  }

  lemma ComesToLogin(s: seq<Action>) returns (s': seq<Action>)
    requires CanLogIn(After(s))
    ensures s <= s' && Tally(After(s').log, EntersLogin) > Tally(After(s).log, EntersLogin)
  {
    LogsAreLawful(s);
    hide After, Tally;
    StateRange(After(s).log);
    s' := ComesToLoggingIn(s);
    s' := LogsIn(s');
  }

  /**
   From every reachable state, with the socket reported as lost or not, some continuation logs the client in if and only
   if it is not yet past a login and a first reply is still to come or has come and is about to swap the state.
   */
  lemma LoginPossibleExactly(schedule: seq<Action>)
    ensures CanLogIn(After(schedule)) <==>
            exists more: seq<Action> ::
              Tally(After(schedule + more).log, EntersLogin) > Tally(After(schedule).log, EntersLogin)
  {
    if CanLogIn(After(schedule)) {
      var s := ComesToLogin(schedule);
      assert s == schedule + s[|schedule|..];
    } else {
      forall more: seq<Action>
        ensures Tally(After(schedule + more).log, EntersLogin) == Tally(After(schedule).log, EntersLogin)
      {
        StaysBarred(schedule, more);
      }
    }
  }
}
