/** Schedules that show what `AsyncGDSClient` does not guarantee, and when it does. */
module AsyncClientLimits {
  import opened Results
  import opened ConnectionState
  import opened AsyncClientModel
  import opened AsyncClientLaws
  import opened AsyncClientTheorems
  import opened AsyncClientAlone
  import opened AsyncClientOutcomes

  /** The client has called `Connect`, and the watch thread, thread 1, has registered the handlers. */
  lemma Registered() returns (s: seq<Action>)
    ensures After(s).shared == Shared(INITIALIZING, 1, 1, true)
    ensures After(s).threads == [Thread(Connect, Finished), Thread(Watch, WatchOpen)]
    ensures After(s).log ==
            [Entry(0, Invoked(Connect)), Entry(0, Stored(NOT_CONNECTED, INITIALIZING)), Entry(0, Started)]
  {
    s := Then([], Invoke(Connect));
    assert After(s).threads == [Thread(Connect, ConnectCas)];
    s := Then(s, Advance(0));
    assert After(s).threads == [Thread(Connect, ConnectStart)];
    s := Then(s, Advance(0));
    assert After(s).threads == [Thread(Connect, Finished), Thread(Watch, WatchRegister)];
    s := Then(s, Advance(1));
  }

  /** The watch thread waits for the reply to a login that is not yet sent. */
  lemma Connecting() returns (s: seq<Action>)
    ensures After(s).shared == Shared(CONNECTING, 1, 1, true)
    ensures After(s).threads == [Thread(Connect, Finished), Thread(Watch, WatchWait)]
    ensures After(s).log ==
            [Entry(0, Invoked(Connect)), Entry(0, Stored(NOT_CONNECTED, INITIALIZING)), Entry(0, Started),
             Entry(1, Called(OpenCall)), Entry(1, Stored(INITIALIZING, CONNECTING))]
  {
    s := Registered();
    hide After;
    s := ThreadSteps(s, 1);
    s := ThreadSteps(s, 1);
  }

  /** The socket has opened in time and the login is sent; threads 0, 1 and 2 are the call, the watch and the event. */
  lemma LoggingIn() returns (s: seq<Action>)
    ensures After(s).shared == Shared(LOGGING_IN, 0, 1, true)
    ensures After(s).threads == [Thread(Connect, Finished), Thread(Watch, WatchWait), Thread(SocketOpened, Finished)]
    ensures After(s).log ==
            [Entry(0, Invoked(Connect)), Entry(0, Stored(NOT_CONNECTED, INITIALIZING)), Entry(0, Started),
             Entry(1, Called(OpenCall)), Entry(1, Stored(INITIALIZING, CONNECTING)), Entry(2, Invoked(SocketOpened)),
             Entry(2, Stored(CONNECTING, CONNECTED)), Entry(2, Sent(Login)), Entry(2, Stored(CONNECTED, LOGGING_IN))]
  {
    s := Connecting();
    hide After;
    s := OpenedAlone(s);
  }

  /**
   The socket closes under a client that has never been logged in: undisturbed, `OnDisconnect` is called exactly if the
   client is `DISCONNECTED`, which it is only if `Close` has been called.
   */
  lemma PrematureDisconnectExactly(s: seq<Action>) returns (s': seq<Action>)
    requires After(s).shared.registered && !Entered(After(s).log, LOGGED_IN)
    ensures s <= s' && After(s).log <= After(s').log
    ensures Happened(After(s').log[|After(s).log|..], Notified(Disconnect)) <==> After(s).shared.state == DISCONNECTED
    ensures After(s).shared.state == DISCONNECTED ==> Happened(After(s).log, Invoked(Close))
  {
    s' := SocketClosedAlone(s);
    var c := After(s);
    var trail := ClosedTrail(|c.threads|, c.shared.state);
    LogsAreLawful(s);
    if c.shared.state != NOT_CONNECTED {
      StateWasEntered(c.log);
    }
    if c.shared.state == DISCONNECTED {
      DisconnectedIsOwed(c.log);
      assert trail[1] in trail;
    }
    assert After(s').log[|c.log|..] == trail;
  }

  /** `OnDisconnect` does not imply a login: it is called for a close that came before any. */
  lemma DisconnectWithoutLogin() returns (s: seq<Action>)
    ensures Happened(After(s).log, Notified(Disconnect)) && !Entered(After(s).log, LOGGED_IN)
  {
    s := Registered();
    hide After, CloseTrail, ClosedTrail;
    var before := After(s).log;
    s := ClosedAlone(s);
    s := SocketClosedAlone(s);
    PrematureTrails(before);
  }

  /** The log of a close and of a closed socket in `DISCONNECTED` holds no login. */
  lemma PrematureTrails(before: Log)
    requires !Entered(before, LOGGED_IN)
    ensures
      var log := before + CloseTrail(2, INITIALIZING) + ClosedTrail(3, DISCONNECTED);
      !Entered(log, LOGGED_IN) && Happened(log, Notified(Disconnect))
  {
    var log := before + CloseTrail(2, INITIALIZING) + ClosedTrail(3, DISCONNECTED);
    assert ClosedTrail(3, DISCONNECTED)[1] == Entry(3, Notified(Disconnect));
    assert Entry(3, Notified(Disconnect)) in log;
    assert forall x :: x in log && x !in before && x.event.Stored? ==> x.event.now == DISCONNECTED;
  }

  /**
   The socket closes and then the wait runs out, nothing else happening: the client that was on its way to a login has
   two failures reported, and no other has any.
   */
  lemma FailureReportedTwiceExactly(s: seq<Action>, w: nat) returns (s': seq<Action>)
    requires After(s).shared.registered
    requires w < |After(s).threads| && After(s).threads[w] == Thread(Watch, WatchRead)
    ensures s <= s'
    ensures Tally(After(s').log, IsFailure) ==
            Tally(After(s).log, IsFailure) + if After(s).shared.state < LOGGED_IN then 2 else 0
  {
    hide After, Tally, ClosedTrail, TimeoutTrail, IsFailure;
    var c, t := After(s), |After(s).threads|;
    StateInRange(s);
    ClosedFailures(t, c.shared.state);
    TimeoutFailure(w, c.shared.state);
    s' := SocketClosedAlone(s);
    TallyJoin(c.log, ClosedTrail(t, c.shared.state), IsFailure);
    TallyJoin(After(s').log, TimeoutTrail(w, c.shared.state), IsFailure);
    s' := TimesOut(s', w);
  }

  /** The states have the numbers that users of the client see. */
  lemma StatesAreNumbered()
    ensures NOT_CONNECTED == 0 && INITIALIZING == 1 && CONNECTING == 2 && CONNECTED == 3
    ensures LOGGING_IN == 4 && LOGGED_IN == 5 && DISCONNECTED == 6 && FAILED == 7
  {
  }

  lemma StateInRange(s: seq<Action>)
    ensures 0 <= After(s).shared.state <= 7
  {
    LogsAreLawful(s);
    StateRange(After(s).log);
  }

  lemma TimeoutFailure(t: nat, state: int)
    ensures Tally(TimeoutTrail(t, state), IsFailure) == 1
  {
    var trail := TimeoutTrail(t, state);
    assert trail[..1] == [trail[0]];
    assert Tally([trail[0]], IsFailure) == 0 by {
      assert [trail[0]][..0] == [];
    }
  }

  lemma ClosedFailures(t: nat, state: int)
    requires NOT_CONNECTED <= state <= FAILED
    ensures Tally(ClosedTrail(t, state), IsFailure) == if state < LOGGED_IN then 1 else 0
  {
    var trail, n := ClosedTrail(t, state), |ClosedTrail(t, state)|;
    assert n >= 2 ==> trail[..n - 1][..n - 2] == trail[..n - 2];
    assert n == 2 ==> trail[..1] == [trail[0]];
    assert n == 3 ==> trail[..2] == [trail[0], trail[1]] && trail[..1] == [trail[0]];
    assert Tally([trail[0]], IsFailure) == 0 by {
      assert [trail[0]][..0] == [];
    }
  }

  /** `OnConnectionFailure` is not called at most once: first for the closed socket, then for the timeout. */
  lemma FailureReportedTwice() returns (s: seq<Action>)
    ensures Tally(After(s).log, IsFailure) >= 2
  {
    s := LoggingIn();
    hide After;
    s := Then(s, Expire(1));
    s := FailureReportedTwiceExactly(s, 1);
  }

  /**
   An OK reply and then the timeout, nothing else happening: the timeout overwrites `LOGGED_IN` if and only if the
   client was `LOGGING_IN` and the reply the first, or was logged in before.
   */
  lemma TimeoutOverwritesLoginExactly(s: seq<Action>, w: nat) returns (s': seq<Action>)
    requires After(s).shared.registered
    requires w < |After(s).threads| && After(s).threads[w] == Thread(Watch, WatchRead)
    ensures s <= s'
    ensures
      var c, c' := After(s), After(s');
      |c.log| <= |c'.log| &&
      (Entry(w, Stored(LOGGED_IN, FAILED)) in c'.log[|c.log|..] <==>
         c.shared.state == LOGGED_IN || (c.shared.state == LOGGING_IN && c.shared.count != 0))
  {
    hide After, Replied, AcceptedTrail;
    var c, t := After(s), |After(s).threads|;
    s' := AcceptedAlone(s);
    var state, reply := After(s').shared.state, AcceptedTrail(t, c.shared.state, c.shared.count);
    RepliesFailNobody(c.shared, t);
    s' := TimesOut(s', w);
    var last := if state == DISCONNECTED || state == FAILED then [] else TimeoutTrail(w, state);
    assert After(s').log == c.log + (reply + last);
    assert After(s').log[|c.log|..] == reply + last;
  }

  /** An accepted reply stores `LOGGED_IN` or nothing. */
  lemma RepliesFailNobody(sh: Shared, t: nat)
    ensures forall x :: x in AcceptedTrail(t, sh.state, sh.count) && x.event.Stored? ==> x.event.now == LOGGED_IN
    ensures Replied(sh, true).state == LOGGED_IN <==>
            sh.state == LOGGED_IN || (sh.state == LOGGING_IN && sh.count != 0)
  {
  }

  /** A login that the listener was told of is overwritten by the timeout, if the reply comes as the wait ends. */
  lemma TimeoutOverwritesLogin() returns (s: seq<Action>)
    ensures Happened(After(s).log, Notified(ConnectionSuccess))
    ensures Happened(After(s).log, Stored(LOGGED_IN, FAILED)) && After(s).shared.state == FAILED
  {
    s := LoggingIn();
    hide After;
    s := Then(s, Expire(1));
    s := AcceptedAlone(s);
    var success := Entry(3, Notified(ConnectionSuccess));
    assert success in After(s).log;
    s := TimesOut(s, 1);
    assert success in After(s).log && Entry(1, Stored(LOGGED_IN, FAILED)) in After(s).log;
  }

  /** If the socket opens before the watch thread has moved on, its handler throws and no login is sent. */
  lemma OpenedTooEarly() returns (s: seq<Action>)
    ensures |After(s).threads| == 3 && After(s).threads[2] == Thread(SocketOpened, Finished)
    ensures Happened(After(s).log, Threw)
    ensures !Happened(After(s).log, Sent(Login)) && After(s).shared.state == INITIALIZING
  {
    s := Registered();
    hide After;
    s := OpenedAlone(s);
    assert Entry(2, Threw) in After(s).log;
  }

  /** A socket that opens a second time after a close has the login sent a second time. */
  lemma LoginSentTwice() returns (s: seq<Action>, i: nat, j: nat)
    ensures i < j < |After(s).log| && After(s).log[i].event == Sent(Login) == After(s).log[j].event
  {
    s := LoggingIn();
    hide After;
    s := ClosedAlone(s);
    i, j := 7, |After(s).log| + 1;
    s := OpenedAlone(s);
  }

  /** A close whose check the timeout overtakes lowers the state from `FAILED` to `DISCONNECTED`. */
  lemma CloseOvertaken() returns (s: seq<Action>)
    ensures Happened(After(s).log, Stored(FAILED, DISCONNECTED))
  {
    s := LoggingIn();
    hide After;
    var rest := After(s).threads;
    s := Then(s, Invoke(Close));
    s := LastSteps(s, rest, Thread(Close, CloseRead(false)));
    s := Then(s, Expire(1));
    s := TimesOut(s, 1);
    s := ThreadSteps(s, 3);
    assert Entry(3, Stored(FAILED, DISCONNECTED)) in After(s).log;
  }

  /**
   The socket closes and then an OK reply comes, nothing else happening: the client ends up `LOGGED_IN` if and only if
   it was `LOGGING_IN` and the reply is the first; the socket has then been reported as lost.
   */
  lemma LoggedInOnLostSocketExactly(s: seq<Action>) returns (s': seq<Action>)
    requires After(s).shared.registered
    ensures s <= s'
    ensures
      var c := After(s);
      var entered := c.shared.state == LOGGING_IN && c.shared.count != 0;
      && After(s').shared.closed == 1
      && (After(s').shared.state == LOGGED_IN <==> entered)
      && (entered ==> Entry(|c.threads|, Notified(ConnectionFailure(SocketLost))) in After(s').log)
  {
    hide After, AcceptedTrail;
    var c := After(s);
    s' := SocketClosedAlone(s);
    var lost := Entry(|c.threads|, Notified(ConnectionFailure(SocketLost)));
    assert c.shared.state == LOGGING_IN ==> After(s').log[|c.log| + 1] == lost;
    assert c.shared.state == LOGGING_IN ==> lost in After(s').log;
    s' := AcceptedAlone(s');
  }

  /** A reply accepted while the socket closes leaves the client `LOGGED_IN` on a socket reported as lost. */
  lemma LoggedInOnLostSocket() returns (s: seq<Action>)
    ensures After(s).shared.state == LOGGED_IN && After(s).shared.closed == 1
    ensures Happened(After(s).log, Notified(ConnectionFailure(SocketLost)))
  {
    s := LoggingIn();
    hide After;
    var rest := After(s).threads;
    s := Then(s, Invoke(SocketClosed));
    s := LastSteps(s, rest, Thread(SocketClosed, ClosedExchange));
    s := LastSteps(s, rest, Thread(SocketClosed, ClosedRead));
    s := LastSteps(s, rest, Thread(SocketClosed, ClosedCas));
    s := AcceptedAlone(s);
    s := ThreadSteps(s, 3);
    s := ThreadSteps(s, 3);
    assert Entry(3, Notified(ConnectionFailure(SocketLost))) in After(s).log;
  }

  /** The login is sent and the state not yet `LOGGING_IN`. */
  lemma LoginSent() returns (s: seq<Action>)
    ensures After(s).shared == Shared(CONNECTED, 0, 1, true)
    ensures After(s).threads ==
            [Thread(Connect, Finished), Thread(Watch, WatchWait)] + [Thread(SocketOpened, OpenedLogin)]
    ensures Silent(After(s).log) && Entry(0, Started) in After(s).log
    ensures forall x :: x in After(s).log ==> x.thread != 3
  {
    s := Connecting();
    hide After;
    var rest, before := After(s).threads, After(s).log;
    assert before[2] == Entry(0, Started);
    s := Then(s, Invoke(SocketOpened));
    s := LastSteps(s, rest, Thread(SocketOpened, OpenedExchange));
    s := LastSteps(s, rest, Thread(SocketOpened, OpenedCas));
    s := LastSteps(s, rest, Thread(SocketOpened, OpenedSend));
    assert After(s).log == before + [Entry(2, Invoked(SocketOpened))] + [Entry(2, Stored(CONNECTING, CONNECTED))]
                           + [Entry(2, Sent(Login))];
    hide Silent;
    OpeningLog(before);
  }

  lemma OpeningLog(before: Log)
    requires Silent(before) && Entry(0, Started) in before && forall x :: x in before ==> x.thread != 3
    ensures
      var log := before + [Entry(2, Invoked(SocketOpened))] + [Entry(2, Stored(CONNECTING, CONNECTED))]
                 + [Entry(2, Sent(Login))];
      Silent(log) && Entry(0, Started) in log && forall x :: x in log ==> x.thread != 3
  {
  }

  /**
   A reply handled between the sending of the login and the swap to `LOGGING_IN` is lost: it uses up the countdown, so
   that the watch ends content, every thread ends, and the listener is never told anything.
   */
  lemma ReplyLost() returns (s: seq<Action>)
    ensures After(s).shared == Shared(LOGGING_IN, 0, 0, true)
    ensures AtRest(After(s)) && Happened(After(s).log, Started)
    ensures Silent(After(s).log) && Wasted(After(s).log, 3)
  {
    s := LoginSent();
    hide After, Silent, Wasted;
    var before := After(s).log;
    s := AcceptedAlone(s);
    LostTrail(before, AcceptedTrail(3, CONNECTED, 1) + [Entry(2, Stored(CONNECTED, LOGGING_IN))]);
    s := ThreadSteps(s, 2);
    s := ThreadSteps(s, 1);
    assert After(s).log == before + (AcceptedTrail(3, CONNECTED, 1) + [Entry(2, Stored(CONNECTED, LOGGING_IN))]);
  }

  lemma LostTrail(before: Log, trail: Log)
    requires Silent(before) && Entry(0, Started) in before && forall x :: x in before ==> x.thread != 3
    requires trail == AcceptedTrail(3, CONNECTED, 1) + [Entry(2, Stored(CONNECTED, LOGGING_IN))]
    ensures Silent(before + trail) && Wasted(before + trail, 3) && Happened(before + trail, Started)
  {
    assert Entry(0, Started) in before + trail;
    assert trail[1] == Entry(3, Signalled) && trail[1] in before + trail;
  }
}
