/** Exactly when a reply completes its request, and schedules in which a reply or a failure misses one. */
module PendingLimits {
  import opened Results
  import opened PendingModel
  import opened PendingTheorems

  lemma Then(s: seq<Action>, a: Action) returns (s': seq<Action>)
    ensures s <= s' && s' == s + [a] && After(s') == Perform(After(s), a)
  {
    s' := s + [a];
    assert s'[..|s|] == s;
  }

  /**
   An acknowledgement that runs undisturbed completes exactly the request that is pending under its id, if that has not
   been settled; it removes that entry, and otherwise changes nothing.
   */
  lemma ReplyAlone(s: seq<Action>, ack: Ack) returns (s': seq<Action>)
    ensures s <= s'
    ensures
      var before, after, c := After(s), After(s'), |After(s).callbacks|;
      && |after.requests| == |before.requests|
      && after.callbacks == before.callbacks + [Acknowledgement(ack, Reached(before, ack), true)]
      && after.pending == (if ack.id.Some? then before.pending - {ack.id.value} else before.pending)
      && forall r :: 0 <= r < |before.requests| ==>
           after.requests[r] ==
             var q := before.requests[r];
             if ack.id == Some(q.id) && IsPending(before, r) && q.task.Open? then q.(task := Completed(c)) else q
  {
    AlwaysInv(s);
    hide After;
    var c := |After(s).callbacks|;
    s' := Then(s, Arrive(ack));
    s' := Then(s', StepCallback(c, None));
    s' := Then(s', StepCallback(c, None));
  }

  /** A request woken by the reply to it returns that reply, or refuses one of the other kind; no entry is left. */
  lemma ReplyReturned(s: seq<Action>, ack: Ack, r: nat) returns (s': seq<Action>)
    requires r < |After(s).requests| && IsPending(After(s), r)
    requires After(s).requests[r].pc.Waiting? && After(s).requests[r].task.Open?
    requires ack.id == Some(After(s).requests[r].id)
    ensures s <= s'
    ensures
      var q, after := After(s).requests[r], After(s');
      && |after.requests| == |After(s).requests|
      && after.requests[r].pc == Ended(if ack.kind == q.kind then Returned(ack) else WrongType)
      && after.pending == After(s).pending - {q.id}
  {
    var q := After(s).requests[r];
    s' := ReplyAlone(s, ack);
    assert After(s').requests[r] == q.(task := Completed(|After(s).callbacks|));
    s' := WokenAlone(s', r);
  }

  /** A request whose task is completed goes on, undisturbed, to its end. */
  lemma WokenAlone(s: seq<Action>, r: nat) returns (s': seq<Action>)
    requires r < |After(s).requests| && After(s).requests[r].pc.Waiting? && After(s).requests[r].task.Completed?
    ensures s <= s'
    ensures
      var q, after := After(s).requests[r], After(s');
      && q.task.callback < |After(s).callbacks| && After(s).callbacks[q.task.callback].Acknowledgement?
      && |after.requests| == |After(s).requests|
      && after.requests[r].pc == Ended(
           var ack := After(s).callbacks[q.task.callback].ack;
           if ack.kind == q.kind then Returned(ack) else WrongType)
      && after.pending == After(s).pending - {q.id}
  {
    AlwaysInv(s);
    var q := After(s).requests[r];
    assert TaskMatches(After(s), q, r);
    hide After, Inv, Perform, IsPending;
    s' := RequestSteps(s, r);
    assert After(s').requests[r] == q.(pc := Removing(false)) && After(s').pending == After(s).pending;
    s' := RequestSteps(s', r);
    assert After(s').requests[r] == q.(pc := Reading) && After(s').pending == After(s).pending - {q.id};
    s' := RequestSteps(s', r);
    if After(s).callbacks[q.task.callback].ack.kind != q.kind {
      assert After(s').requests[r] == q.(pc := Cleaning(WrongType));
      s' := RequestSteps(s', r);
    }
  }

  lemma RequestSteps(s: seq<Action>, r: nat) returns (s': seq<Action>)
    requires r < |After(s).requests|
    ensures s <= s' && After(s') == RequestStep(After(s), r, true)
  {
    s' := Then(s, StepRequest(r, true));
  }

  /** A request with the given id has been sent, registered and is waiting undisturbed, if its id was free. */
  lemma Registers(s: seq<Action>, id: Id) returns (s': seq<Action>)
    requires id !in After(s).pending
    ensures s <= s'
    ensures
      var before, r := After(s), |After(s).requests|;
      After(s') == before.(
        pending := before.pending[id := r],
        requests := before.requests + [Request(EventKind, id, Some(id), Open, Waiting)])
  {
    hide After;
    var rest, r := After(s).requests, |After(s).requests|;
    s' := Then(s, Call(EventKind, Some(id), None, ""));
    s' := Then(s', StepRequest(r, true));
    assert After(s').requests == rest + [Request(EventKind, id, Some(id), Open, Adding)];
    s' := Then(s', StepRequest(r, true));
    assert After(s').requests == rest + [Request(EventKind, id, Some(id), Open, Delaying)];
    s' := Then(s', StepRequest(r, true));
    assert After(s').requests == rest + [Request(EventKind, id, Some(id), Open, Waiting)];
  }

  // How requests end without a reply.

  /** A request whose frame cannot be sent never registers. */
  lemma SendFailsAlone(s: seq<Action>, r: nat) returns (s': seq<Action>)
    requires r < |After(s).requests| && After(s).requests[r].pc.Sending?
    ensures s <= s' && After(s') == Put(After(s), r, After(s).requests[r].(pc := Ended(SendFailed)))
  {
    s' := Then(s, StepRequest(r, false));
  }

  /** A request that has been sent is refused exactly if its id is in the map, whose entry stays. */
  lemma RegistersExactly(s: seq<Action>, r: nat) returns (s': seq<Action>)
    requires r < |After(s).requests| && After(s).requests[r].pc.Adding?
    ensures s <= s'
    ensures
      var c, q := After(s), After(s).requests[r];
      After(s') ==
        if q.id in c.pending then Put(c, r, q.(pc := Ended(Duplicate)))
        else Put(c, r, q.(pc := Delaying)).(pending := c.pending[q.id := r])
  {
    s' := Then(s, StepRequest(r, true));
  }

  /** A registered request whose timeout is none that a delay accepts ends without an entry. */
  lemma BadTimeoutAlone(s: seq<Action>, r: nat) returns (s': seq<Action>)
    requires r < |After(s).requests| && After(s).requests[r].pc.Delaying?
    ensures s <= s'
    ensures
      var c, q := After(s), After(s).requests[r];
      && After(s').requests == c.requests[r := q.(pc := Ended(BadTimeout))]
      && After(s').pending == c.pending - {q.id} && After(s').callbacks == c.callbacks
  {
    hide After;
    s' := Then(s, StepRequest(r, false));
    s' := RequestSteps(s', r);
  }

  /** A waiting request whose delay passes first ends with a timeout and without an entry. */
  lemma TimesOutAlone(s: seq<Action>, r: nat) returns (s': seq<Action>)
    requires r < |After(s).requests| && After(s).requests[r].pc.Waiting?
    ensures s <= s'
    ensures
      var c, q := After(s), After(s).requests[r];
      && After(s').requests == c.requests[r := q.(pc := Ended(TimedOut))]
      && After(s').pending == c.pending - {q.id} && After(s').callbacks == c.callbacks
  {
    hide After;
    s' := Then(s, StepRequest(r, false));
    s' := RequestSteps(s', r);
    s' := RequestSteps(s', r);
  }

  /** A waiting request whose task a connection failure has settled ends with that failure and without an entry. */
  lemma FailedAlone(s: seq<Action>, r: nat) returns (s': seq<Action>)
    requires r < |After(s).requests| && After(s).requests[r].pc.Waiting? && After(s).requests[r].task.Faulted?
    ensures s <= s'
    ensures
      var c, q := After(s), After(s).requests[r];
      && After(s').requests == c.requests[r := q.(pc := Ended(ConnectionFailed))]
      && After(s').pending == c.pending - {q.id} && After(s').callbacks == c.callbacks
  {
    hide After;
    s' := RequestSteps(s, r);
    s' := RequestSteps(s', r);
    s' := RequestSteps(s', r);
    s' := RequestSteps(s', r);
  }

  // Failures.

  /** What a failure makes of a request: it settles a task that is still open. */
  function Failed(q: Request): Request {
    if q.task.Open? then q.(task := Faulted) else q
  }

  /** A connection failure that runs undisturbed fails exactly the requests that are pending and empties the map. */
  lemma FailureAlone(s: seq<Action>) returns (s': seq<Action>)
    ensures s <= s'
    ensures
      var before, after := After(s), After(s');
      && after.pending == map[]
      && |after.requests| == |before.requests|
      && forall r :: 0 <= r < |before.requests| ==>
           after.requests[r] == if IsPending(before, r) then Failed(before.requests[r]) else before.requests[r]
  {
    AlwaysInv(s);
    hide After;
    var before, c := After(s), |After(s).callbacks|;
    s' := Then(s, Fail);
    s' := Then(s', StepCallback(c, None));
    s' := VisitsAll(s', c);
    s' := Then(s', StepCallback(c, None));
    s' := Then(s', StepCallback(c, None));
    forall r | 0 <= r < |before.requests| ensures IsPending(before, r) <==> r in before.pending.Values {
      if r in before.pending.Values {
        var k :| k in before.pending && before.pending[k] == r;
      }
    }
  }

  /** The enumeration of a failure, undisturbed, visits every request that it has left. */
  lemma {:induction false} VisitsAll(s: seq<Action>, c: nat) returns (s': seq<Action>)
    requires c < |After(s).callbacks| && After(s).callbacks[c].Failure? && After(s).callbacks[c].stage.Enumerating?
    requires After(s).callbacks[c].left <= After(s).pending.Values
    ensures s <= s'
    ensures
      var before, after, left := After(s), After(s'), After(s).callbacks[c].left;
      && after.pending == before.pending
      && after.callbacks == before.callbacks[c := before.callbacks[c].(left := {})]
      && |after.requests| == |before.requests|
      && forall r :: 0 <= r < |before.requests| ==>
           after.requests[r] == if r in left then Failed(before.requests[r]) else before.requests[r]
    decreases After(s).callbacks[c].left
  {
    AlwaysInv(s);
    hide After;
    s' := s;
    if r :| r in After(s).callbacks[c].left {
      s' := Then(s', StepCallback(c, Some(r)));
      s' := Then(s', StepCallback(c, None));
      s' := VisitsAll(s', c);
    } else {
      assert After(s).callbacks[c].(left := {}) == After(s).callbacks[c];
    }
  }

  /** A request that waits although nothing can complete it any more: it has no entry and no reply has taken it. */
  ghost predicate Stranded(s: System, r: nat) {
    && r < |s.requests|
    && s.requests[r].pc.Waiting? && s.requests[r].task.Open?
    && !IsPending(s, r)
    && forall c: nat {:trigger Took(s.callbacks[c], r)} | c < |s.callbacks| :: !Took(s.callbacks[c], r)
  }

  /** Nothing that happens later makes a stranded request return a reply. */
  lemma {:induction false} StrandedNeverReturns(schedule: seq<Action>, i: nat, r: nat)
    requires i <= |schedule| && Stranded(After(schedule[..i]), r)
    ensures var s := After(schedule); r < |s.requests| && !(s.requests[r].pc.Ended? && s.requests[r].pc.end.Returned?)
  {
    NeverTaken(schedule, i, r);
    AlwaysInv(schedule);
    var s := After(schedule);
    assert TaskMatches(s, s.requests[r], r);
  }

  lemma {:induction false} NeverTaken(schedule: seq<Action>, i: nat, r: nat)
    requires i <= |schedule| && Stranded(After(schedule[..i]), r)
    ensures
      var s := After(schedule);
      && r < |s.requests| && !Early(s.requests[r].pc) && !IsPending(s, r)
      && forall c: nat {:trigger Took(s.callbacks[c], r)} | c < |s.callbacks| :: !Took(s.callbacks[c], r)
  {
    if i == |schedule| {
      assert schedule[..i] == schedule;
    } else {
      var init, a := schedule[..|schedule| - 1], schedule[|schedule| - 1];
      assert init[..i] == schedule[..i];
      NeverTaken(init, i, r);
      AlwaysInv(init);
      var s, s' := After(init), After(schedule);
      hide After, Perform;
      StepGrows(s, a);
      AbsentStays(s, a, r);
      forall c: nat | c < |s'.callbacks| && Took(s'.callbacks[c], r) ensures false {
        TookBefore(s, a, c, r);
      }
    }
  }

  /** The request is sent before it registers, so a quick reply finds no entry: it is over and the request waits on. */
  lemma EarlyReplyLost(id: Id) returns (s: seq<Action>)
    ensures
      var after := After(s);
      && after.requests == [Request(EventKind, id, Some(id), Open, Waiting)]
      && after.callbacks == [Acknowledgement(Ack(Some(id), EventKind), None, true)]
  {
    s := Then([], Call(EventKind, Some(id), None, ""));
    assert After(s).requests == [Request(EventKind, id, Some(id), Open, Sending)];
    hide After;
    s := RequestSteps(s, 0);
    s := ReplyAlone(s, Ack(Some(id), EventKind));
    assert After(s).requests == [Request(EventKind, id, Some(id), Open, Adding)];
    s := RequestSteps(s, 0);
    assert After(s).requests == [Request(EventKind, id, Some(id), Open, Delaying)];
    s := RequestSteps(s, 0);
  }

  /** The clean-up of a request that has been answered removes the entry of a second one that uses its id again. */
  lemma ReusedIdStrands(id: Id) returns (s: seq<Action>)
    ensures Stranded(After(s), 1)
    ensures forall b :: b in After(s).callbacks ==> b.Acknowledgement?
  {
    s := Registers([], id);
    hide After;
    var answered := Request(EventKind, id, Some(id), Completed(0), Waiting);
    var second := Request(EventKind, id, Some(id), Open, Waiting);
    s := ReplyAlone(s, Ack(Some(id), EventKind));
    assert After(s).requests == [answered] && After(s).pending == map[];
    s := Registers(s, id);
    assert After(s).requests == [answered, second];
    hide Perform;
    s := RequestSteps(s, 0);
    assert After(s).requests == [answered.(pc := Removing(false)), second];
    s := RequestSteps(s, 0);
    assert After(s).requests == [answered.(pc := Reading), second] && After(s).pending == map[];
  }

  /** A client without requests whose failure has come to the given stage. */
  function Failing(stage: Stage): System {
    System(map[], [], [Failure(stage, {}, {})])
  }

  lemma FailureStarts()
    ensures Perform(INITIAL, Fail) == Failing(Starting)
    ensures Perform(Failing(Starting), StepCallback(0, None)) == Failing(Enumerating)
  {
    assert Failing(Starting).pending.Values == {};
  }

  lemma FailureFindsNothing()
    ensures Perform(Failing(Enumerating), StepCallback(0, None)) == Failing(Clearing)
  {
    assert Failing(Enumerating).pending.Values == {};
  }

  lemma AboutToClear() returns (s: seq<Action>)
    ensures After(s) == Failing(Clearing)
  {
    assert After([]) == INITIAL;
    hide After, Perform, Failing;
    FailureStarts();
    FailureFindsNothing();
    s := Then([], Fail);
    s := Then(s, StepCallback(0, None));
    s := Then(s, StepCallback(0, None));
  }

  /** A request that registers while a failure is about to clear the map loses its entry and is not failed. */
  lemma LatecomerStranded(id: Id) returns (s: seq<Action>)
    ensures Stranded(After(s), 0) && DistinctIds(After(s))
    ensures After(s).callbacks == [Failure(Cleared, {}, {})]
  {
    s := AboutToClear();
    hide After;
    s := Registers(s, id);
    assert After(s).requests == [Request(EventKind, id, Some(id), Open, Waiting)];
    s := Then(s, StepCallback(0, None));
  }
}
