/** Exactly when some continuation of a run leaves a request waiting without an entry. */
module PendingReach {
  import opened Results
  import opened PendingModel
  import opened PendingTheorems
  import opened PendingLimits

  /** The request will or may still remove the entry under its id, whosoever that is. */
  predicate CanRemove(s: System, q: Request) {
    q.pc.Delaying? || q.pc.Waiting? || q.pc.Removing? || q.pc.Cleaning? || (q.pc.Reading? && Outcome(s, q).Cleaning?)
  }

  /** Request `q` uses the id of `r` and can still remove the entry under it. */
  predicate Rivals(s: System, q: nat, r: nat)
    requires q < |s.requests| && r < |s.requests|
  {
    q != r && s.requests[q].id == s.requests[r].id && CanRemove(s, s.requests[q])
  }

  /** The failure is under way and can clear the map without having failed `r`. */
  predicate Passes(b: Callback, r: nat) {
    && b.Failure?
    && (b.stage.Clearing? || (r !in b.left && (b.stage.Enumerating? || (b.stage.Visiting? && b.stage.request != r))))
  }

  ghost predicate Threatened(s: System, r: nat)
    requires r < |s.requests|
  {
    || (exists q: nat :: q < |s.requests| && Rivals(s, q, r))
    || (exists c: nat :: c < |s.callbacks| && Passes(s.callbacks[c], r))
  }

  ghost predicate Taken(s: System, r: nat) {
    exists c: nat :: c < |s.callbacks| && Took(s.callbacks[c], r)
  }

  /**
   The request has not registered yet, or it still waits, unsettled, and no reply has taken its entry, which is gone or
   threatened.
   */
  ghost predicate CanStrand(s: System, r: nat)
    requires r < |s.requests|
  {
    var q := s.requests[r];
    || Early(q.pc)
    || (Awaits(q.pc) && q.task.Open? && !Taken(s, r) && (IsPending(s, r) ==> Threatened(s, r)))
  }

  // Requests that are out of danger stay so.

  /** The request waits, unsettled, with its entry, and nothing threatens it. */
  ghost predicate Guarded(s: System, r: nat) {
    r < |s.requests| && IsPending(s, r) && s.requests[r].task.Open? && !Threatened(s, r)
  }

  /** What a step makes of a guarded request: it stays guarded unless it goes on, is settled, or is taken. */
  ghost predicate Kept(s: System, r: nat) {
    r < |s.requests| && (Awaits(s.requests[r].pc) && s.requests[r].task.Open? && !Taken(s, r) ==> Guarded(s, r))
  }

  lemma KeptAfterOwnStep(s: System, choice: bool, r: nat)
    requires Guarded(s, r) && Awaits(s.requests[r].pc)
    ensures Kept(RequestStep(s, r, choice), r)
  {
    var s' := RequestStep(s, r, choice);
    if Awaits(s'.requests[r].pc) {
      assert IsPending(s', r);
      forall q: nat | q < |s'.requests| ensures !Rivals(s', q, r) {
        assert !Rivals(s, q, r);
      }
    }
  }

  lemma KeptAfterRequest(s: System, a: nat, choice: bool, r: nat)
    requires Guarded(s, r) && a < |s.requests| && a != r
    ensures Kept(RequestStep(s, a, choice), r)
  {
    var s' := RequestStep(s, a, choice);
    assert !Rivals(s, a, r);
    assert IsPending(s', r);
    assert !Rivals(s', a, r);
    forall q: nat | q < |s'.requests| && q != a ensures !Rivals(s', q, r) {
      assert !Rivals(s, q, r) && s'.requests[q] == s.requests[q];
    }
  }

  lemma KeptAfterAck(s: System, c: nat, r: nat)
    requires Guarded(s, r) && c < |s.callbacks| && s.callbacks[c].Acknowledgement? && TakenRightly(s)
    ensures Kept(AckStep(s, c), r)
  {
    var s' := AckStep(s, c);
    assert !Took(s.callbacks[c], r);
    if !IsPending(s', r) {
      assert Took(s'.callbacks[c], r);
    }
    forall q: nat | q < |s'.requests| && IsPending(s', r) ensures !Rivals(s', q, r) {
      assert !Rivals(s, q, r);
    }
    forall d: nat | d < |s'.callbacks| ensures !Passes(s'.callbacks[d], r) {
      assert !Passes(s.callbacks[d], r);
    }
  }

  lemma KeptAfterFailure(s: System, c: nat, visit: Option<nat>, r: nat)
    requires Guarded(s, r) && c < |s.callbacks| && s.callbacks[c].Failure?
    ensures Kept(FailureStep(s, c, visit), r)
  {
    var s' := FailureStep(s, c, visit);
    assert !Passes(s.callbacks[c], r);
    assert r in s.pending.Values;
    if s.callbacks[c].stage.Enumerating? {
      assert r in s.pending.Values * s.callbacks[c].left;
    }
    forall q: nat | q < |s'.requests| && IsPending(s', r) ensures !Rivals(s', q, r) {
      assert !Rivals(s, q, r);
    }
    forall d: nat | d < |s'.callbacks| && s'.requests[r].task.Open? ensures !Passes(s'.callbacks[d], r) {
      assert !Passes(s.callbacks[d], r);
    }
  }

  lemma KeptAfterArrival(s: System, a: Action, r: nat)
    requires Guarded(s, r) && (a.Call? || a.Arrive? || a.Fail?)
    ensures Kept(Perform(s, a), r)
  {
    var s' := Perform(s, a);
    forall q: nat | q < |s'.requests| ensures !Rivals(s', q, r) {
      assert q < |s.requests| ==> !Rivals(s, q, r);
    }
    forall d: nat | d < |s'.callbacks| ensures !Passes(s'.callbacks[d], r) {
      assert d < |s.callbacks| ==> !Passes(s.callbacks[d], r);
    }
  }

  lemma PastStays(s: System, a: Action, r: nat)
    requires r < |s.requests| && !Early(s.requests[r].pc) && !Awaits(s.requests[r].pc)
    ensures r < |Perform(s, a).requests| && !Awaits(Perform(s, a).requests[r].pc)
  {
  }

  lemma GuardedIsKept(s: System, a: Action, r: nat)
    requires Guarded(s, r) && Awaits(s.requests[r].pc) && TakenRightly(s)
    ensures Kept(Perform(s, a), r)
  {
    hide RequestStep, AckStep, FailureStep, TakenRightly, Threatened;
    match a
    case StepRequest(q, choice) =>
      if q == r {
        KeptAfterOwnStep(s, choice, r);
      } else if q < |s.requests| {
        KeptAfterRequest(s, q, choice, r);
      }
    case StepCallback(c, visit) =>
      if c < |s.callbacks| {
        if s.callbacks[c].Acknowledgement? {
          KeptAfterAck(s, c, r);
        } else {
          KeptAfterFailure(s, c, visit, r);
        }
      }
    case _ => KeptAfterArrival(s, a, r);
  }

  lemma DangerStaysAway(s: System, a: Action, r: nat)
    requires Inv(s) && r < |s.requests| && !CanStrand(s, r)
    ensures r < |Perform(s, a).requests| && !CanStrand(Perform(s, a), r)
  {
    var s' := Perform(s, a);
    StepGrows(s, a);
    assert Follows(s.requests[r], s'.requests[r]);
    if !Awaits(s.requests[r].pc) {
      PastStays(s, a, r);
    } else if Taken(s, r) {
      var c: nat :| c < |s.callbacks| && Took(s.callbacks[c], r);
      hide Perform;
      assert Took(s'.callbacks[c], r);
    } else if s.requests[r].task.Open? {
      GuardedIsKept(s, a, r);
    }
  }

  lemma {:induction false} NeverStranded(schedule: seq<Action>, more: seq<Action>, r: nat)
    requires r < |After(schedule).requests| && !CanStrand(After(schedule), r)
    ensures r < |After(schedule + more).requests| && !CanStrand(After(schedule + more), r)
    decreases |more|
  {
    if more == [] {
      assert schedule + more == schedule;
    } else {
      var init, a := more[..|more| - 1], more[|more| - 1];
      assert (schedule + more)[..|schedule + more| - 1] == schedule + init;
      NeverStranded(schedule, init, r);
      AlwaysInv(schedule + init);
      assert After(schedule + more) == Perform(After(schedule + init), a);
      hide After;
      DangerStaysAway(After(schedule + init), a, r);
    }
  }

  lemma StrandedIsInDanger(s: System, r: nat)
    requires Stranded(s, r)
    ensures CanStrand(s, r)
  {
  }

  // Requests in danger can be stranded.

  /** A request waits for what can no longer come if its entry goes while it waits, unsettled and untaken. */
  lemma StrandsWithout(s: System, s': System, r: nat)
    requires Inv(s) && r < |s.requests| && s.requests[r].pc.Waiting? && s.requests[r].task.Open? && IsPending(s, r)
    requires r < |s'.requests| && s'.requests[r] == s.requests[r] && !IsPending(s', r)
    requires forall c: nat {:trigger Took(s'.callbacks[c], r)} ::
               c < |s'.callbacks| && Took(s'.callbacks[c], r) ==> c < |s.callbacks| && Took(s.callbacks[c], r)
    ensures Stranded(s', r)
  {
  }

  /** A rival goes on until it removes the entry. */
  lemma {:induction false} RivalStrands(s: seq<Action>, q: nat, r: nat) returns (s': seq<Action>)
    requires q < |After(s).requests| && r < |After(s).requests| && Rivals(After(s), q, r)
    requires IsPending(After(s), r) && After(s).requests[r].pc.Waiting? && After(s).requests[r].task.Open?
    ensures s <= s' && Stranded(After(s'), r)
    decreases Distance(After(s).requests[q].pc)
  {
    var pc := After(s).requests[q].pc;
    AlwaysInv(s);
    hide After, Inv;
    s' := Then(s, StepRequest(q, false));
    if pc.Removing? || pc.Cleaning? {
      StrandsWithout(After(s), After(s'), r);
    } else {
      s' := RivalStrands(s', q, r);
    }
  }

  function Distance(pc: RequestCounter): nat {
    if pc.Delaying? || pc.Waiting? || pc.Reading? then 1 else 0
  }

  /** A step of a failure that passes the request by, towards the clearing of the map. */
  lemma FailureGoesOn(s: seq<Action>, c: nat, r: nat) returns (s': seq<Action>)
    requires c < |After(s).callbacks| && r < |After(s).requests| && Passes(After(s).callbacks[c], r)
    requires IsPending(After(s), r) && !After(s).callbacks[c].stage.Clearing?
    ensures s <= s' && c < |After(s').callbacks| && r < |After(s').requests| && Passes(After(s').callbacks[c], r)
    ensures After(s').requests[r] == After(s).requests[r] && After(s').pending == After(s).pending
    ensures
      var values, b, b' := After(s).pending.Values, After(s).callbacks[c], After(s').callbacks[c];
      || values * b'.left < values * b.left
      || (values * b'.left == values * b.left && Remaining(b'.stage) < Remaining(b.stage))
  {
    var b := After(s).callbacks[c];
    AlwaysInv(s);
    hide After;
    if b.stage.Enumerating? && After(s).pending.Values * b.left != {} {
      var x :| x in After(s).pending.Values * b.left;
      s' := Then(s, StepCallback(c, Some(x)));
      assert x !in After(s').callbacks[c].left;
    } else {
      s' := Then(s, StepCallback(c, None));
    }
  }

  /** A failure that passes the request by goes on until it clears the map. */
  lemma {:induction false} FailureStrands(s: seq<Action>, c: nat, r: nat) returns (s': seq<Action>)
    requires c < |After(s).callbacks| && r < |After(s).requests| && Passes(After(s).callbacks[c], r)
    requires IsPending(After(s), r) && After(s).requests[r].pc.Waiting? && After(s).requests[r].task.Open?
    ensures s <= s' && Stranded(After(s'), r)
    decreases After(s).pending.Values * After(s).callbacks[c].left, Remaining(After(s).callbacks[c].stage)
  {
    if After(s).callbacks[c].stage.Clearing? {
      AlwaysInv(s);
      hide After, Inv;
      s' := Then(s, StepCallback(c, None));
      StrandsWithout(After(s), After(s'), r);
    } else {
      hide After, Passes, Stranded, Remaining;
      s' := FailureGoesOn(s, c, r);
      s' := FailureStrands(s', c, r);
    }
  }

  function Remaining(stage: Stage): nat {
    if stage.Visiting? then 2 else if stage.Enumerating? then 1 else 0
  }

  /** A request that still awaits a reply has come to wait. */
  lemma ComesToWait(s: seq<Action>, r: nat) returns (s': seq<Action>)
    requires r < |After(s).requests| && Awaits(After(s).requests[r].pc)
    ensures s <= s'
    ensures After(s') == Put(After(s), r, After(s).requests[r].(pc := Waiting))
  {
    hide After;
    s' := s;
    if After(s).requests[r].pc.Delaying? {
      s' := RequestSteps(s, r);
    } else {
      assert After(s).requests[r].(pc := Waiting) == After(s).requests[r];
      assert After(s).requests[r := After(s).requests[r]] == After(s).requests;
    }
  }

  lemma ThreatStrands(s: seq<Action>, r: nat) returns (s': seq<Action>)
    requires r < |After(s).requests| && Awaits(After(s).requests[r].pc) && After(s).requests[r].task.Open?
    requires IsPending(After(s), r) && Threatened(After(s), r)
    ensures s <= s' && Stranded(After(s'), r)
  {
    hide After, Stranded;
    s' := ComesToWait(s, r);
    if q: nat :| q < |After(s).requests| && Rivals(After(s), q, r) {
      s' := RivalStrands(s', q, r);
    } else {
      var c: nat :| c < |After(s).callbacks| && Passes(After(s).callbacks[c], r);
      s' := FailureStrands(s', c, r);
    }
  }

  /** A request whose entry has gone otherwise than to a reply has only to wait. */
  lemma GoneStrands(s: seq<Action>, r: nat) returns (s': seq<Action>)
    requires r < |After(s).requests| && Awaits(After(s).requests[r].pc) && After(s).requests[r].task.Open?
    requires !IsPending(After(s), r) && !Taken(After(s), r)
    ensures s <= s' && Stranded(After(s'), r)
  {
    hide After;
    s' := ComesToWait(s, r);
    forall c: nat {:trigger Took(After(s').callbacks[c], r)} | c < |After(s').callbacks|
      ensures !Took(After(s').callbacks[c], r)
    {
      assert !Took(After(s).callbacks[c], r);
    }
  }

  /** Nobody settles the task of a request that has not registered. */
  ghost predicate Untouched(s: System) {
    && (forall r: nat :: r < |s.requests| && Early(s.requests[r].pc) ==> s.requests[r].task.Open?)
    && (forall c: nat :: c < |s.callbacks| && s.callbacks[c].Failure? && s.callbacks[c].stage.Visiting? ==>
          var x := s.callbacks[c].stage.request;
          x < |s.requests| && !Early(s.requests[x].pc))
  }

  lemma UntouchedAfterRequest(s: System, r: nat, choice: bool)
    requires Untouched(s) && r < |s.requests|
    ensures Untouched(RequestStep(s, r, choice))
  {
    var s' := RequestStep(s, r, choice);
    assert Early(s'.requests[r].pc) ==> Early(s.requests[r].pc) && s'.requests[r].task == s.requests[r].task;
    assert forall q: nat :: q < |s.requests| && q != r ==> s'.requests[q] == s.requests[q];
    assert s'.callbacks == s.callbacks;
    hide RequestStep;
  }

  lemma UntouchedAfterAck(s: System, c: nat)
    requires Untouched(s) && TakenRightly(s) && c < |s.callbacks| && s.callbacks[c].Acknowledgement?
    ensures Untouched(AckStep(s, c))
  {
    var b := s.callbacks[c];
    assert b.took.Some? ==> Took(b, b.took.value);
  }

  lemma UntouchedAfterFailure(s: System, c: nat, visit: Option<nat>)
    requires Untouched(s) && c < |s.callbacks| && s.callbacks[c].Failure?
    ensures Untouched(FailureStep(s, c, visit))
  {
  }

  lemma UntouchedStays(s: System, a: Action)
    requires Inv(s) && Untouched(s)
    ensures Untouched(Perform(s, a))
  {
    hide RequestStep, AckStep, FailureStep;
    match a
    case StepRequest(r, choice) =>
      if r < |s.requests| {
        UntouchedAfterRequest(s, r, choice);
      }
    case StepCallback(c, visit) =>
      if c < |s.callbacks| {
        if s.callbacks[c].Acknowledgement? {
          UntouchedAfterAck(s, c);
        } else {
          UntouchedAfterFailure(s, c, visit);
        }
      }
    case _ =>
  }

  lemma {:induction false} UntouchedAlways(schedule: seq<Action>)
    ensures Untouched(After(schedule))
  {
    if schedule != [] {
      var init, a := schedule[..|schedule| - 1], schedule[|schedule| - 1];
      UntouchedAlways(init);
      AlwaysInv(init);
      assert After(schedule) == Perform(After(init), a);
      hide After;
      UntouchedStays(After(init), a);
    }
  }

  lemma ComesToRegister(s: seq<Action>, r: nat) returns (s': seq<Action>)
    requires r < |After(s).requests| && Early(After(s).requests[r].pc)
    ensures s <= s' && r < |After(s').requests| && After(s').requests[r] == After(s).requests[r].(pc := Adding)
  {
    hide After;
    s' := s;
    if After(s).requests[r].pc.Sending? {
      s' := RequestSteps(s, r);
    }
  }

  /** A reply that nobody has asked for makes the id of a request free. */
  lemma FreesId(s: seq<Action>, r: nat) returns (s': seq<Action>)
    requires r < |After(s).requests| && Early(After(s).requests[r].pc)
    ensures s <= s' && r < |After(s').requests| && After(s').requests[r] == After(s).requests[r]
    ensures After(s).requests[r].id !in After(s').pending
  {
    AlwaysInv(s);
    hide After;
    assert !IsPending(After(s), r);
    s' := ReplyAlone(s, Ack(Some(After(s).requests[r].id), EventKind));
  }

  /** A failure enumerates the map before the request registers. */
  lemma EnumeratesBefore(s: seq<Action>, r: nat) returns (s': seq<Action>)
    requires r < |After(s).requests| && Early(After(s).requests[r].pc)
    ensures s <= s' && After(s').requests == After(s).requests && After(s').pending == After(s).pending
    ensures |After(s').callbacks| == |After(s).callbacks| + 1 && Passes(After(s').callbacks[|After(s).callbacks|], r)
  {
    AlwaysInv(s);
    hide After;
    assert r !in After(s).pending.Values;
    s' := Then(s, Fail);
    s' := Then(s', StepCallback(|After(s).callbacks|, None));
  }

  /** A request that has not registered can do so just behind a failure's enumeration. */
  lemma EarlyStrands(s: seq<Action>, r: nat) returns (s': seq<Action>)
    requires r < |After(s).requests| && Early(After(s).requests[r].pc)
    ensures s <= s' && Stranded(After(s'), r)
  {
    UntouchedAlways(s);
    hide After, Stranded, Passes;
    s' := ComesToRegister(s, r);
    s' := FreesId(s', r);
    var c := |After(s').callbacks|;
    s' := EnumeratesBefore(s', r);
    s' := RequestSteps(s', r);
    s' := RequestSteps(s', r);
    s' := FailureStrands(s', c, r);
  }

  /**
   From every reachable state and for every request, some continuation strands it if and only if it has not registered
   yet, or still waits, unsettled, and its entry is gone otherwise than to a reply, or threatened: by another request of
   the same id that can still remove it, or by a failure under way that has passed the request by.
   */
  lemma StrandingPossibleExactly(schedule: seq<Action>, r: nat)
    requires r < |After(schedule).requests|
    ensures CanStrand(After(schedule), r) <==> exists more: seq<Action> :: Stranded(After(schedule + more), r)
  {
    if CanStrand(After(schedule), r) {
      var s := CanBeStranded(schedule, r);
      assert s == schedule + s[|schedule|..];
    } else {
      forall more: seq<Action> ensures !Stranded(After(schedule + more), r) {
        NeverStranded(schedule, more, r);
      }
    }
  }

  lemma CanBeStranded(s: seq<Action>, r: nat) returns (s': seq<Action>)
    requires r < |After(s).requests| && CanStrand(After(s), r)
    ensures s <= s' && Stranded(After(s'), r)
  {
    hide After, Threatened, Stranded, IsPending, Taken;
    if Early(After(s).requests[r].pc) {
      s' := EarlyStrands(s, r);
    } else if IsPending(After(s), r) {
      s' := ThreatStrands(s, r);
    } else {
      s' := GoneStrands(s, r);
    }
  }

  /** No unfinished request has the id, and no failure is past its beginning. */
  ghost predicate Undisturbed(s: System, r: nat)
    requires r < |s.requests|
  {
    && (forall q: nat :: q < |s.requests| && q != r && s.requests[q].id == s.requests[r].id ==> s.requests[q].pc.Ended?)
    && (forall c: nat :: c < |s.callbacks| && s.callbacks[c].Failure? ==>
          s.callbacks[c].stage.Starting? || s.callbacks[c].stage.Cleared?)
  }

  /**
   A request that has registered undisturbed keeps its entry until a reply takes it or a failure settles it, as long as
   it waits, whatever ids are used and whatever fails later.
   */
  lemma UndisturbedKeepsEntry(schedule: seq<Action>, more: seq<Action>, r: nat)
    requires r < |After(schedule).requests| && IsPending(After(schedule), r) && Undisturbed(After(schedule), r)
    ensures
      var s := After(schedule + more);
      r < |s.requests| &&
      (Awaits(s.requests[r].pc) ==> IsPending(s, r) || !s.requests[r].task.Open? || Taken(s, r))
  {
    var s := After(schedule);
    AlwaysInv(schedule);
    forall q: nat | q < |s.requests| ensures !Rivals(s, q, r) {
    }
    forall c: nat | c < |s.callbacks| ensures !Passes(s.callbacks[c], r) {
    }
    NeverStranded(schedule, more, r);
  }
}
