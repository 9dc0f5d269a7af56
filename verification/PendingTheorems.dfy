/** What `SyncGDSClient` guarantees under every interleaving, and schedules that refute what it does not. */
module PendingTheorems {
  import opened Results
  import opened PendingModel

  // The invariant.

  /** The request has registered and has not yet removed its entry. */
  predicate Registered(pc: RequestCounter) {
    pc.Delaying? || pc.Waiting? || pc.Removing? || pc == Cleaning(BadTimeout)
  }

  /** Each entry is under its request's own id, and that request is still to remove it. */
  ghost predicate EntriesOwned(s: System) {
    forall k :: k in s.pending ==>
      && s.pending[k] < |s.requests|
      && s.requests[s.pending[k]].id == k
      && Registered(s.requests[s.pending[k]].pc)
  }

  predicate Took(b: Callback, r: nat) {
    b.Acknowledgement? && b.took == Some(r)
  }

  /** An acknowledgement takes a registered request of its own id, whose entry is then gone. */
  ghost predicate TakenRightly(s: System) {
    forall c: nat, r: nat {:trigger Took(s.callbacks[c], r)} :: c < |s.callbacks| && Took(s.callbacks[c], r) ==>
      && r < |s.requests|
      && s.callbacks[c].ack.id == Some(s.requests[r].id)
      && !Early(s.requests[r].pc)
      && !IsPending(s, r)
  }

  ghost predicate TakenOnce(s: System) {
    forall c: nat, d: nat, r: nat {:trigger Took(s.callbacks[c], r), Took(s.callbacks[d], r)} ::
      c < d < |s.callbacks| && Took(s.callbacks[c], r) ==> !Took(s.callbacks[d], r)
  }

  /** A task is completed by the acknowledgement that took the request; a returned one is of the request's kind. */
  ghost predicate TaskMatches(s: System, q: Request, r: nat) {
    && (q.task.Completed? ==> q.task.callback < |s.callbacks| && Took(s.callbacks[q.task.callback], r))
    && (q.pc.Ended? && q.pc.end.Returned? ==>
          && q.task.Completed?
          && s.callbacks[q.task.callback].ack == q.pc.end.ack
          && q.pc.end.ack.kind == q.kind)
    && (q.pc.Cleaning? ==> !q.pc.end.Returned?)
  }

  ghost predicate TasksMatch(s: System) {
    forall r :: 0 <= r < |s.requests| ==> TaskMatches(s, s.requests[r], r)
  }

  /** What was pending when a failure began is failed, or still to be visited, or settled, or no longer pending. */
  ghost predicate Covers(s: System, b: Callback) {
    b.Failure? ==> forall r :: r in b.due ==>
      && r < |s.requests|
      && !Early(s.requests[r].pc)
      && (|| !s.requests[r].task.Open?
          || !IsPending(s, r)
          || (r in b.left && !b.stage.Clearing? && !b.stage.Cleared?)
          || b.stage == Visiting(r))
  }

  ghost predicate AllCover(s: System) {
    forall c :: 0 <= c < |s.callbacks| ==> Covers(s, s.callbacks[c])
  }

  ghost predicate Inv(s: System) {
    EntriesOwned(s) && TakenRightly(s) && TakenOnce(s) && TasksMatch(s) && AllCover(s)
  }

  /** A request keeps its ids, is not unregistered, keeps the settled state of its task, and ends once. */
  predicate Follows(q: Request, q': Request) {
    && q'.kind == q.kind && q'.id == q.id && q'.wireId == q.wireId
    && (!Early(q.pc) ==> !Early(q'.pc))
    && (!q.task.Open? ==> q'.task == q.task)
    && (q.pc.Ended? ==> q'.pc == q.pc)
  }

  /** What a step never does to what is there already. */
  ghost predicate Grows(s: System, s': System) {
    && |s.requests| <= |s'.requests|
    && |s.callbacks| <= |s'.callbacks|
    && (forall r: nat :: r < |s.requests| ==> Follows(s.requests[r], s'.requests[r]))
    && (forall c: nat, r: nat {:trigger Took(s.callbacks[c], r)} {:trigger Took(s'.callbacks[c], r)} ::
          c < |s.callbacks| && Took(s.callbacks[c], r) ==> Took(s'.callbacks[c], r))
    && (forall c: nat :: c < |s.callbacks| && s.callbacks[c].Acknowledgement? ==>
          s'.callbacks[c].Acknowledgement? && s'.callbacks[c].ack == s.callbacks[c].ack)
  }

  lemma StepGrows(s: System, a: Action)
    ensures Grows(s, Perform(s, a))
  {
    hide RequestStep, AckStep, FailureStep;
    match a
    case StepRequest(r, choice) =>
      if r < |s.requests| {
        GrowsAfterRequest(s, r, choice);
      }
    case StepCallback(c, visit) =>
      if c < |s.callbacks| {
        GrowsAfterCallback(s, c, visit);
      }
    case _ =>
  }

  lemma GrowsAfterRequest(s: System, r: nat, choice: bool)
    requires r < |s.requests|
    ensures Grows(s, RequestStep(s, r, choice))
  {
  }

  lemma GrowsAfterCallback(s: System, c: nat, visit: Option<nat>)
    requires c < |s.callbacks|
    ensures Grows(s, if s.callbacks[c].Acknowledgement? then AckStep(s, c) else FailureStep(s, c, visit))
  {
  }

  lemma AbsentStays(s: System, a: Action, r: nat)
    requires r < |s.requests| && !Early(s.requests[r].pc) && !IsPending(s, r)
    ensures var s' := Perform(s, a); r < |s'.requests| && !IsPending(s', r)
  {
  }

  lemma OwnedStays(s: System, a: Action)
    requires EntriesOwned(s)
    ensures EntriesOwned(Perform(s, a))
  {
    hide RequestStep, AckStep, FailureStep;
    match a
    case StepRequest(r, choice) =>
      if r < |s.requests| {
        OwnedAfterRequest(s, r, choice);
      }
    case StepCallback(c, visit) =>
      if c < |s.callbacks| {
        OwnedAfterCallback(s, c, visit);
      }
    case _ =>
  }

  lemma OwnedAfterRequest(s: System, r: nat, choice: bool)
    requires EntriesOwned(s) && r < |s.requests|
    ensures EntriesOwned(RequestStep(s, r, choice))
  {
    hide Outcome;
    var s' := RequestStep(s, r, choice);
    forall k | k in s'.pending
      ensures s'.pending[k] < |s'.requests| && s'.requests[s'.pending[k]].id == k
      ensures Registered(s'.requests[s'.pending[k]].pc)
    {
      assert k in s.pending || (s.requests[r].pc.Adding? && k == s.requests[r].id);
    }
  }

  lemma OwnedAfterCallback(s: System, c: nat, visit: Option<nat>)
    requires EntriesOwned(s) && c < |s.callbacks|
    ensures EntriesOwned(if s.callbacks[c].Acknowledgement? then AckStep(s, c) else FailureStep(s, c, visit))
  {
  }

  /** The acknowledgement `c` takes request `r` in this step. */
  ghost predicate Takes(s: System, c: nat, r: nat) {
    && c < |s.callbacks| && s.callbacks[c].Acknowledgement? && s.callbacks[c].took.None?
    && s.callbacks[c].ack.id.Some? && s.callbacks[c].ack.id.value in s.pending
    && s.pending[s.callbacks[c].ack.id.value] == r
    && AckStep(s, c).pending == s.pending - {s.callbacks[c].ack.id.value}
  }

  lemma TookBefore(s: System, a: Action, c: nat, r: nat)
    requires var s' := Perform(s, a); c < |s'.callbacks| && Took(s'.callbacks[c], r)
    ensures (c < |s.callbacks| && Took(s.callbacks[c], r)) || (a.StepCallback? && a.callback == c && Takes(s, c, r))
  {
  }

  lemma TakenStays(s: System, a: Action)
    requires EntriesOwned(s) && TakenRightly(s) && TakenOnce(s)
    ensures TakenRightly(Perform(s, a)) && TakenOnce(Perform(s, a))
  {
    hide RequestStep, AckStep, FailureStep;
    var s' := Perform(s, a);
    StepGrows(s, a);
    forall c: nat, r: nat {:trigger Took(s'.callbacks[c], r)} | c < |s'.callbacks| && Took(s'.callbacks[c], r)
      ensures r < |s'.requests| && s'.callbacks[c].ack.id == Some(s'.requests[r].id)
      ensures !Early(s'.requests[r].pc) && !IsPending(s', r)
    {
      TookBefore(s, a, c, r);
      if c < |s.callbacks| && Took(s.callbacks[c], r) {
        AbsentStays(s, a, r);
      }
    }
    forall c: nat, d: nat, r: nat {:trigger Took(s'.callbacks[c], r), Took(s'.callbacks[d], r)}
      | c < d < |s'.callbacks| && Took(s'.callbacks[c], r)
      ensures !Took(s'.callbacks[d], r)
    {
      TookBefore(s, a, c, r);
      if Took(s'.callbacks[d], r) {
        TookBefore(s, a, d, r);
      }
    }
  }

  /** Steps make no request, and no callback changes its kind. */
  lemma StepKeepsCounts(s: System, a: Action)
    ensures a.StepRequest? || a.StepCallback? ==> |Perform(s, a).requests| == |s.requests|
    ensures
      forall c :: 0 <= c < |s.callbacks| ==>
        Perform(s, a).callbacks[c].Acknowledgement? == s.callbacks[c].Acknowledgement?
  {
  }

  lemma TaskStaysAfterRequest(s: System, q: nat, choice: bool, r: nat)
    requires q < |s.requests| && r < |s.requests| && TaskMatches(s, s.requests[r], r)
    ensures var s' := RequestStep(s, q, choice); TaskMatches(s', s'.requests[r], r)
  {
  }

  lemma TaskStaysAfterCallback(s: System, c: nat, visit: Option<nat>, r: nat)
    requires c < |s.callbacks| && r < |s.requests| && TaskMatches(s, s.requests[r], r)
    ensures
      var s' := if s.callbacks[c].Acknowledgement? then AckStep(s, c) else FailureStep(s, c, visit);
      TaskMatches(s', s'.requests[r], r)
  {
  }

  lemma TaskStays(s: System, a: Action, r: nat)
    requires r < |Perform(s, a).requests|
    requires r < |s.requests| ==> TaskMatches(s, s.requests[r], r)
    ensures TaskMatches(Perform(s, a), Perform(s, a).requests[r], r)
  {
    StepGrows(s, a);
    StepKeepsCounts(s, a);
    hide RequestStep, AckStep, FailureStep;
    match a
    case StepRequest(q, choice) =>
      if q < |s.requests| {
        TaskStaysAfterRequest(s, q, choice, r);
      }
    case StepCallback(c, visit) =>
      if c < |s.callbacks| {
        TaskStaysAfterCallback(s, c, visit, r);
      }
    case _ =>
  }

  lemma CoverStays(s: System, a: Action)
    requires Inv(s)
    ensures AllCover(Perform(s, a))
  {
    hide TakenOnce, TasksMatch, TakenRightly, EntriesOwned, RequestStep, AckStep, FailureStep;
    var s' := Perform(s, a);
    StepGrows(s, a);
    forall c | 0 <= c < |s'.callbacks| ensures Covers(s', s'.callbacks[c]) {
      if c < |s.callbacks| && s.callbacks[c].Failure? && a.StepCallback? && a.callback == c {
        CoverAfterFailure(s, c, a.visit);
      } else {
        OthersUntouched(s, a, c);
        if c < |s.callbacks| {
          assert Covers(s, s.callbacks[c]);
          forall r: nat | r < |s.requests| && !Early(s.requests[r].pc) && !IsPending(s, r) ensures !IsPending(s', r) {
            AbsentStays(s, a, r);
          }
        }
      }
    }
  }

  /** A step of another callback leaves a failure as it is, and a new failure owes nothing. */
  lemma OthersUntouched(s: System, a: Action, c: nat)
    requires c < |Perform(s, a).callbacks|
    requires c < |s.callbacks| && a.StepCallback? && a.callback == c ==> s.callbacks[c].Acknowledgement?
    ensures
      var b := Perform(s, a).callbacks[c];
      b.Failure? ==> if c < |s.callbacks| then b == s.callbacks[c] else b.due == {}
  {
  }

  lemma CoverAfterFailure(s: System, c: nat, visit: Option<nat>)
    requires EntriesOwned(s) && AllCover(s) && c < |s.callbacks| && s.callbacks[c].Failure?
    ensures Covers(FailureStep(s, c, visit), FailureStep(s, c, visit).callbacks[c])
  {
    var b := s.callbacks[c];
    assert Covers(s, b);
    if s.pending.Values * b.left == {} {
      forall r | r in b.left && r < |s.requests| ensures !IsPending(s, r) {
        assert r !in s.pending.Values * b.left;
      }
    }
  }

  lemma {:induction false} AlwaysInv(schedule: seq<Action>)
    ensures Inv(After(schedule))
  {
    hide RequestStep, AckStep, FailureStep;
    if schedule != [] {
      var s, a := After(schedule[..|schedule| - 1]), schedule[|schedule| - 1];
      AlwaysInv(schedule[..|schedule| - 1]);
      OwnedStays(s, a);
      TakenStays(s, a);
      CoverStays(s, a);
      forall r: nat | r < |Perform(s, a).requests|
        ensures TaskMatches(Perform(s, a), Perform(s, a).requests[r], r)
      {
        if r < |s.requests| {
          assert TaskMatches(s, s.requests[r], r);
        }
        TaskStays(s, a, r);
      }
    }
  }

  lemma {:induction false} RunGrows(schedule: seq<Action>, i: nat)
    requires i <= |schedule|
    ensures Grows(After(schedule[..i]), After(schedule))
  {
    if i == |schedule| {
      assert schedule[..i] == schedule;
    } else {
      var init := schedule[..|schedule| - 1];
      RunGrows(init, i);
      assert init[..i] == schedule[..i];
      StepGrows(After(init), schedule[|schedule| - 1]);
      hide Perform;
    }
  }

  lemma PrefixGrows(schedule: seq<Action>, i: nat, j: nat)
    requires i <= j <= |schedule|
    ensures Grows(After(schedule[..i]), After(schedule[..j]))
  {
    RunGrows(schedule[..j], i);
    assert schedule[..j][..i] == schedule[..i];
  }

  // Leaks.

  /**
   In every reachable state each entry of the map belongs to a request that registered under that id and has not
   finished; when all requests have finished the map is empty. Reused ids, replies racing timeouts and failures racing
   registrations make no difference.
   */
  lemma NothingLeaks(schedule: seq<Action>)
    ensures
      var s := After(schedule);
      forall k :: k in s.pending ==>
        s.pending[k] < |s.requests| && s.requests[s.pending[k]].id == k && Registered(s.requests[s.pending[k]].pc)
    ensures
      var s := After(schedule);
      (forall q :: q in s.requests ==> q.pc.Ended?) ==> s.pending == map[]
  {
    AlwaysInv(schedule);
    var s := After(schedule);
    if k :| k in s.pending {
      assert s.requests[s.pending[k]] in s.requests;
    }
  }

  /** A request that has ended has no entry, nor has one that returned, and it stays ended with the same result. */
  lemma EndIsFinal(schedule: seq<Action>, i: nat, r: nat)
    requires i <= |schedule| && r < |After(schedule[..i]).requests| && After(schedule[..i]).requests[r].pc.Ended?
    ensures r < |After(schedule).requests| && After(schedule).requests[r].pc == After(schedule[..i]).requests[r].pc
    ensures !IsPending(After(schedule), r)
  {
    RunGrows(schedule, i);
    AlwaysInv(schedule);
  }

  /** An entry never changes hands: an id that is held is refused to every other request until it has left the map. */
  lemma EntryKeepsItsOwner(schedule: seq<Action>, i: nat, id: Id)
    requires i < |schedule| && id in After(schedule[..i]).pending && id in After(schedule[..i + 1]).pending
    ensures After(schedule[..i]).pending[id] == After(schedule[..i + 1]).pending[id]
  {
    assert schedule[..i + 1][..i] == schedule[..i];
  }

  // Correlation.

  /** A returned acknowledgement carries the request's id and kind, and one callback took the request with it. */
  lemma RepliesCorrelate(schedule: seq<Action>, r: nat)
    requires r < |After(schedule).requests|
    requires After(schedule).requests[r].pc.Ended? && After(schedule).requests[r].pc.end.Returned?
    ensures
      var s := After(schedule);
      var ack := s.requests[r].pc.end.ack;
      && ack.id == Some(s.requests[r].id)
      && ack.kind == s.requests[r].kind
      && exists c: nat | c < |s.callbacks| :: Took(s.callbacks[c], r) && s.callbacks[c].ack == ack
  {
    AlwaysInv(schedule);
    var s := After(schedule);
    assert TaskMatches(s, s.requests[r], r);
    assert Took(s.callbacks[s.requests[r].task.callback], r);
  }

  /** Over a whole run each acknowledgement takes at most one request and each request is taken by at most one. */
  lemma TakingIsOneToOne(schedule: seq<Action>, i: nat, j: nat, c: nat, d: nat, q: nat, r: nat)
    requires i <= j <= |schedule|
    requires c < |After(schedule[..i]).callbacks| && Took(After(schedule[..i]).callbacks[c], q)
    requires d < |After(schedule[..j]).callbacks| && Took(After(schedule[..j]).callbacks[d], r)
    ensures c == d <==> q == r
  {
    PrefixGrows(schedule, i, j);
    AlwaysInv(schedule[..j]);
    assert Took(After(schedule[..j]).callbacks[c], q);
  }

  /**
   The request that a call makes registers under the given id, else under that of the given header, else under a new
   one; on the wire it has the given header's id, which may be null, else the one it registers under.
   */
  lemma CallNamesRequest(schedule: seq<Action>, i: nat)
    requires i < |schedule| && schedule[i].Call?
    ensures
      var s, r, a := After(schedule), |After(schedule[..i]).requests|, schedule[i];
      && r < |s.requests|
      && s.requests[r].kind == a.kind
      && (a.messageId.Some? ==> s.requests[r].id == a.messageId.value)
      && (a.messageId.None? && a.header.Some? && a.header.value.Some? ==> s.requests[r].id == a.header.value.value)
      && (a.messageId.None? && (a.header.None? || a.header.value.None?) ==> s.requests[r].id == a.newId)
      && (a.header.Some? ==> s.requests[r].wireId == a.header.value)
      && (a.header.None? ==> s.requests[r].wireId == Some(s.requests[r].id))
  {
    var s, r := After(schedule), |After(schedule[..i]).requests|;
    assert schedule[..i + 1][..i] == schedule[..i];
    RunGrows(schedule, i + 1);
    assert Follows(After(schedule[..i + 1]).requests[r], s.requests[r]);
  }

  /** No caller's header, or one of the id that the request registers under. */
  predicate SameId(messageId: Option<Id>, header: Option<Option<Id>>) {
    header.None? || (header.value.Some? && (messageId.None? || messageId == header.value))
  }

  /**
   The id a request waits under is also the one it puts on the wire exactly if the caller gives no header, or one of
   the same id; then a returned acknowledgement carries the id that went out.
   */
  lemma WireIdIsKey(schedule: seq<Action>, i: nat)
    requires i < |schedule| && schedule[i].Call?
    ensures
      var s, r, a := After(schedule), |After(schedule[..i]).requests|, schedule[i];
      && r < |s.requests|
      && (s.requests[r].wireId == Some(s.requests[r].id) <==> SameId(a.messageId, a.header))
      && (s.requests[r].pc.Ended? && s.requests[r].pc.end.Returned? && SameId(a.messageId, a.header) ==>
            s.requests[r].pc.end.ack.id == s.requests[r].wireId)
  {
    var s, r, a := After(schedule), |After(schedule[..i]).requests|, schedule[i];
    assert schedule[..i + 1][..i] == schedule[..i];
    RunGrows(schedule, i + 1);
    assert Follows(After(schedule[..i + 1]).requests[r], s.requests[r]);
    if s.requests[r].pc.Ended? && s.requests[r].pc.end.Returned? {
      RepliesCorrelate(schedule, r);
    }
  }

  // Replies that still find their request.

  ghost predicate DistinctIds(s: System) {
    forall q, r :: 0 <= q < r < |s.requests| ==> s.requests[q].id != s.requests[r].id
  }

  ghost predicate NoFailure(s: System) {
    forall b :: b in s.callbacks ==> b.Acknowledgement?
  }

  predicate Awaits(pc: RequestCounter) {
    pc.Delaying? || pc.Waiting?
  }

  /** With distinct ids and no connection failure, nothing but a reply takes the entry of a request that still waits. */
  lemma {:induction false} WaitingIsPendingOrTaken(schedule: seq<Action>, r: nat)
    requires DistinctIds(After(schedule)) && NoFailure(After(schedule))
    requires r < |After(schedule).requests| && Awaits(After(schedule).requests[r].pc)
    ensures
      var s := After(schedule);
      IsPending(s, r) || exists c: nat | c < |s.callbacks| :: Took(s.callbacks[c], r)
  {
    hide RequestStep, AckStep, FailureStep;
    if schedule != [] {
      var s, a := After(schedule[..|schedule| - 1]), schedule[|schedule| - 1];
      EarlierAlike(s, a);
      if r < |s.requests| && Awaits(s.requests[r].pc) {
        WaitingIsPendingOrTaken(schedule[..|schedule| - 1], r);
        OnlyTakenAway(s, a, r);
      } else {
        JustAdded(s, a, r);
      }
    }
  }

  lemma JustAdded(s: System, a: Action, r: nat)
    requires r < |Perform(s, a).requests| && Awaits(Perform(s, a).requests[r].pc)
    requires r < |s.requests| ==> !Awaits(s.requests[r].pc)
    ensures IsPending(Perform(s, a), r)
  {
  }

  lemma EarlierAlike(s: System, a: Action)
    requires DistinctIds(Perform(s, a)) && NoFailure(Perform(s, a))
    ensures DistinctIds(s) && NoFailure(s)
  {
    var s' := Perform(s, a);
    StepGrows(s, a);
    StepKeepsCounts(s, a);
    hide Perform;
    assert forall r: nat :: r < |s.requests| ==> Follows(s.requests[r], s'.requests[r]);
    forall b | b in s.callbacks ensures b.Acknowledgement? {
      var c :| 0 <= c < |s.callbacks| && s.callbacks[c] == b;
      assert s'.callbacks[c] in s'.callbacks;
    }
  }

  lemma OnlyTakenAway(s: System, a: Action, r: nat)
    requires DistinctIds(s) && NoFailure(s) && r < |s.requests| && Awaits(s.requests[r].pc)
    requires Awaits(Perform(s, a).requests[r].pc)
    requires IsPending(s, r) || exists c: nat | c < |s.callbacks| :: Took(s.callbacks[c], r)
    ensures
      var s' := Perform(s, a);
      r < |s'.requests| && (IsPending(s', r) || exists c: nat | c < |s'.callbacks| :: Took(s'.callbacks[c], r))
  {
    var s' := Perform(s, a);
    StepGrows(s, a);
    if c: nat :| c < |s.callbacks| && Took(s.callbacks[c], r) {
      assert Took(s'.callbacks[c], r);
    } else if a.StepCallback? && a.callback < |s.callbacks| {
      assert s.callbacks[a.callback] in s.callbacks;
      assert IsPending(s', r) || Took(s'.callbacks[a.callback], r);
    }
  }

  // Failures.

  /** What a failure counts as due is what was pending when it began to enumerate the map. */
  lemma {:induction false} DueWasPending(schedule: seq<Action>, c: nat) returns (i: nat)
    requires c < |After(schedule).callbacks| && After(schedule).callbacks[c].Failure?
    requires !After(schedule).callbacks[c].stage.Starting?
    ensures i < |schedule| && schedule[i].StepCallback? && schedule[i].callback == c
    ensures
      var s := After(schedule[..i]);
      && c < |s.callbacks| && s.callbacks[c].Failure? && s.callbacks[c].stage.Starting?
      && After(schedule).callbacks[c].due == s.pending.Values
  {
    var init, a := schedule[..|schedule| - 1], schedule[|schedule| - 1];
    var s := After(init);
    if a.StepCallback? && a.callback == c && s.callbacks[c].Failure? && s.callbacks[c].stage.Starting? {
      i := |init|;
    } else {
      DueKept(s, a, c);
      i := DueWasPending(init, c);
      assert init[..i] == schedule[..i];
    }
  }

  lemma DueKept(s: System, a: Action, c: nat)
    requires c < |Perform(s, a).callbacks|
    requires var b := Perform(s, a).callbacks[c]; b.Failure? && !b.stage.Starting?
    requires !(a.StepCallback? && a.callback == c && s.callbacks[c].Failure? && s.callbacks[c].stage.Starting?)
    ensures c < |s.callbacks| && s.callbacks[c].Failure? && !s.callbacks[c].stage.Starting?
    ensures s.callbacks[c].due == Perform(s, a).callbacks[c].due
  {
  }

  /**
   When a failure is about to clear the map, every request in it whose task is still open registered after the failure
   began to enumerate the map: everyone who waited then has been failed or completed, or has left the map.
   */
  lemma FailureSparesOnlyLatecomers(schedule: seq<Action>, c: nat) returns (i: nat)
    requires c < |After(schedule).callbacks| && After(schedule).callbacks[c].Failure?
    requires After(schedule).callbacks[c].stage.Clearing?
    ensures i < |schedule| && schedule[i].StepCallback? && schedule[i].callback == c
    ensures
      var s, began := After(schedule), After(schedule[..i]);
      && c < |began.callbacks| && began.callbacks[c].Failure? && began.callbacks[c].stage.Starting?
      && forall k :: k in s.pending && s.pending[k] in began.pending.Values ==>
           s.pending[k] < |s.requests| && !s.requests[s.pending[k]].task.Open?
  {
    AlwaysInv(schedule);
    i := DueWasPending(schedule, c);
    assert Covers(After(schedule), After(schedule).callbacks[c]);
  }
}
