/**
 `SyncGDSClient` in its own form: requests and callbacks that work on the map and on task states, with everybody else
 let loose between any two accesses. `Valid` says that the fields are what the transition system reaches by the ghost
 schedule, so every theorem about schedules is one about these methods.
 */
module SyncClient {
  import opened Results
  import opened PendingModel
  import opened PendingTheorems

  datatype TaskState = Incomplete | HasResult(ack: Ack) | HasException

  datatype Exception = GdsRequest | InvalidOperation | ArgumentOutOfRange | ArgumentNull | Timeout | InvalidCast

  /** The state of a request's task completion source. */
  function TaskOf(s: System, q: Request): TaskState {
    match q.task
    case Open => Incomplete
    case Completed(c) =>
      if c < |s.callbacks| && s.callbacks[c].Acknowledgement? then HasResult(s.callbacks[c].ack) else HasException
    case Faulted => HasException
  }

  /** A request that has ended gives its acknowledgement, or the exception of what has ended it. */
  predicate Answers(end: End, r: Result<Ack, Exception>) {
    && (end.Returned? <==> r.Ok?)
    && (end.Returned? ==> r.value == end.ack)
    && (end == TimedOut <==> r == Err(Timeout))
    && (end == ConnectionFailed || end == SendFailed <==> r == Err(GdsRequest))
    && (end == Duplicate <==> r == Err(InvalidOperation))
    && (end == BadTimeout <==> r == Err(ArgumentOutOfRange))
    && (end == WrongType <==> r == Err(InvalidCast))
  }

  /** What can end a request that has come to wait. */
  predicate EndsWait(end: End) {
    end.Returned? || end == TimedOut || end == ConnectionFailed || end == WrongType
  }

  /** A send that fails and a timeout that is refused end the request, and nothing else ends it so. */
  predicate SendsAndDelays(end: End, sends: bool, delays: bool) {
    && (end == SendFailed <==> !sends)
    && (end == BadTimeout <==> sends && !delays && end != Duplicate)
  }

  class SyncGDSClient {
    var pendingMessages: map<Id, nat>
    /** The task completion sources, one for each request, in the order of the calls. */
    var tasks: seq<TaskState>
    ghost var schedule: seq<Action>
    ghost var world: System

    /** The fields are those of the given system. */
    ghost predicate Shows(s: System)
      reads this
    {
      && pendingMessages == s.pending
      && |tasks| == |s.requests|
      && forall r :: 0 <= r < |tasks| ==> tasks[r] == TaskOf(s, s.requests[r])
    }

    ghost predicate Valid()
      reads this
    {
      world == After(schedule) && Shows(world)
    }

    /** The request `r` of this client stands at the given program counter. */
    ghost predicate At(r: nat, pc: RequestCounter)
      reads this
    {
      r < |world.requests| && world.requests[r].pc == pc
    }

    constructor ()
      ensures Valid() && schedule == []
    {
      pendingMessages, tasks := map[], [];
      schedule, world := [], INITIAL;
    }

    /**
     A request is made, a callback begins, or one of these has made its access: this is recorded. The first access
     follows a call at once, so `old` in a method's contract is the state at that access.
     */
    ghost method Record(a: Action)
      requires world == After(schedule) && Shows(Perform(world, a))
      modifies this`schedule, this`world
      ensures Valid() && schedule == old(schedule) + [a] && world == Perform(old(world), a)
    {
      hide Perform;
      assert (schedule + [a])[..|schedule|] == schedule;
      schedule := schedule + [a];
      world := Perform(world, a);
      assert After(schedule) == world;
      hide After;
    }

    /**
     A request or a callback has made its access: the fields are what its step makes of the world. The access is
     recorded, and then the others may do whatever they do before its next one.
     */
    method Yield(ghost a: Action)
      requires world == After(schedule) && Shows(Perform(world, a))
      requires a.StepRequest? || a.StepCallback?
      modifies this
      ensures Valid() && old(schedule) + [a] <= schedule
      ensures Grows(Perform(old(world), a), world)
      ensures
        a.StepRequest? && a.request < |old(world).requests| ==>
          && At(a.request, Perform(old(world), a).requests[a.request].pc)
          && Follows(old(world).requests[a.request], world.requests[a.request])
      ensures
        a.StepCallback? && a.callback < |old(world).callbacks| ==>
          a.callback < |world.callbacks| && world.callbacks[a.callback] == Perform(old(world), a).callbacks[a.callback]
    {
      StepGrows(world, a);
      Record(a);
    }

    /** A request for an event; `sends`, `delays` and `patience` are what the socket and the clock decide. */
    method SendEvent2Async(messageId: Option<Id>, header: Option<Option<Id>>, newId: Id,
                           sends: bool, delays: bool, patience: nat)
      returns (r: Result<Ack, Exception>)
      requires Valid()
      modifies this
      ensures Valid() && old(schedule) <= schedule
      ensures
        var tcs := old(|tasks|);
        && tcs < |world.requests| && world.requests[tcs].pc.Ended? && !IsPending(world, tcs)
        && Answers(world.requests[tcs].pc.end, r)
      ensures SendsAndDelays(world.requests[old(|tasks|)].pc.end, sends, delays)
      ensures !sends ==> r == Err(GdsRequest)
      ensures world.requests[old(|tasks|)].pc.end == TimedOut <==> r == Err(Timeout)
      ensures world.requests[old(|tasks|)].pc.end == Duplicate <==> r == Err(InvalidOperation)
      ensures r.Ok? ==> r.value.kind == EventKind
      ensures r.Ok? && messageId.Some? ==> r.value.id == messageId
      ensures r.Ok? && messageId.None? && header.Some? && header.value.Some? ==> r.value.id == header.value
      ensures r.Ok? && messageId.None? && (header.None? || header.value.None?) ==> r.value.id == Some(newId)
    {
      r := Send(messageId, header, newId, EventKind, sends, delays, patience);
    }

    method SendQueryAsync(messageId: Option<Id>, header: Option<Option<Id>>, newId: Id,
                          sends: bool, delays: bool, patience: nat)
      returns (r: Result<Ack, Exception>)
      requires Valid()
      modifies this
      ensures Valid() && old(schedule) <= schedule
      ensures
        var tcs := old(|tasks|);
        && tcs < |world.requests| && world.requests[tcs].pc.Ended? && !IsPending(world, tcs)
        && Answers(world.requests[tcs].pc.end, r)
      ensures SendsAndDelays(world.requests[old(|tasks|)].pc.end, sends, delays)
      ensures !sends ==> r == Err(GdsRequest)
      ensures world.requests[old(|tasks|)].pc.end == TimedOut <==> r == Err(Timeout)
      ensures world.requests[old(|tasks|)].pc.end == Duplicate <==> r == Err(InvalidOperation)
      ensures r.Ok? ==> r.value.kind == QueryKind
      ensures r.Ok? && messageId.Some? ==> r.value.id == messageId
      ensures r.Ok? && messageId.None? && header.Some? && header.value.Some? ==> r.value.id == header.value
      ensures r.Ok? && messageId.None? && (header.None? || header.value.None?) ==> r.value.id == Some(newId)
    {
      r := Send(messageId, header, newId, QueryKind, sends, delays, patience);
    }

    method Send(givenId: Option<Id>, header: Option<Option<Id>>, newId: Id, kind: Kind,
                sends: bool, delays: bool, patience: nat)
      returns (r: Result<Ack, Exception>)
      requires Valid()
      modifies this
      ensures Valid() && old(schedule) <= schedule
      ensures
        var tcs := old(|tasks|);
        && tcs < |world.requests| && world.requests[tcs].pc.Ended? && !IsPending(world, tcs)
        && Answers(world.requests[tcs].pc.end, r)
      ensures SendsAndDelays(world.requests[old(|tasks|)].pc.end, sends, delays)
      ensures r.Ok? ==> r.value.kind == kind
      ensures r.Ok? && givenId.Some? ==> r.value.id == givenId
      ensures r.Ok? && givenId.None? && header.Some? && header.value.Some? ==> r.value.id == header.value
      ensures r.Ok? && givenId.None? && (header.None? || header.value.None?) ==> r.value.id == Some(newId)
    {
      var tcs := |tasks|;
      tasks := tasks + [Incomplete];
      Record(Call(kind, givenId, header, newId));
      var messageId: Id;
      if givenId.None? {
        if header.None? || header.value.None? {
          messageId := newId;
        } else {
          messageId := header.value.value;
        }
      } else {
        messageId := givenId.value;
      }
      assert At(tcs, Sending) && world.requests[tcs].id == messageId && world.requests[tcs].kind == kind;
      hide KeyOf, WireOf;
      hide After, AckStep, FailureStep, Grows, IsPending, Outcome, RequestStep, SendsAndDelays;
      r := Deliver(tcs, messageId, kind, sends, delays, patience);
      Correlate(tcs);
    }

    /** The request, named, sends its frame and goes on to register. */
    method Deliver(tcs: nat, messageId: Id, kind: Kind, sends: bool, delays: bool, patience: nat)
      returns (r: Result<Ack, Exception>)
      requires Valid() && At(tcs, Sending)
      requires world.requests[tcs].id == messageId && world.requests[tcs].kind == kind
      modifies this
      ensures Valid() && old(schedule) <= schedule
      ensures tcs < |old(world).requests| && tcs < |world.requests|
      ensures Follows(old(world).requests[tcs], world.requests[tcs])
      ensures tcs < |world.requests| && world.requests[tcs].pc.Ended? && Answers(world.requests[tcs].pc.end, r)
      ensures SendsAndDelays(world.requests[tcs].pc.end, sends, delays)
    {
      hide After, AckStep, FailureStep, Grows, IsPending, Outcome;
      Yield(StepRequest(tcs, sends));  // the frame is sent
      if !sends {
        r := Err(GdsRequest);
      } else {
        r := Register(tcs, messageId, kind, delays, patience);
      }
    }

    lemma Correlate(tcs: nat)
      requires Valid() && tcs < |world.requests| && world.requests[tcs].pc.Ended?
      ensures !IsPending(world, tcs)
      ensures
        var q := world.requests[tcs];
        q.pc.end.Returned? ==> q.pc.end.ack == Ack(Some(q.id), q.kind)
    {
      assert schedule[..|schedule|] == schedule;
      EndIsFinal(schedule, |schedule|, tcs);
      if world.requests[tcs].pc.end.Returned? {
        RepliesCorrelate(schedule, tcs);
      }
    }

    /** The request has been sent and now registers, if no other request has its id. */
    method Register(tcs: nat, messageId: Id, kind: Kind, delays: bool, patience: nat)
      returns (r: Result<Ack, Exception>)
      requires Valid() && At(tcs, Adding)
      requires world.requests[tcs].id == messageId && world.requests[tcs].kind == kind
      modifies this
      ensures Valid() && old(schedule) <= schedule
      ensures tcs < |old(world).requests| && tcs < |world.requests|
      ensures Follows(old(world).requests[tcs], world.requests[tcs])
      ensures tcs < |world.requests| && world.requests[tcs].pc.Ended? && Answers(world.requests[tcs].pc.end, r)
      ensures SendsAndDelays(world.requests[tcs].pc.end, true, delays)
    {
      hide After, AckStep, FailureStep, Grows, IsPending, Outcome;
      var added := messageId !in pendingMessages;
      if added {
        pendingMessages := pendingMessages[messageId := tcs];
      }
      Yield(StepRequest(tcs, true));
      if added {
        r := Delay(tcs, messageId, kind, delays, patience);
      } else {
        r := Err(InvalidOperation);
      }
    }

    /** The timeout's delay starts, unless it is refused, and the wait begins. */
    method Delay(tcs: nat, messageId: Id, kind: Kind, delays: bool, patience: nat) returns (r: Result<Ack, Exception>)
      requires Valid() && At(tcs, Delaying)
      requires world.requests[tcs].id == messageId && world.requests[tcs].kind == kind
      modifies this
      ensures Valid() && old(schedule) <= schedule
      ensures tcs < |old(world).requests| && tcs < |world.requests|
      ensures Follows(old(world).requests[tcs], world.requests[tcs])
      ensures tcs < |world.requests| && world.requests[tcs].pc.Ended? && Answers(world.requests[tcs].pc.end, r)
      ensures if delays then EndsWait(world.requests[tcs].pc.end) else world.requests[tcs].pc.end == BadTimeout
    {
      hide After, AckStep, FailureStep, Grows, IsPending, Outcome;
      Yield(StepRequest(tcs, delays));
      if !delays {
        r := Err(ArgumentOutOfRange);
        CleanUp(tcs, messageId, BadTimeout);
      } else {
        r := Await(tcs, messageId, kind, patience);
      }
    }

    /** The wait ends when its task is settled or when the delay has passed. */
    method WaitForTask(tcs: nat, patience: nat) returns (expired: bool)
      requires Valid() && At(tcs, Waiting)
      modifies this
      ensures Valid() && old(schedule) <= schedule && At(tcs, Removing(expired))
      ensures tcs < |old(world).requests| && Follows(old(world).requests[tcs], world.requests[tcs])
      ensures !expired ==> tasks[tcs] != Incomplete
    {
      hide After, AckStep, FailureStep, Grows, IsPending, Outcome;
      var left := patience;
      while tasks[tcs] == Incomplete && left != 0
        invariant Valid() && old(schedule) <= schedule && At(tcs, Waiting)
        invariant tcs < |old(world).requests| && Follows(old(world).requests[tcs], world.requests[tcs])
        decreases left
      {
        Yield(StepRequest(tcs, true));
        left := left - 1;
      }
      expired := tasks[tcs] == Incomplete;
      Yield(StepRequest(tcs, !expired));
    }

    /** The registered request waits for its task or the delay, removes its entry, and returns what its task holds. */
    method Await(tcs: nat, messageId: Id, kind: Kind, patience: nat) returns (r: Result<Ack, Exception>)
      requires Valid() && At(tcs, Waiting)
      requires world.requests[tcs].id == messageId && world.requests[tcs].kind == kind
      modifies this
      ensures Valid() && old(schedule) <= schedule
      ensures tcs < |old(world).requests| && tcs < |world.requests|
      ensures Follows(old(world).requests[tcs], world.requests[tcs])
      ensures tcs < |world.requests| && world.requests[tcs].pc.Ended? && Answers(world.requests[tcs].pc.end, r)
      ensures EndsWait(world.requests[tcs].pc.end)
    {
      hide After, AckStep, FailureStep, Grows, IsPending, Outcome;
      var expired := WaitForTask(tcs, patience);
      pendingMessages := pendingMessages - {messageId};
      Yield(StepRequest(tcs, true));
      if expired {
        r := Err(Timeout);
        CleanUp(tcs, messageId, TimedOut);
      } else {
        r := Read(tcs, messageId, kind);
      }
    }

    /** The result of its task, which has one or holds an exception. */
    method Read(tcs: nat, messageId: Id, kind: Kind) returns (r: Result<Ack, Exception>)
      requires Valid() && At(tcs, Reading) && tasks[tcs] != Incomplete
      requires world.requests[tcs].id == messageId && world.requests[tcs].kind == kind
      modifies this
      ensures Valid() && old(schedule) <= schedule
      ensures tcs < |old(world).requests| && tcs < |world.requests|
      ensures Follows(old(world).requests[tcs], world.requests[tcs])
      ensures tcs < |world.requests| && world.requests[tcs].pc.Ended? && Answers(world.requests[tcs].pc.end, r)
      ensures EndsWait(world.requests[tcs].pc.end)
    {
      hide After, AckStep, FailureStep, Grows, IsPending;
      var task := tasks[tcs];
      Yield(StepRequest(tcs, true));
      if task.HasException? {
        r := Err(GdsRequest);
        CleanUp(tcs, messageId, ConnectionFailed);
      } else if task.ack.kind != kind {
        r := Err(InvalidCast);
        CleanUp(tcs, messageId, WrongType);
      } else {
        r := Ok(task.ack);
      }
    }

    /** The entry is removed on the way of every exception thrown after registration. */
    method CleanUp(tcs: nat, messageId: Id, ghost end: End)
      requires Valid() && At(tcs, Cleaning(end)) && world.requests[tcs].id == messageId
      modifies this
      ensures Valid() && old(schedule) <= schedule && At(tcs, Ended(end))
      ensures tcs < |old(world).requests| && Follows(old(world).requests[tcs], world.requests[tcs])
    {
      hide After, AckStep, FailureStep, Grows, IsPending, Outcome;
      pendingMessages := pendingMessages - {messageId};
      Yield(StepRequest(tcs, true));
    }

    /** It throws for a null id; otherwise the request that it takes out of the map is settled when it returns. */
    method OnAck(ack: Ack) returns (r: Result<(), Exception>)
      requires Valid()
      modifies this
      ensures Valid() && old(schedule) <= schedule
      ensures r.Err? <==> ack.id.None?
      ensures
        var me := |old(world).callbacks|;
        me < |world.callbacks| && world.callbacks[me] == Acknowledgement(ack, Reached(old(world), ack), true)
      ensures Reached(old(world), ack).Some? ==>
                var q := Reached(old(world), ack).value;
                q < |tasks| && tasks[q] != Incomplete && !IsPending(world, q)
    {
      hide After, RequestStep, FailureStep, Grows, IsPending;
      ghost var me := |world.callbacks|;
      ArrivesUnseen(ack);
      Record(Arrive(ack));
      if ack.id.None? {
        Yield(StepCallback(me, None));
        return Err(ArgumentNull);
      }
      var messageId := ack.id.value;
      if messageId in pendingMessages {
        var tcs := pendingMessages[messageId];
        pendingMessages := pendingMessages - {messageId};
        Yield(StepCallback(me, None));
        Complete(me, tcs, ack);
      } else {
        Yield(StepCallback(me, None));
      }
      r := Ok(());
    }

    /** An acknowledgement that arrives changes no task. */
    lemma ArrivesUnseen(ack: Ack)
      requires Valid()
      ensures Shows(Perform(world, Arrive(ack)))
    {
      AlwaysInv(schedule);
      forall r | 0 <= r < |tasks| ensures tasks[r] == TaskOf(Perform(world, Arrive(ack)), world.requests[r]) {
        assert TaskMatches(world, world.requests[r], r);
      }
    }

    /** The acknowledgement that has taken a request completes its task, if that is not settled. */
    method Complete(ghost me: nat, tcs: nat, ack: Ack)
      requires Valid() && me < |world.callbacks| && world.callbacks[me] == Acknowledgement(ack, Some(tcs), false)
      modifies this
      ensures Valid() && old(schedule) <= schedule
      ensures me < |world.callbacks| && world.callbacks[me] == Acknowledgement(ack, Some(tcs), true)
      ensures tcs < |tasks| && tasks[tcs] != Incomplete && !IsPending(world, tcs)
    {
      hide After, RequestStep, FailureStep, IsPending;
      IsTaken(me, tcs);
      if tasks[tcs] == Incomplete {
        tasks := tasks[tcs := HasResult(ack)];
      }
      Yield(StepCallback(me, None));
      IsTaken(me, tcs);
    }

    lemma IsTaken(c: nat, r: nat)
      requires Valid() && c < |world.callbacks| && Took(world.callbacks[c], r)
      ensures r < |world.requests| && !IsPending(world, r)
    {
      AlwaysInv(schedule);
    }

    method OnEventAck3(messageId: Option<Id>) returns (r: Result<(), Exception>)
      requires Valid()
      modifies this
      ensures Valid() && old(schedule) <= schedule
      ensures
        var me := |old(world).callbacks|;
        && me < |world.callbacks|
        && world.callbacks[me] ==
           Acknowledgement(Ack(messageId, EventKind), Reached(old(world), Ack(messageId, EventKind)), true)
      ensures r.Err? <==> messageId.None?
      ensures messageId.Some? && messageId.value in old(pendingMessages) ==>
                var q := old(pendingMessages)[messageId.value];
                q < |tasks| && tasks[q] != Incomplete && !IsPending(world, q)
    {
      r := OnAck(Ack(messageId, EventKind));
    }

    method OnQueryRequestAck11(messageId: Option<Id>) returns (r: Result<(), Exception>)
      requires Valid()
      modifies this
      ensures Valid() && old(schedule) <= schedule
      ensures
        var me := |old(world).callbacks|;
        && me < |world.callbacks|
        && world.callbacks[me] ==
           Acknowledgement(Ack(messageId, QueryKind), Reached(old(world), Ack(messageId, QueryKind)), true)
      ensures r.Err? <==> messageId.None?
      ensures messageId.Some? && messageId.value in old(pendingMessages) ==>
                var q := old(pendingMessages)[messageId.value];
                q < |tasks| && tasks[q] != Incomplete && !IsPending(world, q)
    {
      r := OnAck(Ack(messageId, QueryKind));
    }

    /** Every request that was pending when it was called is settled or has left the map when it returns. */
    method OnConnectionFailure()
      requires Valid()
      modifies this
      ensures Valid() && old(schedule) <= schedule
      ensures forall q :: q in old(pendingMessages).Values ==>
                q < |tasks| && (tasks[q] != Incomplete || !IsPending(world, q))
    {
      hide After, RequestStep, AckStep, Grows, IsPending;
      ghost var due, me := pendingMessages.Values, |world.callbacks|;
      Record(Fail);
      var left := pendingMessages.Values;
      Yield(StepCallback(me, None));
      while pendingMessages.Values * left != {}
        invariant Valid() && old(schedule) <= schedule
        invariant me < |world.callbacks| && world.callbacks[me] == Failure(Enumerating, due, left)
        decreases |left|
      {
        var tcs :| tcs in pendingMessages.Values * left;
        Fault(me, tcs);
        left := left - {tcs};
      }
      Clear(me);
      IsCovered(me);
    }

    /** The enumeration ends and the map is cleared. */
    method Clear(ghost me: nat)
      requires Valid() && me < |world.callbacks| && world.callbacks[me].Failure?
      requires world.callbacks[me].stage.Enumerating? && pendingMessages.Values * world.callbacks[me].left == {}
      modifies this
      ensures Valid() && old(schedule) <= schedule && me < |old(world).callbacks| && me < |world.callbacks|
      ensures world.callbacks[me] == old(world).callbacks[me].(stage := Cleared)
    {
      hide After, RequestStep, AckStep, Grows, IsPending;
      Yield(StepCallback(me, None));
      pendingMessages := map[];
      Yield(StepCallback(me, None));
    }

    /** The enumeration has come to a request and fails its task. */
    method Fault(ghost me: nat, tcs: nat)
      requires Valid() && tcs in pendingMessages.Values
      requires me < |world.callbacks| && world.callbacks[me].Failure? && world.callbacks[me].stage.Enumerating?
      modifies this
      ensures Valid() && old(schedule) <= schedule && me < |old(world).callbacks| && me < |world.callbacks|
      ensures world.callbacks[me] == old(world).callbacks[me].(left := old(world).callbacks[me].left - {tcs})
    {
      hide After, RequestStep, AckStep, Grows, IsPending;
      IsRegistered(tcs);
      Yield(StepCallback(me, Some(tcs)));
      if tasks[tcs] == Incomplete {
        tasks := tasks[tcs := HasException];
      }
      Yield(StepCallback(me, None));
    }

    lemma IsRegistered(r: nat)
      requires Valid() && r in pendingMessages.Values
      ensures r < |world.requests| && !Early(world.requests[r].pc)
    {
      AlwaysInv(schedule);
    }

    lemma IsCovered(c: nat)
      requires Valid() && c < |world.callbacks| && world.callbacks[c].Failure? && world.callbacks[c].stage.Cleared?
      ensures forall q :: q in world.callbacks[c].due ==>
                q < |tasks| && (tasks[q] != Incomplete || !IsPending(world, q))
    {
      AlwaysInv(schedule);
      assert Covers(world, world.callbacks[c]);
    }
  }
}
