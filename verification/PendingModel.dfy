/**
 `SyncGDSClient` as a transition system: requests that send, register themselves in the pending map, wait and clean
 up; acknowledgements that take an entry out of the map and complete its task; connection failures that fail every
 task and clear the map. One step makes one access to the map, to a task or to the socket.
 */
module PendingModel {
  import opened Results

  type Id = string

  datatype Kind = EventKind | QueryKind

  /** An acknowledgement: the id in its header, which may be null, and what it acknowledges. */
  datatype Ack = Ack(id: Option<Id>, kind: Kind)

  /** The state of a request's task; a completed one names the callback that completed it. */
  datatype Task = Open | Completed(callback: nat) | Faulted

  datatype End = Returned(ack: Ack) | TimedOut | ConnectionFailed | SendFailed | Duplicate | BadTimeout | WrongType

  datatype RequestCounter =
    | Sending
    | Adding
    | Delaying
    | Waiting
    | Removing(expired: bool)
    | Reading
    | Cleaning(end: End)
    | Ended(end: End)

  /** A request: the id it registers under, the id its header puts on the wire, its task and its program counter. */
  datatype Request = Request(kind: Kind, id: Id, wireId: Option<Id>, task: Task, pc: RequestCounter)

  /** How far a connection failure has come with the entries of the map. */
  datatype Stage = Starting | Enumerating | Visiting(request: nat) | Clearing | Cleared

  /**
   A callback. An acknowledgement records the request it took out of the map; a failure records the requests that were
   pending when its enumeration began, and those of them that it has not visited.
   */
  datatype Callback =
    | Acknowledgement(ack: Ack, took: Option<nat>, over: bool)
    | Failure(stage: Stage, due: set<nat>, left: set<nat>)

  datatype System = System(pending: map<Id, nat>, requests: seq<Request>, callbacks: seq<Callback>)

  const INITIAL: System := System(map[], [], [])

  /** The id a request registers under: the one given, else the header's, else a new one. */
  function KeyOf(messageId: Option<Id>, header: Option<Option<Id>>, newId: Id): Id {
    if messageId.Some? then messageId.value
    else if header.None? || header.value.None? then newId
    else header.value.value
  }

  /** The id on the wire: the given header's, else that of the header made for the key. */
  function WireOf(header: Option<Option<Id>>, key: Id): Option<Id> {
    if header.Some? then header.value else Some(key)
  }

  /** The request has not yet registered. */
  predicate Early(pc: RequestCounter) {
    pc.Sending? || pc.Adding?
  }

  /** The map holds the request's own entry. */
  predicate IsPending(s: System, r: nat)
    requires r < |s.requests|
  {
    s.requests[r].id in s.pending && s.pending[s.requests[r].id] == r
  }

  /** The request that is pending under the acknowledgement's id. */
  function Reached(s: System, ack: Ack): Option<nat> {
    if ack.id.Some? && ack.id.value in s.pending then Some(s.pending[ack.id.value]) else None
  }

  function Put(s: System, r: nat, q: Request): System
    requires r < |s.requests|
  {
    s.(requests := s.requests[r := q])
  }

  function Log(s: System, c: nat, b: Callback): System
    requires c < |s.callbacks|
  {
    s.(callbacks := s.callbacks[c := b])
  }

  /** Only the first attempt to settle a task has an effect. */
  function Settle(s: System, r: nat, task: Task): System {
    if r < |s.requests| && s.requests[r].task.Open? then Put(s, r, s.requests[r].(task := task)) else s
  }

  /** How a request that its task woke goes on: it returns the acknowledgement if that is of the awaited kind. */
  function Outcome(s: System, q: Request): RequestCounter {
    if q.task.Completed? && q.task.callback < |s.callbacks| && s.callbacks[q.task.callback].Acknowledgement? then
      var ack := s.callbacks[q.task.callback].ack;
      if ack.kind == q.kind then Ended(Returned(ack)) else Cleaning(WrongType)
    else Cleaning(ConnectionFailed)
  }

  /**
   A request's step. `choice` decides what the request does not: whether the send succeeds, whether the timeout is one
   that a delay accepts, whether its task rather than the delay wakes it.
   */
  function RequestStep(s: System, r: nat, choice: bool): System
    requires r < |s.requests|
  {
    var q := s.requests[r];
    match q.pc
    case Sending => Put(s, r, q.(pc := if choice then Adding else Ended(SendFailed)))
    case Adding =>
      if q.id in s.pending then Put(s, r, q.(pc := Ended(Duplicate)))
      else Put(s, r, q.(pc := Delaying)).(pending := s.pending[q.id := r])
    case Delaying => Put(s, r, q.(pc := if choice then Waiting else Cleaning(BadTimeout)))
    case Waiting =>
      if !choice then Put(s, r, q.(pc := Removing(true)))
      else if q.task.Open? then s
      else Put(s, r, q.(pc := Removing(false)))
    case Removing(expired) =>
      Put(s, r, q.(pc := if expired then Cleaning(TimedOut) else Reading)).(pending := s.pending - {q.id})
    case Reading => Put(s, r, q.(pc := Outcome(s, q)))
    case Cleaning(end) => Put(s, r, q.(pc := Ended(end))).(pending := s.pending - {q.id})
    case Ended(_) => s
  }

  /** An acknowledgement takes the entry under its id, if there is one, and then completes its task. */
  function AckStep(s: System, c: nat): System
    requires c < |s.callbacks| && s.callbacks[c].Acknowledgement?
  {
    var b := s.callbacks[c];
    if b.over then s
    else if b.took.Some? then Log(Settle(s, b.took.value, Completed(c)), c, b.(over := true))
    else if b.ack.id.Some? && b.ack.id.value in s.pending then
      var id := b.ack.id.value;
      Log(s, c, b.(took := Some(s.pending[id]))).(pending := s.pending - {id})
    else Log(s, c, b.(over := true))
  }

  /**
   A failure enumerates the map and clears it. The map may change meanwhile: the enumeration comes to every entry that
   stays in the map, and to whichever others that have ever been added.
   */
  function FailureStep(s: System, c: nat, visit: Option<nat>): System
    requires c < |s.callbacks| && s.callbacks[c].Failure?
  {
    var b := s.callbacks[c];
    match b.stage
    case Starting => Log(s, c, Failure(Enumerating, s.pending.Values, s.pending.Values))
    case Enumerating =>
      if visit.Some? && visit.value < |s.requests| && !Early(s.requests[visit.value].pc)
      then Log(s, c, b.(stage := Visiting(visit.value), left := b.left - {visit.value}))
      else if s.pending.Values * b.left == {} then Log(s, c, b.(stage := Clearing))
      else s
    case Visiting(r) => Log(Settle(s, r, Faulted), c, b.(stage := Enumerating))
    case Clearing => Log(s, c, b.(stage := Cleared)).(pending := map[])
    case Cleared => s
  }

  /** Somebody makes a request, an acknowledgement arrives, the connection fails, or one of these takes a step. */
  datatype Action =
    | Call(kind: Kind, messageId: Option<Id>, header: Option<Option<Id>>, newId: Id)
    | Arrive(ack: Ack)
    | Fail
    | StepRequest(request: nat, choice: bool)
    | StepCallback(callback: nat, visit: Option<nat>)

  function Perform(s: System, a: Action): System {
    match a
    case Call(kind, messageId, header, newId) =>
      var id := KeyOf(messageId, header, newId);
      s.(requests := s.requests + [Request(kind, id, WireOf(header, id), Open, Sending)])
    case Arrive(ack) => s.(callbacks := s.callbacks + [Acknowledgement(ack, None, false)])
    case Fail => s.(callbacks := s.callbacks + [Failure(Starting, {}, {})])
    case StepRequest(r, choice) => if r < |s.requests| then RequestStep(s, r, choice) else s
    case StepCallback(c, visit) =>
      if c >= |s.callbacks| then s
      else if s.callbacks[c].Acknowledgement? then AckStep(s, c)
      else FailureStep(s, c, visit)
  }

  /** The client after a schedule. */
  function After(schedule: seq<Action>): System {
    if schedule == [] then INITIAL else Perform(After(schedule[..|schedule| - 1]), schedule[|schedule| - 1])
  }
}
