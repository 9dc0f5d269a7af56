/** The values of the `state` field, in the order that the theorems about runs rely on. */
module ConnectionState {
  const NOT_CONNECTED := 0
  const INITIALIZING := 1
  const CONNECTING := 2
  const CONNECTED := 3
  const LOGGING_IN := 4
  const LOGGED_IN := 5
  const DISCONNECTED := 6
  const FAILED := 7
}

/**
 `AsyncGDSClient` as a transition system. Every call of a public method and every socket callback is a thread with
 a program counter; one step of a thread makes at most one access to what the threads share: a volatile read or
 write, an interlocked operation, a use of the countdown, a call of the socket or of the listener. A schedule is any
 finite sequence of scheduling decisions, so a claim about all schedules is a claim about every interleaving of
 every number of calls.
 */
module AsyncClientModel {
  import opened Results
  import opened ConnectionState

  /** A frame handed to the socket: the login, or a message with the types its header and its body state. */
  datatype Frame = Login | Payload(headerType: int, bodyType: int)

  /** A call of the socket's own methods other than a send. */
  datatype SocketCall = OpenCall | CloseCall

  datatype Cause = TimedOut | SocketFault | SocketLost | LoginRefused

  datatype Callback =
    | ConnectionSuccess
    | ConnectionFailure(cause: Cause)
    | Disconnect
    | Delivery(dataType: int)

  /** A received binary message: a login reply, a message of another type, or bytes that do not decode. */
  datatype Incoming = ConnectionAck(ok: bool) | OtherMessage(dataType: int) | Malformed

  /** What starts a thread. `Watch` is the thread that `Connect` creates. */
  datatype Operation =
    | Connect
    | Close
    | SendMessage(headerType: int, bodyType: int)
    | SocketOpened
    | SocketError
    | SocketClosed
    | MessageReceived(message: Incoming)
    | Watch

  /** Program counters: the access a thread makes next. A `nested` close is the one made for a refused login. */
  datatype Counter =
    | ConnectCas | ConnectStart
    | WatchRegister | WatchOpen | WatchCas | WatchWait | WatchRead | WatchWrite | WatchReport
    | CloseRead(nested: bool) | CloseWrite(nested: bool) | CloseExchange(nested: bool) | CloseSocket(nested: bool)
    | SendRead | SendFrame
    | OpenedExchange | OpenedCas | OpenedSend | OpenedLogin
    | ErrorFlag | ErrorClose | ErrorReadFailed | ErrorReadLoggedIn | ErrorWrite | ErrorReport
    | ClosedExchange | ClosedRead | ClosedCas | ClosedReread | ClosedDisconnect | ClosedFailure
    | ReceivedDispatch | AckSignal | AckAccept | AckReject | AckSuccess | AckRecheck | AckRefused
    | Finished

  /** What a step leaves in the log. `Stored` records the value it replaced, `Checked` the read made by a close. */
  datatype Event =
    | Invoked(op: Operation)
    | Stored(was: int, now: int)
    | Checked(seen: int)
    | Signalled
    | Sent(frame: Frame)
    | Called(call: SocketCall)
    | Notified(callback: Callback)
    | Started
    | Threw

  datatype Entry = Entry(thread: nat, event: Event)

  /** The shared fields: `state`, `isConnectionClosed`, the countdown's count, and whether the handlers are on. */
  datatype Shared = Shared(state: int, closed: int, count: nat, registered: bool)

  datatype Thread = Thread(op: Operation, pc: Counter)

  datatype Client = Client(shared: Shared, threads: seq<Thread>, log: seq<Entry>)

  const INITIAL: Client := Client(Shared(NOT_CONNECTED, 1, 1, false), [], [])

  /** What one step of a thread does. */
  datatype Outcome = Outcome(next: Counter, shared: Shared, event: Option<Event>, starts: bool)

  function Go(next: Counter, sh: Shared): Outcome {
    Outcome(next, sh, None, false)
  }

  function Say(next: Counter, sh: Shared, event: Event): Outcome {
    Outcome(next, sh, Some(event), false)
  }

  function Put(next: Counter, sh: Shared, value: int): Outcome {
    Outcome(next, sh.(state := value), Some(Stored(sh.state, value)), false)
  }

  /** The body types that `MessageFormatter.Serialize` does not refuse. */
  predicate Serializable(bodyType: int) {
    0 <= bodyType <= 12 && bodyType != 3 && bodyType != 11
  }

  /** The message types, apart from the login reply, that have a listener method. */
  predicate Delivered(dataType: int) {
    3 <= dataType <= 9 || dataType == 11
  }

  /** `Connect` on the calling thread. */
  function ConnectStep(pc: Counter, sh: Shared): Outcome {
    match pc
    case ConnectCas =>
      if sh.state == NOT_CONNECTED then Put(ConnectStart, sh, INITIALIZING) else Say(Finished, sh, Threw)
    case ConnectStart => Outcome(Finished, sh, Some(Started), true)
    case _ => Go(Finished, sh)
  }

  /** The thread that `Connect` creates; `expire` lets its wait for the login reply run out of time. */
  function WatchStep(pc: Counter, sh: Shared, expire: bool): Outcome {
    match pc
    case WatchRegister => Go(WatchOpen, sh.(registered := true))
    case WatchOpen => Say(WatchCas, sh, Called(OpenCall))
    case WatchCas =>
      if sh.state == INITIALIZING then Put(WatchWait, sh, CONNECTING) else Go(WatchWait, sh)
    case WatchWait =>
      if sh.count == 0 then Go(Finished, sh) else if expire then Go(WatchRead, sh) else Go(WatchWait, sh)
    case WatchRead =>
      if sh.state != FAILED && sh.state != DISCONNECTED then Go(WatchWrite, sh) else Go(Finished, sh)
    case WatchWrite => Put(WatchReport, sh, FAILED)
    case WatchReport => Say(Finished, sh, Notified(ConnectionFailure(TimedOut)))
    case _ => Go(Finished, sh)
  }

  function CloseStep(pc: Counter, sh: Shared): Outcome {
    match pc
    case CloseRead(nested) =>
      Say(if sh.state != FAILED then CloseWrite(nested) else CloseExchange(nested), sh, Checked(sh.state))
    case CloseWrite(nested) => Put(CloseExchange(nested), sh, DISCONNECTED)
    case CloseExchange(nested) => Go(CloseSocket(nested), sh.(closed := 1))
    case CloseSocket(nested) => Say(if nested then AckRefused else Finished, sh, Called(CloseCall))
    case _ => Go(Finished, sh)
  }

  function SendStep(headerType: int, bodyType: int, pc: Counter, sh: Shared): Outcome {
    match pc
    case SendRead =>
      if sh.state == LOGGED_IN && headerType == bodyType && Serializable(bodyType)
      then Go(SendFrame, sh)
      else Say(Finished, sh, Threw)
    case SendFrame => Say(Finished, sh, Sent(Payload(headerType, bodyType)))
    case _ => Go(Finished, sh)
  }

  function OpenedStep(pc: Counter, sh: Shared): Outcome {
    match pc
    case OpenedExchange => Go(OpenedCas, sh.(closed := 0))
    case OpenedCas =>
      if sh.state == CONNECTING then Put(OpenedSend, sh, CONNECTED)
      else if sh.state == DISCONNECTED then Go(OpenedSend, sh)
      else Say(Finished, sh, Threw)
    case OpenedSend => Say(OpenedLogin, sh, Sent(Login))
    case OpenedLogin =>
      if sh.state == CONNECTED then Put(Finished, sh, LOGGING_IN)
      else if sh.state == DISCONNECTED then Go(Finished, sh)
      else Say(Finished, sh, Threw)
    case _ => Go(Finished, sh)
  }

  function ErrorStep(pc: Counter, sh: Shared): Outcome {
    match pc
    case ErrorFlag => Go(if sh.closed != 1 then ErrorClose else ErrorReadFailed, sh)
    case ErrorClose => Say(ErrorReadFailed, sh, Called(CloseCall))
    case ErrorReadFailed => Go(if sh.state != FAILED then ErrorReadLoggedIn else Finished, sh)
    case ErrorReadLoggedIn => Go(if sh.state != LOGGED_IN then ErrorWrite else Finished, sh)
    case ErrorWrite => Put(ErrorReport, sh, FAILED)
    case ErrorReport => Say(Finished, sh, Notified(ConnectionFailure(SocketFault)))
    case _ => Go(Finished, sh)
  }

  function ClosedStep(pc: Counter, sh: Shared): Outcome {
    match pc
    case ClosedExchange => Go(ClosedRead, sh.(closed := 1))
    case ClosedRead => Go(if sh.state == DISCONNECTED then ClosedDisconnect else ClosedCas, sh)
    case ClosedCas =>
      if sh.state == LOGGED_IN then Put(ClosedDisconnect, sh, DISCONNECTED) else Go(ClosedReread, sh)
    case ClosedReread => Go(if sh.state != FAILED then ClosedFailure else Finished, sh)
    case ClosedDisconnect => Say(Finished, sh, Notified(Disconnect))
    case ClosedFailure => Say(Finished, sh, Notified(ConnectionFailure(SocketLost)))
    case _ => Go(Finished, sh)
  }

  /** A login reply: the one-shot countdown, then the reply's swap of the state, then the listener. */
  function AckStep(ok: bool, pc: Counter, sh: Shared): Outcome {
    match pc
    case AckSignal =>
      if sh.count == 0 then Say(Finished, sh, Threw)
      else Say(if ok then AckAccept else AckReject, sh.(count := sh.count - 1), Signalled)
    case AckAccept => if sh.state == LOGGING_IN then Put(AckSuccess, sh, LOGGED_IN) else Go(AckRecheck, sh)
    case AckReject => if sh.state == LOGGING_IN then Put(CloseRead(true), sh, FAILED) else Go(AckRecheck, sh)
    case AckSuccess => Say(Finished, sh, Notified(ConnectionSuccess))
    case AckRecheck => if sh.state != DISCONNECTED then Say(Finished, sh, Threw) else Go(Finished, sh)
    case AckRefused => Say(Finished, sh, Notified(ConnectionFailure(LoginRefused)))
    case _ => CloseStep(pc, sh)
  }

  /** A message that is no login reply goes to the listener if its type has a listener method. */
  function DispatchStep(message: Incoming, pc: Counter, sh: Shared): Outcome {
    if pc.ReceivedDispatch? && message.OtherMessage? && Delivered(message.dataType)
    then Say(Finished, sh, Notified(Delivery(message.dataType)))
    else Go(Finished, sh)
  }

  /** The step of a thread of the given operation at the given program counter. */
  function Step(op: Operation, pc: Counter, sh: Shared, expire: bool): Outcome {
    match op
    case Connect => ConnectStep(pc, sh)
    case Close => CloseStep(pc, sh)
    case SendMessage(headerType, bodyType) => SendStep(headerType, bodyType, pc, sh)
    case SocketOpened => OpenedStep(pc, sh)
    case SocketError => ErrorStep(pc, sh)
    case SocketClosed => ClosedStep(pc, sh)
    case MessageReceived(m) => if m.ConnectionAck? then AckStep(m.ok, pc, sh) else DispatchStep(m, pc, sh)
    case Watch => WatchStep(pc, sh, expire)
  }

  /** Where the thread of an operation begins. */
  function Entrance(op: Operation): Counter {
    match op
    case Connect => ConnectCas
    case Close => CloseRead(false)
    case SendMessage(_, _) => SendRead
    case SocketOpened => OpenedExchange
    case SocketError => ErrorFlag
    case SocketClosed => ClosedExchange
    case MessageReceived(m) => if m.ConnectionAck? then AckSignal else ReceivedDispatch
    case Watch => WatchRegister
  }

  /** A scheduling decision: somebody calls the client, a thread takes its step, or the wait runs out of time. */
  datatype Action = Invoke(op: Operation) | Advance(thread: nat) | Expire(thread: nat)

  /** Users call at any time; the socket calls once the handlers are registered; only `Connect` starts a watch. */
  predicate Callable(op: Operation, sh: Shared) {
    match op
    case Connect => true
    case Close => true
    case SendMessage(_, _) => true
    case Watch => false
    case _ => sh.registered
  }

  /** What an outcome adds to the log. */
  function Trail(t: nat, o: Outcome): seq<Entry> {
    if o.event.Some? then [Entry(t, o.event.value)] else []
  }

  function Move(c: Client, t: nat, expire: bool): Client
    requires t < |c.threads|
  {
    var o := Step(c.threads[t].op, c.threads[t].pc, c.shared, expire);
    Client(o.shared,
           c.threads[t := c.threads[t].(pc := o.next)] + (if o.starts then [Thread(Watch, Entrance(Watch))] else []),
           c.log + Trail(t, o))
  }

  /** A decision that cannot be taken changes nothing, so that every sequence of decisions is a schedule. */
  function Perform(c: Client, a: Action): Client {
    match a
    case Invoke(op) =>
      if Callable(op, c.shared)
      then c.(threads := c.threads + [Thread(op, Entrance(op))], log := c.log + [Entry(|c.threads|, Invoked(op))])
      else c
    case Advance(t) => if t < |c.threads| then Move(c, t, false) else c
    case Expire(t) => if t < |c.threads| then Move(c, t, true) else c
  }

  /** The client after a schedule. */
  function After(schedule: seq<Action>): Client {
    if schedule == [] then INITIAL else Perform(After(schedule[..|schedule| - 1]), schedule[|schedule| - 1])
  }
}
