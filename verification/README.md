# A verified model of the GDS client

The repository is a C# client for GDS servers. This project models the parts of it that are easy to get wrong and proves
what they guarantee, and where they do not guarantee what one would expect it shows the run or the input that says so
and the condition under which the guarantee holds. `dafny verify dfyconfig.toml` checks everything.

There are four parts.

**The connection (`AsyncClient*.dfy`).** `AsyncGDSClient` changes one shared `state` by compare-and-swap and by plain
writes after a check, from user threads, from the thread that `Connect` starts, and from the socket's events.
`AsyncClientModel` is a transition system in which every call and every event is a thread with a program counter and one
step makes at most one access to something shared. A schedule is any sequence of decisions (somebody calls, a thread
steps, the wait for the login reply runs out); a decision that cannot be taken changes nothing, so every sequence is a
schedule. The log of a run holds every store with the value that it replaced, every frame, every listener call and every
exception. `AsyncClientLaws` proves one invariant for all schedules: each entry of the log is justified by those before
it, and each thread's program counter says what it has left in the log. `AsyncClientTheorems` draws the conclusions.
`AsyncClientOutcomes` says what each handler has told the listener when it has ended, and exactly when the listener of a
client whose threads have all ended has been told nothing; `AsyncClientCounts` says how often it has been told of a
failure or a success; `AsyncClientReach` says from which states a login can still come about. `AsyncClientAlone` has the
whole effect of each handler that runs undisturbed, from every state, and `AsyncClientLimits` the schedules that refute
the guarantees one might expect, with the conditions under which they hold. `AsyncClient` is the class in its own form:
its methods read and write fields, with everybody else let loose between two accesses, and each method is proved to be a
thread of the transition system, so that the theorems are about the methods. A method's first access directly follows
the record of its call: `old` in its contract is the state at that access, and what the others do before it is done
before the call. Users' calls can be made in every valid state and socket events once the handlers are registered, and
each begins a thread of its own; `Watch` is the body of the thread that `Connect` has started. The socket is an
environment that raises its events in any order and number; the clock is the decision to let the wait run out.

**The wire (`MessagePack*.dfy`, `Messages.dfy`, `CodecTheorems.dfy`, `MessageTheorems.dfy`, `MessageAccounting.dfy`,
`WireFormats.dfy`, `Formatters.dfy`).** Over bytes, `MessagePack` gives the primitives that the formatters use, as the
sections on the int, str, array, map, nil and bool format families of the MessagePack specification lay them out, and
`SkipMany`, which walks over complete values and knows nothing of the formatters. `Layout` says which tree of values a
message is written as, and what the decoders make of arbitrary bytes. `Formatters` has the formatters as the source has
them, moving a writer or a reader step by step, each proved to write exactly the layout's tree or to follow the layout's
reader. The theorems are about the layout: round trips with any bytes behind the message, when they fail, injectivity,
and how many values a decoder consumes; of a whole message `MessageAccounting` says exactly when what was consumed is
one complete value, and `WireFormats` has the bytes themselves, format by format and message by message.

**Requests and replies (`Pending*.dfy`, `SyncClient.dfy`).** `SyncGDSClient` keeps a map from message ids to waiting
requests, that senders, acknowledgements, timeouts and connection failures change concurrently. `PendingModel` is a
transition system in the same style; a failure's enumeration comes to every entry that stays in the map meanwhile and to
whichever others. `PendingTheorems` has the invariants, `PendingLimits` the effect of a reply and of a failure that run
undisturbed and the runs in which a request is left waiting, and `PendingReach` exactly when that can still happen.
`SyncClient` is the class in its own form, tied to the transition system as above.

**The insert of the demo (`IdGenerator.dfy`, `HexUtil.dfy`, `SqlBuilder.dfy`, `SqlInserts.dfy`, `SqlBlock.dfy`,
`DemoInsert.dfy`).** Time-based ids over the Gregorian calendar, hexadecimal UTF-8, the escaping of SQL literals, and
the block of statements built from them, each with an independent partner: the calendar's day count, a decoder, a
scanner of literals and of whole statements, and a reader of INSERT statements that tells what is stored in which
column.

The transition functions follow the source branch by branch: `ConnectStep` and `WatchStep` lines 351-387 of
`Gds/Websocket/AsyncGDSClient.cs`, `CloseStep` 159-167, `SendStep` 332-345, `OpenedStep` 395-419, `ErrorStep` 421-434,
`ClosedStep` 436-450, `AckStep` and `DispatchStep` 452-539; `RequestStep` lines 101-163 and 196-250 of
`samples/GDSNetSDK.Demo/SyncGDSClient.cs`, `FailureStep` 279-293, `AckStep` 300-330.

Where the repository's documentation and its code differ, the code is modelled. Its `README.md`, line 239, describes
`DISCONNECTED` as closed after a successful login; a `Close` before any login sets it too, and `OnDisconnect` then
follows (`DisconnectWithoutLogin`). Line 268 says that a message id is ignored when a header is given; `SyncGDSClient`
then waits under that id while the header's goes out (`WireIdIsKey`). Line 218 says that a positive acknowledgement
calls `OnConnectionSuccess`; one that is handled before the client is `LOGGING_IN` does not (`ReplyLost`,
`AcceptedAlone`).

## Model

| member | source | states |
|---|---|---|
| AsyncClientLaws.LogsAreLawful | Gds/Websocket/AsyncGDSClient.cs:159-539 | After every schedule each store, frame, listener call and exception in the log is justified by what came before it, and the shared state is what the log's stores lead to |
| AsyncClientTheorems.StateNeverMovesBack | Gds/Websocket/AsyncGDSClient.cs:159-539 | Between any two moments of any run, the state with FAILED counted as DISCONNECTED does not decrease |
| AsyncClientTheorems.LoweredOnlyByOvertakenClose | Gds/Websocket/AsyncGDSClient.cs:159-167 | A store that lowers the state writes DISCONNECTED over FAILED, by a thread whose own earlier check of a close saw another value; some user has called Close |
| AsyncClientTheorems.EarlyHistory | Gds/Websocket/AsyncGDSClient.cs:351-503 | While the state is at most LOGGED_IN, it has taken the values 0, 1, 2, … up to the present one in order and no others |
| AsyncClientTheorems.LoginSafety | Gds/Websocket/AsyncGDSClient.cs:395-503 | When LOGGED_IN is written the state has gone exactly through 0, 1, 2, 3, 4, 5, the login was sent and this thread got an OK reply past the countdown; no DISCONNECTED or FAILED came before; it is written at most once in a run |
| AsyncClientTheorems.WireDiscipline | Gds/Websocket/AsyncGDSClient.cs:332-345 | Every frame but a login follows the login, an OK reply and an entry into LOGGED_IN, comes from a call of SendMessage, and its header states the type of its body, whatever Close races with it |
| AsyncClientTheorems.LoginsAreOpenings | Gds/Websocket/AsyncGDSClient.cs:395-419 | There are at most as many login frames as socket-opened events |
| AsyncClientTheorems.LoginIsFirstAndOnly | Gds/Websocket/AsyncGDSClient.cs:395-419 | If the socket opens at most once, one login at most is sent and every other frame comes after it |
| AsyncClientTheorems.ChangesPotential | Gds/Websocket/AsyncGDSClient.cs:159-539 | The number of changes of state is at most the state plus twice the number of drops |
| AsyncClientTheorems.ChangesAreBounded | Gds/Websocket/AsyncGDSClient.cs:159-167 | With c executions of Close the state changes at most 7 + 2c times, so the client cannot oscillate without new closes |
| AsyncClientTheorems.OneVerdict | Gds/Websocket/AsyncGDSClient.cs:465-503 | Success calls and rejected-login failure calls together number at most one, even with repeated replies |
| AsyncClientTheorems.CallbacksAreCaused | Gds/Websocket/AsyncGDSClient.cs:355-533 | Every call of the listener has its cause in its own thread: a success the accepted reply, a failure the write of FAILED or the lost socket, a delivery the message of that type; no thread reports two outcomes |
| AsyncClientTheorems.OneTimeout | Gds/Websocket/AsyncGDSClient.cs:365-376 | The timeout is reported at most once in a run |
| AsyncClientTheorems.FailuresAreBounded | Gds/Websocket/AsyncGDSClient.cs:373-485 | OnConnectionFailure is called at most once for each socket error, closed socket and refused login, and once more for the timeout |
| AsyncClientTheorems.ConnectHasOneWinner | Gds/Websocket/AsyncGDSClient.cs:351-387 | Of any number of concurrent calls of Connect at most one starts the connection |
| AsyncClientTheorems.OtherConnectsThrow | Gds/Websocket/AsyncGDSClient.cs:383-386 | Of any two ended calls of Connect one has thrown |
| AsyncClientTheorems.NoConnectAfterClose | Gds/Websocket/AsyncGDSClient.cs:351-354 | No call of Connect wins after DISCONNECTED or FAILED has been written: the client is not reusable |
| AsyncClientTheorems.CloseIsFinal | Gds/Websocket/AsyncGDSClient.cs:159-167 | Once a call of Close has ended the client is DISCONNECTED or FAILED in every later state |
| AsyncClientTheorems.DisconnectIsOwed | Gds/Websocket/AsyncGDSClient.cs:436-444 | Every OnDisconnect follows a call of Close or an entry into LOGGED_IN |
| AsyncClientAlone.ClosedAlone | Gds/Websocket/AsyncGDSClient.cs:159-167 | An undisturbed Close writes DISCONNECTED exactly if it does not find FAILED, and closes the socket, from every reachable state |
| AsyncClientAlone.SocketClosedAlone | Gds/Websocket/AsyncGDSClient.cs:436-450 | The whole effect of an undisturbed socket-closed event: OnDisconnect from DISCONNECTED and LOGGED_IN, nothing from FAILED, OnConnectionFailure without a change of state from every other state |
| AsyncClientAlone.OpenedAlone | Gds/Websocket/AsyncGDSClient.cs:395-419 | An undisturbed socket-opened event sends the login exactly in CONNECTING and DISCONNECTED and throws in every other state |
| AsyncClientAlone.AcceptedAlone | Gds/Websocket/AsyncGDSClient.cs:465-503 | The whole effect of an undisturbed OK reply in every state, first or not: LOGGED_IN and OnConnectionSuccess in LOGGING_IN, nothing in DISCONNECTED, an exception in every other state, and an exception alone if the countdown is used up |
| AsyncClientAlone.RefusedAlone | Gds/Websocket/AsyncGDSClient.cs:465-486 | The whole effect of an undisturbed refusal in every state, first or not: in LOGGING_IN it fails the client, leaves FAILED in place, closes the socket and then reports; in DISCONNECTED nothing; elsewhere, and if the countdown is used up, it throws |
| AsyncClientAlone.ErrorAlone | Gds/Websocket/AsyncGDSClient.cs:421-434 | An undisturbed socket error closes the socket exactly if isConnectionClosed is not 1, and then fails and reports in every state but FAILED and LOGGED_IN, a closed client included |
| AsyncClientAlone.TimesOut | Gds/Websocket/AsyncGDSClient.cs:365-376 | From every reachable state, whichever thread is the watch: past its wait it fails the client and reports it exactly if the state is neither FAILED nor DISCONNECTED |
| AsyncClientAlone.ConnectedAlone | Gds/Websocket/AsyncGDSClient.cs:351-387 | An undisturbed Connect starts the watch thread of a client in NOT_CONNECTED and moves it to INITIALIZING, and throws in every other state |
| AsyncClientAlone.OpensAlone | Gds/Websocket/AsyncGDSClient.cs:355-363 | The watch thread registers the handlers, opens the socket and moves the client to CONNECTING exactly if it is INITIALIZING |
| AsyncClientAlone.SentAlone | Gds/Websocket/AsyncGDSClient.cs:332-345 | From every reachable state, an undisturbed SendMessage sends the frame if the client is LOGGED_IN, the types agree and the body is of type 0, 1, 2, 4-10 or 12, and otherwise throws, with no other effect |
| AsyncClientAlone.DeliveredAlone | Gds/Websocket/AsyncGDSClient.cs:505-533 | An undisturbed message that is no login reply calls the listener exactly if its type is 3-9 or 11, and has no other effect |
| AsyncClientAlone.DroppedAlone | Gds/Websocket/AsyncGDSClient.cs:535-538 | Bytes that do not decode have no effect |
| AsyncClientLimits.PrematureDisconnectExactly | Gds/Websocket/AsyncGDSClient.cs:436-444 | For a client never logged in, an undisturbed socket-closed event calls OnDisconnect if and only if the state is DISCONNECTED, and then Close has been called |
| AsyncClientLimits.DisconnectWithoutLogin | Gds/Websocket/AsyncGDSClient.cs:436-444 | A run with OnDisconnect and no login: it does not imply a successful login |
| AsyncClientLimits.FailureReportedTwiceExactly | Gds/Websocket/AsyncGDSClient.cs:369-448 | From every reachable state, whichever thread is the watch: a closed socket and then the timeout report two failures if the state is below LOGGED_IN and none otherwise |
| AsyncClientLimits.FailureReportedTwice | Gds/Websocket/AsyncGDSClient.cs:369-448 | A run with two failures: OnConnectionFailure is not called at most once |
| AsyncClientLimits.TimeoutOverwritesLoginExactly | Gds/Websocket/AsyncGDSClient.cs:365-503 | From every reachable state: an OK reply and then the timeout make it write FAILED over LOGGED_IN if and only if the client was LOGGED_IN, or LOGGING_IN with its countdown unused |
| AsyncClientLimits.TimeoutOverwritesLogin | Gds/Websocket/AsyncGDSClient.cs:367-372 | A run in which the timeout overwrites a LOGGED_IN that the listener was told of |
| AsyncClientLimits.OpenedTooEarly | Gds/Websocket/AsyncGDSClient.cs:363-404 | A run in which the socket opens before CONNECTING is set: the handler throws and no login is sent |
| AsyncClientLimits.LoginSentTwice | Gds/Websocket/AsyncGDSClient.cs:395-413 | A socket that opens again after a close gets a second login |
| AsyncClientLimits.CloseOvertaken | Gds/Websocket/AsyncGDSClient.cs:161-163 | A run in which the state falls from FAILED to DISCONNECTED |
| AsyncClientLimits.LoggedInOnLostSocket | Gds/Websocket/AsyncGDSClient.cs:436-448 | A run that ends in LOGGED_IN although the loss of the socket has been reported |
| AsyncClientLimits.LoggedInOnLostSocketExactly | Gds/Websocket/AsyncGDSClient.cs:436-503 | From every reachable state: a closed socket and then an OK reply, both undisturbed, end in LOGGED_IN if and only if the client was LOGGING_IN with its countdown unused, and then the loss has been reported |
| AsyncClientLimits.ReplyLost | Gds/Websocket/AsyncGDSClient.cs:413-503 | A run in which an OK reply comes between the sending of the login and the swap to LOGGING_IN: all threads end, the client stays LOGGING_IN and the listener is never told anything |
| AsyncClientLimits.StatesAreNumbered | Gds/Websocket/ConnectionState.cs:12-33 | The eight states have the numbers 0 to 7 |
| AsyncClientReach.LoginPossibleExactly | Gds/Websocket/AsyncGDSClient.cs:351-503 | Over all interleavings, from every reachable state, with the loss of the socket reported or not: some continuation logs the client in if and only if the state is below LOGGED_IN and the countdown is unused or an OK reply past it is about to swap |
| AsyncClientOutcomes.WatchHasEnded | Gds/Websocket/AsyncGDSClient.cs:365-381 | When the watch has ended a reply has used the countdown up or the client is closed or failed, and OnConnectionFailure was called for the timeout exactly if this thread wrote FAILED |
| AsyncClientOutcomes.ErrorHasEnded | Gds/Websocket/AsyncGDSClient.cs:421-434 | When an error handler has ended the client is logged in, closed or failed, and the fault was reported exactly if this thread wrote FAILED |
| AsyncClientOutcomes.ClosedHasEnded | Gds/Websocket/AsyncGDSClient.cs:436-450 | When a socket-closed handler has ended it has called OnDisconnect or OnConnectionFailure, or FAILED has been written |
| AsyncClientOutcomes.OthersOnlyDeliver | Gds/Websocket/AsyncGDSClient.cs:505-533 | With all others interfering, the handler of a message that is no login reply tells the listener of nothing but that message, and only if its type is 3-9 or 11 |
| AsyncClientOutcomes.SilenceExactly | Gds/Websocket/AsyncGDSClient.cs:351-503 | When all threads have ended the listener has been told of no outcome if and only if neither LOGGED_IN nor FAILED was ever written and the socket has not closed |
| AsyncClientOutcomes.SilenceExplained | Gds/Websocket/AsyncGDSClient.cs:351-503 | If a connection was started, all threads have ended and the listener has been told of no outcome, then a user has closed the client, or a reply used the countdown up outside LOGGING_IN and threw |
| AsyncClientCounts.FailuresExactly | Gds/Websocket/AsyncGDSClient.cs:355-486 | In every reachable state OnConnectionFailure has been called as often as FAILED has been written and a lost socket reported, less the threads that have written FAILED and not yet reported; when all threads have ended there are none |
| AsyncClientCounts.SuccessesExactly | Gds/Websocket/AsyncGDSClient.cs:488-503 | OnConnectionSuccess has been called as often as LOGGED_IN has been entered, less a thread about to call it; when all threads have ended there is none |
| AsyncClient.AsyncGDSClient.Connect | Gds/Websocket/AsyncGDSClient.cs:351-387 | It returns normally exactly if it finds NOT_CONNECTED; then this call, and no other in the run, started the watch thread, and there is one; otherwise it threw |
| AsyncClient.AsyncGDSClient.Watch | Gds/Websocket/AsyncGDSClient.cs:355-381 | With all others interfering, when it ends a reply has come or the client is closed or failed, and the timeout was reported exactly if it wrote FAILED |
| AsyncClient.AsyncGDSClient.Close | Gds/Websocket/AsyncGDSClient.cs:159-167 | When it returns, whatever ran meanwhile, the client is DISCONNECTED or FAILED, and the socket has been closed |
| AsyncClient.AsyncGDSClient.SendMessage | Gds/Websocket/AsyncGDSClient.cs:332-345 | It returns normally exactly if the client is LOGGED_IN, the types agree and the body is of type 0, 1, 2, 4-10 or 12; then the frame was sent, and otherwise it threw |
| AsyncClient.AsyncGDSClient.OnSocketOpened | Gds/Websocket/AsyncGDSClient.cs:395-419 | A normal return means that the login was sent; otherwise it threw |
| AsyncClient.AsyncGDSClient.OnSocketError | Gds/Websocket/AsyncGDSClient.cs:421-434 | When it returns a socket found open has been closed, the client is logged in, closed or failed, and the fault was reported exactly if it wrote FAILED itself |
| AsyncClient.AsyncGDSClient.OnSocketClosed | Gds/Websocket/AsyncGDSClient.cs:436-450 | When it returns OnDisconnect or OnConnectionFailure was called, unless FAILED has been written |
| AsyncClient.AsyncGDSClient.OnConnectionAck | Gds/Websocket/AsyncGDSClient.cs:465-504 | It throws if the countdown is used up; a normal return means that the listener was told of the success or the refusal, or that the client has been closed |
| AsyncClient.AsyncGDSClient.OnMessageReceived | Gds/Websocket/AsyncGDSClient.cs:452-539 | A login reply as in OnConnectionAck; of another message the listener is told exactly if its type is 3-9 or 11, and of nothing else; it never throws then |
| RoundTrips.HeaderBack | Gds/Messages/Header/MessageHeaderFormatter.cs:25-54 | Any header's ten flat items read back as the header, with the reader left at the eleventh item |
| RoundTrips.ConnectionBack | Gds/Messages/Data/ConnectionData.cs:153-251 | For all four layouts and any bytes behind, decoding what was encoded gives the data in normal form and exactly those bytes |
| RoundTrips.ConnectionFieldsBack | Gds/Messages/Data/ConnectionData.cs:118-184 | On the fields themselves: everything reads back, of the reserved fields the first alone if it is a string, in an item of its own, and none otherwise; the array states 4 items, one more for a cluster name and one more for a password; a first reserved field of another type makes writing fail |
| RoundTrips.ReceivedBack | Gds/Messages/Data/ConnectionData.cs:186-251 | A connection in any layout that the decoder takes, cluster name absent, null or given, reserved fields absent, null or any list of strings and nulls, reads back field by field |
| RoundTrips.ConnectionInjective | Gds/Messages/Data/ConnectionData.cs:153-184 | Equal encodings have equal normal forms, although cluster-only and password-only both have five items |
| RoundTrips.ConnectionStable | Gds/Messages/Data/ConnectionData.cs:186-251 | The normal form of any data is written to the same bytes and is what the decoder returns |
| RoundTrips.UnauthorizedBack | Gds/Messages/Data/ConnectionAckData.cs:155-175 | A dictionary of reasons reads back entry by entry and in order if its keys are distinct, and fails for a repeated key otherwise |
| RoundTrips.AckTypeBack | Gds/Messages/Data/ConnectionAckData.cs:149-181 | The untagged union reads back as the side that was written; with neither side set it becomes null |
| RoundTrips.ConnectionAckBack | Gds/Messages/Data/ConnectionAckData.cs:27-45 | A whole connection acknowledgement reads back in normal form, whatever follows |
| RoundTrips.ResultBack | Gds/Messages/Data/EventDocumentAck.cs:108-123 | A result, written as a triple with an empty map, reads back |
| RoundTrips.EventDocumentAckBack | Gds/Messages/Data/EventDocumentAck.cs:26-49 | A whole document acknowledgement, its list absent or of any length, reads back |
| MessageTheorems.QueryBackExactly | Gds/Messages/Data/QueryRequestData.cs:141-178 | A query request reads back if and only if it has both page size and query type; the three-item form always fails in the cast of a null |
| MessageTheorems.QueryNeedsFive | Gds/Messages/Data/QueryRequestData.cs:161-178 | No bytes are read as a query request unless the array states five items |
| MessageTheorems.MessageBack | Gds/Messages/MessageFormatter.cs:27-97 | A message whose header states the type of a two-way body reads back in normal form, and exactly what follows it is left |
| MessageTheorems.MessageBackExactly | Gds/Messages/MessageFormatter.cs:75-97 | Of the messages that can be written, those and only those whose header states the type of their two-way body read back |
| MessageTheorems.BodyHasHeaderType | Gds/Messages/MessageFormatter.cs:79-95 | Whatever bytes are read, the body is null or of the type in the header |
| MessageTheorems.RefusedExactly | Gds/Messages/MessageFormatter.cs:31-71 | The bodies have the types of the protocol, and exactly those outside 0, 1, 2, 4-10 and 12 are refused by the writer for their type |
| MessageTheorems.UnknownBodiesAreRefused | Gds/Messages/MessageFormatter.cs:79-95 | Whatever the bytes, a body of another type than 0, 1, 3-9 and 11 is refused by the reader |
| MessageTheorems.OuterSizeIsIgnored | Gds/Messages/MessageFormatter.cs:77 | A message reads, or fails, alike whatever size its outer array states |
| MessageTheorems.WrittenAgain | Gds/Messages/Data/ConnectionAckData.cs:149-181 | What was read back can be written again unless it is an acknowledgement with neither side set, and then writing fails |
| MessageTheorems.MessageIsOneValue | Gds/Messages/MessageFormatter.cs:27-73 | Every message that can be written is exactly one well-formed value, an array of eleven complete values, all sizes in it being true |
| MessageTheorems.CountIsUnique | Gds/Messages/MessageFormatter.cs:29-30 | If a number of values leads the walk to some place, no other number does |
| MessageTheorems.ConnectionAccounts | Gds/Messages/Data/ConnectionData.cs:193-250 | On any accepted bytes the decoder consumes 4, 5 or 6 values by size and cluster, and the stated number if and only if size and cluster are (4, absent), (5, either) or (6, present) |
| MessageTheorems.AcceptedIsStable | Gds/Messages/Data/ConnectionData.cs:186-251 | Any accepted value can be written, and reads back as its normal form |
| MessageTheorems.ResultAccounts | Gds/Messages/Data/EventDocumentAck.cs:116-123 | On any accepted bytes a result's decoder consumes one complete value if and only if the array states three items and the map none |
| MessageTheorems.ResultSizesAreIgnored | Gds/Messages/Data/EventDocumentAck.cs:116-123 | A result is read whatever sizes its array and its map state |
| MessageAccounting.MessageAccountsExactly | Gds/Messages/MessageFormatter.cs:75-97 | On any accepted bytes the decoder of messages consumes exactly one complete value if and only if the outer array states at least ten values and the body, by the sizes stated in it, uses up the rest |
| MessageAccounting.ElevenExactly | Gds/Messages/MessageFormatter.cs:75-97 | If the body is one complete value, the message is one if and only if the outer array states eleven |
| MessageAccounting.ConnectionMessageAccounts | Gds/Messages/Data/ConnectionData.cs:186-251 | A message with a connection is one complete value if and only if its size and cluster match in an array of eleven, or are (4, present) in one of twelve |
| MessageAccounting.ReplyAccounts | Gds/Messages/Data/ConnectionAckData.cs:165-181 | The same of a login reply: nil, and one with a dictionary or nil, is one value exactly in an array of eleven, one with a connection exactly as a message of its own |
| MessageAccounting.DocumentAckAccounts | Gds/Messages/Data/EventDocumentAck.cs:116-123 | A document acknowledgement that is nil, or has no list, or whose results all state three items and no map entries, is one complete value exactly in an array of eleven |
| WireFormats.NilAndBooleans | Gds/Messages/Data/ConnectionData.cs:167-177 | Nil, false and true are the bytes c0, c2 and c3 |
| WireFormats.NaturalFormats | Gds/Messages/Header/MessageHeaderFormatter.cs:25-37 | Every natural number is in the shortest of five formats that holds it, its code before its place value |
| WireFormats.NegativeFormats | Gds/Messages/Header/MessageHeaderFormatter.cs:25-37 | Every negative number is in the shortest of five formats that holds it, in two's complement |
| WireFormats.FixedFormats | Gds/Messages/Data/ConnectionData.cs:168-173 | The version and the unit are always in the formats d2 and d3 |
| WireFormats.HeaderFormats | Gds/Messages/MessageFormatter.cs:29 | The headers of arrays, maps and strings state their sizes in the shortest format that holds them |
| WireFormats.Int32Exactly | Gds/Messages/MsgPackUtils.cs:60-71 | A compact number is read as 32 bits exactly if it is in range, and overflows otherwise |
| WireFormats.WideNaturals | Gds/Messages/Header/MessageHeaderFormatter.cs:39-54 | A natural number beyond 64 signed bits overflows |
| WireFormats.NamesAreAscii | Gds/Messages/Data/QueryRequestData.cs:141-159 | The consistency types are written as PAGE, PAGES and NONE |
| WireFormats.NamesInAnyCase | Gds/Messages/Data/QueryRequestData.cs:161-165 | They are read in any case |
| WireFormats.HeaderExample | Gds/Messages/Header/MessageHeaderFormatter.cs:25-37 | The bytes of a header with ten different fields, each in its place |
| WireFormats.LoginExample | Gds/Messages/Data/ConnectionData.cs:153-184 | The bytes of a login with a password |
| WireFormats.QueryExample | Gds/Messages/Data/QueryRequestData.cs:141-159 | The bytes of a query request with page size and type |
| WireFormats.ResultExample | Gds/Messages/Data/EventDocumentAck.cs:108-114 | The bytes of a result with its empty map |
| WireFormats.RefusalExample | Gds/Messages/Data/ConnectionAckData.cs:149-163 | The bytes of a refused login with its dictionary of reasons |
| Formatters.MsgPackUtils.WriteNullableBool | Gds/Messages/MsgPackUtils.cs:23-33 | Appends exactly the bytes of the boolean or nil |
| Formatters.MsgPackUtils.ReadNullableBool | Gds/Messages/MsgPackUtils.cs:35-46 | Moves the reader and fails as the layout's nullable boolean does |
| Formatters.MsgPackUtils.WriteNullableInt | Gds/Messages/MsgPackUtils.cs:48-58 | Appends exactly the bytes of the compact integer or nil |
| Formatters.MsgPackUtils.ReadNullableInt | Gds/Messages/MsgPackUtils.cs:60-71 | Moves the reader and fails as the layout's nullable integer does |
| Formatters.MessageHeaderFormatter.Serialize | Gds/Messages/Header/MessageHeaderFormatter.cs:25-37 | Appends exactly the ten items of the header, flat |
| Formatters.MessageHeaderFormatter.Deserialize | Gds/Messages/Header/MessageHeaderFormatter.cs:39-54 | Follows the layout's reader of a header on any bytes, errors included |
| Formatters.ConnectionDataTypeFormatter.Serialize | Gds/Messages/Data/ConnectionData.cs:153-184 | Appends exactly the layout's array, whose stated size is the number of its items, or fails before writing if the password is no string |
| Formatters.ConnectionDataTypeFormatter.Deserialize | Gds/Messages/Data/ConnectionData.cs:186-251 | Follows the layout's reader on any bytes, errors included |
| Formatters.ConnectionDataTypeFormatter.DeserializeReserved | Gds/Messages/Data/ConnectionData.cs:229-248 | The loop that fills the array of reserved fields reads exactly the stated number of strings or nils |
| Formatters.ConnectionAckTypeDataFormatter.Serialize | Gds/Messages/Data/ConnectionAckData.cs:149-163 | Appends exactly the array, the map or nil of the union, or fails for null |
| Formatters.ConnectionAckTypeDataFormatter.Deserialize | Gds/Messages/Data/ConnectionAckData.cs:165-181 | Follows the layout's reader of the union on any bytes |
| Formatters.GeneratedFormatters.SerializeConnectionAck | Gds/Messages/Data/ConnectionAckData.cs:27-45 | Appends exactly the three items of the container in the order of their keys, or fails for a null union |
| Formatters.GeneratedFormatters.DeserializeConnectionAck | Gds/Messages/Data/ConnectionAckData.cs:27-45 | Follows the layout's reader of the container |
| Formatters.AttachmentRequestFormatter.Serialize | Gds/Messages/Data/AttachmentRequestData.cs:61-64 | Appends exactly the string or nil |
| Formatters.AttachmentRequestFormatter.Deserialize | Gds/Messages/Data/AttachmentRequestData.cs:66-69 | Follows the layout's reader of a string or nil |
| Formatters.EventDocumentAckResultFormatter.Serialize | Gds/Messages/Data/EventDocumentAck.cs:108-114 | Appends exactly the triple with its empty map |
| Formatters.EventDocumentAckResultFormatter.Deserialize | Gds/Messages/Data/EventDocumentAck.cs:116-123 | Follows the layout's reader, which looks at neither stated size |
| Formatters.GeneratedFormatters.SerializeEventDocumentAck | Gds/Messages/Data/EventDocumentAck.cs:26-49 | Appends exactly the container with its list of results, written in a loop, or nil for no list |
| Formatters.GeneratedFormatters.DeserializeEventDocumentAck | Gds/Messages/Data/EventDocumentAck.cs:26-49 | Follows the layout's reader of the container and its list |
| Formatters.QueryRequestFormatter.Serialize | Gds/Messages/Data/QueryRequestData.cs:141-159 | Appends exactly the array of five items, or of three if page size or type is missing |
| Formatters.QueryRequestFormatter.Deserialize | Gds/Messages/Data/QueryRequestData.cs:161-178 | Follows the layout's reader, which fails for every size but five |
| Formatters.MessageFormatter.Serialize | Gds/Messages/MessageFormatter.cs:27-73 | Appends exactly the array of eleven, or fails for a body that is refused or cannot be written |
| Formatters.MessageFormatter.Deserialize | Gds/Messages/MessageFormatter.cs:75-97 | Follows the layout's reader of a message on any bytes, choosing the body by the header's type |
| Formatters.MessageManager.GetBinaryFromMessage | Gds/Messages/MessageManager.cs:36-39 | Gives exactly the bytes of the layout's tree, or its error |
| Formatters.MessageManager.GetMessageFromBinary | Gds/Messages/MessageManager.cs:59-62 | Gives what the layout's reader makes of the bytes, or its error |
| Formatters.MessageManager.SendAndReceive | Gds/Messages/MessageManager.cs:36-62 | Written and read again, a message comes back in normal form if and only if its header states the type of its two-way body; what cannot be written fails |
| PendingTheorems.AlwaysInv | samples/GDSNetSDK.Demo/SyncGDSClient.cs:101-330 | The invariant of the map, of task states and of failures, for every schedule |
| PendingTheorems.NothingLeaks | samples/GDSNetSDK.Demo/SyncGDSClient.cs:131-163 | In every reachable state each entry belongs to a request that registered under that id and has not ended; when all have ended the map is empty |
| PendingTheorems.EndIsFinal | samples/GDSNetSDK.Demo/SyncGDSClient.cs:136-163 | A request that has ended has no entry ever after and keeps its result |
| PendingTheorems.EntryKeepsItsOwner | samples/GDSNetSDK.Demo/SyncGDSClient.cs:131-134 | An entry never passes from one request to another without leaving the map in between |
| PendingTheorems.RepliesCorrelate | samples/GDSNetSDK.Demo/SyncGDSClient.cs:300-330 | A returned acknowledgement has the id and the kind of its request, and it is the one that took the request out of the map |
| PendingTheorems.TakingIsOneToOne | samples/GDSNetSDK.Demo/SyncGDSClient.cs:306-308 | Over a whole run each acknowledgement takes at most one request and each request is taken by at most one |
| PendingTheorems.CallNamesRequest | samples/GDSNetSDK.Demo/SyncGDSClient.cs:108-118 | On every run: a request registers under the given id, else under the header's, else under the new one, and on the wire it has the header's id, null included, if a header is given and its own otherwise |
| PendingTheorems.WireIdIsKey | samples/GDSNetSDK.Demo/SyncGDSClient.cs:108-123 | The id a request waits under is the one on the wire if and only if there is no given header or its id is the same; then a returned acknowledgement carries the id that went out |
| PendingTheorems.WaitingIsPendingOrTaken | samples/GDSNetSDK.Demo/SyncGDSClient.cs:131-146 | With distinct ids and no connection failure, the entry of a request that still waits is there, or a reply has taken it |
| PendingTheorems.DueWasPending | samples/GDSNetSDK.Demo/SyncGDSClient.cs:287-290 | What a failure has to visit is what was pending when it began |
| PendingTheorems.FailureSparesOnlyLatecomers | samples/GDSNetSDK.Demo/SyncGDSClient.cs:286-292 | When a failure clears the map, every open request in it registered after the failure began to enumerate |
| PendingLimits.ReplyAlone | samples/GDSNetSDK.Demo/SyncGDSClient.cs:300-314 | From every reachable state an undisturbed acknowledgement completes exactly the open request that is pending under its id and removes the entry; otherwise it changes nothing |
| PendingLimits.ReplyReturned | samples/GDSNetSDK.Demo/SyncGDSClient.cs:141-156 | A waiting request whose reply comes undisturbed returns it, or refuses one of the other kind, and leaves no entry |
| PendingLimits.SendFailsAlone | samples/GDSNetSDK.Demo/SyncGDSClient.cs:120-129 | A request whose send fails ends so and never registers |
| PendingLimits.RegistersExactly | samples/GDSNetSDK.Demo/SyncGDSClient.cs:131-134 | A sent request registers exactly if its id is not in the map, and else ends as a duplicate and leaves the map as it is |
| PendingLimits.BadTimeoutAlone | samples/GDSNetSDK.Demo/SyncGDSClient.cs:136-163 | A timeout that the delay refuses ends the request without an entry |
| PendingLimits.TimesOutAlone | samples/GDSNetSDK.Demo/SyncGDSClient.cs:141-163 | A waiting request whose delay passes ends with a timeout and without an entry |
| PendingLimits.FailedAlone | samples/GDSNetSDK.Demo/SyncGDSClient.cs:141-163 | A waiting request that a connection failure has settled ends with that failure and without an entry |
| PendingLimits.FailureAlone | samples/GDSNetSDK.Demo/SyncGDSClient.cs:279-293 | An undisturbed failure fails exactly the open pending requests and empties the map |
| PendingLimits.StrandedNeverReturns | samples/GDSNetSDK.Demo/SyncGDSClient.cs:131-156 | A waiting request without an entry that no reply has taken never returns a reply, whatever happens |
| PendingLimits.EarlyReplyLost | samples/GDSNetSDK.Demo/SyncGDSClient.cs:120-134 | A run in which the reply comes between sending and registering and is lost |
| PendingLimits.ReusedIdStrands | samples/GDSNetSDK.Demo/SyncGDSClient.cs:131-161 | A run in which the clean-up of one request removes the entry of another with the same id |
| PendingLimits.LatecomerStranded | samples/GDSNetSDK.Demo/SyncGDSClient.cs:286-292 | A run in which a request loses its entry to a failure that does not fail it |
| PendingReach.StrandingPossibleExactly | samples/GDSNetSDK.Demo/SyncGDSClient.cs:120-163 | Over all interleavings, from every reachable state and for every request: some continuation leaves it waiting without an entry that no reply has taken if and only if it has not registered, or still waits, unsettled, and its entry is gone otherwise than to a reply or threatened, by an unfinished request of its id that can still remove it or by a failure under way that has passed it by |
| PendingReach.UndisturbedKeepsEntry | samples/GDSNetSDK.Demo/SyncGDSClient.cs:131-163 | Once a request is pending with no unfinished request of its id and no failure under way, it keeps its entry as long as it waits, until a reply takes it or it is settled, whatever ids are reused and whatever fails later |
| SyncClient.SyncGDSClient.SendEvent2Async | samples/GDSNetSDK.Demo/SyncGDSClient.cs:93-164 | Whatever runs meanwhile, no entry is left when it returns or throws; a returned acknowledgement is an event's with the given id, else the header's, else the new one; a failed send, a duplicate id and a timeout give GdsRequestException, InvalidOperationException and TimeoutException, the other ends theirs |
| SyncClient.SyncGDSClient.SendQueryAsync | samples/GDSNetSDK.Demo/SyncGDSClient.cs:186-251 | The same for a query |
| SyncClient.SyncGDSClient.OnEventAck3 | samples/GDSNetSDK.Demo/SyncGDSClient.cs:300-314 | It throws exactly for a null id; as an event's acknowledgement it takes the request pending under its id, which is settled and out of the map when it returns |
| SyncClient.SyncGDSClient.OnQueryRequestAck11 | samples/GDSNetSDK.Demo/SyncGDSClient.cs:316-330 | The same for the acknowledgement of a query |
| SyncClient.SyncGDSClient.OnConnectionFailure | samples/GDSNetSDK.Demo/SyncGDSClient.cs:279-293 | Every request that was pending when it was called is settled or out of the map when it returns |
| Calendar.DateOfIsInverse | samples/GDSNetSDK.Demo/IdGenerator.cs:35-38 | The cycles of 400, 100, 4 and 1 years find for every day number the existing date that has it |
| Calendar.DayNumbersFollowCalendar | samples/GDSNetSDK.Demo/IdGenerator.cs:35-38 | Day numbers are ordered exactly as dates are, and no two dates share one |
| IdGenerator.MomentIsValid | samples/GDSNetSDK.Demo/IdGenerator.cs:33-36 | Every timestamp in range has a real date of the years 1 to 9999 and a time of day, and is theirs |
| IdGenerator.TimestampIsInverse | samples/GDSNetSDK.Demo/IdGenerator.cs:33-36 | The accepted range is exactly the years 1 to 9999, and each moment is found for its own timestamp |
| IdGenerator.EpochIs1970 | samples/GDSNetSDK.Demo/IdGenerator.cs:35-36 | The day that timestamps count from is 1 January 1970 of the calendar |
| IdGenerator.MomentsFollowTime | samples/GDSNetSDK.Demo/IdGenerator.cs:35-36 | Timestamps are ordered exactly as their moments are |
| IdGenerator.FormatIsStamp | samples/GDSNetSDK.Demo/IdGenerator.cs:38 | The formatted time is the fifteen digits of one number |
| IdGenerator.IdExample | samples/GDSNetSDK.Demo/IdGenerator.cs:38 | The identifier of a moment of a leap day, written out |
| IdGenerator.DigitsFollowNumbers | samples/GDSNetSDK.Demo/IdGenerator.cs:38 | Fixed-width digits are ordered exactly as the numbers are |
| IdGenerator.IdsFollowTheCentury | samples/GDSNetSDK.Demo/IdGenerator.cs:33-49 | Ids of one prefix are ordered exactly as their times within their centuries, equal exactly if nothing but the century differs, and 19 units long |
| IdGenerator.IdsIncrease | samples/GDSNetSDK.Demo/IdGenerator.cs:33-40 | Increasing timestamps of one UTC century give strictly increasing and so distinct ids |
| IdGenerator.CenturyTurns | samples/GDSNetSDK.Demo/IdGenerator.cs:38 | The last millisecond of 1999 gives a greater id than the next one |
| Utf8.StringExactly | samples/GDSNetSDK.Demo/HexUtil.cs:16 | Bytes decode to a string if and only if they are its encoding |
| HexUtil.HexExactly | samples/GDSNetSDK.Demo/HexUtil.cs:17 | Lower-case digits read as bytes if and only if they are those written for them |
| HexUtil.HexStringExactly | samples/GDSNetSDK.Demo/HexUtil.cs:11-18 | A string is read back from its digits and from no others, and they are all hexadecimal digits |
| HexUtil.DigitsAre | samples/GDSNetSDK.Demo/HexUtil.cs:17 | The digits of each byte are its halves, the higher first, in lower case |
| HexUtil.HexIsInjective | samples/GDSNetSDK.Demo/HexUtil.cs:11-18 | Different strings have different digits |
| StringEscapeUtil.EscapeIsOnePass | samples/GDSNetSDK.Demo/StringEscapeUtil.cs:14-20 | The two sequential replacements are one substitution per character |
| StringEscapeUtil.EscapeExactly | samples/GDSNetSDK.Demo/StringEscapeUtil.cs:14-20 | The inverse accepts what is written for a value and nothing else |
| StringEscapeUtil.EscapedReadsBack | samples/GDSNetSDK.Demo/StringEscapeUtil.cs:14-20 | A literal scanner stops at the closing quote and yields the value, for every value |
| StringEscapeUtil.UnescapedReadsBackExactly | samples/GDSNetSDK.Demo/SqlBuilder.cs:31-38 | A value quoted without escaping reads back if and only if it has no quote and no backslash |
| StringEscapeUtil.OnlyPlainReadsAsItself | samples/GDSNetSDK.Demo/SqlBuilder.cs:31-38 | Wherever the scanner finds the end of the literal, a value quoted without escaping is read as itself only if it has no quote and no backslash |
| SqlBuilder.BlockHasThreeStatements | samples/GDSNetSDK.Demo/SqlBuilder.cs:12-39 | For all arguments: the block is three complete statements whose string and hexadecimal literals are exactly the arguments, in order, if and only if the five values quoted without escaping hold no quote and no backslash and the two keys are hexadecimal digits |
| SqlInserts.StatementBack | samples/GDSNetSDK.Demo/SqlBuilder.cs:32-38 | The reader of INSERT statements finds in a statement its table and the value of each of its columns |
| SqlInserts.InsertsTell | samples/GDSNetSDK.Demo/SqlBuilder.cs:32-38 | It passes over no literal and no statement of a text |
| SqlBlock.BlockStoresExactly | samples/GDSNetSDK.Demo/SqlBuilder.cs:12-39 | For all arguments: read as INSERT statements, the block stores each argument in its column of multi_event and each image's id, type and key in multi_event-@attachment, if and only if the five values quoted without escaping hold no quote and no backslash and the two keys are hexadecimal digits |
| DemoInsert.KeysDiffer | samples/GDSNetSDK.Demo/ListenerImpl.cs:56-61 | The front and the rear id have different keys for any prefixes and times |
| DemoInsert.MappingHasTwoEntries | samples/GDSNetSDK.Demo/AttachmentLoader.cs:17-38 | The mapping is built exactly if there are a source and an image, and has two entries whose keys read back as the image ids |
| DemoInsert.BlockMatchesMapping | samples/GDSNetSDK.Demo/ListenerImpl.cs:55-87 | The mapping has exactly the keys of the two images; the statements store the ids with their suffixes, the source, the plate and the extra data in their columns, and those keys with the images, if and only if neither the prefix nor the source holds a quote or a backslash |

## Left out

- AsyncClientTheorems.LoginIsFirstAndOnly: assumes that the socket opens at most once; LoginSentTwice shows a run where it opens again, and LoginsAreOpenings bounds the logins without the assumption
- PendingTheorems.WaitingIsPendingOrTaken: assumes distinct ids and no connection failure in the whole run; UndisturbedKeepsEntry assumes only that nothing overlaps with the registration, and StrandingPossibleExactly has the exact condition
- IdGenerator.IdsIncrease: assumes one century, as two digits of the year are written; IdsFollowTheCentury says exactly which ids stand in order
- MessageTheorems.MessageBack: assumes dictionaries with distinct keys and collections shorter than 2^31, which the client's own types guarantee
- SyncClient.SyncGDSClient.OnConnectionFailure: the method visits the entries that are in the map; the transition system also lets the enumeration come to entries that have left it, as the library's may
- MessageTheorems.CountIsUnique: about the walk alone; MessageIsOneValue says that the header written states that number
- MessageAccounting.DocumentAckAccounts: assumes that every result, if there are any, accounts for itself; MessageAccountsExactly has no such assumption
- Formatters.MessageFormatter.Serialize: a body of one of the types 2, 5, 6, 7, 8 and 12 cannot be given to it
- Formatters.MessageFormatter.Deserialize: a body of one of the types 3, 5, 6, 7, 8 and 11 is reported as not modelled
- Formatters.GeneratedFormatters.DeserializeConnectionAck: a received array with another number of items than three is reported as not modelled
- Formatters.GeneratedFormatters.DeserializeEventDocumentAck: the same for the acknowledgement of documents
- AsyncClient.AsyncGDSClient.Watch: begins where the runtime has started its thread, so its caller has to have that thread
- `Dispose` and the finalizer, and what a disposed countdown does to the threads that use it
- Bodies of the types 2, 5, 6, 7, 8 and 12, and the decoding of the types 3, 5, 6, 7, 8 and 11: their formatters are generated by the library; reading one is reported as not modelled
- The library's containers of `ConnectionAckData` and `EventDocumentAck` are arrays in the order of their keys; received ones with another number of items than three are reported as not modelled
- Null elements in the list of an `EventDocumentAck`, and an `Enum.Parse` of a consistency type given as a number or as a list of names
- Strings on the wire are bytes of UTF-8; the library's replacement of ill-formed UTF-8, lone surrogates, and its guard against headers that announce more items than bytes remain are not modelled
- A reserved field that is neither null nor a string is only modelled as the failed cast of the password's getter
- A received body of nil is decoded as a null reference; the exception that the receiving handler then raises is not modelled
- The checks of null and of non-positive arguments before a request of `SyncGDSClient` is made, its blocking wrappers, and the payloads of requests and acknowledgements
- The task completion sources of `SyncGDSClient` are numbered states in a sequence and not objects; continuations are not modelled
- The server's own SQL lexer, which is not in the repository: the scanner's rules are those that `Escape` is documented to serve
- What the socket does when it is opened or closed, but for the events that it raises
- Exceptions thrown by the socket's own methods and by a listener's
- The file that `AttachmentLoader` reads and the clock are parameters
- The builder, the checks of constructors' arguments, `Either`, `Utils`, `AsText`, JSON output, logging, TLS, ping intervals, and the generated documentation
