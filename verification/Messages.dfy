/** The messages of the protocol: a header and a body, as the client's classes hold them. */
module Messages {
  import opened Results
  import opened MessagePack

  datatype MessageHeader = MessageHeader(
    userName: Option<Text>,
    messageId: Option<Text>,
    createTime: int64,
    requestTime: int64,
    isFragmented: bool,
    firstFragment: Option<bool>,
    lastFragment: Option<bool>,
    offset: Option<int32>,
    fullDataSize: Option<int32>,
    dataType: int32)

  /** An element of the array of reserved fields: null, a string, or an object of another type. */
  datatype Reserved = Null | Word(text: Text) | Foreign

  datatype ConnectionData = ConnectionData(
    clusterName: Option<Text>,
    serveOnTheSameConnection: bool,
    protocolVersionNumber: int32,
    fragmentationSupported: bool,
    fragmentationTransmissionUnit: Option<int64>,
    reservedFields: Option<seq<Reserved>>)
  {
    /** The password is the first reserved field, which must then be a string or null. */
    function Password(): Result<Option<Text>, Error> {
      if reservedFields.None? || |reservedFields.value| == 0 then Ok(None)
      else
        match reservedFields.value[0]
        case Null => Ok(None)
        case Word(text) => Ok(Some(text))
        case Foreign => Err(InvalidCast)
    }
  }

  /** What a connection acknowledgement carries; the dictionary is listed in the order it is enumerated. */
  datatype AckType = Success(connection: ConnectionData) | Unauthorized(reasons: seq<(int32, Option<Text>)>) | Neither

  datatype ConnectionAckData = ConnectionAckData(status: int32, ackData: Option<AckType>, exception: Option<Text>)

  datatype EventDocumentAckResult = EventDocumentAckResult(status: int32, notification: Option<Text>)

  datatype EventDocumentAck = EventDocumentAck(
    status: int32, ackData: Option<seq<EventDocumentAckResult>>, exception: Option<Text>)

  datatype ConsistencyType = PAGE | PAGES | NONE

  datatype QueryRequestData = QueryRequestData(
    selectStringBlock: Option<Text>,
    consistencyType: ConsistencyType,
    timeout: int64,
    queryPageSize: Option<int32>,
    queryType: Option<int32>)

  /** A body, a null reference, or one of the two bodies that the client refuses to write. */
  datatype Body =
    | Absent
    | Connection(connection: ConnectionData)
    | ConnectionAck(connectionAck: ConnectionAckData)
    | AttachmentRequest(request: Option<Text>)
    | EventDocAck(eventDocumentAck: EventDocumentAck)
    | QueryRequest(query: QueryRequestData)
    | EventAck
    | QueryRequestAck
  {
    function GetDataType(): int
      requires !Absent?
    {
      match this
      case Connection(_) => 0
      case ConnectionAck(_) => 1
      case EventAck => 3
      case AttachmentRequest(_) => 4
      case EventDocAck(_) => 9
      case QueryRequest(_) => 10
      case QueryRequestAck => 11
    }
  }

  datatype Message = Message(header: MessageHeader, body: Body)

  /** No two entries have the same key. */
  predicate DistinctKeys(pairs: seq<(int32, Option<Text>)>) {
    forall i, j :: 0 <= i < j < |pairs| ==> pairs[i].0 != pairs[j].0
  }

  /** The sizes that the client's collections can have, and dictionaries with distinct keys. */
  predicate WellFormed(body: Body) {
    match body
    case ConnectionAck(a) =>
      a.ackData.Some? && a.ackData.value.Unauthorized? ==>
        |a.ackData.value.reasons| < 0x8000_0000 && DistinctKeys(a.ackData.value.reasons)
    case EventDocAck(a) => a.ackData.Some? ==> |a.ackData.value| < 0x8000_0000
    case _ => true
  }
}

/**
 The layout of a message: which value the formatters write for it, and what they make of the bytes they read. The
 writing side is a tree whose sizes are true by construction; the reading side follows the reader's cursor.
 */
module Layout {
  import opened Results
  import opened MessagePack
  import opened Messages

  // Writing.

  function TextItem(t: Option<Text>): Value {
    if t.Some? then Str(t.value) else Nil
  }

  function BoolItem(b: Option<bool>): Value {
    if b.Some? then Bool(b.value) else Nil
  }

  function IntItem(i: Option<int32>): Value {
    if i.Some? then Compact(i.value) else Nil
  }

  function HeaderItems(h: MessageHeader): (items: seq<Value>)
    ensures |items| == 10
  {
    [TextItem(h.userName), TextItem(h.messageId), Compact(h.createTime), Compact(h.requestTime), Bool(h.isFragmented),
     BoolItem(h.firstFragment), BoolItem(h.lastFragment), IntItem(h.offset), IntItem(h.fullDataSize),
     Compact(h.dataType)]
  }

  /** The four layouts: with and without a cluster name, with and without a password. */
  function ConnectionItems(d: ConnectionData, password: Option<Text>): seq<Value> {
    (if d.clusterName.Some? then [Str(d.clusterName.value)] else [])
    + [Bool(d.serveOnTheSameConnection), Fixed32(d.protocolVersionNumber), Bool(d.fragmentationSupported),
       if d.fragmentationTransmissionUnit.Some? then Fixed64(d.fragmentationTransmissionUnit.value) else Nil]
    + (if password.Some? then [Arr([Str(password.value)])] else [])
  }

  function ConnectionTree(d: ConnectionData): Result<Value, Error> {
    var password :- d.Password();
    Ok(Arr(ConnectionItems(d, password)))
  }

  function ReasonItems(reasons: seq<(int32, Option<Text>)>): seq<Value> {
    if reasons == [] then []
    else [Compact(reasons[0].0), TextItem(reasons[0].1)] + ReasonItems(reasons[1..])
  }

  /** An untagged union: an array, a map or nil. A null reference is an error. */
  function AckTypeTree(a: Option<AckType>): Result<Value, Error> {
    match a
    case None => Err(NullReference)
    case Some(Success(d)) => ConnectionTree(d)
    case Some(Unauthorized(reasons)) => Ok(Map(ReasonItems(reasons)))
    case Some(Neither) => Ok(Nil)
  }

  function ConnectionAckTree(a: ConnectionAckData): Result<Value, Error> {
    var ack :- AckTypeTree(a.ackData);
    Ok(Arr([Compact(a.status), ack, TextItem(a.exception)]))
  }

  function ResultTree(r: EventDocumentAckResult): Value {
    Arr([Compact(r.status), TextItem(r.notification), Map([])])
  }

  function ResultItems(results: seq<EventDocumentAckResult>): (items: seq<Value>)
    ensures |items| == |results|
  {
    if results == [] then [] else [ResultTree(results[0])] + ResultItems(results[1..])
  }

  function EventDocumentAckTree(a: EventDocumentAck): Value {
    Arr([Compact(a.status),
         if a.ackData.Some? then Arr(ResultItems(a.ackData.value)) else Nil,
         TextItem(a.exception)])
  }

  /** The names of the consistency types, in ASCII. */
  function ConsistencyName(c: ConsistencyType): Text {
    match c
    case PAGE => [80, 65, 71, 69]
    case PAGES => [80, 65, 71, 69, 83]
    case NONE => [78, 79, 78, 69]
  }

  function QueryRequestTree(q: QueryRequestData): Value {
    Arr([TextItem(q.selectStringBlock), Str(ConsistencyName(q.consistencyType)), Fixed64(q.timeout)]
        + if q.queryPageSize.Some? && q.queryType.Some?
          then [Compact(q.queryPageSize.value), Compact(q.queryType.value)] else [])
  }

  function BodyTree(b: Body): Result<Value, Error> {
    match b
    case Absent => Err(NullReference)
    case Connection(d) => ConnectionTree(d)
    case ConnectionAck(a) => ConnectionAckTree(a)
    case AttachmentRequest(r) => Ok(TextItem(r))
    case EventDocAck(a) => Ok(EventDocumentAckTree(a))
    case QueryRequest(q) => Ok(QueryRequestTree(q))
    case EventAck => Err(Error.InvalidOperation)
    case QueryRequestAck => Err(Error.InvalidOperation)
  }

  /** One array of eleven: the ten items of the header, flat, and the body. */
  function MessageTree(m: Message): Result<Value, Error> {
    var body :- BodyTree(m.body);
    Ok(Arr(HeaderItems(m.header) + [body]))
  }

  // Reading.

  function ReadNullableBool(s: Bytes): Result<(Option<bool>, Bytes), Error> {
    var b :- Peek(s);
    if b == NIL then Ok((None, s[1..]))
    else
      var (v, rest) :- ReadBoolean(s);
      Ok((Some(v), rest))
  }

  function ReadNullableInt(s: Bytes): Result<(Option<int32>, Bytes), Error> {
    var b :- Peek(s);
    if b == NIL then Ok((None, s[1..]))
    else
      var (v, rest) :- ReadInt32(s);
      Ok((Some(v), rest))
  }

  function ReadHeader(s: Bytes): Result<(MessageHeader, Bytes), Error> {
    var (userName, s1) :- ReadString(s);
    var (messageId, s2) :- ReadString(s1);
    var (createTime, s3) :- ReadInt64(s2);
    var (requestTime, s4) :- ReadInt64(s3);
    var (isFragmented, s5) :- ReadBoolean(s4);
    var (firstFragment, s6) :- ReadNullableBool(s5);
    var (lastFragment, s7) :- ReadNullableBool(s6);
    var (offset, s8) :- ReadNullableInt(s7);
    var (fullDataSize, s9) :- ReadNullableInt(s8);
    var (dataType, rest) :- ReadInt32(s9);
    Ok((MessageHeader(userName, messageId, createTime, requestTime, isFragmented, firstFragment, lastFragment, offset,
                      fullDataSize, dataType), rest))
  }

  function ToReserved(t: Option<Text>): Reserved {
    if t.Some? then Word(t.value) else Null
  }

  /** The elements of the array of reserved fields. */
  function ReadReserved(s: Bytes, n: nat): Result<(seq<Reserved>, Bytes), Error>
    decreases n
  {
    if n == 0 then Ok(([], s))
    else
      var (t, s1) :- ReadString(s);
      var (others, rest) :- ReadReserved(s1, n - 1);
      Ok(([ToReserved(t)] + others, rest))
  }

  /** The cluster name, if the next value is a string or nil: whether it is there, and what it is. */
  function ReadCluster(s: Bytes): Result<((bool, Option<Text>), Bytes), Error> {
    var b :- Peek(s);
    if IsStringCode(b) || b == NIL then
      var (name, rest) :- ReadString(s);
      Ok(((true, name), rest))
    else Ok(((false, None), s))
  }

  function ReadUnit(s: Bytes): Result<(Option<int64>, Bytes), Error> {
    var b :- Peek(s);
    if b == NIL then Ok((None, s[1..]))
    else
      var (v, rest) :- ReadInt64(s);
      Ok((Some(v), rest))
  }

  function ReadReservedFields(s: Bytes): Result<(Option<seq<Reserved>>, Bytes), Error> {
    var b :- Peek(s);
    if b == NIL then Ok((None, s[1..]))
    else
      var (n, s1) :- ReadArrayHeader(s);
      var (fields, rest) :- ReadReserved(s1, n);
      Ok((Some(fields), rest))
  }

  /** Whether the decoder goes on to read reserved fields. */
  predicate ReservedFollow(size: nat, clusterIncluded: bool) {
    (size == 5 && !clusterIncluded) || size == 6
  }

  function ReadConnectionItems(s: Bytes, size: nat): Result<(ConnectionData, Bytes), Error> {
    var ((clusterIncluded, clusterName), s1) :- ReadCluster(s);
    var (serveOnSame, s2) :- ReadBoolean(s1);
    var (protocol, s3) :- ReadInt32(s2);
    var (fragment, s4) :- ReadBoolean(s3);
    var (unit, s5) :- ReadUnit(s4);
    var (reserved, rest) :- if ReservedFollow(size, clusterIncluded) then ReadReservedFields(s5) else Ok((None, s5));
    Ok((ConnectionData(clusterName, serveOnSame, protocol, fragment, unit, reserved), rest))
  }

  /** `ConnectionData`, or null for nil. */
  function ReadConnection(s: Bytes): Result<(Option<ConnectionData>, Bytes), Error> {
    var b :- Peek(s);
    if b == NIL then Ok((None, s[1..]))
    else
      var (size, s1) :- ReadArrayHeader(s);
      if size < 4 || 6 < size then Err(FormatError)
      else
        var (d, rest) :- ReadConnectionItems(s1, size);
        Ok((Some(d), rest))
  }

  /** The entries of a dictionary; a key that comes twice is an error. */
  function ReadReasons(s: Bytes, n: nat, before: seq<(int32, Option<Text>)>)
    : Result<(seq<(int32, Option<Text>)>, Bytes), Error>
    decreases n
  {
    if n == 0 then Ok((before, s))
    else
      var (key, s1) :- ReadInt32(s);
      var (text, s2) :- ReadString(s1);
      if exists i :: 0 <= i < |before| && before[i].0 == key then Err(DuplicateKey)
      else ReadReasons(s2, n - 1, before + [(key, text)])
  }

  /** The union is told by the type of the next value; anything but an array or a map must be nil, read as null. */
  function ReadAckType(s: Bytes): Result<(Option<AckType>, Bytes), Error> {
    var b :- Peek(s);
    if IsArrayCode(b) then
      var (d, rest) :- ReadConnection(s);
      Ok((if d.Some? then Some(Success(d.value)) else Some(Neither), rest))
    else if IsMapCode(b) then
      var (n, s1) :- ReadMapHeader(s);
      var (reasons, rest) :- ReadReasons(s1, n, []);
      Ok((Some(Unauthorized(reasons)), rest))
    else
      var (_, rest) :- ReadNil(s);
      Ok((None, rest))
  }

  /** The container that the library reads: three items in the order of their keys. */
  function ReadThree(s: Bytes): Result<((), Bytes), Error> {
    var (n, rest) :- ReadArrayHeader(s);
    if n == 3 then Ok(((), rest)) else Err(NotModelled)
  }

  function ReadConnectionAck(s: Bytes): Result<(Option<ConnectionAckData>, Bytes), Error> {
    var b :- Peek(s);
    if b == NIL then Ok((None, s[1..]))
    else
      var (_, s1) :- ReadThree(s);
      var (status, s2) :- ReadInt32(s1);
      var (ackData, s3) :- ReadAckType(s2);
      var (exception, rest) :- ReadString(s3);
      Ok((Some(ConnectionAckData(status, ackData, exception)), rest))
  }

  /** The sizes stated by the array and by the map are not looked at. */
  function ReadResult(s: Bytes): Result<(EventDocumentAckResult, Bytes), Error> {
    var (_, s1) :- ReadArrayHeader(s);
    var (status, s2) :- ReadInt32(s1);
    var (notification, s3) :- ReadString(s2);
    var (_, rest) :- ReadMapHeader(s3);
    Ok((EventDocumentAckResult(status, notification), rest))
  }

  function ReadResults(s: Bytes, n: nat): Result<(seq<EventDocumentAckResult>, Bytes), Error>
    decreases n
  {
    if n == 0 then Ok(([], s))
    else
      var (r, s1) :- ReadResult(s);
      var (others, rest) :- ReadResults(s1, n - 1);
      Ok(([r] + others, rest))
  }

  function ReadResultList(s: Bytes): Result<(Option<seq<EventDocumentAckResult>>, Bytes), Error> {
    var b :- Peek(s);
    if b == NIL then Ok((None, s[1..]))
    else
      var (n, s1) :- ReadArrayHeader(s);
      var (results, rest) :- ReadResults(s1, n);
      Ok((Some(results), rest))
  }

  function ReadEventDocumentAck(s: Bytes): Result<(Option<EventDocumentAck>, Bytes), Error> {
    var b :- Peek(s);
    if b == NIL then Ok((None, s[1..]))
    else
      var (_, s1) :- ReadThree(s);
      var (status, s2) :- ReadInt32(s1);
      var (ackData, s3) :- ReadResultList(s2);
      var (exception, rest) :- ReadString(s3);
      Ok((Some(EventDocumentAck(status, ackData, exception)), rest))
  }

  /** A name is matched with the case of ASCII letters ignored. */
  function Upper(t: Bytes): (u: Bytes)
    ensures |u| == |t|
  {
    if t == [] then [] else [if 97 <= t[0] <= 122 then t[0] - 32 else t[0]] + Upper(t[1..])
  }

  function ParseConsistency(t: Option<Text>): Result<ConsistencyType, Error> {
    if t.None? then Err(NullReference)
    else if Upper(t.value) == ConsistencyName(PAGE) then Ok(PAGE)
    else if Upper(t.value) == ConsistencyName(PAGES) then Ok(PAGES)
    else if Upper(t.value) == ConsistencyName(NONE) then Ok(NONE)
    else Err(FormatError)
  }

  /** Unless the array states five items the query type stays null, and its cast fails. */
  function ReadQueryRequest(s: Bytes): Result<(QueryRequestData, Bytes), Error> {
    var (size, s1) :- ReadArrayHeader(s);
    var (select, s2) :- ReadString(s1);
    var (name, s3) :- ReadString(s2);
    var consistency :- ParseConsistency(name);
    var (timeout, s4) :- ReadInt64(s3);
    if size != 5 then Err(Error.InvalidOperation)
    else
      var (pageSize, s5) :- ReadInt32(s4);
      var (queryType, rest) :- ReadInt32(s5);
      Ok((QueryRequestData(select, consistency, timeout, Some(pageSize), Some(queryType)), rest))
  }

  /** The body is read by the header's data type. Some types are refused, some are read by the library's formatters. */
  function ReadBody(s: Bytes, dataType: int): Result<(Body, Bytes), Error> {
    if dataType == 0 then
      var (d, rest) :- ReadConnection(s);
      Ok((if d.Some? then Connection(d.value) else Absent, rest))
    else if dataType == 1 then
      var (a, rest) :- ReadConnectionAck(s);
      Ok((if a.Some? then ConnectionAck(a.value) else Absent, rest))
    else if dataType == 4 then
      var (r, rest) :- ReadString(s);
      Ok((AttachmentRequest(r), rest))
    else if dataType == 9 then
      var (a, rest) :- ReadEventDocumentAck(s);
      Ok((if a.Some? then EventDocAck(a.value) else Absent, rest))
    else if dataType in {3, 5, 6, 7, 8, 11} then Err(NotModelled)
    else Err(Error.InvalidOperation)
  }

  /** The size stated by the outer array is not looked at. */
  function ReadMessage(s: Bytes): Result<(Message, Bytes), Error> {
    var (_, s1) :- ReadArrayHeader(s);
    var (header, s2) :- ReadHeader(s1);
    var (body, rest) :- ReadBody(s2, header.dataType);
    Ok((Message(header, body), rest))
  }
}
