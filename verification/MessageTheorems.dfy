/** Whole messages: the round trip, when it holds, and what the bytes are to a reader that knows nothing of them. */
module MessageTheorems {
  import opened Results
  import opened MessagePack
  import opened MessagePackLemmas
  import opened Messages
  import opened Layout
  import opened RoundTrips

  // QueryRequestData.

  lemma ConsistencyBack(c: ConsistencyType)
    ensures ParseConsistency(Some(ConsistencyName(c))) == Ok(c)
  {
    var p: Text, ps: Text, n: Text := [80, 65, 71, 69], [80, 65, 71, 69, 83], [78, 79, 78, 69];
    UpperStays(p);
    UpperStays(ps);
    UpperStays(n);
    assert p[0] != n[0] && ps[0] != n[0] && |p| != |ps|;
  }

  lemma {:induction false} UpperStays(t: Bytes)
    requires forall i :: 0 <= i < |t| ==> !(97 <= t[i] <= 122)
    ensures Upper(t) == t
  {
    if t != [] {
      UpperStays(t[1..]);
    }
  }

  /** A query request is read back if and only if it has both a page size and a query type; else reading fails. */
  lemma QueryBackExactly(q: QueryRequestData, s: Bytes)
    ensures Writable(QueryRequestTree(q))
    ensures ReadQueryRequest(Encode(QueryRequestTree(q)) + s) ==
            if q.queryPageSize.Some? && q.queryType.Some? then Ok((q, s)) else Err(Error.InvalidOperation)
  {
    hide Encode, EncodeAll, Tail, ReadArrayHeader, ReadInt32, ReadInt64, ReadString, ParseConsistency;
    var items := QueryRequestTree(q).items;
    ArrayBack(items, s);
    forall i: nat | i < |items| ensures Tail(items, i, s) == Encode(items[i]) + Tail(items, i + 1, s) {
      TailStep(items, i, s);
    }
    TailEnd(items, s);
    TextBack(q.selectStringBlock, Tail(items, 1, s));
    TextBack(Some(ConsistencyName(q.consistencyType)), Tail(items, 2, s));
    ConsistencyBack(q.consistencyType);
    FixedBack(q.timeout, Tail(items, 3, s));
    if |items| == 5 {
      CompactBack(q.queryPageSize.value, Tail(items, 4, s));
      CompactBack(q.queryType.value, s);
    }
  }

  lemma FixedBack(l: int64, s: Bytes)
    ensures ReadInt64(Encode(Fixed64(l)) + s) == Ok((l, s))
  {
    hide FixedInt64, ReadNumber;
    ReadFixed64(l, s);
  }

  // Messages.

  /** The bodies that the client both writes and reads. */
  predicate TwoWay(dataType: int) {
    dataType in {0, 1, 4, 9}
  }

  function NormalBody(b: Body): Body
    requires BodyTree(b).Ok?
  {
    match b
    case Connection(d) => Connection(NormalConnection(d))
    case ConnectionAck(a) => ConnectionAck(a.(ackData := NormalAckType(a.ackData.value)))
    case _ => b
  }

  function NormalMessage(m: Message): Message
    requires BodyTree(m.body).Ok?
  {
    Message(m.header, NormalBody(m.body))
  }

  lemma BodyWritable(b: Body)
    requires BodyTree(b).Ok? && WellFormed(b)
    ensures Writable(BodyTree(b).value)
  {
    match b
    case Connection(d) => ConnectionBack(d, []);
    case ConnectionAck(a) => ConnectionAckBack(a, []);
    case AttachmentRequest(_) =>
    case EventDocAck(a) => EventDocumentAckBack(a, []);
    case QueryRequest(q) => QueryBackExactly(q, []);
  }

  lemma MessageWritable(m: Message)
    requires MessageTree(m).Ok? && WellFormed(m.body)
    ensures Writable(MessageTree(m).value)
  {
    BodyWritable(m.body);
  }

  lemma BodyBack(b: Body, s: Bytes)
    requires BodyTree(b).Ok? && WellFormed(b) && Writable(BodyTree(b).value)
    requires TwoWay(b.GetDataType())
    ensures ReadBody(Encode(BodyTree(b).value) + s, b.GetDataType()) == Ok((NormalBody(b), s))
  {
    hide Encode, ReadConnection, ReadConnectionAck, ReadEventDocumentAck, ReadString;
    match b
    case Connection(d) => ConnectionBack(d, s);
    case ConnectionAck(a) => ConnectionAckBack(a, s);
    case AttachmentRequest(r) => TextBack(r, s);
    case EventDocAck(a) => EventDocumentAckBack(a, s);
  }

  /**
   The types of the bodies are those of the protocol, and of all bodies exactly those of the types 3 and 11 are refused
   by the writer for their type.
   */
  lemma RefusedExactly(b: Body)
    requires !b.Absent?
    ensures b.GetDataType() !in {0, 1, 2, 4, 5, 6, 7, 8, 9, 10, 12} <==> BodyTree(b) == Err(Error.InvalidOperation)
    ensures b.Connection? <==> b.GetDataType() == 0
    ensures b.ConnectionAck? <==> b.GetDataType() == 1
    ensures b.EventAck? <==> b.GetDataType() == 3
    ensures b.AttachmentRequest? <==> b.GetDataType() == 4
    ensures b.EventDocAck? <==> b.GetDataType() == 9
    ensures b.QueryRequest? <==> b.GetDataType() == 10
    ensures b.QueryRequestAck? <==> b.GetDataType() == 11
  {
  }

  /** Whatever the bytes, a body of another type than these is refused by the reader. */
  lemma UnknownBodiesAreRefused(s: Bytes, dataType: int)
    requires dataType !in {0, 1, 3, 4, 5, 6, 7, 8, 9, 11}
    ensures ReadBody(s, dataType) == Err(Error.InvalidOperation)
  {
  }

  /** Reading a message that was written, whatever follows it, comes down to reading its body. */
  lemma MessageComesToBody(m: Message, s: Bytes)
    requires MessageTree(m).Ok? && WellFormed(m.body) && Writable(MessageTree(m).value)
    requires Writable(BodyTree(m.body).value)
    ensures ReadMessage(Encode(MessageTree(m).value) + s) ==
            match ReadBody(Encode(BodyTree(m.body).value) + s, m.header.dataType)
            case Ok((body, rest)) => Ok((Message(m.header, body), rest))
            case Err(e) => Err(e)
  {
    hide Encode, EncodeAll, Tail, ReadArrayHeader, ReadHeader, ReadBody, HeaderItems;
    var body := BodyTree(m.body).value;
    var items := HeaderItems(m.header) + [body];
    ArrayBack(items, s);
    HeaderBack(m.header, [body], s);
    TailStep(items, 10, s);
    TailEnd(items, s);
  }

  /** The round trip: a message is read back in normal form, and exactly what follows it is left. */
  lemma MessageBack(m: Message, s: Bytes)
    requires MessageTree(m).Ok? && WellFormed(m.body)
    requires m.header.dataType == m.body.GetDataType() && TwoWay(m.body.GetDataType())
    ensures Writable(MessageTree(m).value)
    ensures ReadMessage(Encode(MessageTree(m).value) + s) == Ok((NormalMessage(m), s))
  {
    hide Encode, ReadMessage, ReadBody;
    MessageWritable(m);
    BodyWritable(m.body);
    MessageComesToBody(m, s);
    BodyBack(m.body, s);
  }

  /** What is read has the type that the header states, so the casts made on it do not fail. */
  lemma BodyHasHeaderType(s: Bytes, dataType: int)
    requires ReadBody(s, dataType).Ok?
    ensures TwoWay(dataType)
    ensures var b := ReadBody(s, dataType).value.0; b.Absent? || b.GetDataType() == dataType
  {
    hide ReadConnection, ReadConnectionAck, ReadEventDocumentAck, ReadString;
  }

  /** A message that can be written is read back if and only if its header states the type of a two-way body. */
  lemma MessageBackExactly(m: Message, s: Bytes)
    requires MessageTree(m).Ok? && WellFormed(m.body)
    ensures Writable(MessageTree(m).value)
    ensures ReadMessage(Encode(MessageTree(m).value) + s) == Ok((NormalMessage(m), s))
            <==> m.header.dataType == m.body.GetDataType() && TwoWay(m.body.GetDataType())
    ensures var r := ReadMessage(Encode(MessageTree(m).value) + s);
            r.Ok? && r.value.0 == NormalMessage(m) ==> r == Ok((NormalMessage(m), s))
  {
    hide Encode, ReadMessage, ReadBody;
    MessageWritable(m);
    BodyWritable(m.body);
    MessageComesToBody(m, s);
    var bytes := Encode(BodyTree(m.body).value) + s;
    if m.header.dataType == m.body.GetDataType() && TwoWay(m.body.GetDataType()) {
      MessageBack(m, s);
    } else if ReadBody(bytes, m.header.dataType).Ok? {
      BodyHasHeaderType(bytes, m.header.dataType);
    }
  }

  /** A message that was read back can be written again unless it is an acknowledgement with neither side set. */
  lemma WrittenAgain(m: Message)
    requires MessageTree(m).Ok? && WellFormed(m.body)
    ensures
      var n := NormalMessage(m);
      && WellFormed(n.body)
      && (MessageTree(n).Ok? <==> !(m.body.ConnectionAck? && m.body.connectionAck.ackData == Some(Neither)))
      && (MessageTree(n).Ok? ==> NormalMessage(n) == n && MessageTree(n) == MessageTree(m))
  {
    match m.body
    case Connection(d) => SameTree(d);
    case ConnectionAck(a) =>
      if a.ackData.value.Success? {
        SameTree(a.ackData.value.connection);
      }
    case AttachmentRequest(_) =>
    case EventDocAck(_) =>
    case QueryRequest(_) =>
  }

  lemma SameTree(d: ConnectionData)
    requires d.Password().Ok?
    ensures var n := NormalConnection(d);
            n.Password() == d.Password() && NormalConnection(n) == n && ConnectionTree(n) == ConnectionTree(d)
  {
    assert ConnectionItems(NormalConnection(d), d.Password().value) == ConnectionItems(d, d.Password().value);
  }

  /**
   Every message that can be written is, to the walk that knows only of headers, one complete value: an array of
   eleven, in which each array and map, however deep, holds as many values as its header states.
   */
  lemma MessageIsOneValue(m: Message, s: Bytes)
    requires MessageTree(m).Ok? && WellFormed(m.body)
    ensures Writable(MessageTree(m).value)
    ensures
      var all := Encode(MessageTree(m).value) + s;
      && all[0] == 0x9b
      && SkipMany(all, 1) == Ok(s)
      && SkipMany(all[1..], 11) == Ok(s)
  {
    MessageWritable(m);
    hide Encode, SkipMany, Writable;
    ElevenAreOneValue(HeaderItems(m.header) + [BodyTree(m.body).value], s);
  }

  lemma ElevenAreOneValue(items: seq<Value>, s: Bytes)
    requires |items| == 11 && Writable(Arr(items))
    ensures
      var all := Encode(Arr(items)) + s;
      && all[0] == 0x9b
      && SkipMany(all, 1) == Ok(s)
      && SkipMany(all[1..], 11) == Ok(s)
  {
    var all := Encode(Arr(items)) + s;
    hide SkipMany, EncodeAll;
    SkipNone(s);
    SkipEncoded(Arr(items), s, 0);
    assert all[1..] == EncodeAll(items) + s;
    SkipEncodedAll(items, s, 0);
  }

  // The decoders' accounts: what they consume of any bytes they accept.

  /** If `k` values lead to `rest`, no other number of values does. */
  lemma CountIsUnique(s: Bytes, k: nat, n: nat, rest: Bytes)
    requires SkipMany(s, k) == Ok(rest)
    ensures SkipMany(s, n) == Ok(rest) <==> n == k
  {
    hide SkipMany;
    if n < k {
      SkipSplit(s, n, k - n);
    } else if k < n {
      SkipSplit(s, k, n - k);
    }
  }

  /** One value and then `n`. */
  lemma SkipOneMore(s: Bytes, t: Bytes, n: nat)
    requires Head(s) == Ok((0, t))
    ensures SkipMany(s, n + 1) == SkipMany(t, n)
  {
    SkipStep(s, n);
  }

  lemma NilIsLeaf(s: Bytes)
    requires Peek(s) == Ok(NIL)
    ensures Head(s) == Ok((0, s[1..]))
  {
  }

  lemma {:induction false} ReservedSkips(s: Bytes, n: nat)
    requires ReadReserved(s, n).Ok?
    ensures SkipMany(s, n) == Ok(ReadReserved(s, n).value.1)
    ensures forall i :: 0 <= i < |ReadReserved(s, n).value.0| ==> !ReadReserved(s, n).value.0[i].Foreign?
    decreases n
  {
    hide Head, ReadString;
    if n > 0 {
      StringIsLeaf(s);
      var t := ReadString(s).value.1;
      SkipOneMore(s, t, n - 1);
      ReservedSkips(t, n - 1);
    }
  }

  lemma ReservedFieldsSkip(s: Bytes)
    requires ReadReservedFields(s).Ok?
    ensures SkipMany(s, 1) == Ok(ReadReservedFields(s).value.1)
  {
    hide Head, ReadArrayHeader, ReadReserved;
    if s[0] == NIL {
      NilIsLeaf(s);
      SkipOneMore(s, s[1..], 0);
      SkipNone(s[1..]);
    } else {
      var (n, t) := ReadArrayHeader(s).value;
      ArrayHeaderIsHead(s);
      SkipStep(s, 0);
      ReservedSkips(t, n);
    }
  }

  /** How many values the decoder of `ConnectionData` reads. */
  function Consumed(size: nat, clusterIncluded: bool): nat {
    (if clusterIncluded then 5 else 4) + (if ReservedFollow(size, clusterIncluded) then 1 else 0)
  }

  lemma UnitSkips(s: Bytes)
    requires ReadUnit(s).Ok?
    ensures Head(s) == Ok((0, ReadUnit(s).value.1))
  {
    hide ReadNumber, Head;
    if s[0] == NIL {
      NilIsLeaf(s);
    } else {
      NumberIsLeaf(s);
    }
  }

  /** The four values after the cluster name. */
  lemma FourSkip(s1: Bytes, n: nat)
    requires ReadBoolean(s1).Ok?
    requires var s2 := ReadBoolean(s1).value.1; ReadInt32(s2).Ok?
    requires var s3 := ReadInt32(ReadBoolean(s1).value.1).value.1; ReadBoolean(s3).Ok?
    requires var s4 := ReadBoolean(ReadInt32(ReadBoolean(s1).value.1).value.1).value.1; ReadUnit(s4).Ok?
    ensures
      var s2 := ReadBoolean(s1).value.1;
      var s3 := ReadInt32(s2).value.1;
      var s4 := ReadBoolean(s3).value.1;
      var s5 := ReadUnit(s4).value.1;
      SkipMany(s1, n + 4) == SkipMany(s5, n)
  {
    hide Head, SkipMany, ReadBoolean, ReadNumber, ReadUnit;
    var s2 := ReadBoolean(s1).value.1;
    var s3 := ReadInt32(s2).value.1;
    var s4 := ReadBoolean(s3).value.1;
    var s5 := ReadUnit(s4).value.1;
    BooleanIsLeaf(s1);
    NumberIsLeaf(s2);
    BooleanIsLeaf(s3);
    UnitSkips(s4);
    SkipOneMore(s1, s2, n + 3);
    SkipOneMore(s2, s3, n + 2);
    SkipOneMore(s3, s4, n + 1);
    SkipOneMore(s4, s5, n);
  }

  lemma ItemsSkip(s: Bytes, size: nat)
    requires ReadConnectionItems(s, size).Ok?
    ensures SkipMany(s, Consumed(size, ReadCluster(s).value.0.0)) == Ok(ReadConnectionItems(s, size).value.1)
  {
    hide Head, SkipMany, ReadString, ReadBoolean, ReadInt32, ReadUnit, ReadReservedFields;
    var ((included, _), s1) := ReadCluster(s).value;
    var s5 := ReadUnit(ReadBoolean(ReadInt32(ReadBoolean(s1).value.1).value.1).value.1).value.1;
    var more := if ReservedFollow(size, included) then 1 else 0;
    FourSkip(s1, more);
    if included {
      StringIsLeaf(s);
      SkipOneMore(s, s1, more + 4);
    }
    if more == 1 {
      ReservedFieldsSkip(s5);
    } else {
      SkipNone(s5);
    }
  }

  /**
   Of any bytes that it accepts, the decoder of `ConnectionData` consumes exactly as many values as the array states
   if and only if (size, cluster included) is (4, no), (5, either) or (6, yes).
   */
  lemma ConnectionAccounts(s: Bytes)
    requires ReadConnection(s).Ok? && ReadConnection(s).value.0.Some?
    ensures
      var (size, s1) := ReadArrayHeader(s).value;
      var included := ReadCluster(s1).value.0.0;
      && 4 <= size <= 6
      && SkipMany(s1, Consumed(size, included)) == Ok(ReadConnection(s).value.1)
      && Consumed(size, included) == (if size == 4 then (if included then 5 else 4)
                                      else if size == 5 then 5
                                      else if included then 6 else 5)
      && (SkipMany(s1, size) == Ok(ReadConnection(s).value.1)
          <==> (size == 4 && !included) || size == 5 || (size == 6 && included))
  {
    hide Head, SkipMany, ReadArrayHeader, ReadConnectionItems, ReadCluster;
    var (size, s1) := ReadArrayHeader(s).value;
    ItemsAreRead(s1, size);
    ItemsSkip(s1, size);
    CountIsUnique(s1, Consumed(size, ReadCluster(s1).value.0.0), size, ReadConnection(s).value.1);
  }

  lemma ItemsAreRead(s: Bytes, size: nat)
    requires ReadConnectionItems(s, size).Ok?
    ensures ReadCluster(s).Ok?
    ensures ReadConnectionItems(s, size).value.0.Password().Ok?
  {
    hide ReadCluster, ReadBoolean, ReadInt32, ReadUnit, ReadReserved, ReadArrayHeader;
    var ((included, _), s1) := ReadCluster(s).value;
    var s5 := ReadUnit(ReadBoolean(ReadInt32(ReadBoolean(s1).value.1).value.1).value.1).value.1;
    if ReservedFollow(size, included) && s5[0] != NIL {
      var (n, t) := ReadArrayHeader(s5).value;
      ReservedSkips(t, n);
    }
  }

  /** Whatever bytes it came from, an accepted value is written, and read back in normal form. */
  lemma AcceptedIsStable(s: Bytes, t: Bytes)
    requires ReadConnection(s).Ok? && ReadConnection(s).value.0.Some?
    ensures
      var d := ReadConnection(s).value.0.value;
      && d.Password().Ok?
      && Writable(ConnectionTree(d).value)
      && ReadConnection(Encode(ConnectionTree(d).value) + t) == Ok((Some(NormalConnection(d)), t))
  {
    hide ReadConnectionItems, ReadArrayHeader, Encode;
    var (size, s1) := ReadArrayHeader(s).value;
    ItemsAreRead(s1, size);
    ConnectionBack(ReadConnection(s).value.0.value, t);
  }

  /**
   The decoder of a document acknowledgement's results looks at neither size: it consumes one complete value if and
   only if the array states three items and the map states none.
   */
  lemma ResultAccounts(s: Bytes)
    requires ReadResult(s).Ok?
    ensures
      var (n, s1) := ReadArrayHeader(s).value;
      var s3 := ReadString(ReadInt32(s1).value.1).value.1;
      var entries := ReadMapHeader(s3).value.0;
      SkipMany(s, 1) == Ok(ReadResult(s).value.1) <==> n == 3 && entries == 0
  {
    hide Head, SkipMany, ReadArrayHeader, ReadString, ReadNumber, ReadMapHeader;
    var (n, s1) := ReadArrayHeader(s).value;
    var s2 := ReadInt32(s1).value.1;
    var s3 := ReadString(s2).value.1;
    var (entries, rest) := ReadMapHeader(s3).value;
    ArrayHeaderIsHead(s);
    SkipStep(s, 0);
    NumberIsLeaf(s1);
    StringIsLeaf(s2);
    MapHeaderIsHead(s3);
    SkipNone(s3);
    SkipOneMore(s2, s3, 0);
    SkipOneMore(s1, s2, 1);
    if n < 3 {
      Shorter(s1, n, 2, s3, rest);
    } else {
      SkipSplit(s1, 2, n - 2);
      SkipStep(s3, n - 3);
      SkipNone(rest);
      CountIsUnique(rest, 0, n - 3 + 2 * entries, rest);
    }
  }

  /** Whatever sizes the array and the map state, a result is read: they are not looked at. */
  lemma ResultSizesAreIgnored(n: nat, r: EventDocumentAckResult, entries: nat, s: Bytes)
    requires n < 0x8000_0000 && entries < 0x8000_0000
    ensures
      ReadResult(ArrayHeader(n) + (Encode(Compact(r.status)) + (Encode(TextItem(r.notification)) +
        (MapHeader(entries) + s)))) == Ok((r, s))
  {
    hide Encode, ReadArrayHeader, ReadInt32, ReadString, ReadMapHeader, ArrayHeader, MapHeader;
    var s3 := MapHeader(entries) + s;
    var s2 := Encode(TextItem(r.notification)) + s3;
    ReadArray(n, Encode(Compact(r.status)) + s2);
    CompactBack(r.status, s2);
    TextBack(r.notification, s3);
    ReadMap(entries, s);
  }

  /** Whatever size the outer array states, the message in it is read, or fails, alike. */
  lemma OuterSizeIsIgnored(n: nat, s: Bytes)
    requires n < 0x8000_0000
    ensures ReadMessage(ArrayHeader(n) + s) == ReadMessage([0x9b] + s)
  {
    assert ArrayHeader(11) == [0x9b];
    hide ReadHeader, ReadBody, ReadArrayHeader, ArrayHeader;
    ReadArray(n, s);
    ReadArray(11, s);
  }

  /** No query request is read from an array of another size than five. */
  lemma QueryNeedsFive(s: Bytes)
    requires ReadQueryRequest(s).Ok?
    ensures ReadArrayHeader(s).value.0 == 5
  {
  }

  /** Fewer values than lead to `t` do not lead to anything shorter. */
  lemma Shorter(s: Bytes, n: nat, k: nat, t: Bytes, rest: Bytes)
    requires n <= k && SkipMany(s, k) == Ok(t) && |rest| < |t|
    ensures SkipMany(s, n) != Ok(rest)
  {
    hide SkipMany;
    SkipSplit(s, n, k - n);
  }
}
