/** The writer and the reader that the formatters are handed by reference. */
module Cursors {
  import opened Results
  import opened MessagePack

  class Writer {
    var buffer: Bytes

    constructor ()
      ensures buffer == []
    {
      buffer := [];
    }

    method WriteNil()
      modifies this
      ensures buffer == old(buffer) + Encode(Nil)
    {
      buffer := buffer + [NIL];
    }

    method WriteBoolean(b: bool)
      modifies this
      ensures buffer == old(buffer) + Encode(Bool(b))
    {
      buffer := buffer + [if b then TRUE else FALSE];
    }

    /** The shortest format. */
    method WriteInteger(i: int64)
      modifies this
      ensures buffer == old(buffer) + Encode(Compact(i))
    {
      buffer := buffer + CompactInt(i);
    }

    method WriteInt32(i: int32)
      modifies this
      ensures buffer == old(buffer) + Encode(Fixed32(i))
    {
      buffer := buffer + FixedInt32(i);
    }

    method WriteInt64(i: int64)
      modifies this
      ensures buffer == old(buffer) + Encode(Fixed64(i))
    {
      buffer := buffer + FixedInt64(i);
    }

    /** A null string is written as nil. */
    method WriteString(t: Option<Text>)
      modifies this
      ensures buffer == old(buffer) + Encode(if t.Some? then Str(t.value) else Nil)
    {
      buffer := buffer + if t.Some? then StringHeader(|t.value|) + t.value else [NIL];
    }

    method WriteArrayHeader(n: nat)
      requires n < 0x8000_0000
      modifies this
      ensures buffer == old(buffer) + ArrayHeader(n)
    {
      buffer := buffer + ArrayHeader(n);
    }

    method WriteMapHeader(n: nat)
      requires n < 0x8000_0000
      modifies this
      ensures buffer == old(buffer) + MapHeader(n)
    {
      buffer := buffer + MapHeader(n);
    }
  }

  /** A method on a reader does what a function on the bytes says: the same result, and the same bytes left. */
  ghost predicate Follows<T>(spec: Result<(T, Bytes), Error>, r: Result<T, Error>, after: Bytes) {
    match spec
    case Ok((value, rest)) => r == Ok(value) && after == rest
    case Err(e) => r == Err(e)
  }

  class Reader {
    /** The bytes not read yet. */
    var rest: Bytes

    constructor (bytes: Bytes)
      ensures rest == bytes
    {
      rest := bytes;
    }

    method NextCode() returns (r: Result<byte, Error>)
      ensures r == Peek(rest)
    {
      r := Peek(rest);
    }

    method IsNil() returns (r: Result<bool, Error>)
      ensures r == match Peek(rest) case Ok(b) => Ok(b == NIL) case Err(e) => Err(e)
    {
      var b :- Peek(rest);
      r := Ok(b == NIL);
    }

    method ReadNil() returns (r: Result<(), Error>)
      modifies this
      ensures Follows(MessagePack.ReadNil(old(rest)), r, rest)
    {
      var read :- MessagePack.ReadNil(rest);
      rest := read.1;
      r := Ok(read.0);
    }

    /** Moves past a nil that `IsNil` has seen. */
    method PassNil()
      requires Peek(rest) == Ok(NIL)
      modifies this
      ensures rest == old(rest)[1..]
    {
      rest := rest[1..];
    }

    method ReadBoolean() returns (r: Result<bool, Error>)
      modifies this
      ensures Follows(MessagePack.ReadBoolean(old(rest)), r, rest)
    {
      var read :- MessagePack.ReadBoolean(rest);
      rest := read.1;
      r := Ok(read.0);
    }

    method ReadInt32() returns (r: Result<int32, Error>)
      modifies this
      ensures Follows(MessagePack.ReadInt32(old(rest)), r, rest)
    {
      var read :- MessagePack.ReadInt32(rest);
      rest := read.1;
      r := Ok(read.0);
    }

    method ReadInt64() returns (r: Result<int64, Error>)
      modifies this
      ensures Follows(MessagePack.ReadInt64(old(rest)), r, rest)
    {
      var read :- MessagePack.ReadInt64(rest);
      rest := read.1;
      r := Ok(read.0);
    }

    method ReadString() returns (r: Result<Option<Text>, Error>)
      modifies this
      ensures Follows(MessagePack.ReadString(old(rest)), r, rest)
    {
      var read :- MessagePack.ReadString(rest);
      rest := read.1;
      r := Ok(read.0);
    }

    method ReadArrayHeader() returns (r: Result<nat, Error>)
      modifies this
      ensures Follows(MessagePack.ReadArrayHeader(old(rest)), r, rest)
    {
      var read :- MessagePack.ReadArrayHeader(rest);
      rest := read.1;
      r := Ok(read.0);
    }

    method ReadMapHeader() returns (r: Result<nat, Error>)
      modifies this
      ensures Follows(MessagePack.ReadMapHeader(old(rest)), r, rest)
    {
      var read :- MessagePack.ReadMapHeader(rest);
      rest := read.1;
      r := Ok(read.0);
    }
  }
}

/** What a loop over a reader's items has read, followed by what the layout's function still reads. */
module Join {
  import opened Results
  import opened MessagePack

  ghost function After<T>(done: seq<T>, more: Result<(seq<T>, Bytes), Error>): Result<(seq<T>, Bytes), Error> {
    match more
    case Ok((others, rest)) => Ok((done + others, rest))
    case Err(e) => Err(e)
  }

  lemma Nothing<T>(more: Result<(seq<T>, Bytes), Error>)
    ensures After([], more) == more
  {
    if more.Ok? {
      assert [] + more.value.0 == more.value.0;
    }
  }

  lemma Twice<T>(done: seq<T>, next: T, more: Result<(seq<T>, Bytes), Error>)
    ensures After(done, After([next], more)) == After(done + [next], more)
  {
    if more.Ok? {
      assert done + ([next] + more.value.0) == done + [next] + more.value.0;
    }
  }

  lemma End<T>(done: seq<T>, rest: Bytes)
    ensures After(done, Ok(([], rest))) == Ok((done, rest))
  {
    assert done + [] == done;
  }
}

/**
 The formatters. Each `Serialize` appends to the writer, item by item, exactly the bytes of the value that the layout
 gives, or fails with the layout's error; each `Deserialize` moves the reader as the layout's function says.
 */
module Formatters {
  import opened Results
  import opened MessagePack
  import opened MessagePackLemmas
  import opened Messages
  import opened Layout
  import opened RoundTrips
  import MessageTheorems
  import Join
  import opened Cursors

  ghost predicate Wrote(tree: Result<Value, Error>, before: Bytes, after: Bytes, r: Result<(), Error>) {
    match tree
    case Ok(v) => Writable(v) && r.Ok? && after == before + Encode(v)
    case Err(e) => r == Err(e)
  }

  /** Writing the next item after the ones before it. */
  lemma WriteNext(before: Bytes, items: seq<Value>, k: nat)
    requires AllWritable(items) && k < |items|
    ensures before + EncodeAll(items[..k]) + Encode(items[k]) == before + EncodeAll(items[..k + 1])
  {
    hide Encode, EncodeAll;
    assert items[..k + 1] == items[..k] + [items[k]];
    EncodeAllAppend(items[..k], [items[k]]);
    EncodeOne(items[k]);
  }

  lemma WriteAll(before: Bytes, items: seq<Value>)
    requires AllWritable(items)
    ensures before + EncodeAll(items[..0]) == before
    ensures items[..|items|] == items
  {
  }

  lemma EncodeOne(v: Value)
    requires Writable(v)
    ensures EncodeAll([v]) == Encode(v)
  {
    hide Encode;
    assert EncodeAll([v][1..]) == [];
  }

  class MsgPackUtils {
    static method WriteNullableBool(value: Option<bool>, writer: Writer)
      modifies writer
      ensures writer.buffer == old(writer.buffer) + Encode(BoolItem(value))
    {
      if value.Some? {
        writer.WriteBoolean(value.value);
      } else {
        writer.WriteNil();
      }
    }

    static method ReadNullableBool(reader: Reader) returns (r: Result<Option<bool>, Error>)
      modifies reader
      ensures Follows(Layout.ReadNullableBool(old(reader.rest)), r, reader.rest)
    {
      var isNil :- reader.IsNil();
      if !isNil {
        var b :- reader.ReadBoolean();
        r := Ok(Some(b));
      } else {
        reader.PassNil();
        r := Ok(None);
      }
    }

    static method WriteNullableInt(value: Option<int32>, writer: Writer)
      modifies writer
      ensures writer.buffer == old(writer.buffer) + Encode(IntItem(value))
    {
      if value.Some? {
        writer.WriteInteger(value.value);
      } else {
        writer.WriteNil();
      }
    }

    static method ReadNullableInt(reader: Reader) returns (r: Result<Option<int32>, Error>)
      modifies reader
      ensures Follows(Layout.ReadNullableInt(old(reader.rest)), r, reader.rest)
    {
      var isNil :- reader.IsNil();
      if !isNil {
        var i :- reader.ReadInt32();
        r := Ok(Some(i));
      } else {
        reader.PassNil();
        r := Ok(None);
      }
    }
  }

  lemma HeaderWritable(h: MessageHeader)
    ensures AllWritable(HeaderItems(h))
  {
  }

  class MessageHeaderFormatter {
    /** Ten items, with no header of their own. */
    static method Serialize(writer: Writer, value: MessageHeader)
      modifies writer
      ensures AllWritable(HeaderItems(value))
      ensures writer.buffer == old(writer.buffer) + EncodeAll(HeaderItems(value))
    {
      hide Encode, EncodeAll, Writable, AllWritable;
      ghost var items, before := HeaderItems(value), writer.buffer;
      HeaderWritable(value);
      WriteAll(before, items);
      writer.WriteString(value.userName);
      WriteNext(before, items, 0);
      writer.WriteString(value.messageId);
      WriteNext(before, items, 1);
      writer.WriteInteger(value.createTime);
      WriteNext(before, items, 2);
      writer.WriteInteger(value.requestTime);
      WriteNext(before, items, 3);
      writer.WriteBoolean(value.isFragmented);
      WriteNext(before, items, 4);
      SerializeFragmentation(writer, value, before);
    }

    /** The last five items. */
    static method SerializeFragmentation(writer: Writer, value: MessageHeader, ghost before: Bytes)
      requires AllWritable(HeaderItems(value))
      requires writer.buffer == before + EncodeAll(HeaderItems(value)[..5])
      modifies writer
      ensures writer.buffer == before + EncodeAll(HeaderItems(value))
    {
      hide Encode, EncodeAll, Writable, AllWritable;
      ghost var items := HeaderItems(value);
      WriteAll(before, items);
      MsgPackUtils.WriteNullableBool(value.firstFragment, writer);
      WriteNext(before, items, 5);
      MsgPackUtils.WriteNullableBool(value.lastFragment, writer);
      WriteNext(before, items, 6);
      MsgPackUtils.WriteNullableInt(value.offset, writer);
      WriteNext(before, items, 7);
      MsgPackUtils.WriteNullableInt(value.fullDataSize, writer);
      WriteNext(before, items, 8);
      writer.WriteInteger(value.dataType);
      WriteNext(before, items, 9);
    }

    static method Deserialize(reader: Reader) returns (r: Result<MessageHeader, Error>)
      modifies reader
      ensures Follows(ReadHeader(old(reader.rest)), r, reader.rest)
    {
      hide MessagePack.ReadString, MessagePack.ReadInt64, MessagePack.ReadInt32, MessagePack.ReadBoolean;
      hide Layout.ReadNullableBool, Layout.ReadNullableInt;
      var userName :- reader.ReadString();
      var messageId :- reader.ReadString();
      var createTime :- reader.ReadInt64();
      var requestTime :- reader.ReadInt64();
      var isFragmented :- reader.ReadBoolean();
      var firstFragment :- MsgPackUtils.ReadNullableBool(reader);
      var lastFragment :- MsgPackUtils.ReadNullableBool(reader);
      var offset :- MsgPackUtils.ReadNullableInt(reader);
      var fullDataSize :- MsgPackUtils.ReadNullableInt(reader);
      var dataType :- reader.ReadInt32();
      r := Ok(MessageHeader(userName, messageId, createTime, requestTime, isFragmented, firstFragment, lastFragment,
                            offset, fullDataSize, dataType));
    }
  }

  class ConnectionDataTypeFormatter {
    /** The password's getter fails if the first reserved field is no string. */
    static method Serialize(writer: Writer, value: ConnectionData) returns (r: Result<(), Error>)
      modifies writer
      ensures Wrote(ConnectionTree(value), old(writer.buffer), writer.buffer, r)
      ensures r.Err? <==> FirstIsForeign(value)
    {
      hide Encode, EncodeAll, Writable, AllWritable;
      var length := 4;
      if value.clusterName.Some? {
        length := length + 1;
      }
      var password :- value.Password();
      if password.Some? {
        length := length + 1;
      }
      ghost var items, start := ConnectionItems(value, password), writer.buffer;
      ConnectionWritable(value, password);
      writer.WriteArrayHeader(length);
      ghost var before := writer.buffer;
      WriteAll(before, items);
      if value.clusterName.Some? {
        writer.WriteString(value.clusterName);
        WriteNext(before, items, 0);
      }
      SerializeRest(writer, value, password, before);
      EncodeArray(start, items);
      r := Ok(());
    }

    /** The items after the cluster name. */
    static method SerializeRest(writer: Writer, value: ConnectionData, password: Option<Text>, ghost before: Bytes)
      requires AllWritable(ConnectionItems(value, password))
      requires writer.buffer ==
               before + EncodeAll(ConnectionItems(value, password)[..if value.clusterName.Some? then 1 else 0])
      modifies writer
      ensures writer.buffer == before + EncodeAll(ConnectionItems(value, password))
    {
      hide Encode, EncodeAll, Writable, AllWritable;
      ghost var items, k := ConnectionItems(value, password), if value.clusterName.Some? then 1 else 0;
      writer.WriteBoolean(value.serveOnTheSameConnection);
      WriteNext(before, items, k);
      writer.WriteInt32(value.protocolVersionNumber);
      WriteNext(before, items, k + 1);
      writer.WriteBoolean(value.fragmentationSupported);
      WriteNext(before, items, k + 2);
      if value.fragmentationTransmissionUnit.Some? {
        writer.WriteInt64(value.fragmentationTransmissionUnit.value);
      } else {
        writer.WriteNil();
      }
      WriteNext(before, items, k + 3);
      if password.Some? {
        ghost var start := writer.buffer;
        writer.WriteArrayHeader(1);
        writer.WriteString(password);
        EncodeArrayOfOne(start, Str(password.value));
        WriteNext(before, items, k + 4);
      }
      WriteAll(before, items);
    }

    static method Deserialize(reader: Reader) returns (r: Result<Option<ConnectionData>, Error>)
      modifies reader
      ensures Follows(ReadConnection(old(reader.rest)), r, reader.rest)
    {
      hide MessagePack.ReadArrayHeader, ReadConnectionItems;
      var isNil :- reader.IsNil();
      if isNil {
        reader.PassNil();
        return Ok(None);
      }
      var size :- reader.ReadArrayHeader();
      if size < 4 || 6 < size {
        return Err(FormatError);
      }
      var d :- DeserializeItems(reader, size);
      r := Ok(Some(d));
    }

    static method DeserializeItems(reader: Reader, size: nat) returns (r: Result<ConnectionData, Error>)
      modifies reader
      ensures Follows(ReadConnectionItems(old(reader.rest), size), r, reader.rest)
    {
      hide MessagePack.ReadBoolean, MessagePack.ReadInt32, ReadCluster, ReadUnit, ReadReservedFields;
      var cluster :- DeserializeCluster(reader);
      var serveOnSame :- reader.ReadBoolean();
      var protocol :- reader.ReadInt32();
      var fragment :- reader.ReadBoolean();
      var unit :- DeserializeUnit(reader);
      var reservedFields: Option<seq<Reserved>> := None;
      if (size == 5 && !cluster.0) || size == 6 {
        reservedFields :- DeserializeReserved(reader);
      }
      r := Ok(ConnectionData(cluster.1, serveOnSame, protocol, fragment, unit, reservedFields));
    }

    static method DeserializeCluster(reader: Reader) returns (r: Result<(bool, Option<Text>), Error>)
      modifies reader
      ensures Follows(ReadCluster(old(reader.rest)), r, reader.rest)
    {
      var clusterIncluded, clusterName := false, None;
      var code :- reader.NextCode();
      if IsStringCode(code) {
        clusterName :- reader.ReadString();
        clusterIncluded := true;
      } else if code == NIL {
        clusterIncluded := true;
        reader.PassNil();
      }
      r := Ok((clusterIncluded, clusterName));
    }

    static method DeserializeUnit(reader: Reader) returns (r: Result<Option<int64>, Error>)
      modifies reader
      ensures Follows(ReadUnit(old(reader.rest)), r, reader.rest)
    {
      var isNil :- reader.IsNil();
      if isNil {
        reader.PassNil();
        return Ok(None);
      }
      var unit :- reader.ReadInt64();
      r := Ok(Some(unit));
    }

    /** The array of reserved fields is allocated, and filled in a loop. */
    static method DeserializeReserved(reader: Reader) returns (r: Result<Option<seq<Reserved>>, Error>)
      modifies reader
      ensures Follows(ReadReservedFields(old(reader.rest)), r, reader.rest)
    {
      hide MessagePack.ReadArrayHeader, ReadStringHeader;
      var isNil :- reader.IsNil();
      if isNil {
        reader.PassNil();
        return Ok(None);
      }
      var innerSize :- reader.ReadArrayHeader();
      ghost var start := reader.rest;
      var fields := new Reserved[innerSize](_ => Null);
      Join.Nothing(ReadReserved(start, innerSize));
      for i := 0 to innerSize
        invariant ReadReserved(start, innerSize) == Join.After(fields[..i], ReadReserved(reader.rest, innerSize - i))
      {
        ghost var more := ReadReserved(reader.rest, innerSize - i);
        var isNull :- reader.IsNil();
        if isNull {
          reader.PassNil();
          fields[i] := Null;
        } else {
          var text :- reader.ReadString();
          fields[i] := ToReserved(text);
        }
        assert fields[..i + 1] == fields[..i] + [fields[i]];
        assert more == Join.After([fields[i]], ReadReserved(reader.rest, innerSize - (i + 1)));
        Join.Twice(fields[..i], fields[i], ReadReserved(reader.rest, innerSize - (i + 1)));
      }
      assert fields[..innerSize] == fields[..];
      assert ReadReserved(reader.rest, 0) == Ok(([], reader.rest));
      Join.End(fields[..], reader.rest);
      r := Ok(Some(fields[..]));
    }
  }

  lemma ConnectionWritable(d: ConnectionData, password: Option<Text>)
    ensures AllWritable(ConnectionItems(d, password)) && Writable(Arr(ConnectionItems(d, password)))
  {
    assert password.Some? ==> Writable(Arr([Str(password.value)]));
  }

  lemma EncodeArray(start: Bytes, items: seq<Value>)
    requires Writable(Arr(items)) && AllWritable(items)
    ensures start + ArrayHeader(|items|) + EncodeAll(items) == start + Encode(Arr(items))
  {
    hide ArrayHeader, MapHeader, StringHeader, CompactInt, FixedInt32, FixedInt64, EncodeAll;
  }

  lemma EncodeArrayOfOne(start: Bytes, v: Value)
    requires Writable(v)
    ensures Writable(Arr([v]))
    ensures start + ArrayHeader(1) + Encode(v) == start + Encode(Arr([v]))
  {
    EncodeOne(v);
    EncodeArray(start, [v]);
  }

  class ConnectionAckTypeDataFormatter {
    /** A null value is an error. */
    static method Serialize(writer: Writer, value: Option<AckType>) returns (r: Result<(), Error>)
      requires value.Some? && value.value.Unauthorized? ==> |value.value.reasons| < 0x8000_0000
      modifies writer
      ensures Wrote(AckTypeTree(value), old(writer.buffer), writer.buffer, r)
    {
      hide Encode, ConnectionTree;
      if value.None? {
        return Err(NullReference);
      }
      match value.value
      case Success(connection) =>
        r := ConnectionDataTypeFormatter.Serialize(writer, connection);
      case Unauthorized(reasons) =>
        SerializeReasons(writer, reasons);
        r := Ok(());
      case Neither =>
        writer.WriteNil();
        r := Ok(());
    }

    /** The library's formatter of dictionaries: a map header, then each key and its value. */
    static method SerializeReasons(writer: Writer, reasons: seq<(int32, Option<Text>)>)
      requires |reasons| < 0x8000_0000
      modifies writer
      ensures Writable(Map(ReasonItems(reasons)))
      ensures writer.buffer == old(writer.buffer) + Encode(Map(ReasonItems(reasons)))
    {
      hide Encode, EncodeAll;
      ghost var items, start := ReasonItems(reasons), writer.buffer;
      ReasonsWritable(reasons);
      writer.WriteMapHeader(|reasons|);
      ghost var before := writer.buffer;
      WriteAll(before, items);
      for i := 0 to |reasons|
        invariant writer.buffer == before + EncodeAll(items[..2 * i])
      {
        ReasonAt(reasons, i);
        writer.WriteInteger(reasons[i].0);
        WriteNext(before, items, 2 * i);
        writer.WriteString(reasons[i].1);
        WriteNext(before, items, 2 * i + 1);
      }
      EncodeMap(start, items);
    }

    static method Deserialize(reader: Reader) returns (r: Result<Option<AckType>, Error>)
      modifies reader
      ensures Follows(ReadAckType(old(reader.rest)), r, reader.rest)
    {
      hide ReadConnection, MessagePack.ReadMapHeader;
      var code :- reader.NextCode();
      if IsArrayCode(code) {
        var connection :- ConnectionDataTypeFormatter.Deserialize(reader);
        r := Ok(Some(if connection.Some? then Success(connection.value) else Neither));
      } else if IsMapCode(code) {
        var n :- reader.ReadMapHeader();
        var reasons :- DeserializeReasons(reader, n);
        r := Ok(Some(Unauthorized(reasons)));
      } else {
        var _ :- reader.ReadNil();
        r := Ok(None);
      }
    }

    static method DeserializeReasons(reader: Reader, n: nat) returns (r: Result<seq<(int32, Option<Text>)>, Error>)
      modifies reader
      ensures Follows(ReadReasons(old(reader.rest), n, []), r, reader.rest)
    {
      hide MessagePack.ReadInt32, MessagePack.ReadString;
      var reasons: seq<(int32, Option<Text>)> := [];
      ghost var start := reader.rest;
      for i := 0 to n
        invariant ReadReasons(start, n, []) == ReadReasons(reader.rest, n - i, reasons)
      {
        var key :- reader.ReadInt32();
        var text :- reader.ReadString();
        if exists j :: 0 <= j < |reasons| && reasons[j].0 == key {
          return Err(DuplicateKey);
        }
        reasons := reasons + [(key, text)];
      }
      r := Ok(reasons);
    }
  }

  lemma {:induction false} ReasonAt(reasons: seq<(int32, Option<Text>)>, i: nat)
    requires i < |reasons|
    ensures |ReasonItems(reasons)| == 2 * |reasons|
    ensures ReasonItems(reasons)[2 * i] == Compact(reasons[i].0)
    ensures ReasonItems(reasons)[2 * i + 1] == TextItem(reasons[i].1)
  {
    ReasonsWritable(reasons);
    if i > 0 {
      ReasonAt(reasons[1..], i - 1);
    }
  }

  lemma EncodeMap(start: Bytes, entries: seq<Value>)
    requires Writable(Map(entries)) && AllWritable(entries)
    ensures start + MapHeader(|entries| / 2) + EncodeAll(entries) == start + Encode(Map(entries))
  {
    hide ArrayHeader, MapHeader, StringHeader, CompactInt, FixedInt32, FixedInt64, EncodeAll;
  }

  class AttachmentRequestFormatter {
    static method Serialize(writer: Writer, request: Option<Text>)
      modifies writer
      ensures writer.buffer == old(writer.buffer) + Encode(TextItem(request))
    {
      writer.WriteString(request);
    }

    static method Deserialize(reader: Reader) returns (r: Result<Option<Text>, Error>)
      modifies reader
      ensures Follows(MessagePack.ReadString(old(reader.rest)), r, reader.rest)
    {
      r := reader.ReadString();
    }
  }

  class EventDocumentAckResultFormatter {
    static method Serialize(writer: Writer, value: EventDocumentAckResult)
      modifies writer
      ensures Writable(ResultTree(value))
      ensures writer.buffer == old(writer.buffer) + Encode(ResultTree(value))
    {
      hide Encode, EncodeAll;
      ghost var items, start := ResultTree(value).items, writer.buffer;
      writer.WriteArrayHeader(3);
      ghost var before := writer.buffer;
      WriteAll(before, items);
      writer.WriteInteger(value.status);
      WriteNext(before, items, 0);
      writer.WriteString(value.notification);
      WriteNext(before, items, 1);
      ghost var last := writer.buffer;
      writer.WriteMapHeader(0);
      EncodeMap(last, []);
      EncodeNothing(last);
      WriteNext(before, items, 2);
      EncodeArray(start, items);
    }

    static method Deserialize(reader: Reader) returns (r: Result<EventDocumentAckResult, Error>)
      modifies reader
      ensures Follows(ReadResult(old(reader.rest)), r, reader.rest)
    {
      hide MessagePack.ReadArrayHeader, MessagePack.ReadInt32, MessagePack.ReadString, MessagePack.ReadMapHeader;
      var _ :- reader.ReadArrayHeader();
      var status :- reader.ReadInt32();
      var notification :- reader.ReadString();
      var _ :- reader.ReadMapHeader();
      r := Ok(EventDocumentAckResult(status, notification));
    }
  }

  lemma EncodeNothing(start: Bytes)
    ensures start + MapHeader(0) + EncodeAll([]) == start + MapHeader(0)
  {
  }

  class QueryRequestFormatter {
    /** Five items if both the page size and the query type are there, else three. */
    static method Serialize(writer: Writer, value: QueryRequestData)
      modifies writer
      ensures Writable(QueryRequestTree(value))
      ensures writer.buffer == old(writer.buffer) + Encode(QueryRequestTree(value))
    {
      hide Encode, EncodeAll;
      ghost var items, start := QueryRequestTree(value).items, writer.buffer;
      if value.queryPageSize.Some? && value.queryType.Some? {
        writer.WriteArrayHeader(5);
      } else {
        writer.WriteArrayHeader(3);
      }
      ghost var before := writer.buffer;
      SerializeItems(writer, value);
      if value.queryPageSize.Some? && value.queryType.Some? {
        writer.WriteInteger(value.queryPageSize.value);
        WriteNext(before, items, 3);
        writer.WriteInteger(value.queryType.value);
        WriteNext(before, items, 4);
      }
      WriteAll(before, items);
      EncodeArray(start, items);
    }

    /** The three items that are always there. */
    static method SerializeItems(writer: Writer, value: QueryRequestData)
      modifies writer
      ensures writer.buffer == old(writer.buffer) + EncodeAll(QueryRequestTree(value).items[..3])
    {
      hide Encode, EncodeAll;
      ghost var items, before := QueryRequestTree(value).items, writer.buffer;
      WriteAll(before, items);
      writer.WriteString(value.selectStringBlock);
      WriteNext(before, items, 0);
      writer.WriteString(Some(ConsistencyName(value.consistencyType)));
      WriteNext(before, items, 1);
      writer.WriteInt64(value.timeout);
      WriteNext(before, items, 2);
    }

    static method Deserialize(reader: Reader) returns (r: Result<QueryRequestData, Error>)
      modifies reader
      ensures Follows(ReadQueryRequest(old(reader.rest)), r, reader.rest)
    {
      hide MessagePack.ReadArrayHeader, MessagePack.ReadInt32, MessagePack.ReadInt64, MessagePack.ReadString;
      hide ParseConsistency;
      var size :- reader.ReadArrayHeader();
      var select :- reader.ReadString();
      var name :- reader.ReadString();
      var consistency :- ParseConsistency(name);
      var timeout :- reader.ReadInt64();
      var queryPageSize: Option<int32>, queryType: Option<int32> := None, None;
      if size == 5 {
        var pageSize :- reader.ReadInt32();
        var kind :- reader.ReadInt32();
        queryPageSize, queryType := Some(pageSize), Some(kind);
      }
      if queryType.None? {
        return Err(Error.InvalidOperation);  // the cast of a null
      }
      r := Ok(QueryRequestData(select, consistency, timeout, queryPageSize, queryType));
    }
  }

  /** The library's formatters of the two containers: an array in the order of the keys. */
  class GeneratedFormatters {
    static method SerializeConnectionAck(writer: Writer, value: ConnectionAckData) returns (r: Result<(), Error>)
      requires WellFormed(ConnectionAck(value))
      modifies writer
      ensures Wrote(ConnectionAckTree(value), old(writer.buffer), writer.buffer, r)
    {
      hide Encode, EncodeAll, AckTypeTree;
      ghost var start := writer.buffer;
      writer.WriteArrayHeader(3);
      ghost var before := writer.buffer;
      writer.WriteInteger(value.status);
      var _ :- ConnectionAckTypeDataFormatter.Serialize(writer, value.ackData);
      writer.WriteString(value.exception);
      ghost var items := ConnectionAckTree(value).value.items;
      assert AllWritable(items);
      WriteAll(before, items);
      WriteNext(before, items, 0);
      WriteNext(before, items, 1);
      WriteNext(before, items, 2);
      EncodeArray(start, items);
      r := Ok(());
    }

    static method DeserializeConnectionAck(reader: Reader) returns (r: Result<Option<ConnectionAckData>, Error>)
      modifies reader
      ensures Follows(ReadConnectionAck(old(reader.rest)), r, reader.rest)
    {
      hide MessagePack.ReadInt32, MessagePack.ReadString, ReadAckType, MessagePack.ReadArrayHeader;
      var isNil :- reader.IsNil();
      if isNil {
        reader.PassNil();
        return Ok(None);
      }
      var n :- reader.ReadArrayHeader();
      if n != 3 {
        return Err(NotModelled);
      }
      var status :- reader.ReadInt32();
      var ackData :- ConnectionAckTypeDataFormatter.Deserialize(reader);
      var exception :- reader.ReadString();
      r := Ok(Some(ConnectionAckData(status, ackData, exception)));
    }

    static method SerializeEventDocumentAck(writer: Writer, value: EventDocumentAck)
      requires WellFormed(EventDocAck(value))
      modifies writer
      ensures Writable(EventDocumentAckTree(value))
      ensures writer.buffer == old(writer.buffer) + Encode(EventDocumentAckTree(value))
    {
      hide Encode, EncodeAll, ReadResultList, ResultItems;
      ghost var items, start := EventDocumentAckTree(value).items, writer.buffer;
      ResultListBack(value.ackData, []);
      writer.WriteArrayHeader(3);
      ghost var before := writer.buffer;
      WriteAll(before, items);
      writer.WriteInteger(value.status);
      WriteNext(before, items, 0);
      SerializeResults(writer, value.ackData);
      WriteNext(before, items, 1);
      writer.WriteString(value.exception);
      WriteNext(before, items, 2);
      EncodeArray(start, items);
    }

    static method SerializeResults(writer: Writer, results: Option<seq<EventDocumentAckResult>>)
      requires results.Some? ==> |results.value| < 0x8000_0000
      modifies writer
      ensures var v := if results.Some? then Arr(ResultItems(results.value)) else Nil;
              Writable(v) && writer.buffer == old(writer.buffer) + Encode(v)
    {
      hide Encode, EncodeAll, ResultTree;
      if results.None? {
        writer.WriteNil();
        return;
      }
      ghost var items, start := ResultItems(results.value), writer.buffer;
      ResultListBack(results, []);
      writer.WriteArrayHeader(|results.value|);
      ghost var before := writer.buffer;
      WriteAll(before, items);
      for i := 0 to |results.value|
        invariant writer.buffer == before + EncodeAll(items[..i])
      {
        EventDocumentAckResultFormatter.Serialize(writer, results.value[i]);
        ResultAt(results.value, i);
        WriteNext(before, items, i);
      }
      EncodeArray(start, items);
    }

    static method DeserializeEventDocumentAck(reader: Reader) returns (r: Result<Option<EventDocumentAck>, Error>)
      modifies reader
      ensures Follows(ReadEventDocumentAck(old(reader.rest)), r, reader.rest)
    {
      hide MessagePack.ReadInt32, MessagePack.ReadString, ReadResultList, MessagePack.ReadArrayHeader;
      var isNil :- reader.IsNil();
      if isNil {
        reader.PassNil();
        return Ok(None);
      }
      var n :- reader.ReadArrayHeader();
      if n != 3 {
        return Err(NotModelled);
      }
      var status :- reader.ReadInt32();
      var ackData :- DeserializeResults(reader);
      var exception :- reader.ReadString();
      r := Ok(Some(EventDocumentAck(status, ackData, exception)));
    }

    static method DeserializeResults(reader: Reader) returns (r: Result<Option<seq<EventDocumentAckResult>>, Error>)
      modifies reader
      ensures Follows(ReadResultList(old(reader.rest)), r, reader.rest)
    {
      hide MessagePack.ReadArrayHeader, ReadResult;
      var isNil :- reader.IsNil();
      if isNil {
        reader.PassNil();
        return Ok(None);
      }
      var n :- reader.ReadArrayHeader();
      ghost var start := reader.rest;
      var results: seq<EventDocumentAckResult> := [];
      Join.Nothing(ReadResults(start, n));
      for i := 0 to n
        invariant ReadResults(start, n) == Join.After(results, ReadResults(reader.rest, n - i))
      {
        ghost var more := ReadResults(reader.rest, n - i);
        var next :- EventDocumentAckResultFormatter.Deserialize(reader);
        assert more == Join.After([next], ReadResults(reader.rest, n - (i + 1)));
        Join.Twice(results, next, ReadResults(reader.rest, n - (i + 1)));
        results := results + [next];
      }
      Join.End(results, reader.rest);
      assert ReadResults(reader.rest, 0) == Ok(([], reader.rest));
      r := Ok(Some(results));
    }
  }

  lemma {:induction false} ResultAt(results: seq<EventDocumentAckResult>, i: nat)
    requires i < |results|
    ensures ResultItems(results)[i] == ResultTree(results[i])
  {
    if i > 0 {
      ResultAt(results[1..], i - 1);
    }
  }

  class MessageFormatter {
    /** The frame of eleven items; the body is written by its own type, and two types are refused. */
    static method Serialize(writer: Writer, value: Message) returns (r: Result<(), Error>)
      requires WellFormed(value.body)
      modifies writer
      ensures Wrote(MessageTree(value), old(writer.buffer), writer.buffer, r)
    {
      hide Encode, EncodeAll, BodyTree, HeaderItems;
      ghost var start := writer.buffer;
      writer.WriteArrayHeader(11);
      ghost var before := writer.buffer;
      MessageHeaderFormatter.Serialize(writer, value.header);
      var _ :- SerializeBody(writer, value.body);
      ghost var header, body := HeaderItems(value.header), BodyTree(value.body).value;
      EncodeAllAppend(header, [body]);
      EncodeOne(body);
      assert before + EncodeAll(header) + Encode(body) == before + EncodeAll(header + [body]);
      EncodeArray(start, header + [body]);
      r := Ok(());
    }

    static method SerializeBody(writer: Writer, value: Body) returns (r: Result<(), Error>)
      requires WellFormed(value)
      modifies writer
      ensures Wrote(BodyTree(value), old(writer.buffer), writer.buffer, r)
    {
      hide Encode, ConnectionTree, ConnectionAckTree, EventDocumentAckTree, QueryRequestTree;
      match value
      case Absent =>
        r := Err(NullReference);
      case Connection(connection) =>
        r := ConnectionDataTypeFormatter.Serialize(writer, connection);
      case ConnectionAck(connectionAck) =>
        r := GeneratedFormatters.SerializeConnectionAck(writer, connectionAck);
      case AttachmentRequest(request) =>
        AttachmentRequestFormatter.Serialize(writer, request);
        r := Ok(());
      case EventDocAck(eventDocumentAck) =>
        GeneratedFormatters.SerializeEventDocumentAck(writer, eventDocumentAck);
        r := Ok(());
      case QueryRequest(query) =>
        QueryRequestFormatter.Serialize(writer, query);
        r := Ok(());
      case EventAck =>
        r := Err(Error.InvalidOperation);
      case QueryRequestAck =>
        r := Err(Error.InvalidOperation);
    }

    /** The body is read by the type in the header. */
    static method Deserialize(reader: Reader) returns (r: Result<Message, Error>)
      modifies reader
      ensures Follows(ReadMessage(old(reader.rest)), r, reader.rest)
    {
      hide MessagePack.ReadArrayHeader, ReadHeader, ReadBody;
      var _ :- reader.ReadArrayHeader();
      var header :- MessageHeaderFormatter.Deserialize(reader);
      var body :- DeserializeBody(reader, header.dataType);
      r := Ok(Message(header, body));
    }

    static method DeserializeBody(reader: Reader, dataType: int) returns (r: Result<Body, Error>)
      modifies reader
      ensures Follows(ReadBody(old(reader.rest), dataType), r, reader.rest)
    {
      hide ReadConnection, ReadConnectionAck, ReadEventDocumentAck, MessagePack.ReadString;
      if dataType == 0 {
        var connection :- ConnectionDataTypeFormatter.Deserialize(reader);
        r := Ok(if connection.Some? then Connection(connection.value) else Absent);
      } else if dataType == 1 {
        var ack :- GeneratedFormatters.DeserializeConnectionAck(reader);
        r := Ok(if ack.Some? then ConnectionAck(ack.value) else Absent);
      } else if dataType == 4 {
        var request :- AttachmentRequestFormatter.Deserialize(reader);
        r := Ok(AttachmentRequest(request));
      } else if dataType == 9 {
        var ack :- GeneratedFormatters.DeserializeEventDocumentAck(reader);
        r := Ok(if ack.Some? then EventDocAck(ack.value) else Absent);
      } else if dataType in {3, 5, 6, 7, 8, 11} {
        r := Err(NotModelled);
      } else {
        r := Err(Error.InvalidOperation);
      }
    }
  }

  class MessageManager {
    static method GetBinaryFromMessage(message: Message) returns (r: Result<Bytes, Error>)
      requires WellFormed(message.body)
      ensures match MessageTree(message)
              case Ok(v) => Writable(v) && r == Ok(Encode(v))
              case Err(e) => r == Err(e)
    {
      hide Encode;
      var writer := new Writer();
      var _ :- MessageFormatter.Serialize(writer, message);
      assert [] + Encode(MessageTree(message).value) == Encode(MessageTree(message).value);
      r := Ok(writer.buffer);
    }

    static method GetMessageFromBinary(binary: Bytes) returns (r: Result<Message, Error>)
      ensures match ReadMessage(binary)
              case Ok((message, _)) => r == Ok(message)
              case Err(e) => r == Err(e)
    {
      hide ReadMessage;
      var reader := new Reader(binary);
      r := MessageFormatter.Deserialize(reader);
    }

    /** What arrives at the other end of the wire. */
    static method SendAndReceive(message: Message) returns (r: Result<Message, Error>)
      requires WellFormed(message.body)
      ensures MessageTree(message).Err? ==> r == Err(MessageTree(message).error)
      ensures MessageTree(message).Ok? ==>
                (r == Ok(MessageTheorems.NormalMessage(message))
                 <==> message.header.dataType == message.body.GetDataType()
                      && MessageTheorems.TwoWay(message.body.GetDataType()))
    {
      hide Encode, ReadMessage;
      var binary :- GetBinaryFromMessage(message);
      MessageTheorems.MessageBackExactly(message, []);
      assert Encode(MessageTree(message).value) + [] == Encode(MessageTree(message).value);
      r := GetMessageFromBinary(binary);
    }
  }
}
