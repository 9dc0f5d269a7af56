/** What is read back from what was written: primitives, then the bodies, then whole messages. */
module RoundTrips {
  import opened Results
  import opened MessagePack
  import opened MessagePackLemmas
  import opened Messages
  import opened Layout

  // Items.

  lemma BoolBack(b: bool, s: Bytes)
    ensures ReadBoolean(Encode(Bool(b)) + s) == Ok((b, s))
  {
    assert (Encode(Bool(b)) + s)[1..] == s;
  }

  lemma NilBack(s: Bytes)
    ensures Peek(Encode(Nil) + s) == Ok(NIL) && (Encode(Nil) + s)[1..] == s
  {
  }

  lemma NullableBoolBack(b: Option<bool>, s: Bytes)
    ensures ReadNullableBool(Encode(BoolItem(b)) + s) == Ok((b, s))
  {
    if b.Some? {
      BoolBack(b.value, s);
    } else {
      NilBack(s);
    }
  }

  lemma CompactBack(i: int64, s: Bytes)
    ensures ReadInt64(Encode(Compact(i)) + s) == Ok((i, s))
    ensures -0x8000_0000 <= i < 0x8000_0000 ==> ReadInt32(Encode(Compact(i)) + s) == Ok((i, s))
  {
    hide CompactInt, ReadNumber;
    ReadCompact(i, s);
  }

  /** No integer is written with the code of nil, of a string or of a container. */
  lemma IntegerCode(i: int64)
    ensures var b := Encode(Compact(i))[0]; b != NIL && !IsStringCode(b)
    ensures Encode(Fixed64(i))[0] != NIL
  {
  }

  lemma NullableIntBack(i: Option<int32>, s: Bytes)
    ensures ReadNullableInt(Encode(IntItem(i)) + s) == Ok((i, s))
  {
    if i.Some? {
      CompactBack(i.value, s);
      IntegerCode(i.value);
    } else {
      NilBack(s);
    }
  }

  lemma TextBack(t: Option<Text>, s: Bytes)
    ensures ReadString(Encode(TextItem(t)) + s) == Ok((t, s))
  {
    if t.Some? {
      ReadText(t.value, s);
    } else {
      NilBack(s);
    }
  }

  lemma Fixed32Back(i: int32, s: Bytes)
    ensures ReadInt32(Encode(Fixed32(i)) + s) == Ok((i, s))
  {
    hide FixedInt32, ReadNumber;
    ReadFixed32(i, s);
  }

  lemma UnitBack(l: Option<int64>, s: Bytes)
    ensures ReadUnit(Encode(if l.Some? then Fixed64(l.value) else Nil) + s) == Ok((l, s))
  {
    if l.Some? {
      IntegerCode(l.value);
      ReadFixed64(l.value, s);
    } else {
      NilBack(s);
    }
  }

  /** The bytes of the items from the i-th on, and what follows them. */
  function Tail(items: seq<Value>, i: nat, s: Bytes): Bytes
    requires AllWritable(items) && i <= |items|
  {
    EncodeAll(items[i..]) + s
  }

  lemma TailStep(items: seq<Value>, i: nat, s: Bytes)
    requires AllWritable(items) && i < |items|
    ensures Tail(items, i, s) == Encode(items[i]) + Tail(items, i + 1, s)
  {
    hide Encode;
    assert items[i..][1..] == items[i + 1..];
  }

  lemma TailEnd(items: seq<Value>, s: Bytes)
    requires AllWritable(items)
    ensures Tail(items, |items|, s) == s
  {
  }

  lemma ArrayBack(items: seq<Value>, s: Bytes)
    requires AllWritable(items) && |items| < 0x8000_0000
    ensures ReadArrayHeader(Encode(Arr(items)) + s) == Ok((|items|, Tail(items, 0, s)))
    ensures var all := Encode(Arr(items)) + s; all != [] && IsArrayCode(all[0]) && all[0] != NIL
  {
    hide ReadArrayHeader, EncodeAll, MapHeader, ArrayHeader, StringHeader, CompactInt, FixedInt32, FixedInt64;
    var all := Encode(Arr(items)) + s;
    assert all == ArrayHeader(|items|) + (EncodeAll(items) + s);
    assert items[0..] == items;
    ReadArray(|items|, EncodeAll(items) + s);
  }

  // The header.

  lemma HeaderItemsWritable(h: MessageHeader, vs: seq<Value>)
    requires AllWritable(vs)
    ensures AllWritable(HeaderItems(h) + vs)
  {
  }

  lemma HeaderBack(h: MessageHeader, vs: seq<Value>, s: Bytes)
    requires AllWritable(vs)
    ensures AllWritable(HeaderItems(h) + vs)
    ensures ReadHeader(Tail(HeaderItems(h) + vs, 0, s)) == Ok((h, Tail(HeaderItems(h) + vs, 10, s)))
  {
    hide Encode, EncodeAll, Tail, ReadString, ReadInt64, ReadInt32, ReadBoolean, ReadNullableBool, ReadNullableInt;
    var items := HeaderItems(h) + vs;
    HeaderItemsWritable(h, vs);
    hide AllWritable;
    forall i: nat | i < 10 ensures Tail(items, i, s) == Encode(items[i]) + Tail(items, i + 1, s) {
      TailStep(items, i, s);
    }
    TextBack(h.userName, Tail(items, 1, s));
    TextBack(h.messageId, Tail(items, 2, s));
    CompactBack(h.createTime, Tail(items, 3, s));
    CompactBack(h.requestTime, Tail(items, 4, s));
    BoolBack(h.isFragmented, Tail(items, 5, s));
    NullableBoolBack(h.firstFragment, Tail(items, 6, s));
    NullableBoolBack(h.lastFragment, Tail(items, 7, s));
    NullableIntBack(h.offset, Tail(items, 8, s));
    NullableIntBack(h.fullDataSize, Tail(items, 9, s));
    CompactBack(h.dataType, Tail(items, 10, s));
  }

  // ConnectionData.

  /** What survives the wire: of the reserved fields only the password. */
  function NormalConnection(d: ConnectionData): ConnectionData
    requires d.Password().Ok?
  {
    d.(reservedFields := if d.Password().value.Some? then Some([Word(d.Password().value.value)]) else None)
  }

  lemma ReservedBack(text: Text, s: Bytes)
    ensures ReadReservedFields(Encode(Arr([Str(text)])) + s) == Ok((Some([Word(text)]), s))
  {
    hide Encode, EncodeAll, Tail, ReadArrayHeader, ReadString;
    var items := [Str(text)];
    ArrayBack(items, s);
    TailStep(items, 0, s);
    TailEnd(items, s);
    TextBack(Some(text), s);
    assert ReadReserved(s, 0) == Ok(([], s));
    assert ReadReserved(Tail(items, 0, s), 1) == Ok(([Word(text)], s)) by {
      assert [Word(text)] + [] == [Word(text)];
    }
  }

  /** With a cluster name the first item is a string, without one it is a boolean. */
  lemma ClusterBack(name: Option<Text>, b: bool, s: Bytes)
    ensures ReadCluster(if name.Some? then Encode(Str(name.value)) + s else Encode(Bool(b)) + s) ==
            Ok(((name.Some?, name), if name.Some? then s else Encode(Bool(b)) + s))
  {
    if name.Some? {
      hide Encode, ReadString;
      TextBack(name, s);
      StringCode(name.value, s);
    }
  }

  lemma StringCode(text: Text, s: Bytes)
    ensures var all := Encode(Str(text)) + s; all != [] && IsStringCode(all[0])
  {
  }

  lemma ConnectionItemsWritable(d: ConnectionData, password: Option<Text>)
    ensures AllWritable(ConnectionItems(d, password))
  {
    assert password.Some? ==> Writable(Arr([Str(password.value)]));
  }

  lemma ConnectionItemsBack(d: ConnectionData, s: Bytes)
    requires d.Password().Ok? && AllWritable(ConnectionItems(d, d.Password().value))
    ensures
      var items := ConnectionItems(d, d.Password().value);
      ReadConnectionItems(Tail(items, 0, s), |items|) == Ok((NormalConnection(d), s))
  {
    hide Encode, EncodeAll, Tail, ReadCluster, ReadBoolean, ReadInt32, ReadUnit, ReadReservedFields, AllWritable;
    var items := ConnectionItems(d, d.Password().value);
    var k := if d.clusterName.Some? then 1 else 0;
    forall i: nat | i < |items| ensures Tail(items, i, s) == Encode(items[i]) + Tail(items, i + 1, s) {
      TailStep(items, i, s);
    }
    TailEnd(items, s);
    ClusterBack(d.clusterName, d.serveOnTheSameConnection, Tail(items, 1, s));
    BoolBack(d.serveOnTheSameConnection, Tail(items, k + 1, s));
    Fixed32Back(d.protocolVersionNumber, Tail(items, k + 2, s));
    BoolBack(d.fragmentationSupported, Tail(items, k + 3, s));
    UnitBack(d.fragmentationTransmissionUnit, Tail(items, k + 4, s));
    if d.Password().value.Some? {
      ReservedBack(d.Password().value.value, s);
    }
  }

  lemma ConnectionBack(d: ConnectionData, s: Bytes)
    requires d.Password().Ok?
    ensures Writable(ConnectionTree(d).value)
    ensures ReadConnection(Encode(ConnectionTree(d).value) + s) == Ok((Some(NormalConnection(d)), s))
  {
    hide Encode, EncodeAll, Tail, ReadArrayHeader, ReadConnectionItems;
    ConnectionItemsWritable(d, d.Password().value);
    ArrayBack(ConnectionItems(d, d.Password().value), s);
    ConnectionItemsBack(d, s);
  }

  /** The first reserved field is there and is not of another type than a string. */
  predicate FirstIsForeign(d: ConnectionData) {
    d.reservedFields.Some? && |d.reservedFields.value| > 0 && d.reservedFields.value[0].Foreign?
  }

  /** What is kept of the reserved fields: the first, if it is a string. */
  function Kept(d: ConnectionData): Option<seq<Reserved>> {
    if d.reservedFields.Some? && |d.reservedFields.value| > 0 && d.reservedFields.value[0].Word?
    then Some([d.reservedFields.value[0]]) else None
  }

  /**
   The round trip on the fields themselves: every field is read back, but of the reserved ones the password alone, which
   is the first; it takes an item of its own exactly if it is a string. A first one of another type cannot be written.
   */
  lemma ConnectionFieldsBack(d: ConnectionData, s: Bytes)
    ensures FirstIsForeign(d) ==> ConnectionTree(d) == Err(InvalidCast)
    ensures
      !FirstIsForeign(d) ==>
        var size := 4 + (if d.clusterName.Some? then 1 else 0) + (if Kept(d).Some? then 1 else 0);
        && ConnectionTree(d).Ok? && Writable(ConnectionTree(d).value)
        && var bytes := Encode(ConnectionTree(d).value) + s;
        && bytes[0] == 0x90 + size && SkipMany(bytes[1..], size) == Ok(s)
        && ReadConnection(bytes) == Ok((Some(d.(reservedFields := Kept(d))), s))
  {
    if !FirstIsForeign(d) {
      var items := ConnectionItems(d, d.Password().value);
      assert NormalConnection(d) == d.(reservedFields := Kept(d));
      assert ConnectionTree(d) == Ok(Arr(items));
      assert |items| == 4 + (if d.clusterName.Some? then 1 else 0) + (if Kept(d).Some? then 1 else 0);
      ConnectionItemsWritable(d, d.Password().value);
      hide *;
      ConnectionBack(d, s);
      ShortArray(items, s);
    }
  }

  /** An array of fewer than sixteen: its size is in the first byte, and that many values follow. */
  lemma ShortArray(items: seq<Value>, s: Bytes)
    requires AllWritable(items) && |items| < 16
    ensures
      var bytes := Encode(Arr(items)) + s;
      bytes[0] == 0x90 + |items| && SkipMany(bytes[1..], |items|) == Ok(s)
  {
    hide *;
    ShortArrayBytes(items);
    SkipNone(s);
    SkipEncodedAll(items, s, 0);
    assert ([0x90 + |items|] + EncodeAll(items) + s)[1..] == EncodeAll(items) + s;
  }

  lemma ShortArrayBytes(items: seq<Value>)
    requires AllWritable(items) && |items| < 16
    ensures Writable(Arr(items)) && Encode(Arr(items)) == [0x90 + |items|] + EncodeAll(items)
  {
    hide EncodeAll, MapHeader, StringHeader, CompactInt, FixedInt32, FixedInt64;
  }

  // Connections of other writers.

  function TextItems(ts: seq<Option<Text>>): (items: seq<Value>)
    ensures |items| == |ts|
  {
    if ts == [] then [] else [TextItem(ts[0])] + TextItems(ts[1..])
  }

  lemma {:induction false} TextItemsWritable(ts: seq<Option<Text>>)
    ensures AllWritable(TextItems(ts))
  {
    if ts != [] {
      TextItemsWritable(ts[1..]);
    }
  }

  /** A field for each text, null for null. */
  function Fields(ts: seq<Option<Text>>): seq<Reserved> {
    seq(|ts|, i requires 0 <= i < |ts| => if ts[i].Some? then Word(ts[i].value) else Null)
  }

  lemma {:induction false} FieldsBack(ts: seq<Option<Text>>, s: Bytes)
    requires AllWritable(TextItems(ts))
    ensures ReadReserved(EncodeAll(TextItems(ts)) + s, |ts|) == Ok((Fields(ts), s))
    decreases ts
  {
    hide Encode, ReadString;
    if ts == [] {
      assert EncodeAll(TextItems(ts)) + s == s;
    } else {
      var items := TextItems(ts);
      TextItemsWritable(ts[1..]);
      assert items[1..] == TextItems(ts[1..]);
      var more := EncodeAll(TextItems(ts[1..])) + s;
      assert EncodeAll(items) + s == Encode(TextItem(ts[0])) + more;
      TextBack(ts[0], more);
      FieldsBack(ts[1..], s);
      assert Fields(ts) == [ToReserved(ts[0])] + Fields(ts[1..]);
    }
  }

  function ReservedItem(reserved: Option<seq<Option<Text>>>): Value {
    if reserved.Some? then Arr(TextItems(reserved.value)) else Nil
  }

  lemma ReservedListBack(reserved: Option<seq<Option<Text>>>, s: Bytes)
    requires reserved.Some? ==> |reserved.value| < 0x8000_0000
    ensures Writable(ReservedItem(reserved))
    ensures ReadReservedFields(Encode(ReservedItem(reserved)) + s) ==
            Ok((if reserved.Some? then Some(Fields(reserved.value)) else None, s))
  {
    if reserved.Some? {
      hide Encode, EncodeAll, ReadArrayHeader, ReadReserved;
      var items := TextItems(reserved.value);
      TextItemsWritable(reserved.value);
      ArrayBack(items, s);
      assert items[0..] == items;
      FieldsBack(reserved.value, s);
    } else {
      NilBack(s);
    }
  }

  /**
   The items of a connection in any of the layouts that the decoder takes: without a cluster name, with a null one or
   with one; without reserved fields, with null ones or with a list of strings and nulls.
   */
  function ReceivedItems(cluster: Option<Option<Text>>, serve: bool, version: int32, fragments: bool,
                         unit: Option<int64>, reserved: Option<Option<seq<Option<Text>>>>): seq<Value> {
    (if cluster.Some? then [TextItem(cluster.value)] else [])
    + [Bool(serve), Fixed32(version), Bool(fragments), if unit.Some? then Fixed64(unit.value) else Nil]
    + (if reserved.Some? then [ReservedItem(reserved.value)] else [])
  }

  lemma ReceivedWritable(cluster: Option<Option<Text>>, serve: bool, version: int32, fragments: bool,
                         unit: Option<int64>, reserved: Option<Option<seq<Option<Text>>>>)
    requires reserved.Some? && reserved.value.Some? ==> |reserved.value.value| < 0x8000_0000
    ensures AllWritable(ReceivedItems(cluster, serve, version, fragments, unit, reserved))
  {
    if reserved.Some? {
      ReservedListBack(reserved.value, []);
    }
  }

  lemma NameBack(cluster: Option<Option<Text>>, b: bool, s: Bytes)
    ensures ReadCluster(if cluster.Some? then Encode(TextItem(cluster.value)) + s else Encode(Bool(b)) + s) ==
            Ok(((cluster.Some?, if cluster.Some? then cluster.value else None),
                if cluster.Some? then s else Encode(Bool(b)) + s))
  {
    if cluster.Some? {
      if cluster.value.Some? {
        hide Encode, ReadString;
        StringCode(cluster.value.value, s);
      } else {
        NilBack(s);
      }
      TextBack(cluster.value, s);
    }
  }

  /** All of these layouts are read field by field, whoever wrote them. */
  lemma ReceivedBack(cluster: Option<Option<Text>>, serve: bool, version: int32, fragments: bool,
                     unit: Option<int64>, reserved: Option<Option<seq<Option<Text>>>>, s: Bytes)
    requires reserved.Some? && reserved.value.Some? ==> |reserved.value.value| < 0x8000_0000
    ensures
      var items := ReceivedItems(cluster, serve, version, fragments, unit, reserved);
      && AllWritable(items)
      && ReadConnection(Encode(Arr(items)) + s) == Ok((
           Some(ConnectionData(
             if cluster.Some? then cluster.value else None, serve, version, fragments, unit,
             if reserved.Some? && reserved.value.Some? then Some(Fields(reserved.value.value)) else None)), s))
  {
    hide Encode, EncodeAll, Tail, ReadArrayHeader, ReadConnectionItems;
    var items := ReceivedItems(cluster, serve, version, fragments, unit, reserved);
    ReceivedWritable(cluster, serve, version, fragments, unit, reserved);
    ArrayBack(items, s);
    ReceivedItemsBack(cluster, serve, version, fragments, unit, reserved, s);
  }

  lemma ReceivedItemsBack(cluster: Option<Option<Text>>, serve: bool, version: int32, fragments: bool,
                          unit: Option<int64>, reserved: Option<Option<seq<Option<Text>>>>, s: Bytes)
    requires reserved.Some? && reserved.value.Some? ==> |reserved.value.value| < 0x8000_0000
    requires AllWritable(ReceivedItems(cluster, serve, version, fragments, unit, reserved))
    ensures
      var items := ReceivedItems(cluster, serve, version, fragments, unit, reserved);
      ReadConnectionItems(Tail(items, 0, s), |items|) == Ok((
        ConnectionData(
          if cluster.Some? then cluster.value else None, serve, version, fragments, unit,
          if reserved.Some? && reserved.value.Some? then Some(Fields(reserved.value.value)) else None), s))
  {
    hide Encode, EncodeAll, Tail, ReadCluster, ReadBoolean, ReadInt32, ReadUnit, ReadReservedFields;
    hide ReservedItem, TextItem, Fields;
    var items := ReceivedItems(cluster, serve, version, fragments, unit, reserved);
    var k := if cluster.Some? then 1 else 0;
    forall i: nat | i < |items| ensures Tail(items, i, s) == Encode(items[i]) + Tail(items, i + 1, s) {
      TailStep(items, i, s);
    }
    TailEnd(items, s);
    NameBack(cluster, serve, Tail(items, 1, s));
    BoolBack(serve, Tail(items, k + 1, s));
    Fixed32Back(version, Tail(items, k + 2, s));
    BoolBack(fragments, Tail(items, k + 3, s));
    UnitBack(unit, Tail(items, k + 4, s));
    if reserved.Some? {
      ReservedListBack(reserved.value, s);
    }
  }

  /** No two normal forms share an encoding, although two of the four layouts have five items. */
  lemma ConnectionInjective(d: ConnectionData, e: ConnectionData)
    requires d.Password().Ok? && e.Password().Ok?
    requires Writable(ConnectionTree(d).value) && Writable(ConnectionTree(e).value)
    requires Encode(ConnectionTree(d).value) == Encode(ConnectionTree(e).value)
    ensures NormalConnection(d) == NormalConnection(e)
  {
    hide ReadConnection, Encode;
    ConnectionBack(d, []);
    ConnectionBack(e, []);
  }

  /** Normal forms are what the decoder returns for them, so encoding and decoding again changes nothing. */
  lemma ConnectionStable(d: ConnectionData, s: Bytes)
    requires d.Password().Ok?
    ensures
      var n := NormalConnection(d);
      && n.Password() == d.Password() && NormalConnection(n) == n
      && Writable(ConnectionTree(n).value) && Writable(ConnectionTree(d).value)
      && Encode(ConnectionTree(n).value) == Encode(ConnectionTree(d).value)
      && ReadConnection(Encode(ConnectionTree(n).value) + s) == Ok((Some(n), s))
  {
    hide ReadConnection, Encode;
    ConnectionBack(d, s);
    ConnectionBack(NormalConnection(d), s);
    assert ConnectionItems(NormalConnection(d), d.Password().value) == ConnectionItems(d, d.Password().value);
  }

  // ConnectionAckData.

  /** Keys and values alternate; each is a leaf. */
  lemma {:induction false} ReasonsWritable(reasons: seq<(int32, Option<Text>)>)
    ensures |ReasonItems(reasons)| == 2 * |reasons| && AllWritable(ReasonItems(reasons))
  {
    if reasons != [] {
      ReasonsWritable(reasons[1..]);
    }
  }

  /** The entries of a dictionary behind those read before: in order, unless a key comes twice. */
  lemma {:induction false} ReasonsExactly(
    before: seq<(int32, Option<Text>)>, reasons: seq<(int32, Option<Text>)>, s: Bytes)
    requires DistinctKeys(before) && AllWritable(ReasonItems(reasons))
    ensures ReadReasons(EncodeAll(ReasonItems(reasons)) + s, |reasons|, before) ==
            if DistinctKeys(before + reasons) then Ok((before + reasons, s)) else Err(DuplicateKey)
    decreases reasons
  {
    hide Encode, ReadInt32, ReadString;
    if reasons == [] {
      assert EncodeAll(ReasonItems(reasons)) + s == s && before + reasons == before;
    } else {
      var items := ReasonItems(reasons);
      ReasonsWritable(reasons[1..]);
      assert items[2..] == ReasonItems(reasons[1..]);
      TailStep(items, 0, s);
      TailStep(items, 1, s);
      assert items[0..] == items;
      CompactBack(reasons[0].0, Tail(items, 1, s));
      TextBack(reasons[0].1, Tail(items, 2, s));
      KeyComesTwice(before, reasons);
      if forall i :: 0 <= i < |before| ==> before[i].0 != reasons[0].0 {
        assert before + [reasons[0]] + reasons[1..] == before + reasons;
        ReasonsExactly(before + [reasons[0]], reasons[1..], s);
      }
    }
  }

  lemma KeyComesTwice(before: seq<(int32, Option<Text>)>, reasons: seq<(int32, Option<Text>)>)
    requires reasons != []
    ensures DistinctKeys(before + reasons) ==> forall i :: 0 <= i < |before| ==> before[i].0 != reasons[0].0
  {
    assert forall i :: 0 <= i < |before| ==> before[i] == (before + reasons)[i];
    assert reasons[0] == (before + reasons)[|before|];
  }

  lemma MapBack(entries: seq<Value>, s: Bytes)
    requires AllWritable(entries) && |entries| % 2 == 0 && |entries| / 2 < 0x8000_0000
    ensures Writable(Map(entries))
    ensures ReadMapHeader(Encode(Map(entries)) + s) == Ok((|entries| / 2, EncodeAll(entries) + s))
    ensures var all := Encode(Map(entries)) + s; all != [] && IsMapCode(all[0])
  {
    hide ReadMapHeader, EncodeAll, MapHeader, ArrayHeader, StringHeader, CompactInt, FixedInt32, FixedInt64;
    assert Encode(Map(entries)) + s == MapHeader(|entries| / 2) + (EncodeAll(entries) + s);
    ReadMap(|entries| / 2, EncodeAll(entries) + s);
  }

  /** A dictionary is read back in order if its keys are distinct, and only then. */
  lemma UnauthorizedBack(reasons: seq<(int32, Option<Text>)>, s: Bytes)
    requires |reasons| < 0x8000_0000
    ensures Writable(Map(ReasonItems(reasons)))
    ensures ReadAckType(Encode(Map(ReasonItems(reasons))) + s) ==
            if DistinctKeys(reasons) then Ok((Some(Unauthorized(reasons)), s)) else Err(DuplicateKey)
  {
    hide ReadMapHeader, Encode, EncodeAll, ReadReasons, Writable, AllWritable, ReasonItems;
    var entries := ReasonItems(reasons);
    ReasonsWritable(reasons);
    MapBack(entries, s);
    assert DistinctKeys([]);
    hide DistinctKeys;
    assert [] + reasons == reasons;
    ReasonsExactly([], reasons, s);
  }

  /** The ack type is read back, except that one with neither side set becomes null. */
  function NormalAckType(a: AckType): Option<AckType>
    requires AckTypeTree(Some(a)).Ok?
  {
    match a
    case Success(d) => Some(Success(NormalConnection(d)))
    case Unauthorized(_) => Some(a)
    case Neither => None
  }

  lemma AckTypeBack(a: AckType, s: Bytes)
    requires AckTypeTree(Some(a)).Ok?
    requires a.Unauthorized? ==> |a.reasons| < 0x8000_0000 && DistinctKeys(a.reasons)
    ensures Writable(AckTypeTree(Some(a)).value)
    ensures ReadAckType(Encode(AckTypeTree(Some(a)).value) + s) == Ok((NormalAckType(a), s))
  {
    match a
    case Success(d) =>
      hide ReadConnection, Encode;
      ConnectionBack(d, s);
      ArrayBack(ConnectionItems(d, d.Password().value), s);
    case Unauthorized(reasons) => UnauthorizedBack(reasons, s);
    case Neither => NilBack(s);
  }

  lemma ConnectionAckBack(a: ConnectionAckData, s: Bytes)
    requires ConnectionAckTree(a).Ok? && WellFormed(ConnectionAck(a))
    ensures Writable(ConnectionAckTree(a).value)
    ensures ReadConnectionAck(Encode(ConnectionAckTree(a).value) + s) ==
            Ok((Some(a.(ackData := NormalAckType(a.ackData.value))), s))
  {
    hide Encode, EncodeAll, Tail, ReadArrayHeader, ReadInt32, ReadString, ReadAckType;
    var items := ConnectionAckTree(a).value.items;
    AckTypeBack(a.ackData.value, []);
    ArrayBack(items, s);
    forall i: nat | i < 3 ensures Tail(items, i, s) == Encode(items[i]) + Tail(items, i + 1, s) {
      TailStep(items, i, s);
    }
    TailEnd(items, s);
    CompactBack(a.status, Tail(items, 1, s));
    AckTypeBack(a.ackData.value, Tail(items, 2, s));
    TextBack(a.exception, s);
  }

  // EventDocumentAck.

  lemma ResultBack(r: EventDocumentAckResult, s: Bytes)
    ensures Writable(ResultTree(r))
    ensures ReadResult(Encode(ResultTree(r)) + s) == Ok((r, s))
  {
    hide Encode, EncodeAll, Tail, ReadArrayHeader, ReadInt32, ReadString, ReadMapHeader;
    var items := ResultTree(r).items;
    ArrayBack(items, s);
    forall i: nat | i < 3 ensures Tail(items, i, s) == Encode(items[i]) + Tail(items, i + 1, s) {
      TailStep(items, i, s);
    }
    TailEnd(items, s);
    CompactBack(r.status, Tail(items, 1, s));
    TextBack(r.notification, Tail(items, 2, s));
    EmptyMapBack(s);
  }

  lemma EmptyMapBack(s: Bytes)
    ensures ReadMapHeader(Encode(Map([])) + s) == Ok((0, s))
  {
    ReadMap(0, s);
  }

  lemma {:induction false} ResultsBack(results: seq<EventDocumentAckResult>, s: Bytes)
    ensures AllWritable(ResultItems(results))
    ensures ReadResults(EncodeAll(ResultItems(results)) + s, |results|) == Ok((results, s))
  {
    hide Encode, ReadResult, ResultTree;
    if results == [] {
      assert EncodeAll(ResultItems(results)) + s == s;
    } else {
      var items := ResultItems(results);
      var r := results[0];
      ResultsBack(results[1..], s);
      ResultBack(r, EncodeAll(ResultItems(results[1..])) + s);
      assert items[1..] == ResultItems(results[1..]);
      assert EncodeAll(items) + s == Encode(ResultTree(r)) + (EncodeAll(ResultItems(results[1..])) + s);
      assert [r] + results[1..] == results;
    }
  }

  lemma ResultListBack(results: Option<seq<EventDocumentAckResult>>, s: Bytes)
    requires results.Some? ==> |results.value| < 0x8000_0000
    ensures var v := if results.Some? then Arr(ResultItems(results.value)) else Nil;
            Writable(v) && ReadResultList(Encode(v) + s) == Ok((results, s))
  {
    if results.Some? {
      hide Encode, EncodeAll, ReadArrayHeader, ReadResults;
      var items := ResultItems(results.value);
      ResultsBack(results.value, s);
      ArrayBack(items, s);
      assert items[0..] == items;
    } else {
      NilBack(s);
    }
  }

  lemma EventDocumentAckBack(a: EventDocumentAck, s: Bytes)
    requires WellFormed(EventDocAck(a))
    ensures Writable(EventDocumentAckTree(a))
    ensures ReadEventDocumentAck(Encode(EventDocumentAckTree(a)) + s) == Ok((Some(a), s))
  {
    hide Encode, EncodeAll, Tail, ReadArrayHeader, ReadInt32, ReadString, ReadResultList;
    var items := EventDocumentAckTree(a).items;
    ResultListBack(a.ackData, []);
    ArrayBack(items, s);
    forall i: nat | i < 3 ensures Tail(items, i, s) == Encode(items[i]) + Tail(items, i + 1, s) {
      TailStep(items, i, s);
    }
    TailEnd(items, s);
    CompactBack(a.status, Tail(items, 1, s));
    ResultListBack(a.ackData, Tail(items, 2, s));
    TextBack(a.exception, s);
  }
}
