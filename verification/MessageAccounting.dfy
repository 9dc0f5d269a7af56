/**
 What the decoder of messages consumes of any bytes it accepts, whatever sizes they state. The walk over values is
 followed with the number of values that it still has to take: every decoder leads it from one number to another, or
 past the point where it would have stopped.
 */
module MessageAccounting {
  import opened Results
  import opened MessagePack
  import opened MessagePackLemmas
  import opened Messages
  import opened Layout
  import opened MessageTheorems

  /** The number of values still to be taken; none once the walk has stopped. */
  type Count = Option<nat>

  /** From `s` with `p` values to take, the walk comes to `t` with `q` to take, or stops before `t` if `q` is none. */
  predicate Leads(s: Bytes, p: Count, t: Bytes, q: Count) {
    && |t| <= |s|
    && (p.None? ==> q.None?)
    && (p.Some? && q.Some? ==> SkipMany(s, p.value) == SkipMany(t, q.value))
    && (p.Some? && q.None? ==> SkipMany(s, p.value).Ok? && |t| < |SkipMany(s, p.value).value|)
  }

  /** After `k` complete values. */
  function Less(p: Count, k: nat): Count {
    if p.Some? && k <= p.value then Some(p.value - k) else None
  }

  /** After the head of a value that states `inside` values in it. */
  function Into(p: Count, inside: nat): Count {
    if p.Some? && 0 < p.value then Some(p.value - 1 + inside) else None
  }

  lemma Chain(s: Bytes, p: Count, t: Bytes, q: Count, u: Bytes, r: Count)
    requires Leads(s, p, t, q) && Leads(t, q, u, r)
    ensures Leads(s, p, u, r)
  {
    hide SkipMany;
  }

  lemma HeadLeads(s: Bytes, p: Count, inside: nat, t: Bytes)
    requires Head(s) == Ok((inside, t))
    ensures Leads(s, p, t, Into(p, inside))
  {
    hide Head, SkipMany;
    if p.Some? && 0 < p.value {
      SkipStep(s, p.value - 1);
    } else if p.Some? {
      SkipNone(s);
    }
  }

  lemma ValuesLead(s: Bytes, p: Count, k: nat, t: Bytes)
    requires SkipMany(s, k) == Ok(t)
    ensures Leads(s, p, t, Less(p, k))
  {
    hide SkipMany;
    if p.Some? && k <= p.value {
      SkipSplit(s, k, p.value - k);
    } else if p.Some? {
      SkipSplit(s, p.value, k - p.value);
    }
  }

  /** At its end the walk has taken what it should if and only if nothing is left to take. */
  lemma EndsExactly(s: Bytes, p: nat, t: Bytes, q: Count)
    requires Leads(s, Some(p), t, q)
    ensures SkipMany(s, p) == Ok(t) <==> q == Some(0)
  {
    hide SkipMany;
    SkipNone(t);
    if q.Some? {
      CountIsUnique(t, 0, q.value, t);
    }
  }

  // The header: ten leaves.

  lemma LeafSkips(s: Bytes, t: Bytes, n: nat, k: nat, rest: Bytes)
    requires Head(s) == Ok((0, t)) && SkipMany(t, k) == Ok(rest) && n == k + 1
    ensures SkipMany(s, n) == Ok(rest)
  {
    SkipOneMore(s, t, k);
  }

  lemma NullableBoolIsLeaf(s: Bytes)
    requires ReadNullableBool(s).Ok?
    ensures Head(s) == Ok((0, ReadNullableBool(s).value.1))
  {
    hide Head, ReadBoolean;
    if s[0] == NIL {
      NilIsLeaf(s);
    } else {
      BooleanIsLeaf(s);
    }
  }

  lemma NullableIntIsLeaf(s: Bytes)
    requires ReadNullableInt(s).Ok?
    ensures Head(s) == Ok((0, ReadNullableInt(s).value.1))
  {
    hide Head, ReadNumber;
    if s[0] == NIL {
      NilIsLeaf(s);
    } else {
      NumberIsLeaf(s);
    }
  }

  lemma HeaderSkips(s: Bytes)
    requires ReadHeader(s).Ok?
    ensures SkipMany(s, 10) == Ok(ReadHeader(s).value.1)
  {
    hide Head, SkipMany, ReadString, ReadNumber, ReadBoolean, ReadNullableBool, ReadNullableInt;
    var s1 := ReadString(s).value.1;
    var s2 := ReadString(s1).value.1;
    var s3 := ReadInt64(s2).value.1;
    var s4 := ReadInt64(s3).value.1;
    var s5 := ReadBoolean(s4).value.1;
    var s6 := ReadNullableBool(s5).value.1;
    var s7 := ReadNullableBool(s6).value.1;
    var s8 := ReadNullableInt(s7).value.1;
    var s9 := ReadNullableInt(s8).value.1;
    var rest := ReadInt32(s9).value.1;
    SkipNone(rest);
    NumberIsLeaf(s9);
    LeafSkips(s9, rest, 1, 0, rest);
    NullableIntIsLeaf(s8);
    LeafSkips(s8, s9, 2, 1, rest);
    NullableIntIsLeaf(s7);
    LeafSkips(s7, s8, 3, 2, rest);
    NullableBoolIsLeaf(s6);
    LeafSkips(s6, s7, 4, 3, rest);
    NullableBoolIsLeaf(s5);
    LeafSkips(s5, s6, 5, 4, rest);
    BooleanIsLeaf(s4);
    LeafSkips(s4, s5, 6, 5, rest);
    NumberIsLeaf(s3);
    LeafSkips(s3, s4, 7, 6, rest);
    NumberIsLeaf(s2);
    LeafSkips(s2, s3, 8, 7, rest);
    StringIsLeaf(s1);
    LeafSkips(s1, s2, 9, 8, rest);
    StringIsLeaf(s);
    LeafSkips(s, s1, 10, 9, rest);
  }

  // The bodies.

  /** `ConnectionData`: nil, or the head of an array and the values that are read whatever its size. */
  ghost function AfterConnection(s: Bytes, p: Count): Count
    requires ReadConnection(s).Ok?
  {
    if s[0] == NIL then Less(p, 1)
    else
      var (size, s1) := ReadArrayHeader(s).value;
      assert ReadCluster(s1).Ok? by { ItemsAreRead(s1, size); }
      Less(Into(p, size), Consumed(size, ReadCluster(s1).value.0.0))
  }

  lemma NilLeads(s: Bytes, p: Count)
    requires Peek(s) == Ok(NIL)
    ensures Leads(s, p, s[1..], Less(p, 1))
  {
    hide Head, SkipMany;
    NilIsLeaf(s);
    HeadLeads(s, p, 0, s[1..]);
  }

  lemma ConnectionLeads(s: Bytes, p: Count)
    requires ReadConnection(s).Ok?
    ensures Leads(s, p, ReadConnection(s).value.1, AfterConnection(s, p))
  {
    hide Head, SkipMany, ReadArrayHeader, ReadConnectionItems, ReadCluster, Leads;
    var rest := ReadConnection(s).value.1;
    if s[0] == NIL {
      NilLeads(s, p);
    } else {
      var (size, s1) := ReadArrayHeader(s).value;
      ArrayHeaderIsHead(s);
      HeadLeads(s, p, size, s1);
      ItemsAreRead(s1, size);
      ItemsSkip(s1, size);
      var k := Consumed(size, ReadCluster(s1).value.0.0);
      ValuesLead(s1, Into(p, size), k, rest);
      Chain(s, p, s1, Into(p, size), rest, Less(Into(p, size), k));
    }
  }

  /** A dictionary's entries are two values each. */
  lemma {:induction false} ReasonsSkip(s: Bytes, n: nat, before: seq<(int32, Option<Text>)>)
    requires ReadReasons(s, n, before).Ok?
    ensures SkipMany(s, 2 * n) == Ok(ReadReasons(s, n, before).value.1)
    decreases n
  {
    hide Head, SkipMany, ReadNumber, ReadString;
    if n == 0 {
      SkipNone(s);
    } else {
      var (key, s1) := ReadInt32(s).value;
      var (text, s2) := ReadString(s1).value;
      ReasonsSkip(s2, n - 1, before + [(key, text)]);
      NumberIsLeaf(s);
      StringIsLeaf(s1);
      SkipOneMore(s1, s2, 2 * n - 2);
      SkipOneMore(s, s1, 2 * n - 1);
    }
  }

  /** The union: a connection, a dictionary, which is always one value, or nil. */
  ghost function AfterAckType(s: Bytes, p: Count): Count
    requires ReadAckType(s).Ok?
  {
    if IsArrayCode(s[0]) then AfterConnection(s, p) else Less(p, 1)
  }

  lemma AckTypeLeads(s: Bytes, p: Count)
    requires ReadAckType(s).Ok?
    ensures Leads(s, p, ReadAckType(s).value.1, AfterAckType(s, p))
  {
    hide Head, SkipMany, ReadConnection, ReadMapHeader, ReadReasons, Leads, AfterConnection;
    if IsArrayCode(s[0]) {
      ConnectionLeads(s, p);
    } else if IsMapCode(s[0]) {
      var (n, s1) := ReadMapHeader(s).value;
      var rest := ReadReasons(s1, n, []).value.1;
      MapHeaderIsHead(s);
      ReasonsSkip(s1, n, []);
      SkipStep(s, 0);
      ValuesLead(s, p, 1, rest);
    } else {
      NilLeads(s, p);
    }
  }

  /** A container of three whose second item leads from one count to another. */
  lemma ContainerLeads(s: Bytes, p: Count, second: Bytes, third: Bytes, q: Count)
    requires ReadThree(s).Ok?
    requires ReadInt32(ReadThree(s).value.1).Ok? && ReadInt32(ReadThree(s).value.1).value.1 == second
    requires Leads(second, Less(Into(p, 3), 1), third, q)
    requires ReadString(third).Ok?
    ensures Leads(s, p, ReadString(third).value.1, Less(q, 1))
  {
    hide Head, SkipMany, ReadArrayHeader, ReadNumber, ReadString, Leads;
    var s1 := ReadThree(s).value.1;
    var rest := ReadString(third).value.1;
    ArrayHeaderIsHead(s);
    HeadLeads(s, p, 3, s1);
    NumberIsLeaf(s1);
    HeadLeads(s1, Into(p, 3), 0, second);
    StringIsLeaf(third);
    HeadLeads(third, q, 0, rest);
    Chain(s, p, s1, Into(p, 3), second, Less(Into(p, 3), 1));
    Chain(s, p, second, Less(Into(p, 3), 1), third, q);
    Chain(s, p, third, q, rest, Less(q, 1));
  }

  ghost function AfterConnectionAck(s: Bytes, p: Count): Count
    requires ReadConnectionAck(s).Ok?
  {
    if s[0] == NIL then Less(p, 1)
    else Less(AfterAckType(ReadInt32(ReadThree(s).value.1).value.1, Less(Into(p, 3), 1)), 1)
  }

  lemma ConnectionAckLeads(s: Bytes, p: Count)
    requires ReadConnectionAck(s).Ok?
    ensures Leads(s, p, ReadConnectionAck(s).value.1, AfterConnectionAck(s, p))
  {
    hide Head, SkipMany, ReadThree, ReadNumber, ReadString, ReadAckType, Leads, AfterAckType;
    if s[0] == NIL {
      NilLeads(s, p);
    } else {
      var s2 := ReadInt32(ReadThree(s).value.1).value.1;
      var within := Less(Into(p, 3), 1);
      AckTypeLeads(s2, within);
      ContainerLeads(s, p, s2, ReadAckType(s2).value.1, AfterAckType(s2, within));
    }
  }

  /** A result: the head of an array, two leaves, and the head of a map, whatever sizes they state. */
  ghost function AfterResult(s: Bytes, p: Count): Count
    requires ReadResult(s).Ok?
  {
    var (n, s1) := ReadArrayHeader(s).value;
    Into(Less(Into(p, n), 2), 2 * ReadMapHeader(ReadString(ReadInt32(s1).value.1).value.1).value.0)
  }

  lemma ResultLeads(s: Bytes, p: Count)
    requires ReadResult(s).Ok?
    ensures Leads(s, p, ReadResult(s).value.1, AfterResult(s, p))
  {
    hide Head, SkipMany, ReadArrayHeader, ReadString, ReadNumber, ReadMapHeader, Leads;
    var (n, s1) := ReadArrayHeader(s).value;
    var s2 := ReadInt32(s1).value.1;
    var s3 := ReadString(s2).value.1;
    var (entries, rest) := ReadMapHeader(s3).value;
    ArrayHeaderIsHead(s);
    HeadLeads(s, p, n, s1);
    NumberIsLeaf(s1);
    StringIsLeaf(s2);
    SkipNone(s3);
    SkipOneMore(s2, s3, 0);
    SkipOneMore(s1, s2, 1);
    ValuesLead(s1, Into(p, n), 2, s3);
    MapHeaderIsHead(s3);
    HeadLeads(s3, Less(Into(p, n), 2), 2 * entries, rest);
    Chain(s, p, s1, Into(p, n), s3, Less(Into(p, n), 2));
    Chain(s, p, s3, Less(Into(p, n), 2), rest, AfterResult(s, p));
  }

  ghost function AfterResults(s: Bytes, n: nat, p: Count): Count
    requires ReadResults(s, n).Ok?
    decreases n
  {
    if n == 0 then p else AfterResults(ReadResult(s).value.1, n - 1, AfterResult(s, p))
  }

  lemma {:induction false} ResultsLead(s: Bytes, n: nat, p: Count)
    requires ReadResults(s, n).Ok?
    ensures Leads(s, p, ReadResults(s, n).value.1, AfterResults(s, n, p))
    decreases n
  {
    hide SkipMany, ReadResult, AfterResult;
    if n > 0 {
      var t := ReadResult(s).value.1;
      ResultLeads(s, p);
      ResultsLead(t, n - 1, AfterResult(s, p));
      Chain(s, p, t, AfterResult(s, p), ReadResults(s, n).value.1, AfterResults(s, n, p));
    }
  }

  ghost function AfterList(s: Bytes, p: Count): Count
    requires ReadResultList(s).Ok?
  {
    if s[0] == NIL then Less(p, 1)
    else
      var (n, s1) := ReadArrayHeader(s).value;
      AfterResults(s1, n, Into(p, n))
  }

  lemma ListLeads(s: Bytes, p: Count)
    requires ReadResultList(s).Ok?
    ensures Leads(s, p, ReadResultList(s).value.1, AfterList(s, p))
  {
    hide Head, SkipMany, ReadArrayHeader, ReadResults, Leads, AfterResults;
    if s[0] == NIL {
      NilLeads(s, p);
    } else {
      var (n, s1) := ReadArrayHeader(s).value;
      ArrayHeaderIsHead(s);
      HeadLeads(s, p, n, s1);
      ResultsLead(s1, n, Into(p, n));
      Chain(s, p, s1, Into(p, n), ReadResults(s1, n).value.1, AfterList(s, p));
    }
  }

  ghost function AfterEventDocumentAck(s: Bytes, p: Count): Count
    requires ReadEventDocumentAck(s).Ok?
  {
    if s[0] == NIL then Less(p, 1)
    else Less(AfterList(ReadInt32(ReadThree(s).value.1).value.1, Less(Into(p, 3), 1)), 1)
  }

  lemma EventDocumentAckLeads(s: Bytes, p: Count)
    requires ReadEventDocumentAck(s).Ok?
    ensures Leads(s, p, ReadEventDocumentAck(s).value.1, AfterEventDocumentAck(s, p))
  {
    hide Head, SkipMany, ReadThree, ReadNumber, ReadString, ReadResultList, Leads, AfterList;
    if s[0] == NIL {
      NilLeads(s, p);
    } else {
      var s2 := ReadInt32(ReadThree(s).value.1).value.1;
      var within := Less(Into(p, 3), 1);
      ListLeads(s2, within);
      ContainerLeads(s, p, s2, ReadResultList(s2).value.1, AfterList(s2, within));
    }
  }

  /** What a body leaves to be taken of `p` values, told from the sizes that its bytes state. */
  ghost function AfterBody(s: Bytes, dataType: int, p: Count): Count
    requires ReadBody(s, dataType).Ok?
  {
    if dataType == 0 then AfterConnection(s, p)
    else if dataType == 1 then AfterConnectionAck(s, p)
    else if dataType == 4 then Less(p, 1)
    else if dataType == 9 then AfterEventDocumentAck(s, p)
    else None
  }

  lemma BodyLeads(s: Bytes, dataType: int, p: Count)
    requires ReadBody(s, dataType).Ok?
    ensures Leads(s, p, ReadBody(s, dataType).value.1, AfterBody(s, dataType, p))
  {
    hide Head, SkipMany, ReadConnection, ReadConnectionAck, ReadString, ReadEventDocumentAck, Leads;
    hide AfterConnection, AfterConnectionAck, AfterEventDocumentAck;
    BodyHasHeaderType(s, dataType);
    if dataType == 0 {
      ConnectionLeads(s, p);
    } else if dataType == 1 {
      ConnectionAckLeads(s, p);
    } else if dataType == 4 {
      StringIsLeaf(s);
      HeadLeads(s, p, 0, ReadString(s).value.1);
    } else {
      EventDocumentAckLeads(s, p);
    }
  }

  // The whole message.

  /**
   Of any bytes that it accepts, the decoder of messages consumes exactly one complete value if and only if the outer
   array states at least ten values and the body leaves none of the others to be taken.
   */
  lemma MessageAccountsExactly(s: Bytes)
    requires ReadMessage(s).Ok?
    ensures
      var (n, s1) := ReadArrayHeader(s).value;
      var (header, s2) := ReadHeader(s1).value;
      SkipMany(s, 1) == Ok(ReadMessage(s).value.1)
      <==> 10 <= n && AfterBody(s2, header.dataType, Some(n - 10)) == Some(0)
  {
    hide Head, SkipMany, ReadArrayHeader, ReadHeader, ReadBody, Leads, AfterBody;
    var (n, s1) := ReadArrayHeader(s).value;
    var (header, s2) := ReadHeader(s1).value;
    var rest := ReadMessage(s).value.1;
    ArrayHeaderIsHead(s);
    HeadLeads(s, Some(1), n, s1);
    HeaderSkips(s1);
    ValuesLead(s1, Some(n), 10, s2);
    Chain(s, Some(1), s1, Some(n), s2, Less(Some(n), 10));
    BodyLeads(s2, header.dataType, Less(Some(n), 10));
    StaysStopped(s2, header.dataType);
    Chain(s, Some(1), s2, Less(Some(n), 10), rest, AfterBody(s2, header.dataType, Less(Some(n), 10)));
    EndsExactly(s, 1, rest, AfterBody(s2, header.dataType, Less(Some(n), 10)));
  }

  lemma StaysStopped(s: Bytes, dataType: int)
    requires ReadBody(s, dataType).Ok?
    ensures AfterBody(s, dataType, None).None?
  {
    hide ReadBody, AfterBody;
    BodyLeads(s, dataType, None);
  }

  /** If the body is one complete value, so is the message exactly if the outer array states eleven. */
  lemma ElevenExactly(s: Bytes)
    requires ReadMessage(s).Ok?
    requires
      var s2 := ReadHeader(ReadArrayHeader(s).value.1).value.1;
      SkipMany(s2, 1) == Ok(ReadMessage(s).value.1)
    ensures SkipMany(s, 1) == Ok(ReadMessage(s).value.1) <==> ReadArrayHeader(s).value.0 == 11
  {
    hide Head, SkipMany, ReadArrayHeader, ReadHeader, ReadBody, AfterBody, Leads;
    var (n, s1) := ReadArrayHeader(s).value;
    var (header, s2) := ReadHeader(s1).value;
    var rest := ReadMessage(s).value.1;
    MessageAccountsExactly(s);
    if 10 <= n {
      BodyLeads(s2, header.dataType, Some(n - 10));
      EndsExactly(s2, n - 10, rest, AfterBody(s2, header.dataType, Some(n - 10)));
      CountIsUnique(s2, 1, n - 10, rest);
    }
  }

  /**
   A message with a connection's body is one complete value if and only if the body is nil or one of the four layouts
   in an array of eleven, or states four items, cluster name included, in an array of twelve.
   */
  lemma ConnectionMessageAccounts(s: Bytes)
    requires ReadMessage(s).Ok? && ReadMessage(s).value.0.header.dataType == 0
    ensures
      var (n, s1) := ReadArrayHeader(s).value;
      var s2 := ReadHeader(s1).value.1;
      SkipMany(s, 1) == Ok(ReadMessage(s).value.1) <==>
      if s2[0] == NIL then n == 11
      else
        var (size, s3) := ReadArrayHeader(s2).value;
        var included := ReadCluster(s3).value.0.0;
        || (n == 11 && ((size == 4 && !included) || size == 5 || (size == 6 && included)))
        || (n == 12 && size == 4 && included)
  {
    hide Head, SkipMany, ReadArrayHeader, ReadHeader, ReadConnectionItems, ReadCluster;
    MessageAccountsExactly(s);
  }

  /** The same of a login reply, whose body may be nil or hold a connection of its own. */
  lemma ReplyAccounts(s: Bytes)
    requires ReadMessage(s).Ok? && ReadMessage(s).value.0.header.dataType == 1
    ensures
      var (n, s1) := ReadArrayHeader(s).value;
      var s2 := ReadHeader(s1).value.1;
      SkipMany(s, 1) == Ok(ReadMessage(s).value.1) <==>
      if s2[0] == NIL then n == 11
      else
        var s4 := ReadInt32(ReadThree(s2).value.1).value.1;
        if !IsArrayCode(s4[0]) then n == 11
        else
          var (size, s5) := ReadArrayHeader(s4).value;
          var included := ReadCluster(s5).value.0.0;
          || (n == 11 && ((size == 4 && !included) || size == 5 || (size == 6 && included)))
          || (n == 12 && size == 4 && included)
  {
    hide Head, SkipMany, ReadArrayHeader, ReadHeader, ReadConnectionItems, ReadCluster, ReadNumber;
    MessageAccountsExactly(s);
  }

  /** Every result states three items and a map of none. */
  ghost predicate ResultsAccount(s: Bytes, n: nat)
    requires ReadResults(s, n).Ok?
    decreases n
  {
    n == 0 ||
    (&& ReadArrayHeader(s).value.0 == 3
     && ReadMapHeader(ReadString(ReadInt32(ReadArrayHeader(s).value.1).value.1).value.1).value.0 == 0
     && ResultsAccount(ReadResult(s).value.1, n - 1))
  }

  lemma {:induction false} ResultsAreValues(s: Bytes, n: nat, p: Count)
    requires ReadResults(s, n).Ok? && ResultsAccount(s, n)
    ensures AfterResults(s, n, p) == Less(p, n)
    decreases n
  {
    hide SkipMany, ReadArrayHeader, ReadMapHeader, ReadString, ReadNumber;
    if n > 0 {
      ResultsAreValues(ReadResult(s).value.1, n - 1, AfterResult(s, p));
    }
  }

  /** The list of a document acknowledgement, if the body and the list are there. */
  ghost predicate ListAccounts(s: Bytes)
    requires ReadEventDocumentAck(s).Ok?
  {
    s[0] != NIL ==>
      var s2 := ReadInt32(ReadThree(s).value.1).value.1;
      s2[0] != NIL ==>
        var (count, s3) := ReadArrayHeader(s2).value;
        ResultsAccount(s3, count)
  }

  /**
   If all its results account for themselves, as they do if there are none, a document acknowledgement is one complete
   value in an array of eleven alone.
   */
  lemma DocumentAckAccounts(s: Bytes)
    requires ReadMessage(s).Ok? && ReadMessage(s).value.0.header.dataType == 9
    requires ListAccounts(ReadHeader(ReadArrayHeader(s).value.1).value.1)
    ensures SkipMany(s, 1) == Ok(ReadMessage(s).value.1) <==> ReadArrayHeader(s).value.0 == 11
  {
    hide Head, SkipMany, ReadArrayHeader, ReadHeader, ReadNumber, ReadResults, AfterResults, ResultsAccount;
    var (n, s1) := ReadArrayHeader(s).value;
    var s2 := ReadHeader(s1).value.1;
    MessageAccountsExactly(s);
    if 10 <= n && s2[0] != NIL {
      var s4 := ReadInt32(ReadThree(s2).value.1).value.1;
      if s4[0] != NIL {
        var (count, s5) := ReadArrayHeader(s4).value;
        ResultsAreValues(s5, count, Into(Less(Into(Some(n - 10), 3), 1), count));
      }
    }
  }
}
