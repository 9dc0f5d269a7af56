/** The bytes themselves: the formats of the MessagePack specification, and messages written out in full. */
module WireFormats {
  import opened Results
  import opened MessagePack
  import opened MessagePackLemmas
  import opened Messages
  import opened Layout
  import opened RoundTrips
  import Utf8

  /** The number that the bytes are in base 256, the most significant first. */
  function PlaceValue(b: Bytes): nat {
    if b == [] then 0 else PlaceValue(b[..|b| - 1]) * 0x100 + b[|b| - 1]
  }

  /** A format's code, and a number in so many bytes. */
  predicate Stated(b: Bytes, code: byte, width: nat, x: int) {
    |b| == 1 + width && b[0] == code && PlaceValue(b[1..]) == x
  }

  lemma {:induction false} PlaceValueJoins(a: Bytes, b: Bytes, unit: nat)
    requires unit == Unit(|b|)
    ensures PlaceValue(a + b) == PlaceValue(a) * unit + PlaceValue(b)
  {
    if b == [] {
      assert a + b == a;
    } else {
      var init := b[..|b| - 1];
      assert (a + b)[..|a + b| - 1] == a + init;
      PlaceValueJoins(a, init, Unit(|init|));
    }
  }

  /** The place value behind so many bytes. */
  function Unit(n: nat): nat {
    if n == 0 then 1 else Unit(n - 1) * 0x100
  }

  lemma Units()
    ensures Unit(2) == 0x1_0000 && Unit(4) == 0x1_0000_0000
  {
    assert Unit(1) == 0x100;
    assert Unit(3) == 0x100_0000;
  }

  lemma Big2Value(x: int)
    requires 0 <= x < 0x1_0000
    ensures PlaceValue(Big2(x)) == x
  {
    assert Big2(x)[..1] == [x / 0x100];
    assert PlaceValue([x / 0x100]) == x / 0x100 by {
      assert [x / 0x100][..0] == [];
    }
  }

  lemma Big4Value(x: int)
    requires 0 <= x < 0x1_0000_0000
    ensures PlaceValue(Big4(x)) == x
  {
    Units();
    hide Big2, Unit, PlaceValue;
    Big2Value(x / 0x1_0000);
    Big2Value(x % 0x1_0000);
    PlaceValueJoins(Big2(x / 0x1_0000), Big2(x % 0x1_0000), 0x1_0000);
  }

  lemma Big8Value(x: int)
    requires 0 <= x < 0x1_0000_0000_0000_0000
    ensures PlaceValue(Big8(x)) == x
  {
    Units();
    hide Big4, Unit, PlaceValue;
    Big4Value(x / 0x1_0000_0000);
    Big4Value(x % 0x1_0000_0000);
    PlaceValueJoins(Big4(x / 0x1_0000_0000), Big4(x % 0x1_0000_0000), 0x1_0000_0000);
  }

  lemma OneByte(x: byte)
    ensures PlaceValue([x]) == x
  {
    assert [x][..0] == [];
  }

  lemma NilAndBooleans()
    ensures Encode(Nil) == [0xc0] && Encode(Bool(false)) == [0xc2] && Encode(Bool(true)) == [0xc3]
  {
  }

  /** Every number that is written compactly is in the shortest of the nine integer formats that holds it. */
  lemma NaturalFormats(i: int64)
    requires i >= 0
    ensures
      var b := Encode(Compact(i));
      if i < 0x80 then b == [i]
      else if i < 0x100 then Stated(b, 0xcc, 1, i)
      else if i < 0x1_0000 then Stated(b, 0xcd, 2, i)
      else if i < 0x1_0000_0000 then Stated(b, 0xce, 4, i)
      else Stated(b, 0xcf, 8, i)
  {
    hide Big2, Big4, Big8, PlaceValue;
    var b := CompactInt(i);
    if 0x80 <= i < 0x100 {
      OneByte(i);
      assert b[1..] == [i];
    } else if 0x100 <= i < 0x1_0000 {
      Big2Value(i);
      assert b[1..] == Big2(i);
    } else if 0x1_0000 <= i < 0x1_0000_0000 {
      Big4Value(i);
      assert b[1..] == Big4(i);
    } else if 0x1_0000_0000 <= i {
      Big8Value(i);
      assert b[1..] == Big8(i);
    }
  }

  lemma NegativeFormats(i: int64)
    requires i < 0
    ensures
      var b := Encode(Compact(i));
      if -0x20 <= i then b == [0x100 + i]
      else if -0x80 <= i then Stated(b, 0xd0, 1, 0x100 + i)
      else if -0x8000 <= i then Stated(b, 0xd1, 2, 0x1_0000 + i)
      else if -0x8000_0000 <= i then Stated(b, 0xd2, 4, 0x1_0000_0000 + i)
      else Stated(b, 0xd3, 8, 0x1_0000_0000_0000_0000 + i)
  {
    hide Big2, Big4, Big8, PlaceValue;
    var b := CompactInt(i);
    if -0x80 <= i < -0x20 {
      OneByte(i + 0x100);
      assert b[1..] == [i + 0x100];
    } else if -0x8000 <= i < -0x80 {
      Big2Value(i + 0x1_0000);
      assert b[1..] == Big2(i + 0x1_0000);
    } else if -0x8000_0000 <= i < -0x8000 {
      Big4Value(i + 0x1_0000_0000);
      assert b[1..] == Big4(i + 0x1_0000_0000);
    } else if i < -0x8000_0000 {
      Big8Value(i + 0x1_0000_0000_0000_0000);
      assert b[1..] == Big8(i + 0x1_0000_0000_0000_0000);
    }
  }

  /** The protocol version and the units of fragments are always in the widest formats. */
  lemma FixedFormats(i: int32, l: int64)
    ensures Stated(Encode(Fixed32(i)), 0xd2, 4, if i < 0 then 0x1_0000_0000 + i else i)
    ensures Stated(Encode(Fixed64(l)), 0xd3, 8, if l < 0 then 0x1_0000_0000_0000_0000 + l else l)
  {
    hide Big4, Big8, PlaceValue;
    Big4Value(Unsigned(i, 0x1_0000_0000));
    Big8Value(Unsigned(l, 0x1_0000_0000_0000_0000));
    assert FixedInt32(i)[1..] == Big4(Unsigned(i, 0x1_0000_0000));
    assert FixedInt64(l)[1..] == Big8(Unsigned(l, 0x1_0000_0000_0000_0000));
  }

  /** The headers of arrays, maps and strings state their sizes in the shortest format that holds them. */
  lemma HeaderFormats(n: nat)
    requires n < 0x8000_0000
    ensures if n < 0x10 then ArrayHeader(n) == [0x90 + n] && MapHeader(n) == [0x80 + n]
            else if n < 0x1_0000 then Stated(ArrayHeader(n), 0xdc, 2, n) && Stated(MapHeader(n), 0xde, 2, n)
            else Stated(ArrayHeader(n), 0xdd, 4, n) && Stated(MapHeader(n), 0xdf, 4, n)
    ensures if n < 0x20 then StringHeader(n) == [0xa0 + n]
            else if n < 0x100 then Stated(StringHeader(n), 0xd9, 1, n)
            else if n < 0x1_0000 then Stated(StringHeader(n), 0xda, 2, n)
            else Stated(StringHeader(n), 0xdb, 4, n)
  {
    hide Big2, Big4, PlaceValue;
    var a, m, t := ArrayHeader(n), MapHeader(n), StringHeader(n);
    if n < 0x100 {
      OneByte(n);
      assert n >= 0x20 ==> t[1..] == [n];
    }
    if 0x10 <= n < 0x1_0000 {
      Big2Value(n);
      assert a[1..] == Big2(n) && m[1..] == Big2(n);
      assert n >= 0x100 ==> t[1..] == Big2(n);
    } else if n >= 0x1_0000 {
      Big4Value(n);
      assert a[1..] == Big4(n) && m[1..] == Big4(n) && t[1..] == Big4(n);
    }
  }

  /** A number outside the range that is asked for is an error, whatever follows. */
  lemma Int32Exactly(i: int64, s: Bytes)
    ensures ReadInt32(Encode(Compact(i)) + s) ==
            if -0x8000_0000 <= i <= 0x7fff_ffff then Ok((i, s)) else Err(Overflow)
  {
    hide ReadNumber, CompactInt;
    ReadCompact(i, s);
  }

  lemma {:induction false} AsciiBytes(s: string)
    requires forall i :: 0 <= i < |s| ==> s[i] as int < 0x80
    ensures var b := Utf8.GetBytes(s); |b| == |s| && forall i :: 0 <= i < |s| ==> b[i] == s[i] as int
  {
    if s != "" {
      AsciiBytes(s[1..]);
      var b := Utf8.GetBytes(s);
      assert b == [s[0] as int] + Utf8.GetBytes(s[1..]);
      assert forall i :: 1 <= i < |s| ==> b[i] == Utf8.GetBytes(s[1..])[i - 1] && s[i] == s[1..][i - 1];
    }
  }

  /** The consistency types are written by their names, and in capitals. */
  lemma NamesAreAscii()
    ensures ConsistencyName(PAGE) == Utf8.GetBytes("PAGE")
    ensures ConsistencyName(PAGES) == Utf8.GetBytes("PAGES")
    ensures ConsistencyName(NONE) == Utf8.GetBytes("NONE")
  {
    AsciiBytes("PAGE");
    AsciiBytes("PAGES");
    AsciiBytes("NONE");
    hide Utf8.GetBytes;
  }

  /** They are read in any case. */
  lemma NamesInAnyCase()
    ensures ParseConsistency(Some(Utf8.GetBytes("Page"))) == Ok(PAGE)
    ensures ParseConsistency(Some(Utf8.GetBytes("pages"))) == Ok(PAGES)
    ensures ParseConsistency(Some(Utf8.GetBytes("NoNe"))) == Ok(NONE)
  {
    AsciiBytes("Page");
    AsciiBytes("pages");
    AsciiBytes("NoNe");
    UpperAt(Utf8.GetBytes("Page"));
    UpperAt(Utf8.GetBytes("pages"));
    UpperAt(Utf8.GetBytes("NoNe"));
    hide Utf8.GetBytes, Upper;
    assert Upper(Utf8.GetBytes("Page")) == ConsistencyName(PAGE);
    assert Upper(Utf8.GetBytes("pages")) == ConsistencyName(PAGES);
    assert Upper(Utf8.GetBytes("NoNe")) == ConsistencyName(NONE);
    assert Upper(Utf8.GetBytes("NoNe"))[0] == 78 && Upper(Utf8.GetBytes("Page"))[0] == 80;
    assert Upper(Utf8.GetBytes("pages"))[0] == 80;
  }

  /** What is none of the names is an error, a part of one too. */
  lemma OtherNamesFail()
    ensures ParseConsistency(Some(Utf8.GetBytes("PAG"))) == Err(FormatError)
  {
    AsciiBytes("PAG");
    UpperAt(Utf8.GetBytes("PAG"));
    hide Utf8.GetBytes, Upper;
    assert Upper(Utf8.GetBytes("PAG"))[0] == 80;
  }

  lemma {:induction false} UpperAt(t: Bytes)
    ensures
      forall i :: 0 <= i < |t| ==> Upper(t)[i] == if 'a' as int <= t[i] <= 'z' as int then t[i] - 32 else t[i]
  {
    if t != [] {
      UpperAt(t[1..]);
    }
  }

  /** A natural number that no signed number of 64 bits holds is an error. */
  lemma WideNaturals(x: int, s: Bytes)
    requires 0x8000_0000_0000_0000 <= x < 0x1_0000_0000_0000_0000
    ensures ReadInt64([0xcf] + Big8(x) + s) == Err(Overflow)
  {
    hide Big8, Number8;
    Take8(x, s);
    assert ([0xcf] + Big8(x) + s)[1..] == Big8(x) + s;
  }

  // Messages written out.

  lemma Front(v: Value, vs: seq<Value>, bytes: Bytes, more: Bytes)
    requires Writable(v) && AllWritable(vs) && Encode(v) == bytes && EncodeAll(vs) == more
    ensures AllWritable([v] + vs) && EncodeAll([v] + vs) == bytes + more
  {
    hide Encode;
    assert ([v] + vs)[1..] == vs;
  }

  lemma Two(v: Value, w: Value, a: Bytes, b: Bytes)
    requires Writable(v) && Writable(w) && Encode(v) == a && Encode(w) == b
    ensures AllWritable([v, w]) && EncodeAll([v, w]) == a + b
  {
    hide Encode;
    Front(w, [], b, []);
    Front(v, [w], a, b);
    assert [v] + [w] == [v, w];
  }

  lemma Five(u: Value, v: Value, w: Value, x: Value, y: Value, a: Bytes, b: Bytes, c: Bytes, d: Bytes, e: Bytes)
    requires Writable(u) && Writable(v) && Writable(w) && Writable(x) && Writable(y)
    requires Encode(u) == a && Encode(v) == b && Encode(w) == c && Encode(x) == d && Encode(y) == e
    ensures AllWritable([u, v, w, x, y]) && EncodeAll([u, v, w, x, y]) == a + (b + (c + (d + e)))
  {
    hide *;
    Two(x, y, d, e);
    Front(w, [x, y], c, d + e);
    Front(v, [w] + [x, y], b, c + (d + e));
    Front(u, [v] + ([w] + [x, y]), a, b + (c + (d + e)));
    assert [u] + ([v] + ([w] + [x, y])) == [u, v, w, x, y];
  }

  /** Each field of a header in its place: the user `u` and the message `m`, at 1 and 2, a first fragment of type 9. */
  lemma HeaderExample()
    ensures
      var h := MessageHeader(Some([0x75]), Some([0x6d]), 1, 2, false, Some(true), None, Some(3), Some(4), 9);
      && AllWritable(HeaderItems(h))
      && EncodeAll(HeaderItems(h)) == ([0xa1, 0x75] + ([0xa1, 0x6d] + ([1] + ([2] + [0xc2]))))
                                      + ([0xc3] + ([0xc0] + ([3] + ([4] + [9]))))
  {
    var a := [Str([0x75]), Str([0x6d]), Compact(1), Compact(2), Bool(false)];
    var b := [Bool(true), Nil, Compact(3), Compact(4), Compact(9)];
    assert HeaderItems(MessageHeader(Some([0x75]), Some([0x6d]), 1, 2, false, Some(true), None, Some(3), Some(4), 9))
        == a + b;
    Leaves();
    hide *;
    Five(a[0], a[1], a[2], a[3], a[4], [0xa1, 0x75], [0xa1, 0x6d], [1], [2], [0xc2]);
    Five(b[0], b[1], b[2], b[3], b[4], [0xc3], [0xc0], [3], [4], [9]);
    EncodeAllAppend(a, b);
  }

  lemma Leaves()
    ensures Encode(Str([0x75])) == [0xa1, 0x75] && Encode(Str([0x6d])) == [0xa1, 0x6d]
    ensures Encode(Nil) == [0xc0] && Encode(Bool(false)) == [0xc2] && Encode(Bool(true)) == [0xc3]
    ensures forall i: int64 {:trigger Compact(i)} :: 0 <= i < 0x80 ==> Encode(Compact(i)) == [i]
    ensures forall t: Text {:trigger Str(t)} :: Writable(Str(t))
    ensures forall i: int64 {:trigger Compact(i)} :: Writable(Compact(i))
    ensures Writable(Nil) && forall b {:trigger Bool(b)} :: Writable(Bool(b))
  {
  }

  /** The body of a login with the password `s`: version 5.1, to be served on the same connection, unfragmented. */
  lemma LoginExample()
    ensures
      var d := ConnectionData(None, true, 0x5_0001, false, None, Some([Word([0x73])]));
      && ConnectionTree(d).Ok? && Writable(ConnectionTree(d).value)
      && Encode(ConnectionTree(d).value) ==
         [0x95] + ([0xc3] + ([0xd2, 0, 5, 0, 1] + ([0xc2] + ([0xc0] + [0x91, 0xa1, 0x73]))))
  {
    var d := ConnectionData(None, true, 0x5_0001, false, None, Some([Word([0x73])]));
    var password := Arr([Str([0x73])]);
    var items := [Bool(true), Fixed32(0x5_0001), Bool(false), Nil, password];
    assert ConnectionTree(d) == Ok(Arr(items)) by {
      assert ConnectionItems(d, Some([0x73])) == items;
    }
    assert Encode(Fixed32(0x5_0001)) == [0xd2, 0, 5, 0, 1];
    NilAndBooleans();
    PasswordExample();
    hide *;
    Five(Bool(true), Fixed32(0x5_0001), Bool(false), Nil, password,
         [0xc3], [0xd2, 0, 5, 0, 1], [0xc2], [0xc0], [0x91, 0xa1, 0x73]);
    ShortArrayBytes(items);
  }

  lemma PasswordExample()
    ensures Writable(Arr([Str([0x73])])) && Encode(Arr([Str([0x73])])) == [0x91, 0xa1, 0x73]
  {
    Front(Str([0x73]), [], [0xa1, 0x73], []);
    assert [Str([0x73])] + [] == [Str([0x73])];
    ShortArrayBytes([Str([0x73])]);
  }

  /** The body of a query `q` for pages of 7, of the second type. */
  lemma QueryExample()
    ensures
      var q := QueryRequestData(Some([0x71]), PAGES, 1, Some(7), Some(1));
      && Writable(QueryRequestTree(q))
      && Encode(QueryRequestTree(q)) ==
         [0x95] + ([0xa1, 0x71] + ([0xa5, 0x50, 0x41, 0x47, 0x45, 0x53] +
           ([0xd3, 0, 0, 0, 0, 0, 0, 0, 1] + ([7] + [1]))))
  {
    var name := Str([0x50, 0x41, 0x47, 0x45, 0x53]);
    assert Encode(name) == [0xa5, 0x50, 0x41, 0x47, 0x45, 0x53];
    assert Encode(Fixed64(1)) == [0xd3, 0, 0, 0, 0, 0, 0, 0, 1];
    var items := [Str([0x71]), name, Fixed64(1), Compact(7), Compact(1)];
    assert QueryRequestTree(QueryRequestData(Some([0x71]), PAGES, 1, Some(7), Some(1))) == Arr(items);
    assert Encode(items[0]) == [0xa1, 0x71] && Encode(items[3]) == [7] && Encode(items[4]) == [1];
    assert forall i :: 0 <= i < 5 ==> Writable(items[i]);
    hide *;
    Five(items[0], items[1], items[2], items[3], items[4],
         [0xa1, 0x71], [0xa5, 0x50, 0x41, 0x47, 0x45, 0x53], [0xd3, 0, 0, 0, 0, 0, 0, 0, 1], [7], [1]);
    ShortArrayBytes(items);
  }

  /** A result of status 200 with the notification `n`, and no returned values. */
  lemma ResultExample()
    ensures
      var r := EventDocumentAckResult(200, Some([0x6e]));
      Writable(ResultTree(r)) && Encode(ResultTree(r)) == [0x93, 0xcc, 200, 0xa1, 0x6e, 0x80]
  {
    assert Encode(Map([])) == [0x80];
    Two(Str([0x6e]), Map([]), [0xa1, 0x6e], [0x80]);
    var tail := [Str([0x6e]), Map([])];
    Front(Compact(200), tail, [0xcc, 200], [0xa1, 0x6e, 0x80]);
    var items := [Compact(200), Str([0x6e]), Map([])];
    assert items == [Compact(200)] + tail;
    ShortArrayBytes(items);
  }

  /** A refused login: status 401, the reason `x` for the code 1, and the exception `e`. */
  lemma RefusalExample()
    ensures
      var a := ConnectionAckData(401, Some(Unauthorized([(1, Some([0x78]))])), Some([0x65]));
      && ConnectionAckTree(a).Ok? && Writable(ConnectionAckTree(a).value)
      && Encode(ConnectionAckTree(a).value) == [0x93, 0xcd, 1, 0x91, 0x81, 1, 0xa1, 0x78, 0xa1, 0x65]
  {
    var reasons := [Compact(1), Str([0x78])];
    Two(reasons[0], reasons[1], [1], [0xa1, 0x78]);
    assert ReasonItems([(1, Some([0x78]))]) == reasons by {
      assert [(1, Some([0x78]))][1..] == [];
      assert reasons + [] == reasons;
    }
    assert Encode(Map(reasons)) == [0x81, 1, 0xa1, 0x78];
    Two(Map(reasons), Str([0x65]), [0x81, 1, 0xa1, 0x78], [0xa1, 0x65]);
    var tail := [Map(reasons), Str([0x65])];
    assert Encode(Compact(401)) == [0xcd, 1, 0x91];
    Front(Compact(401), tail, [0xcd, 1, 0x91], [0x81, 1, 0xa1, 0x78, 0xa1, 0x65]);
    var items := [Compact(401), Map(reasons), Str([0x65])];
    assert items == [Compact(401)] + tail;
    ShortArrayBytes(items);
  }
}
