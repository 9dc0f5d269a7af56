/** The reader's primitives undo the writer's, and both agree with the walk over values. */
module MessagePackLemmas {
  import opened Results
  import opened MessagePack

  lemma TakePrefix(p: Bytes, s: Bytes)
    ensures Take(p + s, |p|) == Ok((p, s))
  {
    assert (p + s)[..|p|] == p && (p + s)[|p|..] == s;
  }

  lemma Take2(x: int, s: Bytes)
    requires 0 <= x < 0x1_0000
    ensures Take(Big2(x) + s, 2) == Ok((Big2(x), s)) && Number2(Big2(x)) == x
  {
    TakePrefix(Big2(x), s);
    Number2OfBig2(x, []);
  }

  lemma Take4(x: int, s: Bytes)
    requires 0 <= x < 0x1_0000_0000
    ensures Take(Big4(x) + s, 4) == Ok((Big4(x), s)) && Number4(Big4(x)) == x
  {
    TakePrefix(Big4(x), s);
    Number4OfBig4(x, []);
    assert Big4(x) + [] == Big4(x);
  }

  lemma Take8(x: int, s: Bytes)
    requires 0 <= x < 0x1_0000_0000_0000_0000
    ensures Take(Big8(x) + s, 8) == Ok((Big8(x), s)) && Number8(Big8(x)) == x
  {
    TakePrefix(Big8(x), s);
    Number8OfBig8(x, []);
    assert Big8(x) + [] == Big8(x);
  }

  lemma ReadFixed32(i: int32, s: Bytes)
    ensures ReadNumber(FixedInt32(i) + s) == Ok((i as int, s))
    ensures Head(FixedInt32(i) + s) == Ok((0, s))
  {
    hide Big2, Big4, Big8, Number2, Number4, Number8, Take;
    var x := Unsigned(i, 0x1_0000_0000);
    Take4(x, s);
    assert (FixedInt32(i) + s)[1..] == Big4(x) + s;
  }

  lemma ReadFixed64(i: int64, s: Bytes)
    ensures ReadNumber(FixedInt64(i) + s) == Ok((i as int, s))
    ensures Head(FixedInt64(i) + s) == Ok((0, s))
  {
    hide Big2, Big4, Big8, Number2, Number4, Number8, Take;
    var x := Unsigned(i, 0x1_0000_0000_0000_0000);
    Take8(x, s);
    assert (FixedInt64(i) + s)[1..] == Big8(x) + s;
  }

  lemma ReadCompactNatural(i: int64, s: Bytes)
    requires i >= 0
    ensures ReadNumber(CompactInt(i) + s) == Ok((i as int, s))
    ensures Head(CompactInt(i) + s) == Ok((0, s))
  {
    hide Big2, Big4, Big8, Number2, Number4, Number8, Take;
    var all := CompactInt(i) + s;
    if i < 0x80 {
      assert all[1..] == s;
    } else if i < 0x100 {
      TakePrefix([i], s);
      assert all[1..] == [i] + s;
    } else if i < 0x1_0000 {
      Take2(i, s);
      assert all[1..] == Big2(i) + s;
    } else if i < 0x1_0000_0000 {
      Take4(i, s);
      assert all[1..] == Big4(i) + s;
    } else {
      Take8(i, s);
      assert all[1..] == Big8(i) + s;
    }
  }

  lemma ReadCompactNegative(i: int64, s: Bytes)
    requires i < 0
    ensures ReadNumber(CompactInt(i) + s) == Ok((i as int, s))
    ensures Head(CompactInt(i) + s) == Ok((0, s))
  {
    hide Big2, Big4, Big8, Number2, Number4, Number8, Take;
    var all := CompactInt(i) + s;
    if i >= -0x20 {
      assert all[1..] == s;
    } else if i >= -0x80 {
      TakePrefix([i + 0x100], s);
      assert all[1..] == [i + 0x100] + s;
    } else if i >= -0x8000 {
      Take2(i + 0x1_0000, s);
      assert all[1..] == Big2(i + 0x1_0000) + s;
    } else if i >= -0x8000_0000 {
      ReadFixed32(i, s);
    } else {
      ReadFixed64(i, s);
    }
  }

  /** A number is read back from the shortest format it was written in. */
  lemma ReadCompact(i: int64, s: Bytes)
    ensures ReadNumber(CompactInt(i) + s) == Ok((i as int, s))
    ensures Head(CompactInt(i) + s) == Ok((0, s))
  {
    if i >= 0 {
      ReadCompactNatural(i, s);
    } else {
      ReadCompactNegative(i, s);
    }
  }

  lemma ReadText(text: Text, s: Bytes)
    ensures ReadString(StringHeader(|text|) + text + s) == Ok((Some(text), s))
    ensures Head(StringHeader(|text|) + text + s) == Ok((0, s))
  {
    hide Big2, Big4, Big8, Number2, Number4, Number8, Take;
    var n, all := |text|, StringHeader(|text|) + text + s;
    TakePrefix(text, s);
    if n < 0x20 {
      assert all[1..] == text + s;
    } else if n < 0x100 {
      TakePrefix([n], text + s);
      assert all[1..] == [n] + (text + s);
    } else if n < 0x1_0000 {
      Take2(n, text + s);
      assert all[1..] == Big2(n) + (text + s);
    } else {
      Take4(n, text + s);
      assert all[1..] == Big4(n) + (text + s);
    }
  }

  lemma ReadArray(n: nat, s: Bytes)
    requires n < 0x8000_0000
    ensures ReadArrayHeader(ArrayHeader(n) + s) == Ok((n, s))
    ensures Head(ArrayHeader(n) + s) == Ok((n, s))
    ensures IsArrayCode((ArrayHeader(n) + s)[0])
  {
    hide Big2, Big4, Big8, Number2, Number4, Number8, Take;
    var all := ArrayHeader(n) + s;
    if n < 0x10 {
      assert all[1..] == s;
    } else if n < 0x1_0000 {
      Take2(n, s);
      assert all[1..] == Big2(n) + s;
    } else {
      Take4(n, s);
      assert all[1..] == Big4(n) + s;
    }
  }

  lemma ReadMap(n: nat, s: Bytes)
    requires n < 0x8000_0000
    ensures ReadMapHeader(MapHeader(n) + s) == Ok((n, s))
    ensures Head(MapHeader(n) + s) == Ok((2 * n, s))
    ensures IsMapCode((MapHeader(n) + s)[0])
  {
    hide Big2, Big4, Big8, Number2, Number4, Number8, Take;
    var all := MapHeader(n) + s;
    if n < 0x10 {
      assert all[1..] == s;
    } else if n < 0x1_0000 {
      Take2(n, s);
      assert all[1..] == Big2(n) + s;
    } else {
      Take4(n, s);
      assert all[1..] == Big4(n) + s;
    }
  }

  lemma LeafHead(v: Value, s: Bytes)
    requires !v.Arr? && !v.Map?
    ensures Head(Encode(v) + s) == Ok((0, s))
  {
    match v
    case Nil => assert (Encode(v) + s)[1..] == s;
    case Bool(_) => assert (Encode(v) + s)[1..] == s;
    case Compact(i) => ReadCompact(i, s);
    case Fixed32(i) => ReadFixed32(i, s);
    case Fixed64(i) => ReadFixed64(i, s);
    case Str(text) => ReadText(text, s);
  }

  lemma SkipNone(s: Bytes)
    ensures SkipMany(s, 0) == Ok(s)
  {
  }

  /** The walk takes a value's head for one value, and goes on to what is inside it. */
  lemma SkipStep(s: Bytes, n: nat)
    requires Head(s).Ok?
    ensures SkipMany(s, n + 1) == SkipMany(Head(s).value.1, n + Head(s).value.0)
  {
    hide Head;
  }

  /** The bytes of a value are one complete value to the walk, whatever follows. */
  lemma {:induction false} SkipEncoded(v: Value, s: Bytes, n: nat)
    requires Writable(v)
    ensures SkipMany(Encode(v) + s, n + 1) == SkipMany(s, n)
    decreases v, 1
  {
    hide Head, SkipMany, ArrayHeader, MapHeader, EncodeAll;
    if v.Arr? {
      var all := ArrayHeader(|v.items|) + (EncodeAll(v.items) + s);
      assert Encode(v) + s == all;
      ReadArray(|v.items|, EncodeAll(v.items) + s);
      SkipStep(all, n);
      SkipEncodedAll(v.items, s, n);
    } else if v.Map? {
      var all := MapHeader(|v.entries| / 2) + (EncodeAll(v.entries) + s);
      assert Encode(v) + s == all;
      ReadMap(|v.entries| / 2, EncodeAll(v.entries) + s);
      SkipStep(all, n);
      SkipEncodedAll(v.entries, s, n);
    } else {
      LeafHead(v, s);
      SkipStep(Encode(v) + s, n);
    }
  }

  lemma {:induction false} SkipEncodedAll(vs: seq<Value>, s: Bytes, n: nat)
    requires AllWritable(vs)
    ensures SkipMany(EncodeAll(vs) + s, n + |vs|) == SkipMany(s, n)
    decreases vs, 0
  {
    hide Head, SkipMany, Encode;
    if vs == [] {
      assert EncodeAll(vs) + s == s;
    } else {
      assert EncodeAll(vs) + s == Encode(vs[0]) + (EncodeAll(vs[1..]) + s);
      SkipEncoded(vs[0], EncodeAll(vs[1..]) + s, n + |vs| - 1);
      SkipEncodedAll(vs[1..], s, n);
    }
  }

  lemma {:induction false} EncodeAllAppend(a: seq<Value>, b: seq<Value>)
    requires AllWritable(a) && AllWritable(b)
    ensures AllWritable(a + b) && EncodeAll(a + b) == EncodeAll(a) + EncodeAll(b)
  {
    hide Encode, Writable;
    if a == [] {
      assert a + b == b;
    } else {
      EncodeAllAppend(a[1..], b);
      assert (a + b)[1..] == a[1..] + b;
    }
  }

  // What a primitive has read is one complete value, or the head of one.

  lemma NumberIsLeaf(s: Bytes)
    requires ReadNumber(s).Ok?
    ensures Head(s) == Ok((0, ReadNumber(s).value.1))
  {
  }

  lemma StringIsLeaf(s: Bytes)
    requires ReadString(s).Ok?
    ensures Head(s) == Ok((0, ReadString(s).value.1))
  {
  }

  lemma BooleanIsLeaf(s: Bytes)
    requires ReadBoolean(s).Ok?
    ensures Head(s) == Ok((0, ReadBoolean(s).value.1))
  {
  }

  lemma ArrayHeaderIsHead(s: Bytes)
    requires ReadArrayHeader(s).Ok?
    ensures Head(s) == Ok(ReadArrayHeader(s).value)
  {
  }

  lemma MapHeaderIsHead(s: Bytes)
    requires ReadMapHeader(s).Ok?
    ensures Head(s) == Ok((2 * ReadMapHeader(s).value.0, ReadMapHeader(s).value.1))
  {
  }

  /** Walking in two stretches. */
  lemma {:induction false} SkipSplit(s: Bytes, m: nat, n: nat)
    ensures SkipMany(s, m + n) ==
            match SkipMany(s, m) case Ok(rest) => SkipMany(rest, n) case Err(e) => Err(e)
    decreases |s|, m
  {
    hide Head;
    if m > 0 && Head(s).Ok? {
      var (inside, rest) := Head(s).value;
      SkipSplit(rest, m - 1 + inside, n);
    }
  }
}
