/**
 The part of MessagePack that the formatters use, over bytes: what the writer's primitives write, what the reader's
 primitives read, and `SkipMany`, which walks over complete values knowing nothing of who wrote them.
 Integers, strings, arrays, maps, nil and booleans are laid out as the MessagePack specification says in the sections
 on their format families.
 */
module MessagePack {
  import opened Results

  type byte = b: int | 0 <= b < 256
  type Bytes = seq<byte>
  type int32 = i: int | -0x8000_0000 <= i < 0x8000_0000
  type int64 = i: int | -0x8000_0000_0000_0000 <= i < 0x8000_0000_0000_0000

  /** A string, as the bytes of its UTF-8 encoding; the client's strings and arrays are shorter than 2^31. */
  type Text = t: Bytes | |t| < 0x8000_0000

  datatype Error =
    | EndOfStream
    | InvalidCode
    | Overflow
    | FormatError
    | InvalidOperation
    | InvalidCast
    | NullReference
    | DuplicateKey
    | NotModelled

  // Big-endian numbers.

  function Big2(x: int): (s: Bytes)
    requires 0 <= x < 0x1_0000
    ensures |s| == 2
  {
    [x / 0x100, x % 0x100]
  }

  function Big4(x: int): (s: Bytes)
    requires 0 <= x < 0x1_0000_0000
    ensures |s| == 4
  {
    Big2(x / 0x1_0000) + Big2(x % 0x1_0000)
  }

  function Big8(x: int): (s: Bytes)
    requires 0 <= x < 0x1_0000_0000_0000_0000
    ensures |s| == 8
  {
    Big4(x / 0x1_0000_0000) + Big4(x % 0x1_0000_0000)
  }

  function Number2(s: Bytes): (x: int)
    requires |s| >= 2
    ensures 0 <= x < 0x1_0000
  {
    s[0] as int * 0x100 + s[1] as int
  }

  function Number4(s: Bytes): (x: int)
    requires |s| >= 4
    ensures 0 <= x < 0x1_0000_0000
  {
    Number2(s) * 0x1_0000 + Number2(s[2..])
  }

  function Number8(s: Bytes): (x: int)
    requires |s| >= 8
    ensures 0 <= x < 0x1_0000_0000_0000_0000
  {
    Number4(s) * 0x1_0000_0000 + Number4(s[4..])
  }

  /** The signed number with the given two's complement representation. */
  function Signed(x: int, modulus: int): int {
    if x < modulus / 2 then x else x - modulus
  }

  /** The two's complement representation of a number. */
  function Unsigned(i: int, modulus: int): int {
    if i < 0 then i + modulus else i
  }

  lemma Number2OfBig2(x: int, s: Bytes)
    requires 0 <= x < 0x1_0000
    ensures Number2(Big2(x) + s) == x && (Big2(x) + s)[2..] == s
  {
  }

  lemma Number4OfBig4(x: int, s: Bytes)
    requires 0 <= x < 0x1_0000_0000
    ensures Number4(Big4(x) + s) == x && (Big4(x) + s)[4..] == s
  {
    var high, low := Big2(x / 0x1_0000), Big2(x % 0x1_0000);
    assert Big4(x) + s == high + (low + s);
    Number2OfBig2(x / 0x1_0000, low + s);
    Number2OfBig2(x % 0x1_0000, s);
  }

  lemma Number8OfBig8(x: int, s: Bytes)
    requires 0 <= x < 0x1_0000_0000_0000_0000
    ensures Number8(Big8(x) + s) == x && (Big8(x) + s)[8..] == s
  {
    var high, low := Big4(x / 0x1_0000_0000), Big4(x % 0x1_0000_0000);
    assert Big8(x) + s == high + (low + s);
    Number4OfBig4(x / 0x1_0000_0000, low + s);
    Number4OfBig4(x % 0x1_0000_0000, s);
  }

  // Writing.

  const NIL: byte := 0xc0
  const FALSE: byte := 0xc2
  const TRUE: byte := 0xc3

  /** `Write(int)` and `Write(long)`: the shortest format, unsigned for numbers that are not negative. */
  function CompactInt(i: int64): Bytes {
    if i >= 0 then
      if i < 0x80 then [i]
      else if i < 0x100 then [0xcc, i]
      else if i < 0x1_0000 then [0xcd] + Big2(i)
      else if i < 0x1_0000_0000 then [0xce] + Big4(i)
      else [0xcf] + Big8(i)
    else
      if i >= -0x20 then [i + 0x100]
      else if i >= -0x80 then [0xd0, i + 0x100]
      else if i >= -0x8000 then [0xd1] + Big2(i + 0x1_0000)
      else if i >= -0x8000_0000 then [0xd2] + Big4(i + 0x1_0000_0000)
      else [0xd3] + Big8(i + 0x1_0000_0000_0000_0000)
  }

  /** `WriteInt32`: always five bytes. */
  function FixedInt32(i: int32): Bytes {
    [0xd2] + Big4(Unsigned(i, 0x1_0000_0000))
  }

  /** `WriteInt64`: always nine bytes. */
  function FixedInt64(i: int64): Bytes {
    [0xd3] + Big8(Unsigned(i, 0x1_0000_0000_0000_0000))
  }

  function StringHeader(n: nat): Bytes
    requires n < 0x8000_0000
  {
    if n < 0x20 then [0xa0 + n]
    else if n < 0x100 then [0xd9, n]
    else if n < 0x1_0000 then [0xda] + Big2(n)
    else [0xdb] + Big4(n)
  }

  function ArrayHeader(n: nat): Bytes
    requires n < 0x8000_0000
  {
    if n < 0x10 then [0x90 + n]
    else if n < 0x1_0000 then [0xdc] + Big2(n)
    else [0xdd] + Big4(n)
  }

  function MapHeader(n: nat): Bytes
    requires n < 0x8000_0000
  {
    if n < 0x10 then [0x80 + n]
    else if n < 0x1_0000 then [0xde] + Big2(n)
    else [0xdf] + Big4(n)
  }

  /**
   A MessagePack value, with its integers tagged by how they are written. The items of a map are its keys and values
   in turn.
   */
  datatype Value =
    | Nil
    | Bool(b: bool)
    | Compact(i: int64)
    | Fixed32(w: int32)
    | Fixed64(l: int64)
    | Str(text: Text)
    | Arr(items: seq<Value>)
    | Map(entries: seq<Value>)

  /** Every array and map has a size that a header can state. */
  predicate Writable(v: Value) {
    match v
    case Arr(items) => |items| < 0x8000_0000 && forall i :: 0 <= i < |items| ==> Writable(items[i])
    case Map(entries) =>
      && |entries| % 2 == 0
      && |entries| / 2 < 0x8000_0000
      && forall i :: 0 <= i < |entries| ==> Writable(entries[i])
    case _ => true
  }

  predicate AllWritable(vs: seq<Value>) {
    forall i :: 0 <= i < |vs| ==> Writable(vs[i])
  }

  /** The bytes of a value. */
  function Encode(v: Value): Bytes
    requires Writable(v)
    decreases v, 1
  {
    match v
    case Nil => [NIL]
    case Bool(b) => [if b then TRUE else FALSE]
    case Compact(i) => CompactInt(i)
    case Fixed32(i) => FixedInt32(i)
    case Fixed64(i) => FixedInt64(i)
    case Str(text) => StringHeader(|text|) + text
    case Arr(items) => ArrayHeader(|items|) + EncodeAll(items)
    case Map(entries) => MapHeader(|entries| / 2) + EncodeAll(entries)
  }

  function EncodeAll(vs: seq<Value>): Bytes
    requires AllWritable(vs)
    decreases vs, 0
  {
    if vs == [] then [] else Encode(vs[0]) + EncodeAll(vs[1..])
  }

  // Reading. A reader's primitive returns what it read and the bytes that are left.

  function Take(s: Bytes, n: nat): (r: Result<(Bytes, Bytes), Error>)
    ensures r.Ok? ==> |r.value.0| == n && s == r.value.0 + r.value.1
  {
    if |s| < n then Err(EndOfStream) else Ok((s[..n], s[n..]))
  }

  /** A number of any integer format. */
  function ReadNumber(s: Bytes): Result<(int, Bytes), Error> {
    if s == [] then Err(EndOfStream)
    else
      var b: int, t := s[0], s[1..];
      if b < 0x80 then Ok((b, t))
      else if b >= 0xe0 then Ok((b - 0x100, t))
      else if b < 0xcc || 0xd3 < b then Err(InvalidCode)
      else
        var width := if b % 4 == 0 then 1 else if b % 4 == 1 then 2 else if b % 4 == 2 then 4 else 8;
        var (payload, rest) :- Take(t, width);
        var x := if width == 1 then payload[0]
                 else if width == 2 then Number2(payload)
                 else if width == 4 then Number4(payload)
                 else Number8(payload);
        var modulus := if width == 1 then 0x100
                       else if width == 2 then 0x1_0000
                       else if width == 4 then 0x1_0000_0000
                       else 0x1_0000_0000_0000_0000;
        Ok((if b < 0xd0 then x else Signed(x, modulus), rest))
  }

  function ReadInt32(s: Bytes): Result<(int32, Bytes), Error> {
    var (i, rest) :- ReadNumber(s);
    if -0x8000_0000 <= i < 0x8000_0000 then Ok((i, rest)) else Err(Overflow)
  }

  function ReadInt64(s: Bytes): Result<(int64, Bytes), Error> {
    var (i, rest) :- ReadNumber(s);
    if -0x8000_0000_0000_0000 <= i < 0x8000_0000_0000_0000 then Ok((i, rest)) else Err(Overflow)
  }

  /** The code of the next value. */
  function Peek(s: Bytes): Result<byte, Error> {
    if s == [] then Err(EndOfStream) else Ok(s[0])
  }

  function ReadNil(s: Bytes): Result<((), Bytes), Error> {
    var b :- Peek(s);
    if b == NIL then Ok(((), s[1..])) else Err(InvalidCode)
  }

  function ReadBoolean(s: Bytes): Result<(bool, Bytes), Error> {
    var b :- Peek(s);
    if b == TRUE then Ok((true, s[1..])) else if b == FALSE then Ok((false, s[1..])) else Err(InvalidCode)
  }

  predicate IsStringCode(b: byte) {
    0xa0 <= b < 0xc0 || 0xd9 <= b <= 0xdb
  }

  predicate IsArrayCode(b: byte) {
    0x90 <= b < 0xa0 || b == 0xdc || b == 0xdd
  }

  predicate IsMapCode(b: byte) {
    0x80 <= b < 0x90 || b == 0xde || b == 0xdf
  }

  /** The number that a header with the given payload width states. */
  function ReadCount(s: Bytes, width: nat): Result<(nat, Bytes), Error>
    requires width in {1, 2, 4}
  {
    var (payload, rest) :- Take(s, width);
    Ok((if width == 1 then payload[0] else if width == 2 then Number2(payload) else Number4(payload), rest))
  }

  function ReadStringHeader(s: Bytes): Result<(nat, Bytes), Error> {
    var b :- Peek(s);
    if 0xa0 <= b < 0xc0 then Ok((b - 0xa0, s[1..]))
    else if b == 0xd9 then ReadCount(s[1..], 1)
    else if b == 0xda then ReadCount(s[1..], 2)
    else if b == 0xdb then ReadCount(s[1..], 4)
    else Err(InvalidCode)
  }

  /** A string, or nil for a null string. */
  function ReadString(s: Bytes): Result<(Option<Text>, Bytes), Error> {
    var b :- Peek(s);
    if b == NIL then Ok((None, s[1..]))
    else
      var (n, t) :- ReadStringHeader(s);
      if n >= 0x8000_0000 then Err(Overflow)
      else
        var (text, rest) :- Take(t, n);
        Ok((Some(text), rest))
  }

  function ReadArrayHeader(s: Bytes): Result<(nat, Bytes), Error> {
    var b :- Peek(s);
    var (n, rest) :-
      if 0x90 <= b < 0xa0 then Ok((b - 0x90, s[1..]))
      else if b == 0xdc then ReadCount(s[1..], 2)
      else if b == 0xdd then ReadCount(s[1..], 4)
      else Err(InvalidCode);
    if n < 0x8000_0000 then Ok((n, rest)) else Err(Overflow)
  }

  function ReadMapHeader(s: Bytes): Result<(nat, Bytes), Error> {
    var b :- Peek(s);
    var (n, rest) :-
      if 0x80 <= b < 0x90 then Ok((b - 0x80, s[1..]))
      else if b == 0xde then ReadCount(s[1..], 2)
      else if b == 0xdf then ReadCount(s[1..], 4)
      else Err(InvalidCode);
    if n < 0x8000_0000 then Ok((n, rest)) else Err(Overflow)
  }

  // Walking over values.

  /** The head of a value of any format: how many values are inside it, and the bytes after the head. */
  function Head(s: Bytes): (r: Result<(nat, Bytes), Error>)
    ensures r.Ok? ==> |r.value.1| < |s|
  {
    var b :- Peek(s);
    var t := s[1..];
    if b < 0x80 || 0xe0 <= b || b == NIL || b == FALSE || b == TRUE then Ok((0, t))
    else if b < 0x90 then Ok((2 * (b - 0x80), t))
    else if b < 0xa0 then Ok((b - 0x90, t))
    else if b < 0xc0 then Leaf(t, b - 0xa0)
    else if b == 0xc1 then Err(InvalidCode)
    else if b <= 0xc6 then Sized(t, if b == 0xc4 then 1 else if b == 0xc5 then 2 else 4, 0)
    else if b <= 0xc9 then Sized(t, if b == 0xc7 then 1 else if b == 0xc8 then 2 else 4, 1)
    else if b <= 0xcb then Leaf(t, if b == 0xca then 4 else 8)
    else if b <= 0xd3 then
      Leaf(t, if b % 4 == 0 then 1 else if b % 4 == 1 then 2 else if b % 4 == 2 then 4 else 8)
    else if b <= 0xd8 then
      Leaf(t, if b == 0xd4 then 2 else if b == 0xd5 then 3 else if b == 0xd6 then 5 else if b == 0xd7 then 9 else 17)
    else if b <= 0xdb then Sized(t, if b == 0xd9 then 1 else if b == 0xda then 2 else 4, 0)
    else
      var (n, rest) :- ReadCount(t, if b % 2 == 0 then 2 else 4);
      Ok((if b <= 0xdd then n else 2 * n, rest))
  }

  /** A value of `n` more bytes with nothing inside it. */
  function Leaf(t: Bytes, n: nat): (r: Result<(nat, Bytes), Error>)
    ensures r.Ok? ==> |r.value.1| <= |t|
  {
    var (_, rest) :- Take(t, n);
    Ok((0, rest))
  }

  /** A value that states its length, and has `extra` bytes besides. */
  function Sized(t: Bytes, width: nat, extra: nat): (r: Result<(nat, Bytes), Error>)
    requires width in {1, 2, 4}
    ensures r.Ok? ==> |r.value.1| <= |t|
  {
    var (n, u) :- ReadCount(t, width);
    Leaf(u, n + extra)
  }

  /** What is left after `n` complete values: each array and map counts for as many values as its header states. */
  function SkipMany(s: Bytes, n: nat): (r: Result<Bytes, Error>)
    ensures r.Ok? ==> |r.value| + n <= |s|
    decreases |s|, n
  {
    if n == 0 then Ok(s)
    else
      var (inside, rest) :- Head(s);
      SkipMany(rest, n - 1 + inside)
  }
}
