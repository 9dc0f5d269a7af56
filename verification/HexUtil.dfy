/**
 The UTF-8 encoding of strings, as in section 3 of RFC 3629, with a decoder that accepts nothing but what the encoder
 writes. A `char` is a Unicode scalar value, so every string is well-formed.
 */
module Utf8 {
  import opened Results
  import opened MessagePack

  /** The lowest six bits of a scalar value, in a continuation byte. */
  function Tail(n: int): byte {
    0x80 + n % 0x40
  }

  function CharBytes(c: char): (b: Bytes)
    ensures 1 <= |b| <= 4
  {
    var n := c as int;
    if n < 0x80 then [n]
    else if n < 0x800 then [0xC0 + n / 0x40, Tail(n)]
    else if n < 0x1_0000 then [0xE0 + n / 0x40 / 0x40, Tail(n / 0x40), Tail(n)]
    else [0xF0 + n / 0x40 / 0x40 / 0x40, Tail(n / 0x40 / 0x40), Tail(n / 0x40), Tail(n)]
  }

  function GetBytes(s: string): Bytes {
    if s == "" then [] else CharBytes(s[0]) + GetBytes(s[1..])
  }

  predicate Continues(b: Bytes, k: nat) {
    |b| >= k && forall i :: 1 <= i < k ==> 0x80 <= b[i] < 0xC0
  }

  /** Six more bits, from a continuation byte. */
  function Push(n: int, b: int): int {
    n * 0x40 + b - 0x80
  }

  /** The scalar value `n` in `k` bytes, if there is one that needs so many. */
  function Scalar(n: int, k: nat, least: nat): Option<(char, nat)> {
    if n < least || 0xD800 <= n < 0xE000 || n >= 0x11_0000 then None else Some((n as char, k))
  }

  /** The first character and the number of its bytes. */
  function ReadChar(b: Bytes): Option<(char, nat)> {
    if b == [] then None
    else if b[0] < 0x80 then Some((b[0] as char, 1))
    else if 0xC0 <= b[0] < 0xE0 && Continues(b, 2) then Scalar(Push(b[0] - 0xC0, b[1]), 2, 0x80)
    else if 0xE0 <= b[0] < 0xF0 && Continues(b, 3) then Scalar(Push(Push(b[0] - 0xE0, b[1]), b[2]), 3, 0x800)
    else if 0xF0 <= b[0] < 0xF8 && Continues(b, 4) then
      Scalar(Push(Push(Push(b[0] - 0xF0, b[1]), b[2]), b[3]), 4, 0x1_0000)
    else None
  }

  function GetString(b: Bytes): Option<string> {
    if b == [] then Some("")
    else
      var first := ReadChar(b);
      if first.None? || first.value.1 > |b| || first.value.1 == 0 then None
      else
        var rest := GetString(b[first.value.1..]);
        if rest.None? then None else Some([first.value.0] + rest.value)
  }

  lemma PushTail(n: int)
    ensures Push(n / 0x40, Tail(n)) == n
  {
  }

  lemma PushSplit(n: int, b: byte)
    requires 0x80 <= b < 0xC0
    ensures Push(n, b) / 0x40 == n && Tail(Push(n, b)) == b
  {
  }

  lemma CharBack(c: char, rest: Bytes)
    ensures ReadChar(CharBytes(c) + rest) == Some((c, |CharBytes(c)|))
  {
    var n := c as int;
    PushTail(n);
    PushTail(n / 0x40);
    PushTail(n / 0x40 / 0x40);
    assert forall i :: 0 <= i < |CharBytes(c)| ==> (CharBytes(c) + rest)[i] == CharBytes(c)[i];
    hide Push;
  }

  lemma CharExact(b: Bytes)
    requires ReadChar(b).Some?
    ensures var (c, k) := ReadChar(b).value; k == |CharBytes(c)| && k <= |b| && b[..k] == CharBytes(c)
  {
    var h := b[0];
    if 0xC0 <= h < 0xE0 {
      PushSplit(h - 0xC0, b[1]);
      hide Push, Tail;
    } else if 0xE0 <= h < 0xF0 {
      PushSplit(h - 0xE0, b[1]);
      PushSplit(Push(h - 0xE0, b[1]), b[2]);
      hide Push, Tail;
    } else if 0xF0 <= h < 0xF8 {
      FourBytesExact(b);
    }
  }

  lemma FourBytesExact(b: Bytes)
    requires |b| > 0 && 0xF0 <= b[0] < 0xF8 && ReadChar(b).Some?
    ensures var (c, k) := ReadChar(b).value; k == |CharBytes(c)| && k <= |b| && b[..k] == CharBytes(c)
  {
    var high := Push(b[0] - 0xF0, b[1]);
    PushSplit(b[0] - 0xF0, b[1]);
    PushSplit(high, b[2]);
    PushSplit(Push(high, b[2]), b[3]);
    hide Push, Tail;
  }

  /** Bytes decode to a string exactly if they are its encoding. */
  lemma {:induction false} StringExactly(b: Bytes, s: string)
    ensures GetString(b) == Some(s) <==> b == GetBytes(s)
    decreases |b| + |s|
  {
    if s != "" {
      CharBack(s[0], GetBytes(s[1..]));
      assert (CharBytes(s[0]) + GetBytes(s[1..]))[|CharBytes(s[0])|..] == GetBytes(s[1..]);
    }
    if b != [] && ReadChar(b).Some? {
      var (c, k) := ReadChar(b).value;
      CharExact(b);
      assert b == b[..k] + b[k..];
      if s != "" {
        StringExactly(b[k..], s[1..]);
        assert s == [s[0]] + s[1..];
      }
    }
  }
}

/** `HexUtil.ToHexString`: lower-case base 16, as in section 8 of RFC 4648, of the UTF-8 encoding. */
module HexUtil {
  import opened Results
  import opened MessagePack
  import opened Utf8

  datatype Error = ArgumentNull

  function UpperDigit(n: int): char
    requires 0 <= n < 16
  {
    "0123456789ABCDEF"[n]
  }

  function LowerDigit(n: int): char
    requires 0 <= n < 16
  {
    "0123456789abcdef"[n]
  }

  /** `Convert.ToHexString` writes capital letters. */
  function UpperHex(b: Bytes): string {
    if b == [] then "" else [UpperDigit(b[0] / 16), UpperDigit(b[0] % 16)] + UpperHex(b[1..])
  }

  function ToLower(s: string): string {
    if s == "" then "" else [if 'A' <= s[0] <= 'Z' then s[0] + ' ' else s[0]] + ToLower(s[1..])
  }

  function ToHexString(input: Option<string>): Result<string, Error> {
    if input.None? then Err(ArgumentNull) else Ok(ToLower(UpperHex(GetBytes(input.value))))
  }

  predicate IsHexDigit(c: char) {
    '0' <= c <= '9' || 'a' <= c <= 'f'
  }

  function Nibble(c: char): int
    requires IsHexDigit(c)
  {
    if c <= '9' then c as int - '0' as int else c as int - 'a' as int + 10
  }

  function FromHex(h: string): Option<Bytes> {
    if h == "" then Some([])
    else if |h| == 1 || !IsHexDigit(h[0]) || !IsHexDigit(h[1]) then None
    else
      var rest := FromHex(h[2..]);
      if rest.None? then None else Some([Nibble(h[0]) * 16 + Nibble(h[1])] + rest.value)
  }

  function FromHexString(h: string): Option<string> {
    var b := FromHex(h);
    if b.None? then None else GetString(b.value)
  }

  lemma DigitBack(n: int)
    requires 0 <= n < 16
    ensures ToLower([UpperDigit(n)]) == [LowerDigit(n)] && IsHexDigit(LowerDigit(n)) && Nibble(LowerDigit(n)) == n
  {
    assert ToLower([UpperDigit(n)][1..]) == "";
  }

  lemma {:induction false} LowerJoins(s: string, t: string)
    ensures ToLower(s + t) == ToLower(s) + ToLower(t)
  {
    if s == "" {
      assert s + t == t;
    } else {
      assert (s + t)[1..] == s[1..] + t;
      LowerJoins(s[1..], t);
    }
  }

  lemma FirstByte(b: Bytes)
    requires b != []
    ensures ToLower(UpperHex(b)) == [LowerDigit(b[0] / 16), LowerDigit(b[0] % 16)] + ToLower(UpperHex(b[1..]))
  {
    var x, y := UpperDigit(b[0] / 16), UpperDigit(b[0] % 16);
    LowerJoins([x, y], UpperHex(b[1..]));
    LowerJoins([x], [y]);
    assert [x] + [y] == [x, y];
    DigitBack(b[0] / 16);
    DigitBack(b[0] % 16);
  }

  lemma ByteExactly(x: char, y: char, b: byte)
    ensures IsHexDigit(x) && IsHexDigit(y) && Nibble(x) * 16 + Nibble(y) == b
       <==> x == LowerDigit(b / 16) && y == LowerDigit(b % 16)
  {
    DigitBack(b / 16);
    DigitBack(b % 16);
    NibbleDigit(x);
    NibbleDigit(y);
    hide Nibble, LowerDigit, IsHexDigit;
    if IsHexDigit(x) && IsHexDigit(y) && Nibble(x) * 16 + Nibble(y) == b {
      assert b / 16 == Nibble(x) && b % 16 == Nibble(y);
    }
  }

  lemma NibbleDigit(c: char)
    ensures IsHexDigit(c) ==> 0 <= Nibble(c) < 16 && LowerDigit(Nibble(c)) == c
  {
  }

  /** Lower-case digits read as bytes exactly if they are those that are written for them. */
  lemma {:induction false} HexExactly(h: string, b: Bytes)
    ensures FromHex(h) == Some(b) <==> h == ToLower(UpperHex(b))
    decreases |b|
  {
    if b != [] {
      FirstByte(b);
      if |h| >= 2 {
        ByteExactly(h[0], h[1], b[0]);
        HexExactly(h[2..], b[1..]);
        hide ToLower, UpperHex, Nibble, IsHexDigit;
        assert h == [h[0], h[1]] + h[2..];
        assert b == [b[0]] + b[1..];
      }
    }
  }

  /** Two digits are written for each byte. */
  lemma {:induction false} HexDigits(b: Bytes)
    ensures |ToLower(UpperHex(b))| == 2 * |b|
    ensures forall c :: c in ToLower(UpperHex(b)) ==> IsHexDigit(c)
  {
    if b != [] {
      FirstByte(b);
      HexDigits(b[1..]);
      DigitBack(b[0] / 16);
      DigitBack(b[0] % 16);
    }
  }

  /** The reader is the exact inverse: a string is read from the digits that are written for it, and from no others. */
  lemma HexStringExactly(s: string, h: string)
    ensures FromHexString(h) == Some(s) <==> ToHexString(Some(s)) == Ok(h)
    ensures ToHexString(Some(s)).Ok? && forall c :: c in ToHexString(Some(s)).value ==> IsHexDigit(c)
  {
    HexExactly(h, GetBytes(s));
    HexDigits(GetBytes(s));
    StringExactly(GetBytes(s), s);
    if FromHex(h).Some? {
      StringExactly(FromHex(h).value, s);
    }
  }

  /** The two digits of each byte, its higher half first. */
  lemma {:induction false} DigitsAre(b: Bytes, i: nat)
    requires i < |b|
    ensures |ToLower(UpperHex(b))| == 2 * |b|
    ensures ToLower(UpperHex(b))[2 * i] == "0123456789abcdef"[b[i] / 16]
    ensures ToLower(UpperHex(b))[2 * i + 1] == "0123456789abcdef"[b[i] % 16]
  {
    HexDigits(b);
    FirstByte(b);
    if i > 0 {
      hide ToLower, UpperHex;
      DigitsAre(b[1..], i - 1);
    }
  }

  /** Different strings have different digits. */
  lemma HexIsInjective(s: string, t: string)
    ensures ToHexString(Some(s)) == ToHexString(Some(t)) <==> s == t
  {
    HexStringExactly(s, ToHexString(Some(s)).value);
    HexStringExactly(t, ToHexString(Some(s)).value);
  }
}
