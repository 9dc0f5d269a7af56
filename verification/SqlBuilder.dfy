/** `StringEscapeUtil.Escape`, and a scanner of string literals that undoes it. */
module StringEscapeUtil {
  import opened Results

  /** `string.Replace` for a pattern of one character. */
  function Replace(s: string, from: char, to: string): string {
    if s == "" then "" else (if s[0] == from then to else [s[0]]) + Replace(s[1..], from, to)
  }

  function Escaped(v: string): string {
    Replace(Replace(v, '\'', "''"), '\\', "\\\\")
  }

  function Escape(value: Option<string>): Option<string> {
    if value.None? then None else Some(Escaped(value.value))
  }

  predicate IsPlain(c: char) {
    c != '\'' && c != '\\'
  }

  predicate Plain(s: string) {
    forall c :: c in s ==> IsPlain(c)
  }

  /** The substitution of one character. */
  function EscapedChar(c: char): string {
    if c == '\'' then "''" else if c == '\\' then "\\\\" else [c]
  }

  lemma {:induction false} ReplaceJoins(s: string, t: string, from: char, to: string)
    ensures Replace(s + t, from, to) == Replace(s, from, to) + Replace(t, from, to)
  {
    if s == "" {
      assert s + t == t;
    } else {
      assert (s + t)[1..] == s[1..] + t;
      ReplaceJoins(s[1..], t, from, to);
    }
  }

  /** The two replacements are one substitution, character by character: the second leaves what the first wrote. */
  lemma EscapeIsOnePass(v: string)
    ensures v != "" ==> Escaped(v) == EscapedChar(v[0]) + Escaped(v[1..])
    ensures v == "" ==> Escaped(v) == ""
  {
    if v != "" {
      var head := if v[0] == '\'' then "''" else [v[0]];
      ReplaceJoins(head, Replace(v[1..], '\'', "''"), '\\', "\\\\");
      assert head[1..] == "" || head[1..] == "'";
      assert head[1..] == "'" ==> head[1..][1..] == "";
    }
  }

  /** Reads the rest of a string literal behind its opening quote: the value, and what follows the closing quote. */
  function Literal(s: string): (r: Option<(string, string)>)
    ensures r.Some? ==> |r.value.1| < |s|
  {
    if s == "" then None
    else if s[0] == '\'' then
      if |s| > 1 && s[1] == '\'' then After(s[1], Literal(s[2..])) else Some(("", s[1..]))
    else if s[0] == '\\' then
      if |s| > 1 then After(s[1], Literal(s[2..])) else None
    else After(s[0], Literal(s[1..]))
  }

  function After(c: char, r: Option<(string, string)>): Option<(string, string)> {
    if r.None? then None else Some(([c] + r.value.0, r.value.1))
  }

  /** A quote, the escaped value and a quote read as the value, whatever the value: the scanner stops at that quote. */
  lemma {:induction false} EscapedReadsBack(v: string, rest: string)
    requires rest == "" || rest[0] != '\''
    ensures Literal(Escaped(v) + "'" + rest) == Some((v, rest))
  {
    EscapeIsOnePass(v);
    var s := Escaped(v) + "'" + rest;
    if v == "" {
      assert s == "'" + rest && s[1..] == rest;
    } else {
      EscapedReadsBack(v[1..], rest);
      hide Escaped, Replace;
      var tail := Escaped(v[1..]) + "'" + rest;
      assert s == EscapedChar(v[0]) + tail;
      assert s[|EscapedChar(v[0])|..] == tail;
      assert v == [v[0]] + v[1..];
    }
  }

  /** What a literal reads as is shorter than its text by the closing quote and by one for each escape. */
  lemma {:induction false} LiteralShortens(s: string)
    requires Literal(s).Some?
    ensures
      var (v, rest) := Literal(s).value;
      && |v| + 1 + |rest| <= |s|
      && (|v| + 1 + |rest| == |s| ==> Plain(v) && s == v + "'" + rest)
  {
    if s[0] == '\'' && (|s| == 1 || s[1] != '\'') {
      assert s == "" + "'" + s[1..];
    } else if IsPlain(s[0]) {
      LiteralShortens(s[1..]);
      var (v, rest) := Literal(s[1..]).value;
      if |v| + 1 + |rest| == |s[1..]| {
        assert s == [s[0]] + s[1..];
        assert [s[0]] + (v + "'" + rest) == ([s[0]] + v) + "'" + rest;
      }
    } else {
      LiteralShortens(s[2..]);
    }
  }

  lemma {:induction false} PlainIsEscaped(v: string)
    requires Plain(v)
    ensures Escaped(v) == v
  {
    EscapeIsOnePass(v);
    if v != "" {
      assert v[0] in v;
      PlainIsEscaped(v[1..]);
      hide Escaped;
      assert v == [v[0]] + v[1..];
    }
  }

  /** A value that is put between quotes as it is reads back exactly if it holds no quote and no backslash. */
  lemma UnescapedReadsBackExactly(v: string, rest: string)
    requires rest == "" || rest[0] != '\''
    ensures Literal(v + "'" + rest) == Some((v, rest)) <==> Plain(v)
  {
    if Plain(v) {
      PlainIsEscaped(v);
      EscapedReadsBack(v, rest);
    } else if Literal(v + "'" + rest) == Some((v, rest)) {
      LiteralShortens(v + "'" + rest);
    }
  }

  function Count(s: string, d: char): nat {
    if s == "" then 0 else (if s[0] == d then 1 else 0) + Count(s[1..], d)
  }

  /** A literal that does not end at the quote behind its text goes on, and so holds the next character once more. */
  lemma {:induction false} Overruns(w: string, rest: string)
    requires rest != "" && IsPlain(rest[0])
    ensures
      var r := Literal(w + "'" + rest);
      r.Some? && |r.value.1| < |rest| ==> Count(r.value.0, rest[0]) > Count(w, rest[0])
  {
    var s := w + "'" + rest;
    if w == "" {
      assert s[1..] == rest && s[1] == rest[0];
    } else if IsPlain(w[0]) {
      assert s[1..] == w[1..] + "'" + rest;
      Overruns(w[1..], rest);
    } else if |w| == 1 {
      assert s[2..] == rest;
      assert w[1..] == "";
    } else if w[0] == '\\' || w[1] == '\'' {
      assert s[2..] == w[2..] + "'" + rest && s[1] == w[1];
      Overruns(w[2..], rest);
      assert w[1..][1..] == w[2..];
    } else {
      assert s[1] == w[1];
      assert |Literal(s).value.1| >= |rest|;
    }
  }

  /**
   Wherever the literal ends, a value that is put between quotes as it is, with a plain character behind them, reads as
   itself only if it holds no quote and no backslash.
   */
  lemma OnlyPlainReadsAsItself(v: string, rest: string)
    requires rest != "" && IsPlain(rest[0])
    ensures var r := Literal(v + "'" + rest); r.Some? && r.value.0 == v ==> Plain(v) && r.value.1 == rest
  {
    var s := v + "'" + rest;
    if Literal(s).Some? && Literal(s).value.0 == v {
      var after := Literal(s).value.1;
      LiteralShortens(s);
      Overruns(v, rest);
      assert |after| == |rest|;
      assert s == v + "'" + after;
      assert s[|v| + 1..] == after && s[|v| + 1..] == rest;
    }
  }

  /** The inverse of `Escape`, for what it writes and nothing else. */
  function Unescape(e: string): Option<string> {
    if e == "" then Some("")
    else if IsPlain(e[0]) then Prepend(e[0], Unescape(e[1..]))
    else if |e| > 1 && e[1] == e[0] then Prepend(e[0], Unescape(e[2..]))
    else None
  }

  function Prepend(c: char, s: Option<string>): Option<string> {
    if s.None? then None else Some([c] + s.value)
  }

  lemma {:induction false} EscapeExactly(v: string, e: string)
    ensures Unescape(e) == Some(v) <==> e == Escaped(v)
    decreases |v|
  {
    EscapeIsOnePass(v);
    hide Escaped;
    if v != "" && e != "" {
      var k := if IsPlain(e[0]) then 1 else 2;
      if |e| >= k {
        EscapeExactly(v[1..], e[k..]);
        assert v == [v[0]] + v[1..] && e == e[..k] + e[k..];
      }
    }
  }
}

/**
 The text of a block of SQL statements as tokens: string literals, quoted names, hexadecimal literals, the semicolons
 that end the statements, and single characters.
 */
module SqlText {
  import opened Results
  import opened StringEscapeUtil
  import opened HexUtil

  datatype Token = Char(c: char) | Text(value: string) | Name(value: string) | Hex(digits: string) | Semicolon

  /** How many hexadecimal digits the string begins with. */
  function HexRun(s: string): (n: nat)
    ensures n <= |s|
  {
    if s == "" || !IsHexDigit(s[0]) then 0 else 1 + HexRun(s[1..])
  }

  /** The characters before the next double quote. */
  function NameRun(s: string): (n: nat)
    ensures n <= |s|
  {
    if s == "" || s[0] == '"' then 0 else 1 + NameRun(s[1..])
  }

  function Tokens(s: string): Option<seq<Token>>
    decreases |s|
  {
    if s == "" then Some([])
    else if s[0] == '\'' then
      var r := Literal(s[1..]);
      if r.None? then None else With(Text(r.value.0), Tokens(r.value.1))
    else if s[0] == '"' then
      var n := NameRun(s[1..]);
      if n + 1 == |s| then None else With(Name(s[1..n + 1]), Tokens(s[n + 2..]))
    else if s[0] == '0' && |s| > 1 && s[1] == 'x' then
      var n := HexRun(s[2..]);
      With(Hex(s[2..n + 2]), Tokens(s[n + 2..]))
    else if s[0] == ';' then With(Semicolon, Tokens(s[1..]))
    else With(Char(s[0]), Tokens(s[1..]))
  }

  function With(t: Token, ts: Option<seq<Token>>): Option<seq<Token>> {
    if ts.None? then None else Some([t] + ts.value)
  }

  /** A character that only stands for itself. */
  predicate Inert(c: char) {
    IsPlain(c) && c != '"' && c != '0' && c != ';'
  }

  predicate AllInert(s: string) {
    forall c :: c in s ==> Inert(c)
  }

  function Chars(s: string): seq<Token> {
    seq(|s|, i requires 0 <= i < |s| => Char(s[i]))
  }

  lemma ValueTokenizes(v: string, rest: string)
    requires rest != "" && rest[0] != '\''
    ensures Tokens("'" + Escaped(v) + "'" + rest) == With(Text(v), Tokens(rest))
  {
    var s := "'" + Escaped(v) + "'" + rest;
    assert s[1..] == Escaped(v) + "'" + rest;
    hide Escaped, Literal;
    EscapedReadsBack(v, rest);
  }

  lemma NameTokenizes(name: string, rest: string)
    requires '"' !in name
    ensures Tokens("\"" + name + "\"" + rest) == With(Name(name), Tokens(rest))
  {
    var s := "\"" + name + "\"" + rest;
    NameEnds(name, rest);
    assert s[1..] == name + "\"" + rest;
    assert s[1..|name| + 1] == name && s[|name| + 2..] == rest;
  }

  lemma HexTokenizes(digits: string, rest: string)
    requires (forall c :: c in digits ==> IsHexDigit(c)) && rest != "" && !IsHexDigit(rest[0])
    ensures Tokens("0x" + digits + rest) == With(Hex(digits), Tokens(rest))
  {
    var s := "0x" + digits + rest;
    HexEnds(digits, rest);
    assert s[2..] == digits + rest;
    assert s[2..|digits| + 2] == digits && s[|digits| + 2..] == rest;
  }

  lemma EndTokenizes(rest: string)
    ensures Tokens(";" + rest) == With(Semicolon, Tokens(rest))
  {
    assert (";" + rest)[1..] == rest;
  }

  lemma {:induction false} CodeTokenizes(text: string, rest: string)
    requires AllInert(text)
    ensures Tokens(text + rest).Some? <==> Tokens(rest).Some?
    ensures Tokens(rest).Some? ==> Tokens(text + rest) == Some(Chars(text) + Tokens(rest).value)
  {
    if text == "" {
      assert text + rest == rest;
      assert Tokens(rest).Some? ==> Chars(text) + Tokens(rest).value == Tokens(rest).value;
    } else {
      assert Inert(text[0]) by {
        assert text[0] in text;
      }
      assert (text + rest)[1..] == text[1..] + rest && (text + rest)[0] == text[0];
      CodeTokenizes(text[1..], rest);
      if Tokens(rest).Some? {
        var ts := Tokens(rest).value;
        assert [Char(text[0])] + (Chars(text[1..]) + ts) == Chars(text) + ts;
      }
    }
  }

  lemma {:induction false} NameEnds(name: string, rest: string)
    requires '"' !in name
    ensures NameRun(name + "\"" + rest) == |name|
  {
    if name != "" {
      assert (name + "\"" + rest)[1..] == name[1..] + "\"" + rest;
      NameEnds(name[1..], rest);
    }
  }

  lemma {:induction false} HexEnds(digits: string, rest: string)
    requires (forall c :: c in digits ==> IsHexDigit(c)) && rest != "" && !IsHexDigit(rest[0])
    ensures HexRun(digits + rest) == |digits|
  {
    if digits == "" {
      assert digits + rest == rest;
    } else {
      assert digits[0] in digits;
      assert (digits + rest)[1..] == digits[1..] + rest;
      HexEnds(digits[1..], rest);
    }
  }

  /** How many statements there are, the values of their string literals in order, and their hexadecimal literals. */
  datatype Contents = Contents(statements: nat, texts: seq<string>, hexes: seq<string>)

  const NOTHING := Contents(0, [], [])

  function OfToken(t: Token): Contents {
    match t
    case Semicolon => NOTHING.(statements := 1)
    case Text(v) => NOTHING.(texts := [v])
    case Hex(digits) => NOTHING.(hexes := [digits])
    case _ => NOTHING
  }

  function Plus(c: Contents, d: Contents): Contents {
    Contents(c.statements + d.statements, c.texts + d.texts, c.hexes + d.hexes)
  }

  function ContentsOf(ts: seq<Token>): Contents {
    if ts == [] then NOTHING else Plus(OfToken(ts[0]), ContentsOf(ts[1..]))
  }

  lemma PlusNothing(c: Contents)
    ensures Plus(c, NOTHING) == c && Plus(NOTHING, c) == c
  {
  }

  lemma PlusJoins(c: Contents, d: Contents, e: Contents)
    ensures Plus(Plus(c, d), e) == Plus(c, Plus(d, e))
  {
  }

  lemma {:induction false} ContentsJoin(ts: seq<Token>, us: seq<Token>)
    ensures ContentsOf(ts + us) == Plus(ContentsOf(ts), ContentsOf(us))
  {
    if ts == [] {
      assert ts + us == us;
      PlusNothing(ContentsOf(us));
    } else {
      assert (ts + us)[1..] == ts[1..] + us;
      ContentsJoin(ts[1..], us);
      PlusJoins(OfToken(ts[0]), ContentsOf(ts[1..]), ContentsOf(us));
    }
  }

  lemma {:induction false} OnlyChars(ts: seq<Token>)
    requires forall t :: t in ts ==> t.Char?
    ensures ContentsOf(ts) == NOTHING
  {
    if ts != [] {
      assert ts[0] in ts;
      OnlyChars(ts[1..]);
      PlusNothing(NOTHING);
    }
  }

  lemma CharsHoldNothing(s: string)
    ensures ContentsOf(Chars(s)) == NOTHING
  {
    OnlyChars(Chars(s));
  }

  /** The tokens end with the end of a statement. */
  predicate Complete(ts: seq<Token>) {
    ts != [] && ts[|ts| - 1].Semicolon?
  }

  /** The text is complete statements with these contents. */
  predicate Holds(text: string, c: Contents) {
    Tokens(text).Some? && Complete(Tokens(text).value) && ContentsOf(Tokens(text).value) == c
  }

  /** Text put before a rest tokenizes exactly if the rest does, and adds these contents to it. */
  ghost predicate Adds(text: string, rest: string, c: Contents) {
    && (Tokens(text + rest).Some? <==> Tokens(rest).Some?)
    && (Tokens(rest).Some? ==>
      var ts, after := Tokens(text + rest).value, Tokens(rest).value;
      ContentsOf(ts) == Plus(c, ContentsOf(after)) && (Complete(after) ==> Complete(ts)))
  }

  /** The text tokenizes, and these are its string literals and its hexadecimal literals in order. */
  predicate Reads(text: string, texts: seq<string>, hexes: seq<string>) {
    Tokens(text).Some? && ContentsOf(Tokens(text).value).texts == texts && ContentsOf(Tokens(text).value).hexes == hexes
  }

  /** What text adds can be taken away from what is read. */
  lemma Peel(text: string, rest: string, c: Contents, texts: seq<string>, hexes: seq<string>)
    requires Adds(text, rest, c) && Reads(text + rest, c.texts + texts, c.hexes + hexes)
    ensures Reads(rest, texts, hexes)
  {
    hide Tokens, ContentsOf, Complete;
    var d := ContentsOf(Tokens(rest).value);
    assert (c.texts + d.texts)[|c.texts|..] == d.texts && (c.texts + texts)[|c.texts|..] == texts;
    assert (c.hexes + d.hexes)[|c.hexes|..] == d.hexes && (c.hexes + hexes)[|c.hexes|..] == hexes;
  }

  /** If a value that stands between quotes as it is is the first literal read, it holds no quote and no backslash. */
  lemma FirstIsPlain(v: string, rest: string, texts: seq<string>, hexes: seq<string>)
    requires rest != "" && IsPlain(rest[0]) && Reads("'" + v + "'" + rest, [v] + texts, hexes)
    ensures Plain(v)
  {
    var s := "'" + v + "'" + rest;
    assert s[1..] == v + "'" + rest;
    OnlyPlainReadsAsItself(v, rest);
    hide Literal, Plain;
    var (w, after) := Literal(s[1..]).value;
    var ts := Tokens(after).value;
    assert Tokens(s).value == [Text(w)] + ts;
    assert ([Text(w)] + ts)[1..] == ts;
    assert ContentsOf([Text(w)] + ts).texts[0] == w;
  }

  /** If what stands behind `0x` is the first hexadecimal literal read, it is hexadecimal digits. */
  lemma FirstIsHex(digits: string, rest: string, texts: seq<string>, hexes: seq<string>)
    requires Reads("0x" + digits + rest, texts, [digits] + hexes)
    ensures forall c :: c in digits ==> IsHexDigit(c)
  {
    var s := "0x" + digits + rest;
    var n := HexRun(s[2..]);
    HexRunIsHex(s[2..]);
    hide HexRun, IsHexDigit;
    var ts := Tokens(s[n + 2..]).value;
    assert Tokens(s).value == [Hex(s[2..n + 2])] + ts;
    assert ([Hex(s[2..n + 2])] + ts)[1..] == ts;
    assert ContentsOf([Hex(s[2..n + 2])] + ts).hexes[0] == s[2..n + 2];
    assert s[2..n + 2] == s[2..][..n];
  }

  lemma {:induction false} HexRunIsHex(s: string)
    ensures forall c :: c in s[..HexRun(s)] ==> IsHexDigit(c)
  {
    if s != "" && IsHexDigit(s[0]) {
      HexRunIsHex(s[1..]);
      assert s[..HexRun(s)] == [s[0]] + s[1..][..HexRun(s[1..])];
    }
  }

  lemma AddsJoin(a: string, b: string, rest: string, c: Contents, d: Contents)
    requires Adds(a, b + rest, c) && Adds(b, rest, d)
    ensures Adds(a + b, rest, Plus(c, d))
  {
    hide Tokens, ContentsOf, Complete;
    assert a + b + rest == a + (b + rest);
    if Tokens(rest).Some? {
      PlusJoins(c, d, ContentsOf(Tokens(rest).value));
    }
  }

  lemma AddsJoin4(p: string, q: string, r: string, s: string, rest: string,
                  c: Contents, d: Contents, e: Contents, f: Contents)
    requires Adds(p, q + (r + (s + rest)), c) && Adds(q, r + (s + rest), d) && Adds(r, s + rest, e) && Adds(s, rest, f)
    ensures Adds(p + q + r + s, rest, Plus(Plus(Plus(c, d), e), f))
  {
    hide Adds, Plus;
    AddsJoin(p, q, r + (s + rest), c, d);
    AddsJoin(p + q, r, s + rest, Plus(c, d), e);
    AddsJoin(p + q + r, s, rest, Plus(Plus(c, d), e), f);
  }

  lemma CodeAdds(text: string, rest: string)
    requires AllInert(text)
    ensures Adds(text, rest, NOTHING)
  {
    hide Tokens, Chars, AllInert, ContentsOf;
    CodeTokenizes(text, rest);
    if Tokens(rest).Some? {
      CharsHoldNothing(text);
      ContentsJoin(Chars(text), Tokens(rest).value);
    }
  }

  lemma ValueAdds(v: string, rest: string)
    requires rest != "" && rest[0] != '\''
    ensures Adds("'" + Escaped(v) + "'", rest, OfToken(Text(v)))
  {
    hide Tokens, Escaped;
    ValueTokenizes(v, rest);
  }

  lemma NameAdds(name: string, rest: string)
    requires '"' !in name
    ensures Adds("\"" + name + "\"", rest, NOTHING)
  {
    hide Tokens;
    NameTokenizes(name, rest);
  }

  lemma HexAdds(digits: string, rest: string)
    requires (forall c :: c in digits ==> IsHexDigit(c)) && rest != "" && !IsHexDigit(rest[0])
    ensures Adds("0x" + digits, rest, OfToken(Hex(digits)))
  {
    hide Tokens;
    HexTokenizes(digits, rest);
  }

  lemma EndAdds(rest: string)
    ensures Adds(";", rest, OfToken(Semicolon))
    ensures Tokens(rest).Some? && (rest == "" || Complete(Tokens(rest).value)) ==> Complete(Tokens(";" + rest).value)
  {
    EndTokenizes(rest);
  }
}

module SqlBuilder {
  import opened Results
  import opened StringEscapeUtil
  import opened HexUtil
  import opened SqlText

  datatype Error = ArgumentNull

  function InQuotes(s: string): string {
    "'" + s + "'"
  }

  const INTO_EVENTS := "\nINSERT INTO multi_event("
  const COLUMNS := "id, source, plate, extra_data, "
  const IMAGE_COLUMNS := "front_plate_image, rear_plate_image) "
  const VALUES := "\n\tVALUES("
  const ARRAY := "\n\tarray("
  const INTO := "\nINSERT INTO "
  const ATTACHMENTS := "multi_event-@attachment"
  const ATTACHMENT_COLUMNS := " (id, meta, data) "
  const META := "{\"contentType\":\"image/png\"}"

  function EventText(eventId: string, sourceId: string, plate: string, escapedExtraData: string): string {
    INTO_EVENTS + COLUMNS + IMAGE_COLUMNS + VALUES + (InQuotes(eventId) + ", ") + (InQuotes(sourceId) + ", ")
    + (InQuotes(plate) + ", ") + (InQuotes(escapedExtraData) + ", ")
  }

  function ImagesText(frontImageId: string, rearImageId: string): string {
    ARRAY + (InQuotes(frontImageId) + "), array(") + (InQuotes(rearImageId) + "))") + ";"
  }

  function AttachmentText(imageId: string, imageIdHex: string): string {
    AttachmentBody(imageId, imageIdHex) + ";"
  }

  function AttachmentBody(imageId: string, imageIdHex: string): string {
    INTO + ("\"" + ATTACHMENTS + "\"") + ATTACHMENT_COLUMNS + VALUES
    + (InQuotes(imageId) + ", ") + (InQuotes(META) + ", ") + ("0x" + imageIdHex) + ")"
  }

  function BuildInsertWithAttachments(eventId: Option<string>, sourceId: Option<string>, plate: Option<string>,
                                      escapedExtraData: Option<string>,
                                      frontImageId: Option<string>, frontImageIdHex: Option<string>,
                                      rearImageId: Option<string>, rearImageIdHex: Option<string>)
    : Result<string, Error>
  {
    if eventId.None? || sourceId.None? || plate.None? || escapedExtraData.None? || frontImageId.None?
       || frontImageIdHex.None? || rearImageId.None? || rearImageIdHex.None?
    then Err(Error.ArgumentNull)
    else Ok(
      EventText(eventId.value, sourceId.value, plate.value, escapedExtraData.value)
      + ImagesText(frontImageId.value, rearImageId.value)
      + AttachmentText(frontImageId.value, frontImageIdHex.value)
      + AttachmentText(rearImageId.value, rearImageIdHex.value))
  }

  // What the text means.

  lemma TextIsInert()
    ensures AllInert(INTO_EVENTS) && AllInert(INTO) && AllInert(VALUES) && AllInert(ATTACHMENT_COLUMNS)
    ensures AllInert(ARRAY) && AllInert("), array(") && AllInert("))") && AllInert(")") && AllInert(", ")
    ensures '"' !in ATTACHMENTS
  {
  }

  lemma ColumnsAreInert()
    ensures AllInert(COLUMNS)
  {
  }

  lemma ImageColumnsAreInert()
    ensures AllInert(IMAGE_COLUMNS)
  {
  }

  lemma MetaIsPlain()
    ensures Plain(META)
  {
  }

  /** A value between quotes, escaped or in no need of it, with code behind it. */
  lemma QuotedAdds(text: string, v: string, code: string, rest: string)
    requires text == Escaped(v) && AllInert(code) && code != ""
    ensures Adds(InQuotes(text) + code, rest, OfToken(Text(v)))
  {
    hide Escaped, Adds;
    assert code[0] in code;
    assert (code + rest)[0] == code[0];
    CodeAdds(code, rest);
    ValueAdds(v, code + rest);
    AddsJoin(InQuotes(text), code, rest, OfToken(Text(v)), NOTHING);
    PlusNothing(OfToken(Text(v)));
  }

  lemma PlainAdds(v: string, code: string, rest: string)
    requires Plain(v) && AllInert(code) && code != ""
    ensures Adds(InQuotes(v) + code, rest, OfToken(Text(v)))
  {
    PlainIsEscaped(v);
    QuotedAdds(v, v, code, rest);
  }

  lemma EventCodeAdds(rest: string)
    ensures Adds(INTO_EVENTS + COLUMNS + IMAGE_COLUMNS + VALUES, rest, NOTHING)
  {
    hide Adds, AllInert;
    TextIsInert();
    ColumnsAreInert();
    ImageColumnsAreInert();
    PlusNothing(NOTHING);
    CodeAdds(VALUES, rest);
    CodeAdds(IMAGE_COLUMNS, VALUES + rest);
    CodeAdds(COLUMNS, IMAGE_COLUMNS + (VALUES + rest));
    CodeAdds(INTO_EVENTS, COLUMNS + (IMAGE_COLUMNS + (VALUES + rest)));
    AddsJoin4(INTO_EVENTS, COLUMNS, IMAGE_COLUMNS, VALUES, rest, NOTHING, NOTHING, NOTHING, NOTHING);
  }

  lemma EventAdds(eventId: string, sourceId: string, plate: string, extraData: string, rest: string)
    requires Plain(eventId) && Plain(sourceId) && Plain(plate)
    ensures Adds(EventText(eventId, sourceId, plate, Escaped(extraData)), rest,
                 Contents(0, [eventId, sourceId, plate, extraData], []))
  {
    hide Adds, Escaped, AllInert, Plain, InQuotes;
    TextIsInert();
    var code := INTO_EVENTS + COLUMNS + IMAGE_COLUMNS + VALUES;
    var p, q, r := InQuotes(eventId) + ", ", InQuotes(sourceId) + ", ", InQuotes(plate) + ", ";
    var s := InQuotes(Escaped(extraData)) + ", ";
    QuotedAdds(Escaped(extraData), extraData, ", ", rest);
    PlainAdds(plate, ", ", s + rest);
    PlainAdds(sourceId, ", ", r + (s + rest));
    PlainAdds(eventId, ", ", q + (r + (s + rest)));
    EventCodeAdds(p + (q + (r + (s + rest))));
    var c, d, e := OfToken(Text(eventId)), OfToken(Text(sourceId)), OfToken(Text(plate));
    var f := OfToken(Text(extraData));
    AddsJoin4(code, p, q, r, s + rest, NOTHING, c, d, e);
    AddsJoin(code + p + q + r, s, rest, Plus(Plus(Plus(NOTHING, c), d), e), f);
    assert Plus(Plus(Plus(Plus(NOTHING, c), d), e), f) == Contents(0, [eventId, sourceId, plate, extraData], []);
  }

  lemma ImagesAdd(frontImageId: string, rearImageId: string, rest: string)
    requires Plain(frontImageId) && Plain(rearImageId)
    ensures Adds(ImagesText(frontImageId, rearImageId), rest, Contents(1, [frontImageId, rearImageId], []))
  {
    hide Adds, AllInert, Plain, InQuotes;
    TextIsInert();
    var front, rear := InQuotes(frontImageId) + "), array(", InQuotes(rearImageId) + "))";
    EndAdds(rest);
    PlainAdds(rearImageId, "))", ";" + rest);
    PlainAdds(frontImageId, "), array(", rear + (";" + rest));
    CodeAdds(ARRAY, front + (rear + (";" + rest)));
    var c, d, e := OfToken(Text(frontImageId)), OfToken(Text(rearImageId)), OfToken(Semicolon);
    AddsJoin4(ARRAY, front, rear, ";", rest, NOTHING, c, d, e);
    assert Plus(Plus(Plus(NOTHING, c), d), e) == Contents(1, [frontImageId, rearImageId], []);
  }

  lemma AttachmentAdds(imageId: string, imageIdHex: string, rest: string)
    requires Plain(imageId) && forall c :: c in imageIdHex ==> IsHexDigit(c)
    ensures Adds(AttachmentText(imageId, imageIdHex), rest, Contents(1, [imageId, META], [imageIdHex]))
    ensures Tokens(rest).Some? && (rest == "" || Complete(Tokens(rest).value)) ==>
              Tokens(AttachmentText(imageId, imageIdHex) + rest).Some?
              && Complete(Tokens(AttachmentText(imageId, imageIdHex) + rest).value)
  {
    hide Tokens, AttachmentBody, Complete, ContentsOf;
    var body, e := AttachmentBody(imageId, imageIdHex), Contents(0, [imageId, META], [imageIdHex]);
    EndAdds(rest);
    BodyAdds(imageId, imageIdHex, ";" + rest);
    AddsJoin(body, ";", rest, e, OfToken(Semicolon));
    assert Plus(e, OfToken(Semicolon)).texts == e.texts && Plus(e, OfToken(Semicolon)).hexes == e.hexes;
    assert body + ";" + rest == body + (";" + rest);
  }

  lemma AttachmentCodeAdds(rest: string)
    ensures Adds(INTO + ("\"" + ATTACHMENTS + "\"") + ATTACHMENT_COLUMNS + VALUES, rest, NOTHING)
  {
    hide Adds, AllInert;
    TextIsInert();
    PlusNothing(NOTHING);
    var name := "\"" + ATTACHMENTS + "\"";
    CodeAdds(VALUES, rest);
    CodeAdds(ATTACHMENT_COLUMNS, VALUES + rest);
    NameAdds(ATTACHMENTS, ATTACHMENT_COLUMNS + (VALUES + rest));
    CodeAdds(INTO, name + (ATTACHMENT_COLUMNS + (VALUES + rest)));
    AddsJoin4(INTO, name, ATTACHMENT_COLUMNS, VALUES, rest, NOTHING, NOTHING, NOTHING, NOTHING);
  }

  lemma BodyAdds(imageId: string, imageIdHex: string, rest: string)
    requires Plain(imageId) && forall c :: c in imageIdHex ==> IsHexDigit(c)
    ensures Adds(AttachmentBody(imageId, imageIdHex), rest, Contents(0, [imageId, META], [imageIdHex]))
  {
    hide Adds, AllInert, InQuotes, Plain;
    TextIsInert();
    MetaIsPlain();
    var code := INTO + ("\"" + ATTACHMENTS + "\"") + ATTACHMENT_COLUMNS + VALUES;
    var id, meta, hex := InQuotes(imageId) + ", ", InQuotes(META) + ", ", "0x" + imageIdHex;
    CodeAdds(")", rest);
    assert (")" + rest)[0] == ')';
    HexAdds(imageIdHex, ")" + rest);
    PlainAdds(META, ", ", hex + (")" + rest));
    PlainAdds(imageId, ", ", meta + (hex + (")" + rest)));
    AttachmentCodeAdds(id + (meta + (hex + (")" + rest))));
    var c, d, e := OfToken(Text(imageId)), OfToken(Text(META)), OfToken(Hex(imageIdHex));
    AddsJoin4(code, id, meta, hex, ")" + rest, NOTHING, c, d, e);
    AddsJoin(code + id + meta + hex, ")", rest, Plus(Plus(Plus(NOTHING, c), d), e), NOTHING);
    assert Plus(Plus(Plus(Plus(NOTHING, c), d), e), NOTHING) == Contents(0, [imageId, META], [imageIdHex]);
  }

  /** The contents of an event, its array of images and its two attachments. */
  lemma LiteralsInOrder(event: string, source: string, plate: string, data: string, front: string, rear: string,
                        meta: string, frontHex: string, rearHex: string)
    ensures Plus(Plus(Plus(Contents(0, [event, source, plate, data], []), Contents(1, [front, rear], [])),
                      Contents(1, [front, meta], [frontHex])), Contents(1, [rear, meta], [rearHex]))
            == Contents(3, [event, source, plate, data, front, rear, front, meta, rear, meta], [frontHex, rearHex])
  {
  }

  // What the text is read as tells what was put into it.

  lemma ValuePeels(v: string, code: string, rest: string, texts: seq<string>, hexes: seq<string>)
    requires AllInert(code) && code != "" && Reads(InQuotes(v) + code + rest, [v] + texts, hexes)
    ensures Plain(v) && Reads(rest, texts, hexes)
  {
    assert Inert(code[0]) by {
      assert code[0] in code;
    }
    assert InQuotes(v) + code + rest == "'" + v + "'" + (code + rest);
    hide Reads, Plain, AllInert, Adds;
    FirstIsPlain(v, code + rest, texts, hexes);
    PlainAdds(v, code, rest);
    assert [] + hexes == hexes;
    Peel(InQuotes(v) + code, rest, OfToken(Text(v)), texts, hexes);
  }

  lemma CodePeels(code: string, rest: string, texts: seq<string>, hexes: seq<string>)
    requires Adds(code, rest, NOTHING) && Reads(code + rest, texts, hexes)
    ensures Reads(rest, texts, hexes)
  {
    hide Reads, Adds;
    assert [] + texts == texts && [] + hexes == hexes;
    Peel(code, rest, NOTHING, texts, hexes);
  }

  lemma EventPeels(eventId: string, sourceId: string, plate: string, extraData: string, rest: string,
                   texts: seq<string>, hexes: seq<string>)
    requires Reads(EventText(eventId, sourceId, plate, Escaped(extraData)) + rest,
                   [eventId, sourceId, plate, extraData] + texts, hexes)
    ensures Plain(eventId) && Plain(sourceId) && Plain(plate) && Reads(rest, texts, hexes)
  {
    var code := INTO_EVENTS + COLUMNS + IMAGE_COLUMNS + VALUES;
    var p, q, r := InQuotes(eventId) + ", ", InQuotes(sourceId) + ", ", InQuotes(plate) + ", ";
    var s := InQuotes(Escaped(extraData)) + ", ";
    var all := EventText(eventId, sourceId, plate, Escaped(extraData)) + rest;
    assert all == code + (p + (q + (r + (s + rest))));
    TextIsInert();
    hide Reads, Adds, AllInert, Plain, InQuotes, Escaped, EventText;
    EventCodeAdds(p + (q + (r + (s + rest))));
    var three, two, one := [sourceId, plate, extraData] + texts, [plate, extraData] + texts, [extraData] + texts;
    assert [eventId, sourceId, plate, extraData] + texts == [eventId] + three;
    assert three == [sourceId] + two && two == [plate] + one;
    CodePeels(code, p + (q + (r + (s + rest))), [eventId] + three, hexes);
    ValuePeels(eventId, ", ", q + (r + (s + rest)), three, hexes);
    ValuePeels(sourceId, ", ", r + (s + rest), two, hexes);
    ValuePeels(plate, ", ", s + rest, one, hexes);
    QuotedAdds(Escaped(extraData), extraData, ", ", rest);
    assert [] + hexes == hexes;
    Peel(s, rest, OfToken(Text(extraData)), texts, hexes);
  }

  lemma ImagesPeel(frontImageId: string, rearImageId: string, rest: string, texts: seq<string>, hexes: seq<string>)
    requires Reads(ImagesText(frontImageId, rearImageId) + rest, [frontImageId, rearImageId] + texts, hexes)
    ensures Plain(frontImageId) && Plain(rearImageId) && Reads(rest, texts, hexes)
  {
    var front, rear := InQuotes(frontImageId) + "), array(", InQuotes(rearImageId) + "))";
    assert ImagesText(frontImageId, rearImageId) + rest == ARRAY + (front + (rear + (";" + rest)));
    TextIsInert();
    hide Reads, Adds, AllInert, Plain, InQuotes, ImagesText;
    CodeAdds(ARRAY, front + (rear + (";" + rest)));
    assert [frontImageId, rearImageId] + texts == [frontImageId] + ([rearImageId] + texts);
    CodePeels(ARRAY, front + (rear + (";" + rest)), [frontImageId] + ([rearImageId] + texts), hexes);
    ValuePeels(frontImageId, "), array(", rear + (";" + rest), [rearImageId] + texts, hexes);
    ValuePeels(rearImageId, "))", ";" + rest, texts, hexes);
    EndAdds(rest);
    assert [] + texts == texts && [] + hexes == hexes;
    Peel(";", rest, OfToken(Semicolon), texts, hexes);
  }

  lemma AttachmentPeels(imageId: string, imageIdHex: string, rest: string, texts: seq<string>, hexes: seq<string>)
    requires Plain(imageId)
    requires Reads(AttachmentText(imageId, imageIdHex) + rest, [imageId, META] + texts, [imageIdHex] + hexes)
    ensures (forall c :: c in imageIdHex ==> IsHexDigit(c)) && Reads(rest, texts, hexes)
  {
    var code := INTO + ("\"" + ATTACHMENTS + "\"") + ATTACHMENT_COLUMNS + VALUES;
    var id, meta, hex := InQuotes(imageId) + ", ", InQuotes(META) + ", ", "0x" + imageIdHex;
    var behind := ")" + (";" + rest);
    assert AttachmentText(imageId, imageIdHex) + rest == code + (id + (meta + (hex + behind)));
    TextIsInert();
    hide Reads, Adds, AllInert, Plain, InQuotes, AttachmentBody, AttachmentText, IsHexDigit;
    AttachmentCodeAdds(id + (meta + (hex + behind)));
    assert [imageId, META] + texts == [imageId] + ([META] + texts);
    CodePeels(code, id + (meta + (hex + behind)), [imageId] + ([META] + texts), [imageIdHex] + hexes);
    ValuePeels(imageId, ", ", meta + (hex + behind), [META] + texts, [imageIdHex] + hexes);
    ValuePeels(META, ", ", hex + behind, texts, [imageIdHex] + hexes);
    FirstIsHex(imageIdHex, behind, texts, hexes);
    AttachmentAdds(imageId, imageIdHex, rest);
    Peel(AttachmentText(imageId, imageIdHex), rest, Contents(1, [imageId, META], [imageIdHex]), texts, hexes);
  }

  lemma PlainBlockHolds(eventId: string, sourceId: string, plate: string, extraData: string,
                        frontImageId: string, frontImageIdHex: string,
                        rearImageId: string, rearImageIdHex: string)
    requires Plain(eventId) && Plain(sourceId) && Plain(plate) && Plain(frontImageId) && Plain(rearImageId)
    requires forall c :: c in frontImageIdHex ==> IsHexDigit(c)
    requires forall c :: c in rearImageIdHex ==> IsHexDigit(c)
    ensures
      Holds(EventText(eventId, sourceId, plate, Escaped(extraData)) + ImagesText(frontImageId, rearImageId)
            + AttachmentText(frontImageId, frontImageIdHex) + AttachmentText(rearImageId, rearImageIdHex),
            Arguments(eventId, sourceId, plate, extraData, frontImageId, frontImageIdHex, rearImageId, rearImageIdHex))
  {
    var event := EventText(eventId, sourceId, plate, Escaped(extraData));
    var images := ImagesText(frontImageId, rearImageId);
    var front, rear := AttachmentText(frontImageId, frontImageIdHex), AttachmentText(rearImageId, rearImageIdHex);
    var a, b := Contents(0, [eventId, sourceId, plate, extraData], []), Contents(1, [frontImageId, rearImageId], []);
    var c := Contents(1, [frontImageId, META], [frontImageIdHex]);
    var d := Contents(1, [rearImageId, META], [rearImageIdHex]);
    hide Tokens, Escaped, EventText, ImagesText, AttachmentText, Plain, IsHexDigit, Complete, Plus;
    LastHolds(rearImageId, rearImageIdHex);
    hide Adds, Holds;
    AttachmentAdds(frontImageId, frontImageIdHex, rear);
    ImagesAdd(frontImageId, rearImageId, front + rear);
    EventAdds(eventId, sourceId, plate, extraData, images + (front + rear));
    AddsJoin(event, images, front + rear, a, b);
    AddsJoin(event + images, front, rear, Plus(a, b), c);
    AddsHolds(event + images + front, rear, Plus(Plus(a, b), c), d);
    LiteralsInOrder(eventId, sourceId, plate, extraData, frontImageId, rearImageId, META,
                    frontImageIdHex, rearImageIdHex);
  }

  lemma HoldingBlockIsPlain(eventId: string, sourceId: string, plate: string, extraData: string,
                            frontImageId: string, frontImageIdHex: string,
                            rearImageId: string, rearImageIdHex: string)
    requires
      Reads(EventText(eventId, sourceId, plate, Escaped(extraData)) + ImagesText(frontImageId, rearImageId)
            + AttachmentText(frontImageId, frontImageIdHex) + AttachmentText(rearImageId, rearImageIdHex),
            [eventId, sourceId, plate, extraData, frontImageId, rearImageId, frontImageId, META, rearImageId, META],
            [frontImageIdHex, rearImageIdHex])
    ensures Plain(eventId) && Plain(sourceId) && Plain(plate) && Plain(frontImageId) && Plain(rearImageId)
    ensures forall c :: c in frontImageIdHex ==> IsHexDigit(c)
    ensures forall c :: c in rearImageIdHex ==> IsHexDigit(c)
  {
    var event := EventText(eventId, sourceId, plate, Escaped(extraData));
    var images := ImagesText(frontImageId, rearImageId);
    var front, rear := AttachmentText(frontImageId, frontImageIdHex), AttachmentText(rearImageId, rearImageIdHex);
    var one := [rearImageId, META];
    var two, three := [frontImageId, META] + one, [frontImageId, rearImageId] + ([frontImageId, META] + one);
    hide Reads, EventText, ImagesText, AttachmentText, Escaped, Plain, IsHexDigit;
    assert event + images + front + rear == event + (images + (front + (rear + "")));
    assert [eventId, sourceId, plate, extraData, frontImageId, rearImageId, frontImageId, META, rearImageId, META]
        == [eventId, sourceId, plate, extraData] + three;
    assert [frontImageIdHex, rearImageIdHex] == [frontImageIdHex] + [rearImageIdHex];
    EventPeels(eventId, sourceId, plate, extraData, images + (front + (rear + "")),
               three, [frontImageIdHex] + [rearImageIdHex]);
    ImagesPeel(frontImageId, rearImageId, front + (rear + ""), two, [frontImageIdHex] + [rearImageIdHex]);
    AttachmentPeels(frontImageId, frontImageIdHex, rear + "", one, [rearImageIdHex]);
    assert one == one + [] && [rearImageIdHex] == [rearImageIdHex] + [];
    AttachmentPeels(rearImageId, rearImageIdHex, "", [], []);
  }

  /** The contents that a block should have: three statements, with the arguments as their literals. */
  function Arguments(eventId: string, sourceId: string, plate: string, extraData: string,
                     frontImageId: string, frontImageIdHex: string,
                     rearImageId: string, rearImageIdHex: string): Contents {
    Contents(
      3,
      [eventId, sourceId, plate, extraData, frontImageId, rearImageId, frontImageId, META, rearImageId, META],
      [frontImageIdHex, rearImageIdHex])
  }

  /**
   For all arguments the block is three complete statements whose string and hexadecimal literals are exactly the
   arguments, with the extra data as it was before it was escaped, if and only if none of the five values that are put
   between quotes as they are holds a quote or a backslash and the two put behind `0x` are hexadecimal digits.
   */
  lemma BlockHasThreeStatements(eventId: string, sourceId: string, plate: string, extraData: string,
                                frontImageId: string, frontImageIdHex: string,
                                rearImageId: string, rearImageIdHex: string)
    ensures
      var block := BuildInsertWithAttachments(Some(eventId), Some(sourceId), Some(plate), Escape(Some(extraData)),
                                              Some(frontImageId), Some(frontImageIdHex),
                                              Some(rearImageId), Some(rearImageIdHex));
      && block.Ok?
      && (Holds(block.value, Arguments(eventId, sourceId, plate, extraData, frontImageId, frontImageIdHex,
                                       rearImageId, rearImageIdHex))
          <==>
            && Plain(eventId) && Plain(sourceId) && Plain(plate) && Plain(frontImageId) && Plain(rearImageId)
            && (forall c :: c in frontImageIdHex ==> IsHexDigit(c))
            && (forall c :: c in rearImageIdHex ==> IsHexDigit(c)))
  {
    var text := EventText(eventId, sourceId, plate, Escaped(extraData)) + ImagesText(frontImageId, rearImageId)
      + AttachmentText(frontImageId, frontImageIdHex) + AttachmentText(rearImageId, rearImageIdHex);
    var c := Arguments(eventId, sourceId, plate, extraData, frontImageId, frontImageIdHex, rearImageId, rearImageIdHex);
    hide Tokens, Complete, ContentsOf, Escaped, EventText, ImagesText, AttachmentText, Plain, IsHexDigit;
    if Holds(text, c) {
      HoldingBlockIsPlain(eventId, sourceId, plate, extraData, frontImageId, frontImageIdHex,
                          rearImageId, rearImageIdHex);
    } else if && Plain(eventId) && Plain(sourceId) && Plain(plate) && Plain(frontImageId) && Plain(rearImageId)
              && (forall c :: c in frontImageIdHex ==> IsHexDigit(c))
              && (forall c :: c in rearImageIdHex ==> IsHexDigit(c)) {
      PlainBlockHolds(eventId, sourceId, plate, extraData, frontImageId, frontImageIdHex, rearImageId, rearImageIdHex);
    }
  }

  lemma LastHolds(imageId: string, imageIdHex: string)
    requires Plain(imageId) && forall c :: c in imageIdHex ==> IsHexDigit(c)
    ensures Holds(AttachmentText(imageId, imageIdHex), Contents(1, [imageId, META], [imageIdHex]))
  {
    var text, c := AttachmentText(imageId, imageIdHex), Contents(1, [imageId, META], [imageIdHex]);
    assert Tokens("") == Some([]) && text + "" == text;
    hide Tokens, AttachmentText, Complete, Plain, Plus;
    AttachmentAdds(imageId, imageIdHex, "");
    PlusNothing(c);
  }

  lemma AddsHolds(text: string, rest: string, c: Contents, d: Contents)
    requires Adds(text, rest, c) && Holds(rest, d)
    ensures Holds(text + rest, Plus(c, d))
  {
    hide Tokens, ContentsOf, Complete, Plus;
  }
}
