/**
 What the statements of a block say: a reader of INSERT statements that knows nothing of who wrote them, and what it
 finds in the block, column by column.
 */
module SqlInserts {
  import opened Results
  import opened StringEscapeUtil
  import opened HexUtil
  import opened SqlText

  /** A word, a mark, or a token that is more than a character. */
  datatype Lexeme = Word(text: string) | Mark(c: char) | Item(token: Token)

  predicate IsWordChar(c: char) {
    'a' <= c <= 'z' || 'A' <= c <= 'Z' || '0' <= c <= '9' || c == '_'
  }

  predicate IsSpace(c: char) {
    c == ' ' || c == '\n' || c == '\t'
  }

  predicate IsLetter(t: Token) {
    t.Char? && IsWordChar(t.c)
  }

  /** The text of the letters that the tokens begin with. */
  function Letters(ts: seq<Token>): (w: string)
    ensures |w| <= |ts|
  {
    if ts == [] || !IsLetter(ts[0]) then "" else [ts[0].c] + Letters(ts[1..])
  }

  function Lexemes(ts: seq<Token>): seq<Lexeme>
    decreases |ts|
  {
    if ts == [] then []
    else if !ts[0].Char? then [Item(ts[0])] + Lexemes(ts[1..])
    else if IsSpace(ts[0].c) then Lexemes(ts[1..])
    else if IsWordChar(ts[0].c) then [Word(Letters(ts))] + Lexemes(ts[|Letters(ts)|..])
    else [Mark(ts[0].c)] + Lexemes(ts[1..])
  }

  /** What is stored in a column: a string, bytes in hexadecimal, or an array of one string. */
  datatype Value = TextValue(text: string) | HexValue(digits: string) | ArrayOf(text: string)

  /** An INSERT statement: the table, and what it gives to each column. */
  datatype Insert = Insert(table: string, cells: seq<(string, Value)>)

  /** Column names separated by commas, up to a closing parenthesis. */
  function Columns(ls: seq<Lexeme>): (r: Option<(seq<string>, seq<Lexeme>)>)
    ensures r.Some? ==> |r.value.1| < |ls|
    decreases |ls|
  {
    if |ls| < 2 || !ls[0].Word? then None
    else if ls[1] == Mark(')') then Some(([ls[0].text], ls[2..]))
    else if ls[1] == Mark(',') then
      var r := Columns(ls[2..]);
      if r.None? then None else Some(([ls[0].text] + r.value.0, r.value.1))
    else None
  }

  function OneValue(ls: seq<Lexeme>): (r: Option<(Value, seq<Lexeme>)>)
    ensures r.Some? ==> |r.value.1| < |ls|
  {
    if ls == [] then None
    else if ls[0].Item? && ls[0].token.Text? then Some((TextValue(ls[0].token.value), ls[1..]))
    else if ls[0].Item? && ls[0].token.Hex? then Some((HexValue(ls[0].token.digits), ls[1..]))
    else if |ls| >= 4 && ls[0] == Word("array") && ls[1] == Mark('(') && ls[2].Item? && ls[2].token.Text?
            && ls[3] == Mark(')')
    then Some((ArrayOf(ls[2].token.value), ls[4..]))
    else None
  }

  /** Values separated by commas, up to a closing parenthesis. */
  function Values(ls: seq<Lexeme>): (r: Option<(seq<Value>, seq<Lexeme>)>)
    ensures r.Some? ==> |r.value.1| < |ls|
    decreases |ls|
  {
    var first := OneValue(ls);
    if first.None? || first.value.1 == [] then None
    else
      var (v, rest) := first.value;
      if rest[0] == Mark(')') then Some(([v], rest[1..]))
      else if rest[0] == Mark(',') then
        var r := Values(rest[1..]);
        if r.None? then None else Some(([v] + r.value.0, r.value.1))
      else None
  }

  /** The name of a table, as a word or between double quotes. */
  function TableName(l: Lexeme): Option<string> {
    if l.Word? then Some(l.text) else if l.Item? && l.token.Name? then Some(l.token.value) else None
  }

  function Cells(names: seq<string>, vs: seq<Value>): (cells: seq<(string, Value)>)
    requires |names| == |vs|
  {
    seq(|names|, i requires 0 <= i < |names| => (names[i], vs[i]))
  }

  /** One statement, with as many values as columns. */
  function Statement(ls: seq<Lexeme>): (r: Option<(Insert, seq<Lexeme>)>)
    ensures r.Some? ==> |r.value.1| < |ls|
  {
    if |ls| < 4 || ls[0] != Word("INSERT") || ls[1] != Word("INTO") || TableName(ls[2]).None? || ls[3] != Mark('(')
    then None
    else
      var columns := Columns(ls[4..]);
      if columns.None? then None
      else
        var (names, after) := columns.value;
        if |after| < 2 || after[0] != Word("VALUES") || after[1] != Mark('(') then None
        else
          var values := Values(after[2..]);
          if values.None? then None
          else
            var (vs, end) := values.value;
            if end == [] || end[0] != Item(Semicolon) || |vs| != |names| then None
            else Some((Insert(TableName(ls[2]).value, Cells(names, vs)), end[1..]))
  }

  function Statements(ls: seq<Lexeme>): Option<seq<Insert>>
    decreases |ls|
  {
    if ls == [] then Some([])
    else
      var first := Statement(ls);
      if first.None? then None
      else
        var others := Statements(first.value.1);
        if others.None? then None else Some([first.value.0] + others.value)
  }

  /** The INSERT statements that the text consists of. */
  function Inserts(text: string): Option<seq<Insert>> {
    if Tokens(text).None? then None else Statements(Lexemes(Tokens(text).value))
  }

  // Reading what has been listed.

  function ColumnList(names: seq<string>): seq<Lexeme>
    requires names != []
  {
    if |names| == 1 then [Word(names[0]), Mark(')')]
    else [Word(names[0]), Mark(',')] + ColumnList(names[1..])
  }

  function ValueItem(v: Value): seq<Lexeme> {
    match v
    case TextValue(text) => [Item(Text(text))]
    case HexValue(digits) => [Item(Hex(digits))]
    case ArrayOf(text) => [Word("array"), Mark('('), Item(Text(text)), Mark(')')]
  }

  function ValueList(vs: seq<Value>): seq<Lexeme>
    requires vs != []
  {
    if |vs| == 1 then ValueItem(vs[0]) + [Mark(')')] else ValueItem(vs[0]) + [Mark(',')] + ValueList(vs[1..])
  }

  function StatementList(table: Lexeme, names: seq<string>, vs: seq<Value>): seq<Lexeme>
    requires names != [] && vs != []
  {
    [Word("INSERT"), Word("INTO"), table, Mark('(')] + ColumnList(names)
    + [Word("VALUES"), Mark('(')] + ValueList(vs) + [Item(Semicolon)]
  }

  lemma {:induction false} ColumnsBack(names: seq<string>, rest: seq<Lexeme>)
    requires names != []
    ensures Columns(ColumnList(names) + rest) == Some((names, rest))
  {
    var ls := ColumnList(names) + rest;
    if |names| == 1 {
      assert ls[2..] == rest && names == [names[0]];
    } else {
      assert ls[2..] == ColumnList(names[1..]) + rest;
      ColumnsBack(names[1..], rest);
      assert names == [names[0]] + names[1..];
    }
  }

  lemma ValueBack(v: Value, rest: seq<Lexeme>)
    ensures OneValue(ValueItem(v) + rest) == Some((v, rest))
  {
    assert (ValueItem(v) + rest)[|ValueItem(v)|..] == rest;
  }

  /** What follows the first value of a list. */
  function BehindFirst(vs: seq<Value>, rest: seq<Lexeme>): seq<Lexeme>
    requires vs != []
  {
    if |vs| == 1 then [Mark(')')] + rest else [Mark(',')] + (ValueList(vs[1..]) + rest)
  }

  lemma ListIsFirstAndRest(vs: seq<Value>, rest: seq<Lexeme>)
    requires vs != []
    ensures ValueList(vs) + rest == ValueItem(vs[0]) + BehindFirst(vs, rest)
  {
    hide ValueItem;
  }

  lemma {:induction false} ValuesBack(vs: seq<Value>, rest: seq<Lexeme>)
    requires vs != []
    ensures Values(ValueList(vs) + rest) == Some((vs, rest))
  {
    var tail := BehindFirst(vs, rest);
    hide OneValue, ValueItem, ValueList;
    ListIsFirstAndRest(vs, rest);
    ValueBack(vs[0], tail);
    if |vs| == 1 {
      assert tail[1..] == rest && vs == [vs[0]];
    } else {
      assert tail[1..] == ValueList(vs[1..]) + rest;
      ValuesBack(vs[1..], rest);
      assert vs == [vs[0]] + vs[1..];
    }
  }

  lemma StatementBack(table: Lexeme, names: seq<string>, vs: seq<Value>, rest: seq<Lexeme>)
    requires names != [] && |vs| == |names| && TableName(table).Some?
    ensures Statement(StatementList(table, names, vs) + rest) ==
            Some((Insert(TableName(table).value, Cells(names, vs)), rest))
  {
    var end := [Item(Semicolon)] + rest;
    var after := [Word("VALUES"), Mark('(')] + (ValueList(vs) + end);
    var ls := StatementList(table, names, vs) + rest;
    assert ls == [Word("INSERT"), Word("INTO"), table, Mark('(')] + (ColumnList(names) + after);
    assert ls[4..] == ColumnList(names) + after;
    assert after[2..] == ValueList(vs) + end;
    hide ColumnList, ValueList, Columns, Values, TableName, Cells;
    ColumnsBack(names, after);
    ValuesBack(vs, end);
  }

  // Nothing that the text holds is passed over.

  function OfLexeme(l: Lexeme): Contents {
    if l.Item? then OfToken(l.token) else NOTHING
  }

  function Held(ls: seq<Lexeme>): Contents {
    if ls == [] then NOTHING else Plus(OfLexeme(ls[0]), Held(ls[1..]))
  }

  function OfValue(v: Value): Contents {
    match v
    case TextValue(text) => OfToken(Text(text))
    case HexValue(digits) => OfToken(Hex(digits))
    case ArrayOf(text) => OfToken(Text(text))
  }

  function OfValues(vs: seq<Value>): Contents {
    if vs == [] then NOTHING else Plus(OfValue(vs[0]), OfValues(vs[1..]))
  }

  function OfCells(cells: seq<(string, Value)>): Contents {
    if cells == [] then NOTHING else Plus(OfValue(cells[0].1), OfCells(cells[1..]))
  }

  function OfInserts(inserts: seq<Insert>): Contents {
    if inserts == [] then NOTHING
    else Plus(Plus(OfCells(inserts[0].cells), OfToken(Semicolon)), OfInserts(inserts[1..]))
  }

  lemma {:induction false} LettersHoldNothing(ts: seq<Token>)
    ensures ContentsOf(ts) == ContentsOf(ts[|Letters(ts)|..])
  {
    if ts != [] && IsLetter(ts[0]) {
      LettersHoldNothing(ts[1..]);
      assert ts[|Letters(ts)|..] == ts[1..][|Letters(ts[1..])|..];
      PlusNothing(ContentsOf(ts[1..]));
    }
  }

  lemma HeldFirst(l: Lexeme, ls: seq<Lexeme>)
    ensures Held([l] + ls) == Plus(OfLexeme(l), Held(ls))
  {
    assert ([l] + ls)[1..] == ls;
  }

  lemma ContentsFirst(ts: seq<Token>)
    requires ts != []
    ensures ContentsOf(ts) == Plus(OfToken(ts[0]), ContentsOf(ts[1..]))
    ensures ts[0].Char? ==> ContentsOf(ts) == ContentsOf(ts[1..])
  {
    PlusNothing(ContentsOf(ts[1..]));
  }

  lemma {:induction false} LexemesHold(ts: seq<Token>)
    ensures Held(Lexemes(ts)) == ContentsOf(ts)
    decreases |ts|
  {
    if ts != [] {
      ContentsFirst(ts);
      LettersHoldNothing(ts);
      var letters := Letters(ts);
      assert IsLetter(ts[0]) ==> letters != "";
      hide Held, ContentsOf, Letters, OfToken, IsWordChar, IsSpace;
      if !ts[0].Char? {
        LexemesHold(ts[1..]);
        HeldFirst(Item(ts[0]), Lexemes(ts[1..]));
      } else if IsSpace(ts[0].c) {
        LexemesHold(ts[1..]);
      } else if IsWordChar(ts[0].c) {
        LexemesHold(ts[|letters|..]);
        HeldFirst(Word(letters), Lexemes(ts[|letters|..]));
        PlusNothing(ContentsOf(ts[|letters|..]));
      } else {
        LexemesHold(ts[1..]);
        HeldFirst(Mark(ts[0].c), Lexemes(ts[1..]));
        PlusNothing(ContentsOf(ts[1..]));
      }
    }
  }

  /** A lexeme that is no item holds nothing. */
  lemma Passed(ls: seq<Lexeme>)
    requires ls != [] && (!ls[0].Item? || ls[0].token.Name?)
    ensures Held(ls) == Held(ls[1..])
  {
    PlusNothing(Held(ls[1..]));
  }

  lemma {:induction false} ColumnsHold(ls: seq<Lexeme>)
    requires Columns(ls).Some?
    ensures Held(ls) == Held(Columns(ls).value.1)
    decreases |ls|
  {
    Passed(ls);
    Passed(ls[1..]);
    assert ls[1..][1..] == ls[2..];
    hide Held;
    if ls[1] != Mark(')') {
      ColumnsHold(ls[2..]);
    }
  }

  lemma HeldStep(ls: seq<Lexeme>)
    requires ls != []
    ensures Held(ls) == Plus(OfLexeme(ls[0]), Held(ls[1..]))
  {
  }

  lemma OneValueHolds(ls: seq<Lexeme>)
    requires OneValue(ls).Some?
    ensures Held(ls) == Plus(OfValue(OneValue(ls).value.0), Held(OneValue(ls).value.1))
  {
    hide Held;
    if ls[0].Item? {
      HeldStep(ls);
    } else {
      Passed(ls);
      Passed(ls[1..]);
      assert ls[1..][1..] == ls[2..];
      HeldStep(ls[2..]);
      assert ls[2..][1..] == ls[3..];
      Passed(ls[3..]);
      assert ls[3..][1..] == ls[4..];
    }
  }

  lemma {:induction false} ValuesHold(ls: seq<Lexeme>)
    requires Values(ls).Some?
    ensures Held(ls) == Plus(OfValues(Values(ls).value.0), Held(Values(ls).value.1))
    decreases |ls|
  {
    var (v, rest) := OneValue(ls).value;
    OneValueHolds(ls);
    Passed(rest);
    hide OneValue, Held, OfValue;
    if rest[0] == Mark(')') {
      assert [v][1..] == [];
      PlusNothing(OfValue(v));
    } else {
      ValuesHold(rest[1..]);
      var (vs, end) := Values(rest[1..]).value;
      assert ([v] + vs)[1..] == vs;
      PlusJoins(OfValue(v), OfValues(vs), Held(end));
    }
  }

  lemma {:induction false} CellsHold(names: seq<string>, vs: seq<Value>)
    requires |names| == |vs|
    ensures OfCells(Cells(names, vs)) == OfValues(vs)
  {
    if vs != [] {
      assert Cells(names, vs)[1..] == Cells(names[1..], vs[1..]);
      CellsHold(names[1..], vs[1..]);
    }
  }

  lemma StatementHolds(ls: seq<Lexeme>)
    requires Statement(ls).Some?
    ensures
      var (i, rest) := Statement(ls).value;
      Held(ls) == Plus(Plus(OfCells(i.cells), OfToken(Semicolon)), Held(rest))
  {
    Passed(ls);
    Passed(ls[1..]);
    Passed(ls[2..]);
    Passed(ls[3..]);
    assert ls[1..][1..] == ls[2..] && ls[2..][1..] == ls[3..] && ls[3..][1..] == ls[4..];
    ColumnsHold(ls[4..]);
    var (names, after) := Columns(ls[4..]).value;
    Passed(after);
    Passed(after[1..]);
    assert after[1..][1..] == after[2..];
    ValuesHold(after[2..]);
    var (vs, end) := Values(after[2..]).value;
    assert Held(end) == Plus(OfToken(Semicolon), Held(end[1..]));
    hide Held, Columns, Values;
    CellsHold(names, vs);
    PlusJoins(OfValues(vs), OfToken(Semicolon), Held(end[1..]));
  }

  lemma {:induction false} StatementsHold(ls: seq<Lexeme>)
    requires Statements(ls).Some?
    ensures Held(ls) == OfInserts(Statements(ls).value)
    decreases |ls|
  {
    if ls != [] {
      StatementHolds(ls);
      var (i, rest) := Statement(ls).value;
      hide Statement, Held;
      StatementsHold(rest);
      assert ([i] + Statements(rest).value)[1..] == Statements(rest).value;
    }
  }

  /** What is read of a text tells all its literals. */
  lemma InsertsTell(text: string)
    requires Inserts(text).Some?
    ensures Tokens(text).Some?
    ensures ContentsOf(Tokens(text).value) == OfInserts(Inserts(text).value)
  {
    hide Tokens, Lexemes, Statements;
    LexemesHold(Tokens(text).value);
    StatementsHold(Lexemes(Tokens(text).value));
  }

  // The lexemes of a text, piece by piece.

  /** Text put before a rest that tokenizes puts these lexemes before those of the rest. */
  ghost predicate Spells(text: string, rest: string, ls: seq<Lexeme>) {
    Tokens(rest).Some? ==>
      && Tokens(text + rest).Some?
      && Lexemes(Tokens(text + rest).value) == ls + Lexemes(Tokens(rest).value)
  }

  lemma SpellsJoin(a: string, b: string, rest: string, ls: seq<Lexeme>, ms: seq<Lexeme>)
    requires Spells(a, b + rest, ls) && Spells(b, rest, ms)
    ensures Spells(a + b, rest, ls + ms)
  {
    hide Tokens, Lexemes;
    assert a + b + rest == a + (b + rest);
    if Tokens(rest).Some? {
      var last := Lexemes(Tokens(rest).value);
      assert ls + ms + last == ls + (ms + last);
    }
  }

  lemma {:induction false} LettersOf(w: string, ts: seq<Token>)
    requires (forall c :: c in w ==> IsWordChar(c)) && (ts == [] || !IsLetter(ts[0]))
    ensures Letters(Chars(w) + ts) == w
  {
    if w == "" {
      assert Chars(w) + ts == ts;
    } else {
      assert w[0] in w;
      assert (Chars(w) + ts)[1..] == Chars(w[1..]) + ts;
      LettersOf(w[1..], ts);
      assert w == [w[0]] + w[1..];
    }
  }

  /** The tokens of a text that does not begin with a letter do not either. */
  lemma NoLetterFirst(s: string)
    requires Tokens(s).Some? && s != "" && !IsWordChar(s[0])
    ensures Tokens(s).value != [] && !IsLetter(Tokens(s).value[0])
  {
    hide Literal, NameRun, HexRun;
  }

  predicate IsWord(w: string) {
    w != "" && forall i :: 0 <= i < |w| ==> IsWordChar(w[i]) && Inert(w[i])
  }

  lemma WordSpells(w: string, rest: string)
    requires IsWord(w) && rest != "" && !IsWordChar(rest[0])
    ensures Spells(w, rest, [Word(w)])
  {
    hide Tokens;
    if Tokens(rest).Some? {
      var ts := Tokens(rest).value;
      NoLetterFirst(rest);
      CodeTokenizes(w, rest);
      LettersOf(w, ts);
      assert w[0] in w && (Chars(w) + ts)[0] == Char(w[0]);
      hide Letters;
      assert (Chars(w) + ts)[|w|..] == ts;
    }
  }

  /** What is left of marks and spaces. */
  function Marks(m: string): seq<Lexeme> {
    if m == "" then [] else (if IsSpace(m[0]) then [] else [Mark(m[0])]) + Marks(m[1..])
  }

  predicate AreMarks(m: string) {
    forall i :: 0 <= i < |m| ==> !IsWordChar(m[i]) && Inert(m[i])
  }

  lemma {:induction false} MarksSpell(m: string, rest: string)
    requires AreMarks(m)
    ensures Spells(m, rest, Marks(m))
  {
    if m == "" {
      assert m + rest == rest;
    } else {
      var one := if IsSpace(m[0]) then [] else [Mark(m[0])];
      assert Marks(m) == one + Marks(m[1..]);
      assert AreMarks(m[1..]) && !IsWordChar(m[0]) && Inert(m[0]);
      hide *;
      MarksSpell(m[1..], rest);
      MarkFirst(m[0], m[1..] + rest);
      SpellsJoin([m[0]], m[1..], rest, one, Marks(m[1..]));
      assert [m[0]] + m[1..] == m;
    }
  }

  lemma MarkFirst(d: char, rest: string)
    requires !IsWordChar(d) && Inert(d)
    ensures Spells([d], rest, if IsSpace(d) then [] else [Mark(d)])
    ensures Tokens([d] + rest) == With(Char(d), Tokens(rest))
  {
    hide Literal, NameRun, HexRun;
    assert ([d] + rest)[1..] == rest;
    if Tokens(rest).Some? {
      assert ([Char(d)] + Tokens(rest).value)[1..] == Tokens(rest).value;
    }
  }

  lemma ItemSpells(text: string, rest: string, t: Token)
    requires Tokens(text + rest) == With(t, Tokens(rest)) && !t.Char?
    ensures Spells(text, rest, [Item(t)])
  {
    hide Tokens;
    if Tokens(rest).Some? {
      assert ([t] + Tokens(rest).value)[1..] == Tokens(rest).value;
    }
  }

  /** A word with marks behind it. */
  lemma WordThen(w: string, m: string, rest: string)
    requires IsWord(w) && AreMarks(m) && m != ""
    ensures Spells(w + m, rest, [Word(w)] + Marks(m))
  {
    assert (m + rest)[0] == m[0];
    hide Spells, Marks, IsWordChar;
    MarksSpell(m, rest);
    WordSpells(w, m + rest);
    SpellsJoin(w, m, rest, [Word(w)], Marks(m));
  }

  /** A value between quotes with marks behind it. */
  lemma TextThen(text: string, v: string, m: string, rest: string)
    requires text == Escaped(v) && AreMarks(m) && m != ""
    ensures Spells("'" + text + "'" + m, rest, [Item(Text(v))] + Marks(m))
  {
    assert (m + rest)[0] == m[0];
    hide Spells, Marks, Tokens, Escaped, IsWordChar;
    MarksSpell(m, rest);
    ValueTokenizes(v, m + rest);
    ItemSpells("'" + text + "'", m + rest, Text(v));
    SpellsJoin("'" + text + "'", m, rest, [Item(Text(v))], Marks(m));
  }
}
