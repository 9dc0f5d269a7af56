/** What the block's statements store in which columns. */
module SqlBlock {
  import opened Results
  import opened StringEscapeUtil
  import opened HexUtil
  import opened SqlText
  import opened SqlBuilder
  import opened SqlInserts

  // Words and marks.

  lemma Keywords()
    ensures IsWord("INSERT") && IsWord("INTO") && IsWord("VALUES") && IsWord("array")
  {
  }

  lemma TableNames()
    ensures IsWord("multi_event")
  {
  }

  lemma ColumnNames()
    ensures IsWord("id") && IsWord("source") && IsWord("plate") && IsWord("meta") && IsWord("data")
  {
  }

  lemma LongColumnNames()
    ensures IsWord("extra_data") && IsWord("front_plate_image")
  {
  }

  lemma LongestColumnName()
    ensures IsWord("rear_plate_image")
  {
  }

  lemma FirstMark(c: char, m: string)
    ensures Marks([c] + m) == (if IsSpace(c) then [] else [Mark(c)]) + Marks(m)
  {
    assert ([c] + m)[1..] == m;
  }

  lemma OneMark(c: char)
    ensures Marks([c]) == if IsSpace(c) then [] else [Mark(c)]
  {
    FirstMark(c, "");
    assert [c] + "" == [c];
  }

  lemma TwoMarks(c: char, d: char)
    ensures Marks([c, d]) == (if IsSpace(c) then [] else [Mark(c)]) + (if IsSpace(d) then [] else [Mark(d)])
  {
    OneMark(d);
    FirstMark(c, [d]);
    assert [c] + [d] == [c, d];
  }

  lemma FourMarks(c: char, d: char, e: char, f: char)
    ensures
      Marks([c, d, e, f]) ==
      (if IsSpace(c) then [] else [Mark(c)]) + ((if IsSpace(d) then [] else [Mark(d)]) + Marks([e, f]))
  {
    FirstMark(d, [e, f]);
    FirstMark(c, [d, e, f]);
    assert [d] + [e, f] == [d, e, f] && [c] + [d, e, f] == [c, d, e, f];
  }

  lemma SeparatorsAreMarks()
    ensures AreMarks("\n") && AreMarks("\n\t") && AreMarks(" ") && AreMarks("(") && AreMarks(" (")
    ensures AreMarks(", ") && AreMarks(", \n\t") && AreMarks(") ") && AreMarks(")")
  {
  }

  lemma Separators()
    ensures AreMarks("\n") && AreMarks("\n\t") && AreMarks(" ") && AreMarks("(") && AreMarks(" (")
    ensures AreMarks(", ") && AreMarks(", \n\t") && AreMarks(") ") && AreMarks(")")
    ensures Marks("\n") == [] && Marks("\n\t") == [] && Marks(" ") == []
    ensures Marks("(") == [Mark('(')] && Marks(" (") == [Mark('(')]
    ensures Marks(", ") == [Mark(',')] && Marks(", \n\t") == [Mark(',')]
    ensures Marks(") ") == [Mark(')')] && Marks(")") == [Mark(')')]
  {
    hide AreMarks, Marks;
    SeparatorsAreMarks();
    OneMark('\n');
    OneMark(' ');
    OneMark('(');
    OneMark(')');
    TwoMarks('\n', '\t');
    TwoMarks(' ', '(');
    TwoMarks(',', ' ');
    TwoMarks(')', ' ');
    FourMarks(',', ' ', '\n', '\t');
  }

  lemma Joins(a: string, b: string, rest: string, ls: seq<Lexeme>, ms: seq<Lexeme>, all: seq<Lexeme>)
    requires Spells(a, b + rest, ls) && Spells(b, rest, ms) && all == ls + ms
    ensures Spells(a + b, rest, all)
  {
    hide *;
    SpellsJoin(a, b, rest, ls, ms);
  }

  // Columns.

  lemma LastColumn(name: string, rest: string)
    requires IsWord(name)
    ensures Spells(name + ") ", rest, ColumnList([name]))
  {
    Separators();
    assert ColumnList([name]) == [Word(name)] + [Mark(')')];
    hide Spells, IsWord, AreMarks, Marks, ColumnList;
    WordThen(name, ") ", rest);
  }

  lemma MoreColumns(name: string, names: seq<string>, text: string, rest: string)
    requires IsWord(name) && names != [] && Spells(text, rest, ColumnList(names))
    ensures Spells(name + ", " + text, rest, ColumnList([name] + names))
  {
    Separators();
    assert ([name] + names)[1..] == names;
    assert ColumnList([name] + names) == [Word(name)] + [Mark(',')] + ColumnList(names);
    hide Spells, IsWord, AreMarks, Marks, ColumnList;
    WordThen(name, ", ", text + rest);
    Joins(name + ", ", text, rest, [Word(name)] + [Mark(',')], ColumnList(names), ColumnList([name] + names));
  }

  // Values.

  lemma LastValue(text: string, v: Value, rest: string)
    requires Spells(text, ")" + rest, ValueItem(v))
    ensures Spells(text + ")", rest, ValueList([v]))
  {
    Separators();
    hide Spells, AreMarks, Marks, ValueItem;
    MarksSpell(")", rest);
    Joins(text, ")", rest, ValueItem(v), [Mark(')')], ValueList([v]));
  }

  lemma MoreValues(text: string, v: Value, separator: string, more: string, vs: seq<Value>, rest: string)
    requires Spells(text, separator + (more + rest), ValueItem(v)) && vs != [] && Spells(more, rest, ValueList(vs))
    requires AreMarks(separator) && Marks(separator) == [Mark(',')]
    ensures Spells(text + (separator + more), rest, ValueList([v] + vs))
  {
    assert ([v] + vs)[1..] == vs;
    assert ValueList([v] + vs) == ValueItem(v) + ([Mark(',')] + ValueList(vs)) by {
      hide ValueItem;
    }
    hide Spells, AreMarks, Marks, ValueItem, ValueList;
    MarksSpell(separator, more + rest);
    Joins(separator, more, rest, [Mark(',')], ValueList(vs), [Mark(',')] + ValueList(vs));
    assert separator + more + rest == separator + (more + rest);
    Joins(text, separator + more, rest, ValueItem(v), [Mark(',')] + ValueList(vs), ValueList([v] + vs));
  }

  /** A value between quotes, escaped or in no need of it. */
  lemma TextSpells(text: string, v: string, rest: string)
    requires text == Escaped(v) && rest != "" && rest[0] != '\''
    ensures Spells(InQuotes(text), rest, ValueItem(TextValue(v)))
  {
    hide Spells, Tokens, Escaped;
    ValueTokenizes(v, rest);
    ItemSpells("'" + text + "'", rest, Text(v));
  }

  lemma HexSpells(digits: string, rest: string)
    requires (forall c :: c in digits ==> IsHexDigit(c)) && rest != "" && !IsHexDigit(rest[0])
    ensures Spells("0x" + digits, rest, ValueItem(HexValue(digits)))
  {
    hide Spells, Tokens, IsHexDigit;
    HexTokenizes(digits, rest);
    ItemSpells("0x" + digits, rest, Hex(digits));
  }

  lemma ArraySpells(v: string, rest: string)
    requires Plain(v)
    ensures Spells(("array" + "(") + (InQuotes(v) + ")"), rest, ValueItem(ArrayOf(v)))
  {
    PlainIsEscaped(v);
    Keywords();
    Separators();
    assert (")" + rest)[0] == ')';
    hide Spells, IsWord, AreMarks, Marks, Plain, Escaped, InQuotes;
    MarksSpell(")", rest);
    TextSpells(v, v, ")" + rest);
    Joins(InQuotes(v), ")", rest, [Item(Text(v))], [Mark(')')], [Item(Text(v)), Mark(')')]);
    WordThen("array", "(", InQuotes(v) + ")" + rest);
    Joins("array" + "(", InQuotes(v) + ")", rest, [Word("array")] + [Mark('(')], [Item(Text(v)), Mark(')')],
          ValueItem(ArrayOf(v)));
  }

  // Statements.

  lemma ValuesSpell(text: string, vs: seq<Value>, rest: string)
    requires vs != [] && Spells(text, ";" + rest, ValueList(vs))
    ensures Spells(VALUES + (text + ";"), rest, [Word("VALUES"), Mark('(')] + ValueList(vs) + [Item(Semicolon)])
  {
    assert VALUES == "\n\t" + ("VALUES" + "(");
    var end := ValueList(vs) + [Item(Semicolon)];
    Keywords();
    Separators();
    hide Spells, IsWord, AreMarks, Marks, ValueList, Tokens;
    EndTokenizes(rest);
    ItemSpells(";", rest, Semicolon);
    Joins(text, ";", rest, ValueList(vs), [Item(Semicolon)], end);
    MarksSpell("\n\t", ("VALUES" + "(") + ((text + ";") + rest));
    WordThen("VALUES", "(", (text + ";") + rest);
    Joins("\n\t", "VALUES" + "(", (text + ";") + rest, [], [Word("VALUES")] + [Mark('(')], [Word("VALUES"), Mark('(')]);
    Joins(VALUES, text + ";", rest, [Word("VALUES"), Mark('(')], end,
          [Word("VALUES"), Mark('(')] + ValueList(vs) + [Item(Semicolon)]);
  }

  lemma InsertIntoSpells(rest: string)
    ensures Spells(INTO, rest, [Word("INSERT"), Word("INTO")])
  {
    assert INTO == "\n" + (("INSERT" + " ") + ("INTO" + " "));
    Keywords();
    Separators();
    hide Spells, IsWord, AreMarks, Marks;
    WordThen("INTO", " ", rest);
    WordThen("INSERT", " ", ("INTO" + " ") + rest);
    Joins("INSERT" + " ", "INTO" + " ", rest, [Word("INSERT")] + [], [Word("INTO")] + [],
          [Word("INSERT"), Word("INTO")]);
    MarksSpell("\n", (("INSERT" + " ") + ("INTO" + " ")) + rest);
    Joins("\n", ("INSERT" + " ") + ("INTO" + " "), rest, [], [Word("INSERT"), Word("INTO")],
          [Word("INSERT"), Word("INTO")]);
  }

  /** A statement, from the text of its table with the parenthesis, of its columns and of its values. */
  lemma StatementSpells(tableText: string, table: Lexeme, columns: string, names: seq<string>,
                        values: string, vs: seq<Value>, rest: string)
    requires names != [] && vs != []
    requires Spells(tableText, columns + (VALUES + (values + ";")) + rest, [table, Mark('(')])
    requires Spells(columns, VALUES + (values + ";") + rest, ColumnList(names))
    requires Spells(values, ";" + rest, ValueList(vs))
    ensures Spells(INTO + (tableText + (columns + (VALUES + (values + ";")))), rest, StatementList(table, names, vs))
  {
    var end := [Word("VALUES"), Mark('(')] + ValueList(vs) + [Item(Semicolon)];
    var middle := ColumnList(names) + end;
    var last, more := VALUES + (values + ";"), columns + (VALUES + (values + ";"));
    assert StatementList(table, names, vs) == [Word("INSERT"), Word("INTO")] + ([table, Mark('(')] + middle) by {
      hide ColumnList, ValueList;
    }
    hide *;
    ValuesSpell(values, vs, rest);
    Joins(columns, last, rest, ColumnList(names), end, middle);
    Joins(tableText, more, rest, [table, Mark('(')], middle, [table, Mark('(')] + middle);
    InsertIntoSpells((tableText + more) + rest);
    Joins(INTO, tableText + more, rest, [Word("INSERT"), Word("INTO")], [table, Mark('(')] + middle,
          StatementList(table, names, vs));
  }

  // The block.

  function ArrayText(v: string): string {
    ("array" + "(") + (InQuotes(v) + ")")
  }

  function EventColumnText(): string {
    "id" + ", " + ("source" + ", " + ("plate" + ", " + ("extra_data" + ", " +
      ("front_plate_image" + ", " + ("rear_plate_image" + ") ")))))
  }

  function EventValueText(eventId: string, sourceId: string, plate: string, escapedExtraData: string,
                          frontImageId: string, rearImageId: string): string {
    InQuotes(eventId) + (", " + (InQuotes(sourceId) + (", " + (InQuotes(plate) + (", " + (InQuotes(escapedExtraData) +
      (", \n\t" + (ArrayText(frontImageId) + (", " + (ArrayText(rearImageId) + ")"))))))))))
  }

  lemma Three(a: string, b: string, c: string)
    ensures a + b + c == a + (b + c)
  {
  }

  lemma Four(a: string, b: string, c: string, d: string)
    ensures a + b + c + d == a + (b + (c + d))
  {
  }

  lemma Five(a: string, b: string, c: string, d: string, e: string)
    ensures a + b + c + d + e == a + (b + (c + (d + e)))
  {
  }

  lemma IntoEventsSplits()
    ensures INTO_EVENTS == INTO + ("multi_event" + "(")
  {
  }

  lemma ColumnsSplit()
    ensures COLUMNS == "id" + ", " + ("source" + ", " + ("plate" + ", " + ("extra_data" + ", ")))
  {
  }

  lemma ImageColumnsSplit()
    ensures IMAGE_COLUMNS == "front_plate_image" + ", " + ("rear_plate_image" + ") ")
  {
  }

  lemma ArraySplits()
    ensures ARRAY == "\n\t" + ("array" + "(") && "), array(" == ")" + (", " + ("array" + "("))
    ensures ", " + "\n\t" == ", \n\t" && "))" == ")" + ")"
  {
  }

  lemma AllColumns()
    ensures COLUMNS + IMAGE_COLUMNS == EventColumnText()
  {
    ColumnsSplit();
    ImageColumnsSplit();
    var a, b, c, d := "id" + ", ", "source" + ", ", "plate" + ", ", "extra_data" + ", ";
    assert EventColumnText() == a + (b + (c + (d + IMAGE_COLUMNS)));
    hide *;
    Three(a, b + (c + d), IMAGE_COLUMNS);
    Three(b, c + d, IMAGE_COLUMNS);
    Three(c, d, IMAGE_COLUMNS);
  }

  /** The text of the two arrays, with what comes before and behind it. */
  lemma ArraysSplit(frontImageId: string, rearImageId: string)
    ensures
      ", " + ImagesText(frontImageId, rearImageId) ==
      ", \n\t" + (ArrayText(frontImageId) + (", " + (ArrayText(rearImageId) + (")" + ";"))))
  {
    var f, r, open, end := InQuotes(frontImageId), InQuotes(rearImageId), "array" + "(", ")" + ";";
    ArraySplits();
    assert ImagesText(frontImageId, rearImageId) == ARRAY + (f + "), array(") + (r + "))") + ";";
    assert ArrayText(frontImageId) == open + (f + ")") && ArrayText(rearImageId) == open + (r + ")");
    hide *;
    Four(ARRAY, f + "), array(", r + "))", ";");
    Three(r, ")" + ")", ";");
    Three(")", ")", ";");
    Three(r, ")", end);
    Three(f, ")" + (", " + open), r + (")" + end));
    Three(")", ", " + open, r + (")" + end));
    Three(", ", open, r + (")" + end));
    Three(open, r + ")", end);
    Three(open, f + ")", ", " + (open + (r + ")" + end)));
    Three(f, ")", ", " + (open + (r + ")" + end)));
    Three("\n\t", open, f + (")" + (", " + (open + (r + (")" + end))))));
    Three(", ", "\n\t", open + (f + (")" + (", " + (open + (r + (")" + end)))))));
  }

  lemma ValuesEnd(eventId: string, sourceId: string, plate: string, escapedExtraData: string,
                  frontImageId: string, rearImageId: string)
    ensures
      EventValueText(eventId, sourceId, plate, escapedExtraData, frontImageId, rearImageId) + ";" ==
      InQuotes(eventId) + (", " + (InQuotes(sourceId) + (", " + (InQuotes(plate) + (", " +
        (InQuotes(escapedExtraData) + (", " + ImagesText(frontImageId, rearImageId))))))))
  {
    ArraysSplit(frontImageId, rearImageId);
    var e, s, p, x := InQuotes(eventId), InQuotes(sourceId), InQuotes(plate), InQuotes(escapedExtraData);
    var f, r := ArrayText(frontImageId), ArrayText(rearImageId);
    assert EventValueText(eventId, sourceId, plate, escapedExtraData, frontImageId, rearImageId) ==
           e + (", " + (s + (", " + (p + (", " + (x + (", \n\t" + (f + (", " + (r + ")"))))))))));
    hide *;
    Three(r, ")", ";");
    Three(", ", r + ")", ";");
    Three(f, ", " + (r + ")"), ";");
    var m := f + (", " + (r + ")"));
    Three(", \n\t", m, ";");
    Three(x, ", \n\t" + m, ";");
    Three(", ", x + (", \n\t" + m), ";");
    Three(p, ", " + (x + (", \n\t" + m)), ";");
    Three(", ", p + (", " + (x + (", \n\t" + m))), ";");
    Three(s, ", " + (p + (", " + (x + (", \n\t" + m)))), ";");
    Three(", ", s + (", " + (p + (", " + (x + (", \n\t" + m))))), ";");
    Three(e, ", " + (s + (", " + (p + (", " + (x + (", \n\t" + m)))))), ";");
  }

  lemma EventTextSplits(eventId: string, sourceId: string, plate: string, escapedExtraData: string,
                        frontImageId: string, rearImageId: string)
    ensures
      EventText(eventId, sourceId, plate, escapedExtraData) + ImagesText(frontImageId, rearImageId) ==
      INTO + (("multi_event" + "(") + (EventColumnText() + (VALUES +
        (EventValueText(eventId, sourceId, plate, escapedExtraData, frontImageId, rearImageId) + ";"))))
  {
    var e, s, p, x := InQuotes(eventId), InQuotes(sourceId), InQuotes(plate), InQuotes(escapedExtraData);
    var images := ImagesText(frontImageId, rearImageId);
    var code := INTO_EVENTS + COLUMNS + IMAGE_COLUMNS + VALUES;
    assert EventText(eventId, sourceId, plate, escapedExtraData) ==
           code + (e + ", ") + (s + ", ") + (p + ", ") + (x + ", ");
    ValuesEnd(eventId, sourceId, plate, escapedExtraData, frontImageId, rearImageId);
    IntoEventsSplits();
    AllColumns();
    hide *;
    Three(code + (e + ", ") + (s + ", ") + (p + ", "), x + ", ", images);
    Five(code, e + ", ", s + ", ", p + ", ", (x + ", ") + images);
    var third := x + (", " + images);
    Three(x, ", ", images);
    Three(p, ", ", third);
    Three(s, ", ", p + (", " + third));
    Three(e, ", ", s + (", " + (p + (", " + third))));
    var values := e + (", " + (s + (", " + (p + (", " + third)))));
    Five(INTO_EVENTS, COLUMNS, IMAGE_COLUMNS, VALUES, values);
    Three(COLUMNS, IMAGE_COLUMNS, VALUES + values);
    Three(INTO, "multi_event" + "(", (COLUMNS + IMAGE_COLUMNS) + (VALUES + values));
  }

  lemma EventColumnsSpell(rest: string)
    ensures
      Spells(EventColumnText(), rest,
             ColumnList(["id", "source", "plate", "extra_data", "front_plate_image", "rear_plate_image"]))
  {
    ColumnNames();
    LongColumnNames();
    LongestColumnName();
    var six := "rear_plate_image" + ") ";
    var five := "front_plate_image" + ", " + six;
    var four := "extra_data" + ", " + five;
    var three := "plate" + ", " + four;
    var two := "source" + ", " + three;
    assert EventColumnText() == "id" + ", " + two;
    hide *;
    LastColumn("rear_plate_image", rest);
    MoreColumns("front_plate_image", ["rear_plate_image"], six, rest);
    assert ["front_plate_image"] + ["rear_plate_image"] == ["front_plate_image", "rear_plate_image"];
    MoreColumns("extra_data", ["front_plate_image", "rear_plate_image"], five, rest);
    var names := ["extra_data"] + ["front_plate_image", "rear_plate_image"];
    MoreColumns("plate", names, four, rest);
    MoreColumns("source", ["plate"] + names, three, rest);
    MoreColumns("id", ["source"] + (["plate"] + names), two, rest);
    assert ["id"] + (["source"] + (["plate"] + names))
        == ["id", "source", "plate", "extra_data", "front_plate_image", "rear_plate_image"];
  }

  lemma EventValuesSpell(eventId: string, sourceId: string, plate: string, extraData: string,
                         frontImageId: string, rearImageId: string, rest: string)
    requires Plain(eventId) && Plain(sourceId) && Plain(plate) && Plain(frontImageId) && Plain(rearImageId)
    ensures
      Spells(EventValueText(eventId, sourceId, plate, Escaped(extraData), frontImageId, rearImageId), rest,
             ValueList([TextValue(eventId), TextValue(sourceId), TextValue(plate), TextValue(extraData),
                        ArrayOf(frontImageId), ArrayOf(rearImageId)]))
  {
    PlainIsEscaped(eventId);
    PlainIsEscaped(sourceId);
    PlainIsEscaped(plate);
    Separators();
    var e, s, p, x := InQuotes(eventId), InQuotes(sourceId), InQuotes(plate), InQuotes(Escaped(extraData));
    var six := ArrayText(rearImageId) + ")";
    var five := ArrayText(frontImageId) + (", " + six);
    var four := x + (", \n\t" + five);
    var three := p + (", " + four);
    var two := s + (", " + three);
    assert EventValueText(eventId, sourceId, plate, Escaped(extraData), frontImageId, rearImageId)
        == e + (", " + two);
    assert ArrayText(frontImageId) == ("array" + "(") + (InQuotes(frontImageId) + ")");
    assert ArrayText(rearImageId) == ("array" + "(") + (InQuotes(rearImageId) + ")");
    hide *;
    ArraySpells(rearImageId, ")" + rest);
    LastValue(ArrayText(rearImageId), ArrayOf(rearImageId), rest);
    ArraySpells(frontImageId, ", " + (six + rest));
    MoreValues(ArrayText(frontImageId), ArrayOf(frontImageId), ", ", six, [ArrayOf(rearImageId)], rest);
    var arrays := [ArrayOf(frontImageId)] + [ArrayOf(rearImageId)];
    TextSpells(Escaped(extraData), extraData, ", \n\t" + (five + rest));
    MoreValues(x, TextValue(extraData), ", \n\t", five, arrays, rest);
    var last := [TextValue(extraData)] + arrays;
    TextSpells(plate, plate, ", " + (four + rest));
    MoreValues(p, TextValue(plate), ", ", four, last, rest);
    TextSpells(sourceId, sourceId, ", " + (three + rest));
    MoreValues(s, TextValue(sourceId), ", ", three, [TextValue(plate)] + last, rest);
    TextSpells(eventId, eventId, ", " + (two + rest));
    MoreValues(e, TextValue(eventId), ", ", two, [TextValue(sourceId)] + ([TextValue(plate)] + last), rest);
    assert [TextValue(eventId)] + ([TextValue(sourceId)] + ([TextValue(plate)] + last))
        == [TextValue(eventId), TextValue(sourceId), TextValue(plate), TextValue(extraData),
            ArrayOf(frontImageId), ArrayOf(rearImageId)];
  }

  function AttachmentColumnText(): string {
    "id" + ", " + ("meta" + ", " + ("data" + ") "))
  }

  function AttachmentValueText(imageId: string, imageIdHex: string): string {
    InQuotes(imageId) + (", " + (InQuotes(META) + (", " + (("0x" + imageIdHex) + ")"))))
  }

  lemma AttachmentColumnsSplit()
    ensures ATTACHMENT_COLUMNS == " (" + AttachmentColumnText()
  {
  }

  lemma AttachmentTextSplits(imageId: string, imageIdHex: string)
    ensures
      AttachmentText(imageId, imageIdHex) ==
      INTO + ((("\"" + ATTACHMENTS + "\"") + " (") + (AttachmentColumnText() + (VALUES +
        (AttachmentValueText(imageId, imageIdHex) + ";"))))
  {
    var name, id, meta, hex := "\"" + ATTACHMENTS + "\"", InQuotes(imageId), InQuotes(META), "0x" + imageIdHex;
    var code := INTO + name + ATTACHMENT_COLUMNS + VALUES;
    AttachmentColumnsSplit();
    assert AttachmentText(imageId, imageIdHex) == code + (id + ", ") + (meta + ", ") + hex + ")" + ";";
    assert AttachmentValueText(imageId, imageIdHex) == id + (", " + (meta + (", " + (hex + ")"))));
    hide *;
    Three(code + (id + ", ") + (meta + ", ") + hex, ")", ";");
    Five(code, id + ", ", meta + ", ", hex, ")" + ";");
    var end := hex + (")" + ";");
    Three(meta, ", ", end);
    Three(id, ", ", meta + (", " + end));
    var values := id + (", " + (meta + (", " + end)));
    Five(INTO, name, ATTACHMENT_COLUMNS, VALUES, values);
    Three(" (", AttachmentColumnText(), VALUES + values);
    Three(name, " (", AttachmentColumnText() + (VALUES + values));
    Three(hex, ")", ";");
    Three(", ", hex + ")", ";");
    Three(meta, ", " + (hex + ")"), ";");
    Three(", ", meta + (", " + (hex + ")")), ";");
    Three(id, ", " + (meta + (", " + (hex + ")"))), ";");
  }

  lemma AttachmentColumnsSpell(rest: string)
    ensures Spells(AttachmentColumnText(), rest, ColumnList(["id", "meta", "data"]))
  {
    ColumnNames();
    var two := "meta" + ", " + ("data" + ") ");
    assert AttachmentColumnText() == "id" + ", " + two;
    hide *;
    LastColumn("data", rest);
    MoreColumns("meta", ["data"], "data" + ") ", rest);
    MoreColumns("id", ["meta"] + ["data"], two, rest);
    assert ["id"] + (["meta"] + ["data"]) == ["id", "meta", "data"];
  }

  lemma ThreeValuesSpell(imageId: string, meta: string, imageIdHex: string, rest: string)
    requires Plain(imageId) && Plain(meta) && forall c :: c in imageIdHex ==> IsHexDigit(c)
    ensures
      Spells(InQuotes(imageId) + (", " + (InQuotes(meta) + (", " + (("0x" + imageIdHex) + ")")))), rest,
             ValueList([TextValue(imageId), TextValue(meta), HexValue(imageIdHex)]))
  {
    PlainIsEscaped(imageId);
    PlainIsEscaped(meta);
    Separators();
    var three := ("0x" + imageIdHex) + ")";
    var two := InQuotes(meta) + (", " + three);
    assert !IsHexDigit((")" + rest)[0]);
    hide *;
    HexSpells(imageIdHex, ")" + rest);
    LastValue("0x" + imageIdHex, HexValue(imageIdHex), rest);
    TextSpells(meta, meta, ", " + (three + rest));
    MoreValues(InQuotes(meta), TextValue(meta), ", ", three, [HexValue(imageIdHex)], rest);
    TextSpells(imageId, imageId, ", " + (two + rest));
    MoreValues(InQuotes(imageId), TextValue(imageId), ", ", two, [TextValue(meta)] + [HexValue(imageIdHex)], rest);
    assert [TextValue(imageId)] + ([TextValue(meta)] + [HexValue(imageIdHex)])
        == [TextValue(imageId), TextValue(meta), HexValue(imageIdHex)];
  }

  /** The lexemes of the statement that stores the event. */
  function EventStatement(eventId: string, sourceId: string, plate: string, extraData: string,
                          frontImageId: string, rearImageId: string): seq<Lexeme> {
    StatementList(
      Word("multi_event"),
      ["id", "source", "plate", "extra_data", "front_plate_image", "rear_plate_image"],
      [TextValue(eventId), TextValue(sourceId), TextValue(plate), TextValue(extraData),
       ArrayOf(frontImageId), ArrayOf(rearImageId)])
  }

  /** The lexemes of a statement that stores an attachment. */
  function AttachmentStatement(imageId: string, imageIdHex: string): seq<Lexeme> {
    StatementList(Item(Name("multi_event-@attachment")), ["id", "meta", "data"],
                  [TextValue(imageId), TextValue(META), HexValue(imageIdHex)])
  }

  lemma EventSpells(eventId: string, sourceId: string, plate: string, extraData: string,
                    frontImageId: string, rearImageId: string, rest: string)
    requires Plain(eventId) && Plain(sourceId) && Plain(plate) && Plain(frontImageId) && Plain(rearImageId)
    ensures
      Spells(EventText(eventId, sourceId, plate, Escaped(extraData)) + ImagesText(frontImageId, rearImageId), rest,
             EventStatement(eventId, sourceId, plate, extraData, frontImageId, rearImageId))
  {
    var columns := EventColumnText();
    var values := EventValueText(eventId, sourceId, plate, Escaped(extraData), frontImageId, rearImageId);
    var names := ["id", "source", "plate", "extra_data", "front_plate_image", "rear_plate_image"];
    var vs := [TextValue(eventId), TextValue(sourceId), TextValue(plate), TextValue(extraData),
               ArrayOf(frontImageId), ArrayOf(rearImageId)];
    EventTextSplits(eventId, sourceId, plate, Escaped(extraData), frontImageId, rearImageId);
    TableNames();
    Separators();
    assert EventStatement(eventId, sourceId, plate, extraData, frontImageId, rearImageId)
        == StatementList(Word("multi_event"), names, vs);
    hide *;
    WordThen("multi_event", "(", columns + (VALUES + (values + ";")) + rest);
    assert [Word("multi_event")] + [Mark('(')] == [Word("multi_event"), Mark('(')];
    EventColumnsSpell(VALUES + (values + ";") + rest);
    EventValuesSpell(eventId, sourceId, plate, extraData, frontImageId, rearImageId, ";" + rest);
    StatementSpells("multi_event" + "(", Word("multi_event"), columns, names, values, vs, rest);
  }

  lemma AttachmentSpells(imageId: string, imageIdHex: string, rest: string)
    requires Plain(imageId) && forall c :: c in imageIdHex ==> IsHexDigit(c)
    ensures Spells(AttachmentText(imageId, imageIdHex), rest, AttachmentStatement(imageId, imageIdHex))
  {
    var columns, values := AttachmentColumnText(), AttachmentValueText(imageId, imageIdHex);
    var names, vs := ["id", "meta", "data"], [TextValue(imageId), TextValue(META), HexValue(imageIdHex)];
    var name, table := "\"" + ATTACHMENTS + "\"", Item(Name(ATTACHMENTS));
    assert values == InQuotes(imageId) + (", " + (InQuotes(META) + (", " + (("0x" + imageIdHex) + ")"))));
    AttachmentTextSplits(imageId, imageIdHex);
    Separators();
    assert AttachmentStatement(imageId, imageIdHex) == StatementList(table, names, vs);
    TextIsInert();
    MetaIsPlain();
    hide *;
    var behind := columns + (VALUES + (values + ";")) + rest;
    NameTokenizes(ATTACHMENTS, " (" + behind);
    ItemSpells(name, " (" + behind, Name(ATTACHMENTS));
    MarksSpell(" (", behind);
    Joins(name, " (", behind, [table], [Mark('(')], [table, Mark('(')]);
    AttachmentColumnsSpell(VALUES + (values + ";") + rest);
    ThreeValuesSpell(imageId, META, imageIdHex, ";" + rest);
    StatementSpells(name + " (", table, columns, names, values, vs, rest);
  }

  /** What the block should store: the event with its two images, and each image with its contents. */
  function Stored(eventId: string, sourceId: string, plate: string, extraData: string,
                  frontImageId: string, frontImageIdHex: string, rearImageId: string, rearImageIdHex: string)
    : seq<Insert>
  {
    [Insert("multi_event", [
       ("id", TextValue(eventId)), ("source", TextValue(sourceId)), ("plate", TextValue(plate)),
       ("extra_data", TextValue(extraData)), ("front_plate_image", ArrayOf(frontImageId)),
       ("rear_plate_image", ArrayOf(rearImageId))]),
     Insert("multi_event-@attachment", [
       ("id", TextValue(frontImageId)), ("meta", TextValue("{\"contentType\":\"image/png\"}")),
       ("data", HexValue(frontImageIdHex))]),
     Insert("multi_event-@attachment", [
       ("id", TextValue(rearImageId)), ("meta", TextValue("{\"contentType\":\"image/png\"}")),
       ("data", HexValue(rearImageIdHex))])]
  }

  lemma EventStatementBack(eventId: string, sourceId: string, plate: string, extraData: string,
                           frontImageId: string, rearImageId: string, rest: seq<Lexeme>)
    ensures
      Statement(EventStatement(eventId, sourceId, plate, extraData, frontImageId, rearImageId) + rest) ==
      Some((Insert("multi_event", [
        ("id", TextValue(eventId)), ("source", TextValue(sourceId)), ("plate", TextValue(plate)),
        ("extra_data", TextValue(extraData)), ("front_plate_image", ArrayOf(frontImageId)),
        ("rear_plate_image", ArrayOf(rearImageId))]), rest))
  {
    var names := ["id", "source", "plate", "extra_data", "front_plate_image", "rear_plate_image"];
    var vs := [TextValue(eventId), TextValue(sourceId), TextValue(plate), TextValue(extraData),
               ArrayOf(frontImageId), ArrayOf(rearImageId)];
    hide Statement, StatementList;
    StatementBack(Word("multi_event"), names, vs, rest);
    assert Cells(names, vs) == [
        ("id", TextValue(eventId)), ("source", TextValue(sourceId)), ("plate", TextValue(plate)),
        ("extra_data", TextValue(extraData)), ("front_plate_image", ArrayOf(frontImageId)),
        ("rear_plate_image", ArrayOf(rearImageId))];
  }

  lemma AttachmentStatementBack(imageId: string, imageIdHex: string, rest: seq<Lexeme>)
    ensures
      Statement(AttachmentStatement(imageId, imageIdHex) + rest) ==
      Some((Insert("multi_event-@attachment", [
        ("id", TextValue(imageId)), ("meta", TextValue("{\"contentType\":\"image/png\"}")),
        ("data", HexValue(imageIdHex))]), rest))
  {
    var vs := [TextValue(imageId), TextValue(META), HexValue(imageIdHex)];
    hide Statement, StatementList;
    StatementBack(Item(Name("multi_event-@attachment")), ["id", "meta", "data"], vs, rest);
    assert Cells(["id", "meta", "data"], vs) == [
        ("id", TextValue(imageId)), ("meta", TextValue("{\"contentType\":\"image/png\"}")),
        ("data", HexValue(imageIdHex))];
  }

  /** Three statements that are read one after the other. */
  lemma ThreeStatements(a: seq<Lexeme>, b: seq<Lexeme>, c: seq<Lexeme>, i: Insert, j: Insert, k: Insert)
    requires Statement(a + (b + c)) == Some((i, b + c)) && Statement(b + c) == Some((j, c))
    requires Statement(c) == Some((k, []))
    ensures Statements(a + (b + c)) == Some([i, j, k])
  {
    hide Statement;
    assert Statements([]) == Some([]);
    assert [k] + [] == [k] && [j] + [k] == [j, k] && [i] + [j, k] == [i, j, k];
    assert Statements(c) == Some([k]);
    assert Statements(b + c) == Some([j, k]);
  }

  lemma PlainBlockStores(eventId: string, sourceId: string, plate: string, extraData: string,
                         frontImageId: string, frontImageIdHex: string, rearImageId: string, rearImageIdHex: string)
    requires Plain(eventId) && Plain(sourceId) && Plain(plate) && Plain(frontImageId) && Plain(rearImageId)
    requires forall c :: c in frontImageIdHex ==> IsHexDigit(c)
    requires forall c :: c in rearImageIdHex ==> IsHexDigit(c)
    ensures
      Inserts(EventText(eventId, sourceId, plate, Escaped(extraData)) + ImagesText(frontImageId, rearImageId)
              + AttachmentText(frontImageId, frontImageIdHex) + AttachmentText(rearImageId, rearImageIdHex))
      == Some(Stored(eventId, sourceId, plate, extraData, frontImageId, frontImageIdHex, rearImageId, rearImageIdHex))
  {
    var event := EventText(eventId, sourceId, plate, Escaped(extraData)) + ImagesText(frontImageId, rearImageId);
    var front, rear := AttachmentText(frontImageId, frontImageIdHex), AttachmentText(rearImageId, rearImageIdHex);
    var a := EventStatement(eventId, sourceId, plate, extraData, frontImageId, rearImageId);
    var b, c := AttachmentStatement(frontImageId, frontImageIdHex), AttachmentStatement(rearImageId, rearImageIdHex);
    assert Tokens("") == Some([]) && Lexemes([]) == [];
    hide EventText, ImagesText, AttachmentText, EventStatement, AttachmentStatement, Plain, IsHexDigit, Escaped;
    hide Tokens, Lexemes, Statement, Statements;
    EventSpells(eventId, sourceId, plate, extraData, frontImageId, rearImageId, front + (rear + ""));
    AttachmentSpells(frontImageId, frontImageIdHex, rear + "");
    AttachmentSpells(rearImageId, rearImageIdHex, "");
    assert rear + "" == rear && event + (front + rear) == event + front + rear;
    assert Lexemes(Tokens(rear).value) == c + [] && c + [] == c;
    assert Lexemes(Tokens(event + front + rear).value) == a + (b + c);
    EventStatementBack(eventId, sourceId, plate, extraData, frontImageId, rearImageId, b + c);
    AttachmentStatementBack(frontImageId, frontImageIdHex, c);
    AttachmentStatementBack(rearImageId, rearImageIdHex, []);
    var stored :=
      Stored(eventId, sourceId, plate, extraData, frontImageId, frontImageIdHex, rearImageId, rearImageIdHex);
    ThreeStatements(a, b, c, stored[0], stored[1], stored[2]);
    assert [stored[0], stored[1], stored[2]] == stored;
  }

  lemma OfThree(a: (string, Value), b: (string, Value), c: (string, Value), more: seq<(string, Value)>)
    ensures OfCells([a, b, c] + more) == Plus(OfValue(a.1), Plus(OfValue(b.1), Plus(OfValue(c.1), OfCells(more))))
  {
    assert ([a, b, c] + more)[1..] == [b, c] + more && ([b, c] + more)[1..] == [c] + more;
    assert ([c] + more)[1..] == more;
    assert OfCells([c] + more) == Plus(OfValue(c.1), OfCells(more));
    assert OfCells([b, c] + more) == Plus(OfValue(b.1), OfCells([c] + more));
  }

  lemma EventTells(eventId: string, sourceId: string, plate: string, extraData: string,
                   frontImageId: string, rearImageId: string)
    ensures
      OfCells([("id", TextValue(eventId)), ("source", TextValue(sourceId)), ("plate", TextValue(plate)),
               ("extra_data", TextValue(extraData)), ("front_plate_image", ArrayOf(frontImageId)),
               ("rear_plate_image", ArrayOf(rearImageId))])
      == Contents(0, [eventId, sourceId, plate, extraData, frontImageId, rearImageId], [])
  {
    var a, b, c := ("id", TextValue(eventId)), ("source", TextValue(sourceId)), ("plate", TextValue(plate));
    var d, e := ("extra_data", TextValue(extraData)), ("front_plate_image", ArrayOf(frontImageId));
    var f := ("rear_plate_image", ArrayOf(rearImageId));
    assert OfCells([]) == NOTHING;
    assert [a, b, c] + [d, e, f] == [a, b, c, d, e, f] && [d, e, f] + [] == [d, e, f];
    hide OfCells;
    OfThree(d, e, f, []);
    OfThree(a, b, c, [d, e, f]);
  }

  lemma AttachmentTells(imageId: string, imageIdHex: string)
    ensures
      OfCells([("id", TextValue(imageId)), ("meta", TextValue(META)), ("data", HexValue(imageIdHex))])
      == Contents(0, [imageId, META], [imageIdHex])
  {
    var a, b, c := ("id", TextValue(imageId)), ("meta", TextValue(META)), ("data", HexValue(imageIdHex));
    assert OfCells([]) == NOTHING && [a, b, c] + [] == [a, b, c];
    hide OfCells;
    OfThree(a, b, c, []);
  }

  lemma StoredTells(eventId: string, sourceId: string, plate: string, extraData: string,
                    frontImageId: string, frontImageIdHex: string, rearImageId: string, rearImageIdHex: string)
    ensures
      OfInserts(Stored(eventId, sourceId, plate, extraData, frontImageId, frontImageIdHex, rearImageId, rearImageIdHex))
      == Arguments(eventId, sourceId, plate, extraData, frontImageId, frontImageIdHex, rearImageId, rearImageIdHex)
  {
    var stored :=
      Stored(eventId, sourceId, plate, extraData, frontImageId, frontImageIdHex, rearImageId, rearImageIdHex);
    EventTells(eventId, sourceId, plate, extraData, frontImageId, rearImageId);
    AttachmentTells(frontImageId, frontImageIdHex);
    AttachmentTells(rearImageId, rearImageIdHex);
    hide OfCells;
    InsertsOfThree(stored[0], stored[1], stored[2]);
    assert [stored[0], stored[1], stored[2]] == stored;
  }

  lemma InsertsOfThree(i: Insert, j: Insert, k: Insert)
    ensures
      var end := OfToken(Semicolon);
      OfInserts([i, j, k]) == Plus(Plus(OfCells(i.cells), end),
                                   Plus(Plus(OfCells(j.cells), end), Plus(Plus(OfCells(k.cells), end), NOTHING)))
  {
    hide OfCells;
    assert [i, j, k][1..] == [j, k] && [j, k][1..] == [k] && [k][1..] == [];
    assert OfInserts([]) == NOTHING;
    assert OfInserts([k]) == Plus(Plus(OfCells(k.cells), OfToken(Semicolon)), NOTHING);
    assert OfInserts([j, k]) == Plus(Plus(OfCells(j.cells), OfToken(Semicolon)), OfInserts([k]));
  }

  /**
   For all arguments: what a reader of INSERT statements finds in the block is the event, with each argument in the
   column of its name, and for each image its id, its type and its contents' key, if and only if none of the five values
   that are put between quotes as they are holds a quote or a backslash and the two keys are hexadecimal digits.
   */
  lemma BlockStoresExactly(eventId: string, sourceId: string, plate: string, extraData: string,
                           frontImageId: string, frontImageIdHex: string, rearImageId: string, rearImageIdHex: string)
    ensures
      var block := BuildInsertWithAttachments(Some(eventId), Some(sourceId), Some(plate), Escape(Some(extraData)),
                                              Some(frontImageId), Some(frontImageIdHex),
                                              Some(rearImageId), Some(rearImageIdHex));
      && block.Ok?
      && (Inserts(block.value) == Some([
            Insert("multi_event", [
              ("id", TextValue(eventId)), ("source", TextValue(sourceId)), ("plate", TextValue(plate)),
              ("extra_data", TextValue(extraData)), ("front_plate_image", ArrayOf(frontImageId)),
              ("rear_plate_image", ArrayOf(rearImageId))]),
            Insert("multi_event-@attachment", [
              ("id", TextValue(frontImageId)), ("meta", TextValue("{\"contentType\":\"image/png\"}")),
              ("data", HexValue(frontImageIdHex))]),
            Insert("multi_event-@attachment", [
              ("id", TextValue(rearImageId)), ("meta", TextValue("{\"contentType\":\"image/png\"}")),
              ("data", HexValue(rearImageIdHex))])])
          <==>
            && Plain(eventId) && Plain(sourceId) && Plain(plate) && Plain(frontImageId) && Plain(rearImageId)
            && (forall c :: c in frontImageIdHex ==> IsHexDigit(c))
            && (forall c :: c in rearImageIdHex ==> IsHexDigit(c)))
  {
    var text := EventText(eventId, sourceId, plate, Escaped(extraData)) + ImagesText(frontImageId, rearImageId)
      + AttachmentText(frontImageId, frontImageIdHex) + AttachmentText(rearImageId, rearImageIdHex);
    var stored :=
      Stored(eventId, sourceId, plate, extraData, frontImageId, frontImageIdHex, rearImageId, rearImageIdHex);
    hide EventText, ImagesText, AttachmentText, Plain, IsHexDigit, Escaped, Inserts, Tokens, ContentsOf;
    if Inserts(text) == Some(stored) {
      InsertsTell(text);
      StoredTells(eventId, sourceId, plate, extraData, frontImageId, frontImageIdHex, rearImageId, rearImageIdHex);
      HoldingBlockIsPlain(eventId, sourceId, plate, extraData, frontImageId, frontImageIdHex,
                          rearImageId, rearImageIdHex);
    } else if && Plain(eventId) && Plain(sourceId) && Plain(plate) && Plain(frontImageId) && Plain(rearImageId)
              && (forall c :: c in frontImageIdHex ==> IsHexDigit(c))
              && (forall c :: c in rearImageIdHex ==> IsHexDigit(c)) {
      PlainBlockStores(eventId, sourceId, plate, extraData, frontImageId, frontImageIdHex,
                       rearImageId, rearImageIdHex);
    }
  }
}
