/** The writer's documented scenarios stated on the model, and what the reader
    makes of a file the writer produced. */
module WriterScenarios {
  import opened Wrappers
  import opened Php
  import opened AssocList
  import opened Options
  import opened Writer
  import R = Reader

  // ----- objects -------------------------------------------------------------------

  /** An object with public `name` and `age` properties and no methods. */
  function PublicPerson(name: string, age: int): Obj {
    Obj([Field("name", Some(Str(name)), true), Field("age", Some(Int(age)), true)], [])
  }

  /** An object with private `name` and `age` and public `getName()` and `getAge()`. */
  function GetterPerson(name: string, age: int): Obj {
    Obj([Field("name", Some(Str(name)), false), Field("age", Some(Int(age)), false)],
        [Method("getName", Str(name), true), Method("getAge", Int(age), true)])
  }

  /** The fields of a public person are read directly. */
  lemma PublicPersonFields(name: string, age: int)
    ensures PropGet(PublicPerson(name, age), "name") == Success(Str(name))
    ensures PropGet(PublicPerson(name, age), "age") == Success(Int(age))
    ensures PropGet(PublicPerson(name, age), "note") == Success(Null)
  {
    var obj := PublicPerson(name, age);
    PropertyWithoutGetter(obj, "name", obj.fields[0]);
    PropertyWithoutGetter(obj, "age", obj.fields[1]);
    MissingIsNull(obj, "note");
  }

  /** The columns "name", "note", "age" of a person without a `note`: the
      missing property is an empty cell ("Alice,,30"). */
  lemma MissingPropertyIsEmptyCell(name: string, age: int)
    ensures ObjectLine(PublicPerson(name, age), Some(["name", "note", "age"])) == Success([Str(name), Null, Int(age)])
  {
    var obj := PublicPerson(name, age);
    PublicPersonFields(name, age);
    ThreeColumns(obj, "name", "note", "age", Str(name), Null, Int(age));
  }

  lemma ThreeColumns(obj: Obj, c0: string, c1: string, c2: string, v0: Value, v1: Value, v2: Value)
    requires PropGet(obj, c0) == Success(v0) && PropGet(obj, c1) == Success(v1) && PropGet(obj, c2) == Success(v2)
    ensures ColumnValues(obj, [c0, c1, c2]) == Success([v0, v1, v2])
  {
    var cs := [c0, c1, c2];
    ColumnValuesShape(obj, cs);
    assert PropGet(obj, cs[0]).Success? && PropGet(obj, cs[1]).Success? && PropGet(obj, cs[2]).Success?;
    var r := ColumnValues(obj, cs).value;
    assert r == [r[0], r[1], r[2]];
  }

  /** ... and the line reads "Alice,,30" for Alice aged 30. */
  lemma JoinedNameNoteAge(name: string, age: int)
    ensures Joined([Str(name), Null, Int(age)], ",") == name + ",," + IntToString(age)
  {
    var line := [Str(name), Null, Int(age)];
    assert line[..2] == [Str(name), Null];
    assert line[..2][..1] == [Str(name)];
    assert Joined(line[..2], ",") == name + "," + "";
  }

  /** Private properties are read through their public getters ("getName"
      for `name`, "getAge" for `age`). */
  lemma PersonGetters()
    ensures GetterName("name") == "getName"
    ensures GetterName("age") == "getAge"
  {
    GetterNameOfWord("name");
    GetterNameOfWord("age");
  }

  lemma GettersAreUsed(name: string, age: int)
    ensures PropGet(GetterPerson(name, age), "name") == Success(Str(name))
    ensures PropGet(GetterPerson(name, age), "age") == Success(Int(age))
  {
    var obj := GetterPerson(name, age);
    PersonGetters();
    assert FindMethod(obj.methods, "getName") == Some(obj.methods[0]);
    assert Lower(obj.methods[0].name) != Lower("getAge") by {
      assert |Lower(obj.methods[0].name)| == 7;
    }
    assert FindMethod(obj.methods[1..], "getAge") == Some(obj.methods[1]);
    assert FindMethod(obj.methods, "getAge") == Some(obj.methods[1]);
    GetterWins(obj, "name", obj.methods[0]);
    GetterWins(obj, "age", obj.methods[1]);
  }

  /** Without columns, an object with private `name` and `age` and a public
      `note` is written as the one cell of its note. */
  lemma MixedObjectValues(name: string, age: int, note: string)
    ensures PublicValues(GetterPerson(name, age).fields + [Field("note", Some(Str(note)), true)]) == [Str(note)]
  {
    var fs := GetterPerson(name, age).fields;
    var nf := Field("note", Some(Str(note)), true);
    PublicValuesAppend(fs, [nf]);
    PublicValuesAppend([fs[0]], [fs[1]]);
    assert fs == [fs[0]] + [fs[1]];
    PublicValuesOne(fs[0]);
    PublicValuesOne(fs[1]);
    PublicValuesOne(nf);
  }

  /** Two readable objects, columns "name" and "age": two lines, no error. */
  lemma TwoObjects(a: Obj, b: Obj, columns: seq<string>, la: Line, lb: Line)
    requires ObjectLine(a, Some(columns)) == Success(la)
    requires ObjectLine(b, Some(columns)) == Success(lb)
    ensures ObjectLines([a, b], Some(columns)) == Written([la, lb], None)
  {
    assert [a, b][..1] == [a];
    assert [a][..0] == [];
    assert ObjectLines([a], Some(columns)) == Written([la], None);
  }

  lemma NameAgeLine(obj: Obj, name: string, age: int)
    requires PropGet(obj, "name") == Success(Str(name))
    requires PropGet(obj, "age") == Success(Int(age))
    ensures ObjectLine(obj, Some(["name", "age"])) == Success([Str(name), Int(age)])
  {
    var cs := ["name", "age"];
    ColumnValuesShape(obj, cs);
    assert PropGet(obj, cs[0]).Success? && PropGet(obj, cs[1]).Success?;
    var r := ColumnValues(obj, cs).value;
    assert r == [r[0], r[1]];
  }

  /** `writeObjects([$a, $b], ['name', 'age'], ['name', 'age'])` on public
      properties and on getters writes the same three lines. */
  lemma WriteTwoPeople(a: string, n: int, b: string, m: int)
    ensures var expected := Written([[Str(a), Int(n)], [Str(b), Int(m)]], None);
      && ObjectLines([PublicPerson(a, n), PublicPerson(b, m)], Some(["name", "age"])) == expected
      && ObjectLines([GetterPerson(a, n), GetterPerson(b, m)], Some(["name", "age"])) == expected
  {
    PublicPersonFields(a, n);
    PublicPersonFields(b, m);
    GettersAreUsed(a, n);
    GettersAreUsed(b, m);
    NameAgeLine(PublicPerson(a, n), a, n);
    NameAgeLine(PublicPerson(b, m), b, m);
    NameAgeLine(GetterPerson(a, n), a, n);
    NameAgeLine(GetterPerson(b, m), b, m);
    TwoObjects(PublicPerson(a, n), PublicPerson(b, m), ["name", "age"], [Str(a), Int(n)], [Str(b), Int(m)]);
    TwoObjects(GetterPerson(a, n), GetterPerson(b, m), ["name", "age"], [Str(a), Int(n)], [Str(b), Int(m)]);
  }

  /** A line of a name and an age reads "name,age" ... */
  lemma JoinedNameAge(name: string, age: int)
    ensures Joined([Str(name), Int(age)], ",") == name + "," + IntToString(age)
  {
    assert [Str(name), Int(age)][..1] == [Str(name)];
  }

  /** ... so the test's two lines read "Alice,30" and "Bob,25". */
  lemma WriteTwoPeopleText()
    ensures Joined([Str("Alice"), Int(30)], ",") == "Alice,30"
    ensures Joined([Str("Bob"), Int(25)], ",") == "Bob,25"
  {
    JoinedNameAge("Alice", 30);
    JoinedNameAge("Bob", 25);
    assert IntToString(30) == "30" && IntToString(25) == "25";
  }

  // ----- rows ----------------------------------------------------------------------

  /** An `ArrayIterator` over two values, keyed 0 and 1, is written as those
      two values. */
  lemma TraversablePair(x: Value, y: Value)
    ensures RowLine(TraversableRow([("0", x), ("1", y)])) == [x, y]
  {
    var e := [("0", x), ("1", y)];
    TraversableLine(e, "0");
    assert Values(e) == [x, y];
  }

  /** The text of a line of two strings joined by commas. */
  lemma JoinedPair(a: string, b: string)
    ensures Joined([Str(a), Str(b)], ",") == a + "," + b
  {
    assert [Str(a), Str(b)][..1] == [Str(a)];
  }

  // ----- reading back what was written -----------------------------------------------

  /** A line of strings. */
  function Texts(cells: seq<string>): (line: Line)
    ensures |line| == |cells|
  {
    seq(|cells|, i requires 0 <= i < |cells| => Str(cells[i]))
  }

  /** The record the tokenizer returns for a written line, when the line's
      quoting reads back exactly: each cell's text. */
  function ReadBack(line: Line): (r: R.Record)
    ensures |r| == |line|
  {
    seq(|line|, i requires 0 <= i < |line| => Some(RenderedCell(line[i])))
  }

  /** The labels paired with the cells, in order. */
  function Zip(header: seq<string>, cells: seq<string>): (e: Entries<string>)
    requires |cells| == |header|
    ensures Keys(e) == header
  {
    seq(|header|, i requires 0 <= i < |header| => (header[i], cells[i]))
  }

  predicate HasText(cells: seq<string>) {
    exists j :: 0 <= j < |cells| && cells[j] != ""
  }

  predicate DistinctLabels(header: seq<string>) {
    forall i, j :: 0 <= i < j < |header| ==> header[i] != header[j]
  }

  /** A full line of text cells, read back and labelled by distinct labels,
      pairs each label with its own cell. */
  lemma ReadBackLabelled(header: seq<string>, cells: seq<string>)
    requires |cells| == |header| && DistinctLabels(header)
    ensures R.AssocOf(header, ReadBack(Texts(cells))) == Zip(header, cells)
  {
    var ps := R.Pairs(header, ReadBack(Texts(cells)));
    assert ps == Zip(header, cells);
    FromPairsOfDistinct(ps);
  }

  /** A line survives the reader's blank-line filter when a cell holds text
      or blank lines are kept. */
  lemma ReadBackKept(options: CsvOptions, cells: seq<string>)
    requires !options.skipEmptyLines || HasText(cells)
    ensures !R.Dropped(options, ReadBack(Texts(cells)))
  {
    if options.skipEmptyLines {
      var j :| 0 <= j < |cells| && cells[j] != "";
      assert !R.IsBlankCell(ReadBack(Texts(cells))[j]);
    }
  }

  /** The lines `writeRows` writes for a header and rows of text. */
  function WrittenLines(header: seq<string>, rows: seq<seq<string>>): seq<Line> {
    HeaderLines(Some(header)) + RowLines(seq(|rows|, i requires 0 <= i < |rows| => ArrayRow(Texts(rows[i]))))
  }

  /** The records the tokenizer returns for written lines. */
  function ReadAll(lines: seq<Line>): (rs: seq<R.Record>)
    ensures |rs| == |lines|
    ensures forall i :: 0 <= i < |lines| ==> rs[i] == ReadBack(lines[i])
  {
    seq(|lines|, i requires 0 <= i < |lines| => ReadBack(lines[i]))
  }

  lemma ReadAllWritten(header: seq<string>, rows: seq<seq<string>>)
    ensures var rs := ReadAll(WrittenLines(header, rows));
      && |rs| == |rows| + 1
      && rs[0] == ReadBack(Texts(header))
      && forall i :: 0 <= i < |rows| ==> rs[i + 1] == ReadBack(Texts(rows[i]))
  {
    var ls := WrittenLines(header, rows);
    assert HeaderLines(Some(header))[0] == Texts(header);
    assert |ls| == |rows| + 1;
    assert forall i :: 0 <= i < |rows| ==> ls[i + 1] == Texts(rows[i]);
  }

  /** A file whose first record is a header and none of whose records is
      dropped yields its other records labelled by that header. */
  lemma LabelledByFirst(options: CsvOptions, records: seq<R.Record>, header: seq<string>)
    requires options.hasHeader && |records| > 0
    requires forall i :: 0 <= i < |records| ==> !R.Dropped(options, records[i])
    requires R.HeaderOf(records[0]) == header
    ensures R.RowsOf(options, records) == R.Labelled(header, records[1..])
  {
    R.SurvivingAll(options, records);
    assert R.RowsOf(options, records) == R.RowsFrom(options, records);
  }

  /** `writeRows($rows, $header)` followed by `rows()` with a header: every
      row comes back as the associative array from the header's labels to
      its cells, when the labels are distinct, every row has one cell per
      label and no line is skipped as blank. */
  lemma WriteThenRead(options: CsvOptions, header: seq<string>, rows: seq<seq<string>>)
    requires options.hasHeader
    requires DistinctLabels(header)
    requires !options.skipEmptyLines || HasText(header)
    requires forall i :: 0 <= i < |rows| ==> |rows[i]| == |header|
    requires forall i :: 0 <= i < |rows| ==> !options.skipEmptyLines || HasText(rows[i])
    ensures R.RowsOf(options, ReadAll(WrittenLines(header, rows))) ==
      seq(|rows|, i requires 0 <= i < |rows| => R.Assoc(Zip(header, rows[i])))
  {
    var records := ReadAll(WrittenLines(header, rows));
    WrittenRecordsKept(options, header, rows);
    LabelledByFirst(options, records, header);
    WrittenRowsLabelled(header, rows);
  }

  lemma WrittenRecordsKept(options: CsvOptions, header: seq<string>, rows: seq<seq<string>>)
    requires !options.skipEmptyLines || HasText(header)
    requires forall i :: 0 <= i < |rows| ==> !options.skipEmptyLines || HasText(rows[i])
    ensures var records := ReadAll(WrittenLines(header, rows));
      && |records| > 0
      && R.HeaderOf(records[0]) == header
      && forall i :: 0 <= i < |records| ==> !R.Dropped(options, records[i])
  {
    var records := ReadAll(WrittenLines(header, rows));
    ReadAllWritten(header, rows);
    forall i | 0 <= i < |records|
      ensures !R.Dropped(options, records[i])
    {
      if i == 0 {
        ReadBackKept(options, header);
      } else {
        ReadBackKept(options, rows[i - 1]);
      }
    }
    assert R.HeaderOf(records[0]) == header;
  }

  lemma WrittenRowsLabelled(header: seq<string>, rows: seq<seq<string>>)
    requires DistinctLabels(header)
    requires forall i :: 0 <= i < |rows| ==> |rows[i]| == |header|
    ensures R.Labelled(header, ReadAll(WrittenLines(header, rows))[1..]) ==
      seq(|rows|, i requires 0 <= i < |rows| => R.Assoc(Zip(header, rows[i])))
  {
    var records := ReadAll(WrittenLines(header, rows));
    ReadAllWritten(header, rows);
    var expected := seq(|rows|, i requires 0 <= i < |rows| => R.Assoc(Zip(header, rows[i])));
    forall i | 0 <= i < |rows|
      ensures R.Labelled(header, records[1..])[i] == expected[i]
    {
      ReadBackLabelled(header, rows[i]);
    }
  }
}
