/** The writer: header and data lines appended to a CSV file, either from rows
    (arrays or traversables) or from objects (explicit columns read through a
    getter or a property, or every accessible property). A written line is
    kept as the sequence of PHP values handed to `fputcsv`; the quoting and
    escaping `fputcsv` applies to them is not part of this model. */
module Writer {
  import opened Wrappers
  import opened Php
  import opened AssocList
  import opened Options

  /** The cells of one line handed to `fputcsv`. */
  type Line = seq<Value>

  /** A property of an object: its value, or `None` for a typed property that
      was never initialised, and whether it is public. */
  datatype Field = Field(name: string, value: Option<Value>, public: bool)

  /** A method callable without arguments and the value it returns. */
  datatype Method = Method(name: string, result: Value, public: bool)

  /** An object as the writer sees it: its properties in declaration order and
      its zero-argument methods. */
  datatype Obj = Obj(fields: seq<Field>, methods: seq<Method>)

  /** One element of the `$rows` argument: a PHP array (its values are
      written in order, its keys ignored) or a `Traversable` (its key/value
      pairs are collected with `iterator_to_array`). */
  datatype RowArg = ArrayRow(cells: seq<Value>) | TraversableRow(entries: Entries<Value>)

  /** The `Error` PHP raises when the writer reaches what it may not read:
      a getter or a property that is not public from the writer's scope, or a
      typed property read before initialisation. */
  datatype AccessError =
    | NonPublicMethod(name: string)
    | NonPublicProperty(property: string)
    | Uninitialized(property: string)

  // ----- the getter name -------------------------------------------------------

  /** `str_replace(['_', '-'], ' ', $s)` */
  function SpaceForBreaks(s: string): (r: string)
    ensures |r| == |s|
    ensures forall i :: 0 <= i < |s| ==> r[i] == if s[i] == '_' || s[i] == '-' then ' ' else s[i]
    ensures forall i :: 0 <= i < |r| ==> r[i] != '_' && r[i] != '-'
  {
    seq(|s|, i requires 0 <= i < |s| => if s[i] == '_' || s[i] == '-' then ' ' else s[i])
  }

  /** The characters after which `ucwords` starts a new word by default:
      space, tab, carriage return, newline, form feed and vertical tab. */
  const WordDelimiters: set<char> := {' ', '\t', '\r', '\n', 12 as char, 11 as char}

  predicate IsWordDelimiter(c: char) {
    c in WordDelimiters
  }

  /** `ucwords` over the rest of a string; `start` says whether the first
      character begins a word. */
  function UcwordsFrom(s: string, start: bool): (r: string)
    ensures |r| == |s|
  {
    if s == [] then []
    else [if start then UpperChar(s[0]) else s[0]] + UcwordsFrom(s[1..], IsWordDelimiter(s[0]))
  }

  /** `ucwords` changes letter case at most. */
  lemma {:induction false} UcwordsPointwise(s: string, start: bool)
    ensures forall i :: 0 <= i < |s| ==> UcwordsFrom(s, start)[i] in {s[i], UpperChar(s[i])}
  {
    if s != [] {
      UcwordsPointwise(s[1..], IsWordDelimiter(s[0]));
      var r := UcwordsFrom(s, start);
      assert r[1..] == UcwordsFrom(s[1..], IsWordDelimiter(s[0]));
      forall i | 1 <= i < |s| ensures r[i] in {s[i], UpperChar(s[i])} {
        assert r[i] == r[1..][i - 1];
      }
    }
  }

  /** `ucwords`: the first letter of every word upper-cased, nothing else changed. */
  function Ucwords(s: string): string {
    UcwordsFrom(s, true)
  }

  /** `str_replace(' ', '', $s)` */
  function RemoveSpaces(s: string): (r: string)
    ensures |r| <= |s|
    ensures forall i :: 0 <= i < |r| ==> r[i] != ' '
  {
    if s == [] then [] else (if s[0] == ' ' then [] else [s[0]]) + RemoveSpaces(s[1..])
  }

  /** The name of the getter `propGet` looks for first. */
  function GetterName(property: string): string {
    "get" + RemoveSpaces(Ucwords(SpaceForBreaks(property)))
  }

  /** `s` without its spaces, underscores and hyphens. */
  function StripSeparators(s: string): string {
    if s == [] then []
    else (if s[0] == ' ' || s[0] == '_' || s[0] == '-' then [] else [s[0]]) + StripSeparators(s[1..])
  }

  lemma LowerUpper(c: char)
    ensures LowerChar(UpperChar(c)) == LowerChar(c)
  {
  }

  lemma LowerUcwords(s: string, start: bool)
    ensures Lower(UcwordsFrom(s, start)) == Lower(s)
  {
    var r := UcwordsFrom(s, start);
    UcwordsPointwise(s, start);
    forall i | 0 <= i < |s| ensures Lower(r)[i] == Lower(s)[i] {
      LowerUpper(s[i]);
    }
  }

  lemma {:induction false} LowerRemoveSpaces(s: string)
    ensures Lower(RemoveSpaces(s)) == RemoveSpaces(Lower(s))
  {
    if s != [] {
      LowerRemoveSpaces(s[1..]);
      assert Lower(s)[1..] == Lower(s[1..]);
      LowerAppend(if s[0] == ' ' then [] else [s[0]], RemoveSpaces(s[1..]));
    }
  }

  lemma {:induction false} RemoveSpacesOfBreaks(s: string)
    ensures RemoveSpaces(SpaceForBreaks(s)) == StripSeparators(s)
  {
    if s != [] {
      RemoveSpacesOfBreaks(s[1..]);
      assert SpaceForBreaks(s)[1..] == SpaceForBreaks(s[1..]);
    }
  }

  lemma {:induction false} StripLower(s: string)
    ensures Lower(StripSeparators(s)) == StripSeparators(Lower(s))
  {
    if s != [] {
      StripLower(s[1..]);
      assert Lower(s)[1..] == Lower(s[1..]);
      LowerAppend(if s[0] == ' ' || s[0] == '_' || s[0] == '-' then [] else [s[0]], StripSeparators(s[1..]));
    }
  }

  /** Up to letter case, which `method_exists` ignores, the getter of a
      property is "get" followed by the property name without its spaces,
      underscores and hyphens: "first_name", "first-name", "firstName" and
      "FirstName" all look for the same getter. */
  lemma GetterNameIgnoringCase(property: string)
    ensures Lower(GetterName(property)) == "get" + Lower(StripSeparators(property))
  {
    var spaced := SpaceForBreaks(property);
    LowerAppend("get", RemoveSpaces(Ucwords(spaced)));
    LowerRemoveSpaces(Ucwords(spaced));
    LowerUcwords(spaced, true);
    LowerRemoveSpaces(spaced);
    RemoveSpacesOfBreaks(property);
    assert Lower("get") == "get";
  }

  /** The getter name never contains a space, an underscore or a hyphen
      after "get". */
  lemma GetterNameHasNoSeparators(property: string)
    ensures GetterName(property)[..3] == "get"
    ensures forall i :: 3 <= i < |GetterName(property)| ==>
      var c := GetterName(property)[i]; c != ' ' && c != '_' && c != '-'
  {
    var spaced := SpaceForBreaks(property);
    var upper := Ucwords(spaced);
    UcwordsPointwise(spaced, true);
    forall i | 0 <= i < |upper| ensures upper[i] != '_' && upper[i] != '-' {
      assert upper[i] in {spaced[i], UpperChar(spaced[i])};
    }
    RemovedSubsequence(upper);
  }

  /** Every character `RemoveSpaces` keeps comes from its input. */
  lemma {:induction false} RemovedSubsequence(s: string)
    ensures forall i :: 0 <= i < |RemoveSpaces(s)| ==> RemoveSpaces(s)[i] in s
  {
    if s != [] {
      RemovedSubsequence(s[1..]);
    }
  }

  /** Whether the character after `a` begins a word, `a` itself having been
      entered with `start`. */
  function StartAfter(a: string, start: bool): bool {
    if a == [] then start else IsWordDelimiter(a[|a| - 1])
  }

  /** `ucwords` works left to right: a word may span the two halves. */
  lemma {:induction false} UcwordsAppend(a: string, b: string, start: bool)
    ensures UcwordsFrom(a + b, start) == UcwordsFrom(a, start) + UcwordsFrom(b, StartAfter(a, start))
  {
    if a == [] {
      assert a + b == b;
    } else {
      var next := IsWordDelimiter(a[0]);
      var c := if start then UpperChar(a[0]) else a[0];
      assert StartAfter(a[1..], next) == StartAfter(a, start) by {
        if |a| > 1 {
          assert a[1..][|a[1..]| - 1] == a[|a| - 1];
        }
      }
      UcwordsAppend(a[1..], b, next);
      var x := UcwordsFrom(a[1..], next);
      var y := UcwordsFrom(b, StartAfter(a, start));
      assert (a + b)[1..] == a[1..] + b;
      calc {
        UcwordsFrom(a + b, start);
        [c] + UcwordsFrom(a[1..] + b, next);
        [c] + (x + y);
        ([c] + x) + y;
        UcwordsFrom(a, start) + y;
      }
    }
  }

  /** Inside a word only the first letter can change. */
  lemma {:induction false} UcwordsWord(w: string, start: bool)
    requires forall i :: 0 <= i < |w| ==> !IsWordDelimiter(w[i])
    ensures UcwordsFrom(w, start) == if w == [] then [] else [if start then UpperChar(w[0]) else w[0]] + w[1..]
  {
    if |w| > 1 {
      UcwordsWord(w[1..], false);
    }
  }

  lemma {:induction false} RemoveSpacesAppend(a: string, b: string)
    ensures RemoveSpaces(a + b) == RemoveSpaces(a) + RemoveSpaces(b)
  {
    if a == [] {
      assert a + b == b;
    } else {
      var head := if a[0] == ' ' then [] else [a[0]];
      assert (a + b)[1..] == a[1..] + b;
      assert (a + b)[0] == a[0];
      RemoveSpacesAppend(a[1..], b);
      calc {
        RemoveSpaces(a + b);
        head + RemoveSpaces(a[1..] + b);
        head + (RemoveSpaces(a[1..]) + RemoveSpaces(b));
        (head + RemoveSpaces(a[1..])) + RemoveSpaces(b);
      }
    }
  }

  lemma {:induction false} RemoveSpacesOfWord(w: string)
    requires forall i :: 0 <= i < |w| ==> w[i] != ' '
    ensures RemoveSpaces(w) == w
  {
    if w != [] {
      RemoveSpacesOfWord(w[1..]);
    }
  }

  /** A word `ucwords` and the separator replacement leave alone except for
      its first letter. */
  predicate IsPlainWord(w: string) {
    forall i :: 0 <= i < |w| ==> !IsWordDelimiter(w[i]) && w[i] != '_' && w[i] != '-'
  }

  /** The word with its first letter upper-cased. */
  function Capitalised(w: string): string
    requires w != []
  {
    [UpperChar(w[0])] + w[1..]
  }

  lemma CapitalisedIsPlain(w: string)
    requires w != [] && IsPlainWord(w)
    ensures forall i :: 0 <= i < |Capitalised(w)| ==> Capitalised(w)[i] != ' '
    ensures UcwordsFrom(w, true) == Capitalised(w)
  {
    UcwordsWord(w, true);
    assert ' ' in WordDelimiters;
  }

  /** A one-word property looks for "get" and the word capitalised:
      "name" looks for "getName". */
  lemma GetterNameOfWord(w: string)
    requires w != [] && IsPlainWord(w)
    ensures GetterName(w) == "get" + Capitalised(w)
  {
    assert SpaceForBreaks(w) == w;
    CapitalisedIsPlain(w);
    RemoveSpacesOfWord(Capitalised(w));
  }

  /** Two words joined by an underscore, a hyphen or a space look for "get"
      and both words capitalised: "first_name" looks for "getFirstName". */
  lemma GetterNameOfTwoWords(a: string, separator: char, b: string)
    requires a != [] && IsPlainWord(a) && b != [] && IsPlainWord(b)
    requires separator == '_' || separator == '-' || separator == ' '
    ensures GetterName(a + [separator] + b) == "get" + Capitalised(a) + Capitalised(b)
  {
    var spaced := a + " " + b;
    assert SpaceForBreaks(a + [separator] + b) == spaced;
    assert spaced == a + (" " + b);
    UcwordsAppend(a, " " + b, true);
    CapitalisedIsPlain(a);
    CapitalisedIsPlain(b);
    assert !IsWordDelimiter(a[|a| - 1]);
    assert (" " + b)[1..] == b;
    assert UcwordsFrom(" " + b, false) == " " + Capitalised(b);
    assert Ucwords(spaced) == Capitalised(a) + (" " + Capitalised(b));
    RemoveSpacesAppend(Capitalised(a), " " + Capitalised(b));
    RemoveSpacesOfWord(Capitalised(a));
    assert (" " + Capitalised(b))[1..] == Capitalised(b);
    RemoveSpacesOfWord(Capitalised(b));
  }

  // ----- reading an object ---------------------------------------------------------

  /** `method_exists`: the first method whose name equals `name` ignoring case. */
  function FindMethod(methods: seq<Method>, name: string): Option<Method> {
    if methods == [] then None
    else if Lower(methods[0].name) == Lower(name) then Some(methods[0])
    else FindMethod(methods[1..], name)
  }

  /** The method found is one of the object's, named `name` up to case, and
      none is found exactly when no method has that name up to case. */
  lemma {:induction false} FindMethodSpec(methods: seq<Method>, name: string)
    ensures FindMethod(methods, name).Some? ==>
      FindMethod(methods, name).value in methods && Lower(FindMethod(methods, name).value.name) == Lower(name)
    ensures FindMethod(methods, name).None? <==> forall i :: 0 <= i < |methods| ==> Lower(methods[i].name) != Lower(name)
    decreases |methods|
  {
    if methods != [] {
      FindMethodSpec(methods[1..], name);
      assert forall i :: 1 <= i < |methods| ==> methods[i] == methods[1..][i - 1];
    }
  }

  /** `property_exists`: the property with exactly this name. */
  function FindField(fields: seq<Field>, name: string): Option<Field> {
    if fields == [] then None
    else if fields[0].name == name then Some(fields[0])
    else FindField(fields[1..], name)
  }

  /** The property found is one of the object's with that exact name, and
      none is found exactly when no property has it. */
  lemma {:induction false} FindFieldSpec(fields: seq<Field>, name: string)
    ensures FindField(fields, name).Some? ==> FindField(fields, name).value in fields && FindField(fields, name).value.name == name
    ensures FindField(fields, name).None? <==> forall i :: 0 <= i < |fields| ==> fields[i].name != name
    decreases |fields|
  {
    if fields != [] {
      FindFieldSpec(fields[1..], name);
      assert forall i :: 1 <= i < |fields| ==> fields[i] == fields[1..][i - 1];
    }
  }

  /** `propGet`: the getter's result if the object has the getter, else the
      property's value if it has the property, else null. */
  function PropGet(obj: Obj, property: string): Result<Value, AccessError> {
    match FindMethod(obj.methods, GetterName(property))
    case Some(m) => if m.public then Success(m.result) else Failure(NonPublicMethod(m.name))
    case None =>
      match FindField(obj.fields, property)
      case None => Success(Null)
      case Some(f) =>
        if !f.public then Failure(NonPublicProperty(property))
        else if f.value.None? then Failure(Uninitialized(property))
        else Success(f.value.value)
  }

  /** `array_values(get_object_vars($obj))` from the writer's scope: the
      values of the public, initialised properties, in declaration order. */
  function PublicValues(fields: seq<Field>): (r: Line)
    ensures |r| <= |fields|
  {
    if fields == [] then []
    else (if fields[0].public && fields[0].value.Some? then [fields[0].value.value] else []) + PublicValues(fields[1..])
  }

  /** The cells of the columns, read in order; the first error ends it. */
  function ColumnValues(obj: Obj, columns: seq<string>): Result<Line, AccessError>
    decreases |columns|
  {
    if columns == [] then Success([])
    else
      var init :- ColumnValues(obj, columns[..|columns| - 1]);
      var v :- PropGet(obj, columns[|columns| - 1]);
      Success(init + [v])
  }

  /** The line `writeObjects` writes for one object. */
  function ObjectLine(obj: Obj, columns: Option<seq<string>>): Result<Line, AccessError> {
    if columns.Some? then ColumnValues(obj, columns.value) else Success(PublicValues(obj.fields))
  }

  /** What `writeObjects` writes for the objects, in order, up to the first
      object it cannot read, and that object's error. */
  datatype Written = Written(lines: seq<Line>, error: Option<AccessError>)

  function ObjectLines(objs: seq<Obj>, columns: Option<seq<string>>): Written
    decreases |objs|
  {
    if objs == [] then Written([], None)
    else
      var w := ObjectLines(objs[..|objs| - 1], columns);
      if w.error.Some? then w
      else match ObjectLine(objs[|objs| - 1], columns)
        case Failure(e) => Written(w.lines, Some(e))
        case Success(line) => Written(w.lines + [line], None)
  }

  /** The line `writeRows` writes for one row: a traversable's pairs are
      collected into an array first, so a repeated key keeps its first
      position and its last value. */
  function RowLine(row: RowArg): Line {
    match row
    case ArrayRow(cells) => cells
    case TraversableRow(entries) => Values(FromPairs(entries))
  }

  function RowLines(rows: seq<RowArg>): (r: seq<Line>)
    ensures |r| == |rows|
    ensures forall i :: 0 <= i < |rows| ==> r[i] == RowLine(rows[i])
  {
    seq(|rows|, i requires 0 <= i < |rows| => RowLine(rows[i]))
  }

  /** The header line, written first when a header is given. */
  function HeaderLines(header: Option<seq<string>>): (r: seq<Line>)
    ensures header.None? ==> r == []
    ensures header.Some? ==> |r| == 1 && |r[0]| == |header.value|
    ensures header.Some? ==> forall i :: 0 <= i < |header.value| ==> r[0][i] == Str(header.value[i])
  {
    if header.None? then [] else [seq(|header.value|, i requires 0 <= i < |header.value| => Str(header.value[i]))]
  }

  /** The text of a cell as `fputcsv` renders it before quoting; a float's
      text stands for PHP's rendering of that double. */
  function RenderedCell(v: Value): string {
    if v.Float? then v.text else ToStr(v)
  }

  /** The cells' texts joined by the delimiter: the written line when no cell
      needs quoting. */
  function Joined(line: Line, delimiter: string): string
    decreases |line|
  {
    if line == [] then ""
    else if |line| == 1 then RenderedCell(line[0])
    else Joined(line[..|line| - 1], delimiter) + delimiter + RenderedCell(line[|line| - 1])
  }

  // ----- properties -----------------------------------------------------------------

  /** A public getter wins over a property of the same name. */
  lemma GetterWins(obj: Obj, property: string, m: Method)
    requires FindMethod(obj.methods, GetterName(property)) == Some(m) && m.public
    ensures PropGet(obj, property) == Success(m.result)
  {
  }

  /** Without a getter, a public initialised property is read directly ... */
  lemma PropertyWithoutGetter(obj: Obj, property: string, f: Field)
    requires forall i :: 0 <= i < |obj.methods| ==> Lower(obj.methods[i].name) != Lower(GetterName(property))
    requires f in obj.fields && f.name == property && f.public && f.value.Some?
    requires forall i, j :: 0 <= i < j < |obj.fields| ==> obj.fields[i].name != obj.fields[j].name
    ensures PropGet(obj, property) == Success(f.value.value)
  {
    FindMethodSpec(obj.methods, GetterName(property));
    FindFieldSpec(obj.fields, property);
    var g := FindField(obj.fields, property).value;
    var i :| 0 <= i < |obj.fields| && obj.fields[i] == f;
    var j :| 0 <= j < |obj.fields| && obj.fields[j] == g;
    assert i == j;
  }

  /** ... and without either, the cell is null, written as an empty field. */
  lemma MissingIsNull(obj: Obj, property: string)
    requires forall i :: 0 <= i < |obj.methods| ==> Lower(obj.methods[i].name) != Lower(GetterName(property))
    requires forall i :: 0 <= i < |obj.fields| ==> obj.fields[i].name != property
    ensures PropGet(obj, property) == Success(Null)
    ensures RenderedCell(Null) == ""
  {
    FindMethodSpec(obj.methods, GetterName(property));
    FindFieldSpec(obj.fields, property);
  }

  /** With explicit columns the line has one cell per column, in column
      order, each the column's `propGet` ... */
  lemma {:induction false} ColumnValuesShape(obj: Obj, columns: seq<string>)
    ensures ColumnValues(obj, columns).Success? <==> forall j :: 0 <= j < |columns| ==> PropGet(obj, columns[j]).Success?
    ensures ColumnValues(obj, columns).Success? ==>
      && |ColumnValues(obj, columns).value| == |columns|
      && forall j :: 0 <= j < |columns| ==> PropGet(obj, columns[j]) == Success(ColumnValues(obj, columns).value[j])
    decreases |columns|
  {
    if columns != [] {
      var init := columns[..|columns| - 1];
      var last := columns[|columns| - 1];
      ColumnValuesShape(obj, init);
      assert forall j :: 0 <= j < |init| ==> init[j] == columns[j];
      var head := ColumnValues(obj, init);
      var v := PropGet(obj, last);
      if head.Success? && v.Success? {
        var line := head.value + [v.value];
        assert ColumnValues(obj, columns) == Success(line);
        forall j | 0 <= j < |columns| ensures PropGet(obj, columns[j]) == Success(line[j]) {
          if j < |init| {
            assert line[j] == head.value[j];
          }
        }
      } else {
        assert ColumnValues(obj, columns).Failure?;
        if head.Failure? {
          var j :| 0 <= j < |init| && PropGet(obj, init[j]).Failure?;
          assert PropGet(obj, columns[j]).Failure?;
        }
      }
    }
  }

  /** ... and it fails with the first column that cannot be read. */
  lemma {:induction false} ColumnValuesFailsAt(obj: Obj, columns: seq<string>)
    requires ColumnValues(obj, columns).Failure?
    ensures exists k :: && 0 <= k < |columns| && PropGet(obj, columns[k]) == Failure(ColumnValues(obj, columns).error)
                        && forall j :: 0 <= j < k ==> PropGet(obj, columns[j]).Success?
    decreases |columns|
  {
    assert columns != [];
    var init := columns[..|columns| - 1];
    var last := columns[|columns| - 1];
    var head := ColumnValues(obj, init);
    assert forall j :: 0 <= j < |init| ==> init[j] == columns[j];
    if head.Failure? {
      assert ColumnValues(obj, columns).error == head.error;
      ColumnValuesFailsAt(obj, init);
      var k :| && 0 <= k < |init| && PropGet(obj, init[k]) == Failure(head.error)
               && forall j :: 0 <= j < k ==> PropGet(obj, init[j]).Success?;
      assert PropGet(obj, columns[k]) == Failure(ColumnValues(obj, columns).error);
      assert forall j :: 0 <= j < k ==> PropGet(obj, columns[j]).Success?;
    } else {
      ColumnValuesShape(obj, init);
      assert PropGet(obj, last).Failure? && ColumnValues(obj, columns).error == PropGet(obj, last).error;
      assert PropGet(obj, columns[|init|]) == Failure(ColumnValues(obj, columns).error);
      assert forall j :: 0 <= j < |init| ==> PropGet(obj, columns[j]).Success?;
    }
  }

  /** Without columns, every object is readable: the accessible properties in
      declaration order. */
  lemma {:induction false} PublicValuesAreFields(fields: seq<Field>)
    ensures forall v :: v in PublicValues(fields) ==>
      exists i :: 0 <= i < |fields| && fields[i].public && fields[i].value == Some(v)
    ensures (forall i :: 0 <= i < |fields| ==> fields[i].public && fields[i].value.Some?) ==>
      PublicValues(fields) == seq(|fields|, i requires 0 <= i < |fields| => fields[i].value.value)
  {
    if fields != [] {
      PublicValuesAreFields(fields[1..]);
      var rest := PublicValues(fields[1..]);
      forall v | v in PublicValues(fields)
        ensures exists i :: 0 <= i < |fields| && fields[i].public && fields[i].value == Some(v)
      {
        if v !in rest {
          assert fields[0].public && fields[0].value == Some(v);
        } else {
          var i :| 0 <= i < |fields[1..]| && fields[1..][i].public && fields[1..][i].value == Some(v);
          assert fields[i + 1].public && fields[i + 1].value == Some(v);
        }
      }
    }
  }

  /** `get_object_vars` works property by property, in declaration order:
      the values of two runs of properties are those of each, in turn ... */
  lemma {:induction false} PublicValuesAppend(a: seq<Field>, b: seq<Field>)
    ensures PublicValues(a + b) == PublicValues(a) + PublicValues(b)
  {
    if a == [] {
      assert a + b == b;
    } else {
      assert (a + b)[0] == a[0];
      assert (a + b)[1..] == a[1..] + b;
      PublicValuesAppend(a[1..], b);
    }
  }

  /** ... and one property contributes its value exactly when it is public
      and initialised. */
  lemma PublicValuesOne(f: Field)
    ensures PublicValues([f]) == if f.public && f.value.Some? then [f.value.value] else []
  {
    assert [f][1..] == [];
  }

  /** `writeObjects` writes one line per object, in order, until the first
      object it cannot read; that object writes nothing and its error ends
      the call. */
  lemma {:induction false} ObjectLinesShape(objs: seq<Obj>, columns: Option<seq<string>>)
    ensures var w := ObjectLines(objs, columns);
      && |w.lines| <= |objs|
      && (forall i :: 0 <= i < |w.lines| ==> ObjectLine(objs[i], columns) == Success(w.lines[i]))
      && (w.error.None? ==> |w.lines| == |objs|)
      && (w.error.Some? ==>
            && |w.lines| < |objs|
            && ObjectLine(objs[|w.lines|], columns) == Failure(w.error.value))
    decreases |objs|
  {
    if objs != [] {
      ObjectLinesShape(objs[..|objs| - 1], columns);
    }
  }

  /** Without columns nothing can fail. */
  lemma {:induction false} ObjectLinesWithoutColumns(objs: seq<Obj>)
    ensures ObjectLines(objs, None) == Written(seq(|objs|, i requires 0 <= i < |objs| => PublicValues(objs[i].fields)), None)
    decreases |objs|
  {
    if objs != [] {
      ObjectLinesWithoutColumns(objs[..|objs| - 1]);
    }
  }

  /** A traversable with distinct keys is written as its values in order; a
      repeated key is written once, with its last value. */
  lemma TraversableLine(entries: Entries<Value>, k: string)
    ensures DistinctKeys(entries) ==> RowLine(TraversableRow(entries)) == Values(entries)
    ensures Lookup(FromPairs(entries), k) == LastValue(entries, k)
    ensures |RowLine(TraversableRow(entries))| <= |entries|
  {
    FromPairsLookup(entries, k);
    if DistinctKeys(entries) {
      FromPairsOfDistinct(entries);
    }
    FromPairsLength(entries);
  }

  lemma {:induction false} FromPairsLength<V>(ps: seq<(string, V)>)
    ensures |FromPairs(ps)| <= |ps|
    decreases |ps|
  {
    if ps != [] {
      FromPairsLength(ps[..|ps| - 1]);
      PutKeys(FromPairs(ps[..|ps| - 1]), ps[|ps| - 1].0, ps[|ps| - 1].1);
      assert |Keys(FromPairs(ps))| == |FromPairs(ps)|;
    }
  }

  // ----- the writer -------------------------------------------------------------------

  class CsvWriter {
    const options: CsvOptions
    /** Every line of the file, in order. */
    var lines: seq<Line>

    constructor (options: CsvOptions, lines: seq<Line>)
      ensures this.options == options && this.lines == lines
    {
      this.options := options;
      this.lines := lines;
    }

    /** `fromPath`: the file's current lines are `existing`, or `None` when it
        cannot be opened (the `SplFileObject` constructor throws). Mode "w"
        empties the file, mode "a" keeps what is there; missing options are
        the defaults. */
    static method FromPath(options: Option<CsvOptions>, append: bool, existing: Option<seq<Line>>)
      returns (w: Option<CsvWriter>)
      ensures existing.None? ==> w.None?
      ensures existing.Some? ==>
        && w.Some? && fresh(w.value)
        && w.value.options == OrDefault(options)
        && w.value.lines == if append then existing.value else []
    {
      if existing.None? {
        return None;
      }
      var opts := if options.Some? then options.value else Default;
      var writer := new CsvWriter(opts, if append then existing.value else []);
      return Some(writer);
    }

    /** `writeRows`: the header line if given, then one line per row. */
    method WriteRows(rows: seq<RowArg>, header: Option<seq<string>>)
      modifies this
      ensures lines == old(lines) + HeaderLines(header) + RowLines(rows)
    {
      if header.Some? {
        lines := lines + HeaderLines(header);
      }
      for i := 0 to |rows|
        invariant lines == old(lines) + HeaderLines(header) + RowLines(rows[..i])
      {
        assert RowLines(rows[..i + 1]) == RowLines(rows[..i]) + [RowLine(rows[i])];
        lines := lines + [RowLine(rows[i])];
      }
      assert rows[..|rows|] == rows;
    }

    /** The inner loop of `writeObjects` for one object. */
    static method ObjectRow(obj: Obj, columns: Option<seq<string>>) returns (r: Result<Line, AccessError>)
      ensures r == ObjectLine(obj, columns)
    {
      if columns.None? {
        return Success(PublicValues(obj.fields));
      }
      var cs := columns.value;
      var line: Line := [];
      for j := 0 to |cs|
        invariant ColumnValues(obj, cs[..j]) == Success(line)
      {
        assert cs[..j + 1][..j] == cs[..j];
        var v := PropGet(obj, cs[j]);
        if v.Failure? {
          ColumnValuesSticky(obj, cs, j + 1);
          return Failure(v.error);
        }
        line := line + [v.value];
      }
      assert cs[..|cs|] == cs;
      return Success(line);
    }

    /** `writeObjects`: the header line if given, then one line per object,
        until an object cannot be read; that error ends the call. */
    method WriteObjects(objs: seq<Obj>, columns: Option<seq<string>>, header: Option<seq<string>>)
      returns (error: Option<AccessError>)
      modifies this
      ensures var w := ObjectLines(objs, columns);
        && lines == old(lines) + HeaderLines(header) + w.lines
        && error == w.error
    {
      if header.Some? {
        lines := lines + HeaderLines(header);
      }
      ghost var start := lines;
      error := None;
      var k := 0;
      while k < |objs|
        invariant 0 <= k <= |objs|
        invariant start == old(lines) + HeaderLines(header)
        invariant ObjectLines(objs[..k], columns).error.None?
        invariant lines == start + ObjectLines(objs[..k], columns).lines
      {
        assert objs[..k + 1][..k] == objs[..k];
        var line := ObjectRow(objs[k], columns);
        if line.Failure? {
          ObjectLinesSticky(objs, columns, k + 1);
          return Some(line.error);
        }
        lines := lines + [line.value];
        k := k + 1;
      }
      assert objs[..k] == objs;
    }
  }

  lemma {:induction false} ColumnValuesSticky(obj: Obj, columns: seq<string>, m: nat)
    requires m <= |columns|
    requires ColumnValues(obj, columns[..m]).Failure?
    ensures ColumnValues(obj, columns) == ColumnValues(obj, columns[..m])
    decreases |columns| - m
  {
    if m == |columns| {
      assert columns[..m] == columns;
    } else {
      assert columns[..m + 1][..m] == columns[..m];
      ColumnValuesSticky(obj, columns, m + 1);
    }
  }

  lemma {:induction false} ObjectLinesSticky(objs: seq<Obj>, columns: Option<seq<string>>, m: nat)
    requires m <= |objs|
    requires ObjectLines(objs[..m], columns).error.Some?
    ensures ObjectLines(objs, columns) == ObjectLines(objs[..m], columns)
    decreases |objs| - m
  {
    if m == |objs| {
      assert objs[..m] == objs;
    } else {
      assert objs[..m + 1][..m] == objs[..m];
      ObjectLinesSticky(objs, columns, m + 1);
    }
  }
}
