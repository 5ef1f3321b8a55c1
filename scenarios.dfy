/** The library's documented scenarios, stated on the model: the files,
    classes and converters of the hydrator's test suite and what hydration
    produces from them. */
module Scenarios {
  import opened Wrappers
  import opened Php
  import opened AssocList
  import opened Options
  import opened Mapping
  import opened Reader
  import opened Hydrator

  // ----- converters ----------------------------------------------------------------

  /** `intval` on a string. */
  const IntVal: Converter := s => Success(Int(ParseInt(s)))

  /** A static method that always throws a `RuntimeException('boom')`. */
  const Thrower: Converter := s => Failure("boom")

  /** `intval` as a global function and, for a class `cls` (the test suite's
      `ThrowingConverter`), the throwing static method `cls::thrower`. */
  function CallablesWith(cls: string): Registry {
    Registry(map["intval" := IntVal], map[(cls, "thrower") := Thrower])
  }

  const Callables := CallablesWith("ThrowingConverter")

  /** "Class::method" resolves to the static method when the class name holds
      no colon and no global function carries the whole name. */
  lemma ResolveStaticMethod(registry: Registry, cls: string, m: string)
    requires forall j :: 0 <= j < |cls| ==> cls[j] != ':'
    requires cls + "::" + m !in registry.functions
    requires (cls, m) in registry.methods
    ensures ResolveConverter(registry, cls + "::" + m) == Some(registry.methods[(cls, m)])
  {
    var s := cls + "::" + m;
    assert SeparatorAt(s, |cls|);
    var r := FindScopeSeparator(s, 0);
    assert r.Some?;
    assert forall j :: 0 <= j < |cls| ==> s[j] == cls[j];
    assert r.value == |cls|;
    assert s[..|cls|] == cls && s[|cls| + 2..] == m;
  }

  /** A row of two properties that both succeed. */
  lemma TwoFields(props: seq<Property>, row: Row, useAttributes: bool, registry: Registry)
    requires |props| == 2
    requires FieldValue(props[0], row, useAttributes, registry).Success?
    requires FieldValue(props[1], row, useAttributes, registry).Success?
    ensures RowValues(props, row, useAttributes, registry) == Success(map[
      props[0].name := FieldValue(props[0], row, useAttributes, registry).value,
      props[1].name := FieldValue(props[1], row, useAttributes, registry).value])
  {
    assert props[..0] == [];
    RowValuesStep(props, 0, row, useAttributes, registry);
    RowValuesStep(props, 1, row, useAttributes, registry);
    assert props[..2] == props;
  }

  /** A row of three properties that all succeed. */
  lemma ThreeFields(props: seq<Property>, row: Row, useAttributes: bool, registry: Registry)
    requires |props| == 3
    requires FieldValue(props[0], row, useAttributes, registry).Success?
    requires FieldValue(props[1], row, useAttributes, registry).Success?
    requires FieldValue(props[2], row, useAttributes, registry).Success?
    ensures RowValues(props, row, useAttributes, registry) == Success(map[
      props[0].name := FieldValue(props[0], row, useAttributes, registry).value,
      props[1].name := FieldValue(props[1], row, useAttributes, registry).value,
      props[2].name := FieldValue(props[2], row, useAttributes, registry).value])
  {
    assert props[..0] == [];
    RowValuesStep(props, 0, row, useAttributes, registry);
    RowValuesStep(props, 1, row, useAttributes, registry);
    RowValuesStep(props, 2, row, useAttributes, registry);
    assert props[..3] == props;
  }

  /** A plain string property whose cell holds `s` takes `s`. */
  lemma TextField(p: Property, row: Row, useAttributes: bool, registry: Registry, s: string)
    requires ColumnOf(p, useAttributes).Some? ==>
      ColumnOf(p, useAttributes).value.converter.None? && !ColumnOf(p, useAttributes).value.required
    requires p.typ.Builtin? && p.typ.name == StringType && (s != "" || !p.typ.nullable)
    requires Resolve(ColumnOf(p, useAttributes), p.name, row) == Some(s)
    ensures FieldValue(p, row, useAttributes, registry) == Success(Str(s))
  {
    PlainField(p, row, useAttributes, registry);
    StringCoercion(p.typ.nullable, s);
  }

  /** A plain `?string` property whose cell is empty takes null. */
  lemma BlankNullableField(p: Property, row: Row, useAttributes: bool, registry: Registry)
    requires ColumnOf(p, useAttributes).Some? ==>
      ColumnOf(p, useAttributes).value.converter.None? && !ColumnOf(p, useAttributes).value.required
    requires p.typ == Builtin(StringType, true)
    requires Resolve(ColumnOf(p, useAttributes), p.name, row) == Some("")
    ensures FieldValue(p, row, useAttributes, registry) == Success(Null)
  {
    PlainField(p, row, useAttributes, registry);
    NullableBlankIsNull(p.typ, Str(""));
  }

  /** A plain int property whose cell holds the decimal text of `n` takes `n`. */
  lemma IntTextField(p: Property, row: Row, useAttributes: bool, registry: Registry, n: int)
    requires ColumnOf(p, useAttributes).Some? ==>
      ColumnOf(p, useAttributes).value.converter.None? && !ColumnOf(p, useAttributes).value.required
    requires p.typ.Builtin? && p.typ.name == IntType
    requires Resolve(ColumnOf(p, useAttributes), p.name, row) == Some(IntToString(n))
    ensures FieldValue(p, row, useAttributes, registry) == Success(Int(n))
  {
    PlainField(p, row, useAttributes, registry);
    IntCoercionRoundTrip(p.typ.nullable, n);
  }

  // ----- the Person class --------------------------------------------------------------

  /** `#[CsvColumn(name: 'name')] public string $name;`
      `#[CsvColumn(name: 'age', converter: 'intval')] public int $age;`
      `public ?string $note = null;` */
  const Person: seq<Property> := [
    Property("name", Some(CsvColumn(Some("name"), None, None, false)), Builtin(StringType, false)),
    Property("age", Some(CsvColumn(Some("age"), None, Some("intval"), false)), Builtin(IntType, false)),
    Property("note", None, Builtin(StringType, true))
  ]

  const PersonHeader: seq<string> := ["name", "age", "note"]

  /** "name,age,note\nAlice,30,ok\nBob,25,\n" as the tokenizer returns it. */
  const PersonFile: seq<Record> := [
    [Some("name"), Some("age"), Some("note")],
    [Some("Alice"), Some("30"), Some("ok")],
    [Some("Bob"), Some("25"), Some("")]
  ]

  function Entry3(a: string, b: string, c: string): Entries<string> {
    [("name", a), ("age", b), ("note", c)]
  }

  /** A record whose first cell holds text is not blank. */
  lemma NotBlankByFirst(options: CsvOptions, r: Record)
    requires |r| > 0 && r[0].Some? && r[0].value != ""
    ensures !Dropped(options, r)
  {
  }

  lemma LabelledPerson(a: string, b: string, c: string)
    ensures AssocOf(PersonHeader, [Some(a), Some(b), Some(c)]) == Entry3(a, b, c)
  {
    var ps := Pairs(PersonHeader, [Some(a), Some(b), Some(c)]);
    assert ps == Entry3(a, b, c);
    FromPairsOfDistinct(ps);
  }

  /** The reader yields the two data lines, labelled by the header line. */
  lemma PersonRows()
    ensures RowsOf(Default, PersonFile) == [Assoc(Entry3("Alice", "30", "ok")), Assoc(Entry3("Bob", "25", ""))]
    ensures HeaderAfter(Default, PersonFile, None) == Some(PersonHeader)
  {
    assert Surviving(Default, PersonFile) == PersonFile by {
      forall j | 0 <= j < |PersonFile| ensures !Dropped(Default, PersonFile[j]) {
        NotBlankByFirst(Default, PersonFile[j]);
      }
      SurvivingAll(Default, PersonFile);
    }
    assert HeaderOf(PersonFile[0]) == PersonHeader;
    LabelledPerson("Alice", "30", "ok");
    LabelledPerson("Bob", "25", "");
  }

  lemma NameLabel()
    ensures NormalizeHeaderKey("name") == "name" && !IsIntKey("name")
  {
    NormalizeFixed("name");
  }

  lemma AgeLabel()
    ensures NormalizeHeaderKey("age") == "age"
  {
    NormalizeFixed("age");
  }

  lemma NoteLabel()
    ensures NormalizeHeaderKey("note") == "note"
  {
    NormalizeFixed("note");
  }

  /** Looking up and header-matching the three labels of a Person row. */
  lemma Entry3Keys(a: string, b: string, c: string)
    ensures Lookup(Entry3(a, b, c), "name") == Some(a)
    ensures Lookup(Entry3(a, b, c), "age") == Some(b)
    ensures Lookup(Entry3(a, b, c), "note") == Some(c)
    ensures Fallback(Assoc(Entry3(a, b, c)), "name") == Some(a)
    ensures Fallback(Assoc(Entry3(a, b, c)), "age") == Some(b)
    ensures Fallback(Assoc(Entry3(a, b, c)), "note") == Some(c)
  {
    Entry3Lookups(a, b, c);
    Entry3Name(a, b, c);
    Entry3Age(a, b, c);
    Entry3Note(a, b, c);
  }

  lemma Entry3Lookups(a: string, b: string, c: string)
    ensures Lookup(Entry3(a, b, c), "name") == Some(a)
    ensures Lookup(Entry3(a, b, c), "age") == Some(b)
    ensures Lookup(Entry3(a, b, c), "note") == Some(c)
  {
    var e := Entry3(a, b, c);
    assert DistinctKeys(e);
    LookupAt(e, 0);
    LookupAt(e, 1);
    LookupAt(e, 2);
  }

  lemma Entry3Name(a: string, b: string, c: string)
    ensures Fallback(Assoc(Entry3(a, b, c)), "name") == Some(a)
  {
    NameLabel();
    FirstEntryMatches("name", a, [("age", b), ("note", c)], "name");
  }

  lemma Entry3Age(a: string, b: string, c: string)
    ensures Fallback(Assoc(Entry3(a, b, c)), "age") == Some(b)
  {
    NameLabel();
    AgeLabel();
    assert Entry3(a, b, c) == [("name", a), ("age", b)] + [("note", c)];
    SecondEntryMatches("name", a, "age", b, [("note", c)], "age");
  }

  lemma Entry3Note(a: string, b: string, c: string)
    ensures Fallback(Assoc(Entry3(a, b, c)), "note") == Some(c)
  {
    NameLabel();
    AgeLabel();
    NoteLabel();
    ThirdEntryMatches("name", a, "age", b, "note", c, "note");
  }

  /** Header matching on a row whose first key matches. */
  lemma FirstEntryMatches(k0: string, v0: string, rest: Entries<string>, property: string)
    requires !IsIntKey(k0)
    requires NormalizeHeaderKey(k0) == NormalizeHeaderKey(property)
    ensures Fallback(Assoc([(k0, v0)] + rest), property) == Some(v0)
  {
  }

  /** Header matching on a row whose first key does not match and whose
      second does. */
  lemma SecondEntryMatches(k0: string, v0: string, k1: string, v1: string, rest: Entries<string>, property: string)
    requires !IsIntKey(k0)
    requires NormalizeHeaderKey(k0) != NormalizeHeaderKey(property)
    requires NormalizeHeaderKey(k1) == NormalizeHeaderKey(property)
    ensures Fallback(Assoc([(k0, v0), (k1, v1)] + rest), property) == Some(v1)
  {
    FirstMatchAt([(k0, v0), (k1, v1)] + rest, NormalizeHeaderKey(property), 1);
  }

  /** Header matching on a three-entry row whose third key is the first to
      match. */
  lemma ThirdEntryMatches(k0: string, v0: string, k1: string, v1: string, k2: string, v2: string, property: string)
    requires !IsIntKey(k0)
    requires NormalizeHeaderKey(k0) != NormalizeHeaderKey(property)
    requires NormalizeHeaderKey(k1) != NormalizeHeaderKey(property)
    requires NormalizeHeaderKey(k2) == NormalizeHeaderKey(property)
    ensures Fallback(Assoc([(k0, v0), (k1, v1), (k2, v2)]), property) == Some(v2)
  {
    FirstMatchAt([(k0, v0), (k1, v1), (k2, v2)], NormalizeHeaderKey(property), 2);
  }

  lemma PersonName(a: string, b: string, c: string, useAttributes: bool)
    requires a != ""
    ensures FieldValue(Person[0], Assoc(Entry3(a, b, c)), useAttributes, Callables) == Success(Str(a))
  {
    if useAttributes {
      Entry3Lookups(a, b, c);
    } else {
      Entry3Name(a, b, c);
    }
    TextField(Person[0], Assoc(Entry3(a, b, c)), useAttributes, Callables, a);
  }

  lemma PersonAge(a: string, n: nat, c: string)
    ensures FieldValue(Person[1], Assoc(Entry3(a, IntToString(n), c)), true, Callables) == Success(Int(n))
  {
    var t := IntToString(n);
    var row := Assoc(Entry3(a, t, c));
    assert Resolve(Person[1].column, "age", row) == Some(t) by {
      Entry3Lookups(a, t, c);
    }
    assert t != "" by {
      assert |NatToString(n)| > 0;
    }
    assert ResolveConverter(Callables, "intval") == Some(IntVal);
    assert IntVal(t) == Success(Int(n)) by {
      ParseIntRoundTrip(n);
    }
    ConvertedField(Person[1], row, Callables, IntVal, Int(n));
  }

  lemma PersonNote(a: string, b: string, c: string, useAttributes: bool)
    ensures FieldValue(Person[2], Assoc(Entry3(a, b, c)), useAttributes, Callables) == Success(if c == "" then Null else Str(c))
  {
    Entry3Note(a, b, c);
    if c == "" {
      BlankNullableField(Person[2], Assoc(Entry3(a, b, c)), useAttributes, Callables);
    } else {
      TextField(Person[2], Assoc(Entry3(a, b, c)), useAttributes, Callables, c);
    }
  }

  /** Setting the three properties in turn gives the instance. */
  lemma PersonInstance(a: string, n: nat, c: string)
    requires a != ""
    ensures RowValues(Person, Assoc(Entry3(a, IntToString(n), c)), true, Callables) ==
      Success(map["name" := Str(a), "age" := Int(n), "note" := if c == "" then Null else Str(c)])
  {
    var row := Assoc(Entry3(a, IntToString(n), c));
    PersonName(a, IntToString(n), c, true);
    PersonAge(a, n, c);
    PersonNote(a, IntToString(n), c, true);
    ThreeFields(Person, row, true, Callables);
  }

  /** Hydrating the Person file with attributes gives Alice (30, "ok") and
      Bob (25, note null), and no error. */
  lemma PersonScenario()
    ensures HydrateRows(Person, RowsOf(Default, PersonFile), true, Callables) == Hydration([
      map["name" := Str("Alice"), "age" := Int(30), "note" := Str("ok")],
      map["name" := Str("Bob"), "age" := Int(25), "note" := Null]
    ], None)
  {
    PersonRows();
    assert IntToString(30) == "30" && IntToString(25) == "25";
    PersonInstance("Alice", 30, "ok");
    PersonInstance("Bob", 25, "");
    TwoRows(Person, Assoc(Entry3("Alice", "30", "ok")), Assoc(Entry3("Bob", "25", "")), true, Callables);
  }

  /** Two rows that both hydrate give their two instances, in order. */
  lemma TwoRows(props: seq<Property>, r0: Row, r1: Row, useAttributes: bool, registry: Registry)
    requires RowValues(props, r0, useAttributes, registry).Success?
    requires RowValues(props, r1, useAttributes, registry).Success?
    ensures HydrateRows(props, [r0, r1], useAttributes, registry) ==
      Hydration([RowValues(props, r0, useAttributes, registry).value, RowValues(props, r1, useAttributes, registry).value], None)
  {
    var rows := [r0, r1];
    assert rows[..0] == [];
    HydrateRowsStep(props, rows, 0, useAttributes, registry);
    HydrateRowsStep(props, rows, 1, useAttributes, registry);
    assert rows[..2] == rows;
  }

  /** Without attributes every Person property is found by header matching,
      and the age text still becomes the integer through the int cast: the
      instance is the same as with attributes. */
  lemma PersonWithoutAttributes(a: string, n: nat, c: string)
    requires a != ""
    ensures RowValues(Person, Assoc(Entry3(a, IntToString(n), c)), false, Callables) ==
      RowValues(Person, Assoc(Entry3(a, IntToString(n), c)), true, Callables)
  {
    var row := Assoc(Entry3(a, IntToString(n), c));
    PersonName(a, IntToString(n), c, false);
    UnattributedAge(a, n, c);
    PersonNote(a, IntToString(n), c, false);
    ThreeFields(Person, row, false, Callables);
    PersonInstance(a, n, c);
  }

  lemma UnattributedAge(a: string, n: nat, c: string)
    ensures FieldValue(Person[1], Assoc(Entry3(a, IntToString(n), c)), false, Callables) == Success(Int(n))
  {
    Entry3Age(a, IntToString(n), c);
    IntTextField(Person[1], Assoc(Entry3(a, IntToString(n), c)), false, Callables, n);
  }

  // ----- errors ----------------------------------------------------------------------

  /** `#[CsvColumn(name: 'name', required: true)] public string $name;` read
      without a header: the rows are indexed, the name finds no cell, and the
      first row already fails. */
  lemma RequiredWithoutHeader()
    ensures var options := Default.(hasHeader := false);
      var props := [Property("name", Some(CsvColumn(Some("name"), None, None, true)), Builtin(StringType, false))];
      HydrateRows(props, RowsOf(options, [[Some("name"), Some("age")], [Some(""), Some("30")]]), true, Callables)
        == Hydration([], Some(Required("name")))
  {
    var options := Default.(hasHeader := false);
    var file := [[Some("name"), Some("age")], [Some(""), Some("30")]];
    NotBlankByFirst(options, file[0]);
    assert !Dropped(options, file[1]) by {
      assert !IsBlankCell(file[1][1]);
    }
    SurvivingAll(options, file);
    var props := [Property("name", Some(CsvColumn(Some("name"), None, None, true)), Builtin(StringType, false))];
    var rows := RowsOf(options, file);
    assert rows == [Indexed(file[0]), Indexed(file[1])];
    assert !IsIntKey("name");
    assert FieldValue(props[0], rows[0], true, Callables) == Failure(Required("name"));
    RowValuesFailsAt(props, 0, rows[0], true, Callables);
    assert rows[..0] == [];
    HydrateRowsStopsAt(props, rows, 0, true, Callables);
  }

  /** A converter name that names nothing fails the row with "not callable". */
  lemma UnknownConverter()
    ensures var p := Property("age", Some(CsvColumn(Some("age"), None, Some("this_is_not_callable"), false)), Builtin(IntType, false));
      FieldValue(p, Assoc([("name", "Dave"), ("age", "notanumber")]), true, Callables) == Failure(NotCallable("age"))
  {
    var name := "this_is_not_callable";
    assert forall j :: !SeparatorAt(name, j);
    assert FindScopeSeparator(name, 0).None?;
    assert ResolveConverter(Callables, name) == None;
    var e := [("name", "Dave"), ("age", "notanumber")];
    assert Lookup(e, "age") == Some("notanumber") by {
      assert e[1..] == [("age", "notanumber")];
    }
  }

  /** A converter that throws "boom" fails the row with a message carrying
      "boom"; the class is named by any colon-free (namespaced) class name. */
  lemma ThrowingConverterWrapped(cls: string)
    requires forall j :: 0 <= j < |cls| ==> cls[j] != ':'
    requires cls + "::thrower" != "intval"
    ensures var p := Property("age", Some(CsvColumn(Some("age"), None, Some(cls + "::thrower"), false)), Builtin(IntType, false));
      && FieldValue(p, Assoc([("name", "Eve"), ("age", "123")]), true, CallablesWith(cls)) == Failure(ConverterFailed("age", "boom"))
      && Contains(Message(ConverterFailed("age", "boom")), "boom")
  {
    ResolveStaticMethod(CallablesWith(cls), cls, "thrower");
    var e := [("name", "Eve"), ("age", "123")];
    assert Lookup(e, "age") == Some("123") by {
      assert e[1..] == [("age", "123")];
    }
    var p := Property("age", Some(CsvColumn(Some("age"), None, Some(cls + "::thrower"), false)), Builtin(IntType, false));
    assert cls + "::" + "thrower" == cls + "::thrower";
    assert CallablesWith(cls).methods[(cls, "thrower")] == Thrower;
    assert Resolve(p.column, "age", Assoc(e)) == Some("123");
    ConverterThrows(p, Assoc(e), CallablesWith(cls), "boom");
    MessageNamesProperty(ConverterFailed("age", "boom"));
  }

  // ----- index mapping and casts ------------------------------------------------------------

  /** `#[CsvColumn(index: 0)] public string $first;`
      `#[CsvColumn(index: 1)] public int $second;` on the header-less line "Gina,50". */
  lemma IndexMapping()
    ensures var props := [
        Property("first", Some(CsvColumn(None, Some(0), None, false)), Builtin(StringType, false)),
        Property("second", Some(CsvColumn(None, Some(1), None, false)), Builtin(IntType, false))];
      RowValues(props, Indexed([Some("Gina"), Some("50")]), true, Callables) ==
        Success(map["first" := Str("Gina"), "second" := Int(50)])
  {
    assert IntToString(50) == "50";
    var props := [
        Property("first", Some(CsvColumn(None, Some(0), None, false)), Builtin(StringType, false)),
        Property("second", Some(CsvColumn(None, Some(1), None, false)), Builtin(IntType, false))];
    var row := Indexed([Some("Gina"), Some("50")]);
    TextField(props[0], row, true, Callables, "Gina");
    IntTextField(props[1], row, true, Callables, 50);
    TwoFields(props, row, true, Callables);
  }

  /** An empty cell into `?string` gives null. */
  lemma NullableBecomesNull()
    ensures var props := [Property("name", None, Builtin(StringType, false)), Property("note", None, Builtin(StringType, true))];
      RowValues(props, Assoc([("name", "Hank"), ("note", "")]), true, Callables) ==
        Success(map["name" := Str("Hank"), "note" := Null])
  {
    NameLabel();
    NoteLabel();
    var props := [Property("name", None, Builtin(StringType, false)), Property("note", None, Builtin(StringType, true))];
    var e := [("name", "Hank"), ("note", "")];
    var row := Assoc(e);
    assert e == [("name", "Hank")] + [("note", "")] == [("name", "Hank"), ("note", "")] + [];
    FirstEntryMatches("name", "Hank", [("note", "")], "name");
    SecondEntryMatches("name", "Hank", "note", "", [], "note");
    TextField(props[0], row, true, Callables, "Hank");
    BlankNullableField(props[1], row, true, Callables);
    TwoFields(props, row, true, Callables);
  }

  /** Text into `float` and `bool` (the test's "4.5"/"yes" and "0"/"no"):
      the double PHP reads from the text (4.5 and 0.0), and whether the
      lower-cased text is one of the truthy words (true, then false). */
  lemma FloatAndBool(score: string, active: string)
    requires score != "" && active != ""
    ensures var props := [Property("score", None, Builtin(FloatType, false)), Property("active", None, Builtin(BoolType, false))];
      RowValues(props, Assoc([("score", score), ("active", active)]), true, Callables) ==
        Success(map["score" := Float(score), "active" := Bool(Lower(active) in Truthy)])
  {
    var props := [Property("score", None, Builtin(FloatType, false)), Property("active", None, Builtin(BoolType, false))];
    var row := Assoc([("score", score), ("active", active)]);
    FloatAndBoolFields(score, active);
    TwoFields(props, row, true, Callables);
  }

  lemma FloatAndBoolFields(score: string, active: string)
    requires score != "" && active != ""
    ensures FieldValue(Property("score", None, Builtin(FloatType, false)), Assoc([("score", score), ("active", active)]), true, Callables)
      == Success(Float(score))
    ensures FieldValue(Property("active", None, Builtin(BoolType, false)), Assoc([("score", score), ("active", active)]), true, Callables)
      == Success(Bool(Lower(active) in Truthy))
  {
    ScoreKey(score, active);
    PlainField(Property("score", None, Builtin(FloatType, false)), Assoc([("score", score), ("active", active)]), true, Callables);
    FloatCoercion(score);
    ActiveField(score, active);
  }

  lemma ActiveField(score: string, active: string)
    requires active != ""
    ensures FieldValue(Property("active", None, Builtin(BoolType, false)), Assoc([("score", score), ("active", active)]), true, Callables)
      == Success(Bool(Lower(active) in Truthy))
  {
    var p := Property("active", None, Builtin(BoolType, false));
    var row := Assoc([("score", score), ("active", active)]);
    ActiveKey(score, active);
    BoolField(p, row, true, Callables, active);
  }

  /** A plain non-nullable bool property whose cell holds `s`. */
  lemma BoolField(p: Property, row: Row, useAttributes: bool, registry: Registry, s: string)
    requires p.column == None && p.typ == Builtin(BoolType, false)
    requires Fallback(row, p.name) == Some(s)
    ensures FieldValue(p, row, useAttributes, registry) == Success(Bool(Lower(s) in Truthy))
  {
    PlainField(p, row, useAttributes, registry);
    assert CastValue(Str(s), BoolType) == Bool(Lower(s) in Truthy);
  }

  lemma ScoreKey(score: string, active: string)
    ensures Fallback(Assoc([("score", score), ("active", active)]), "score") == Some(score)
  {
    ScoreLabel();
    FirstEntryMatches("score", score, [("active", active)], "score");
  }

  lemma ActiveKey(score: string, active: string)
    ensures Fallback(Assoc([("score", score), ("active", active)]), "active") == Some(active)
  {
    ScoreLabel();
    ActiveLabel();
    assert [("score", score), ("active", active)] == [("score", score), ("active", active)] + [];
    SecondEntryMatches("score", score, "active", active, [], "active");
  }

  lemma ScoreLabel()
    ensures NormalizeHeaderKey("score") == "score" && !IsIntKey("score")
  {
    NormalizeFixed("score");
  }

  lemma ActiveLabel()
    ensures NormalizeHeaderKey("active") == "active"
  {
    NormalizeFixed("active");
  }
}
