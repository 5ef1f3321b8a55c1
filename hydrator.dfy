/** The hydration engine: for every row the reader yields and every property of
    the target class it resolves the raw value (declared index, then declared
    name, then header matching on the normalised property name), checks
    `required`, runs the converter, coerces the value to the property's declared
    type and assigns it to a fresh instance. The target class is given as an
    explicit property table instead of being discovered by reflection. */
module Hydrator {
  import opened Wrappers
  import opened Php
  import opened AssocList
  import opened Mapping
  import opened Reader

  // ----- the target class ---------------------------------------------------

  /** The name of a builtin property type; `OtherBuiltin` covers `array`,
      `iterable`, `object` and the like, which `castValue` leaves alone. */
  datatype TypeName = IntType | FloatType | BoolType | StringType | MixedType | OtherBuiltin(name: string)

  /** A property's declared type: none, a builtin (possibly `?`-nullable) or a
      class or interface (possibly nullable). */
  datatype DeclaredType =
    | Untyped
    | Builtin(name: TypeName, nullable: bool)
    | ClassType(cls: string, nullable: bool)

  /** One entry of the property table: the property's name, its `CsvColumn`
      attribute if it carries one, and its declared type. */
  datatype Property = Property(name: string, column: Option<CsvColumn>, typ: DeclaredType)

  /** A converter callable: it returns a value or throws an exception with a message. */
  type Converter = string -> Result<Scalar, string>

  /** The callables a converter string can name: global functions by name and
      static methods by (class, method). */
  datatype Registry = Registry(functions: map<string, Converter>, methods: map<(string, string), Converter>)

  /** Why hydration stops. The first three are the library's mapping
      exceptions; `TypeMismatch` is the engine's `TypeError` when the value
      cannot be assigned to the property's declared type. */
  datatype HydrationError =
    | Required(property: string)
    | NotCallable(property: string)
    | ConverterFailed(property: string, cause: string)
    | TypeMismatch(property: string)

  /** The state of a hydrated instance: property name to assigned value. */
  type PropValues = map<string, Value>

  /** The instances `hydrate` yields, and the error that ended it, if any. */
  datatype Hydration = Hydration(instances: seq<PropValues>, error: Option<HydrationError>)

  /** The message of a mapping exception. */
  function Message(e: HydrationError): string
    requires !e.TypeMismatch?
  {
    match e
    case Required(p) => "Required column for property " + Quoted(p) + " is missing or empty."
    case NotCallable(p) => "Converter for property " + Quoted(p) + " is not callable."
    case ConverterFailed(p, cause) => "Converter for property " + Quoted(p) + " failed: " + cause
  }

  function Quoted(p: string): string {
    "\"" + p + "\""
  }

  // ----- normalisation of header keys ---------------------------------------

  predicate IsAlnum(c: char) {
    IsDigit(c) || IsUpper(c) || IsLower(c)
  }

  /** `normalizeHeaderKey`: drop every character that is not an ASCII letter
      or digit, and lower-case the rest. */
  function NormalizeHeaderKey(k: string): string {
    if k == [] then []
    else (if IsAlnum(k[0]) then [LowerChar(k[0])] else []) + NormalizeHeaderKey(k[1..])
  }

  /** The normalised key holds only lower-case letters and digits, and is no
      longer than the key. */
  lemma {:induction false} NormalizeShape(k: string)
    ensures forall i :: 0 <= i < |NormalizeHeaderKey(k)| ==> IsDigit(NormalizeHeaderKey(k)[i]) || IsLower(NormalizeHeaderKey(k)[i])
    ensures |NormalizeHeaderKey(k)| <= |k|
  {
    if k != [] {
      NormalizeShape(k[1..]);
    }
  }

  lemma {:induction false} NormalizeFixed(k: string)
    requires forall i :: 0 <= i < |k| ==> IsDigit(k[i]) || IsLower(k[i])
    ensures NormalizeHeaderKey(k) == k
  {
    if k != [] {
      NormalizeFixed(k[1..]);
      assert k == [k[0]] + k[1..];
    }
  }

  /** Normalising twice is normalising once. */
  lemma NormalizeIdempotent(k: string)
    ensures NormalizeHeaderKey(NormalizeHeaderKey(k)) == NormalizeHeaderKey(k)
  {
    NormalizeShape(k);
    NormalizeFixed(NormalizeHeaderKey(k));
  }

  /** Normalisation ignores letter case. */
  lemma {:induction false} NormalizeIgnoresCase(k: string)
    ensures NormalizeHeaderKey(Lower(k)) == NormalizeHeaderKey(k)
  {
    if k != [] {
      NormalizeIgnoresCase(k[1..]);
      assert Lower(k)[1..] == Lower(k[1..]);
    }
  }

  // ----- resolving the raw value ---------------------------------------------

  /** `$row[$index] ?? null`: a key lookup. On an indexed row it is the cell at
      that position; on an associative row it finds the entry whose key is the
      integer `index` (a label or position key spelt as that integer). */
  function LookupIndex(row: Row, index: int): Option<string> {
    match row
    case Indexed(cells) => if 0 <= index < |cells| then cells[index] else None
    case Assoc(entries) => Lookup(entries, IntToString(index))
  }

  /** `$row[$name] ?? null`. On an indexed row only a name PHP turns into an
      integer key can hit a cell. */
  function LookupName(row: Row, name: string): Option<string> {
    match row
    case Indexed(cells) =>
      if IsIntKey(name) && 0 <= ParseInt(name) < |cells| then cells[ParseInt(name)] else None
    case Assoc(entries) => Lookup(entries, name)
  }

  /** `is_string(key($row))`: the row's first key is a string key. */
  predicate HasStringFirstKey(row: Row) {
    row.Assoc? && |row.entries| > 0 && !IsIntKey(row.entries[0].0)
  }

  /** The value of the first entry whose normalised key is `key`. */
  function FirstMatch(entries: Entries<string>, key: string): Option<string> {
    if entries == [] then None
    else if NormalizeHeaderKey(entries[0].0) == key then Some(entries[0].1)
    else FirstMatch(entries[1..], key)
  }

  /** Header-to-property matching. Only a row whose first key is a string is
      searched; integer keys are compared by their decimal text. */
  function Fallback(row: Row, property: string): Option<string> {
    if HasStringFirstKey(row) then FirstMatch(row.entries, NormalizeHeaderKey(property)) else None
  }

  /** The raw value of a property: a declared index wins, then a declared
      name, then header matching. */
  function Resolve(column: Option<CsvColumn>, property: string, row: Row): Option<string> {
    if column.Some? && column.value.index.Some? then LookupIndex(row, column.value.index.value)
    else if column.Some? && column.value.name.Some? then LookupName(row, column.value.name.value)
    else Fallback(row, property)
  }

  /** The attribute the engine looks at: none when attributes are off. */
  function ColumnOf(p: Property, useAttributes: bool): Option<CsvColumn> {
    if useAttributes then p.column else None
  }

  // ----- the header-matching loop as the source writes it ---------------------

  /** The search loop as written: `normalizeHeaderKey` takes a `string` and the
      file declares strict types, so reaching an integer key (a numeric header
      label, or the position key of a cell beyond the header) before a match
      raises a `TypeError`. */
  function FirstMatchAsWritten(entries: Entries<string>, key: string): Result<Option<string>, string> {
    if entries == [] then Success(None)
    else if IsIntKey(entries[0].0) then Failure("normalizeHeaderKey(): Argument #1 ($k) must be of type string, int given")
    else if NormalizeHeaderKey(entries[0].0) == key then Success(Some(entries[0].1))
    else FirstMatchAsWritten(entries[1..], key)
  }

  function FallbackAsWritten(row: Row, property: string): Result<Option<string>, string> {
    if HasStringFirstKey(row) then FirstMatchAsWritten(row.entries, NormalizeHeaderKey(property)) else Success(None)
  }

  /** A data record longer than the header gets the key "2" for its third
      cell; a property that matches no label then makes the loop as written
      throw, where the stringified comparison finds nothing. */
  lemma FallbackAsWrittenThrowsOnLongRow()
    ensures var row := Assoc(AssocOf(["name", "age"], [Some("Alice"), Some("30"), Some("ok")]));
      && FallbackAsWritten(row, "note").Failure?
      && Fallback(row, "note") == None
  {
    LongRowEntries();
    var row := Assoc([("name", "Alice"), ("age", "30"), ("2", "ok")]);
    assert FallbackAsWritten(row, "note").Failure? by {
      LongRowLabels();
      LongRowThrows();
    }
    assert Fallback(row, "note") == None by {
      LongRowLabels();
      LongRowNoMatch();
    }
  }

  lemma LongRowLabels()
    ensures !IsIntKey("name") && IsIntKey("2")
    ensures NormalizeHeaderKey("note") == "note"
    ensures NormalizeHeaderKey("name") != "note" && NormalizeHeaderKey("age") != "note"
  {
    assert NormalizeHeaderKey("note") == "note" by {
      NormalizeFixed("note");
    }
    assert NormalizeHeaderKey("name") == "name" by {
      NormalizeFixed("name");
    }
    assert NormalizeHeaderKey("age") == "age" by {
      NormalizeFixed("age");
    }
  }

  lemma LongRowThrows()
    requires !IsIntKey("name") && IsIntKey("2")
    requires NormalizeHeaderKey("name") != "note" && NormalizeHeaderKey("age") != "note"
    ensures FirstMatchAsWritten([("name", "Alice"), ("age", "30"), ("2", "ok")], "note").Failure?
  {
    var e := [("name", "Alice"), ("age", "30"), ("2", "ok")];
    assert !IsIntKey("age");
    assert e[1..][1..] == [("2", "ok")];
  }

  lemma LongRowNoMatch()
    requires NormalizeHeaderKey("name") != "note" && NormalizeHeaderKey("age") != "note"
    ensures FirstMatch([("name", "Alice"), ("age", "30"), ("2", "ok")], "note") == None
  {
    var e := [("name", "Alice"), ("age", "30"), ("2", "ok")];
    assert NormalizeHeaderKey("2") != "note" by {
      NormalizeShape("2");
    }
    assert e[1..][1..] == [("2", "ok")];
    assert e[1..][1..][1..] == [];
  }

  lemma LongRowEntries()
    ensures AssocOf(["name", "age"], [Some("Alice"), Some("30"), Some("ok")])
         == [("name", "Alice"), ("age", "30"), ("2", "ok")]
  {
    var header := ["name", "age"];
    var record := [Some("Alice"), Some("30"), Some("ok")];
    var ps := Pairs(header, record);
    assert KeyAt(header, 2) == "2" by {
      assert IntToString(2) == "2";
    }
    assert ps == [("name", "Alice"), ("age", "30"), ("2", "ok")];
    FromPairsOfDistinct(ps);
  }

  /** Where the row has no integer key before the match, the two agree. */
  lemma {:induction false} FallbackAsWrittenAgrees(entries: Entries<string>, key: string, n: nat)
    requires n <= |entries|
    requires forall j :: 0 <= j < n ==> !IsIntKey(entries[j].0)
    requires n == |entries| || NormalizeHeaderKey(entries[n].0) == key
    requires forall j :: 0 <= j < n ==> NormalizeHeaderKey(entries[j].0) != key
    requires n < |entries| ==> !IsIntKey(entries[n].0)
    ensures FirstMatchAsWritten(entries, key) == Success(FirstMatch(entries, key))
    decreases n
  {
    if n > 0 {
      FallbackAsWrittenAgrees(entries[1..], key, n - 1);
    }
  }

  // ----- converters ----------------------------------------------------------

  /** "::" occurs in `s` at position `j`. */
  predicate SeparatorAt(s: string, j: int) {
    0 <= j && j + 2 <= |s| && s[j] == ':' && s[j + 1] == ':'
  }

  /** The first position of "::" in `s` at or after `from`. */
  function FindScopeSeparator(s: string, from: nat): (r: Option<nat>)
    requires from <= |s|
    ensures r.Some? ==> from <= r.value && SeparatorAt(s, r.value)
    ensures r.Some? ==> forall j :: from <= j < r.value ==> !SeparatorAt(s, j)
    ensures r.None? ==> forall j :: from <= j ==> !SeparatorAt(s, j)
    decreases |s| - from
  {
    if from + 2 > |s| then None
    else if s[from] == ':' && s[from + 1] == ':' then Some(from)
    else FindScopeSeparator(s, from + 1)
  }

  /** `explode('::', $s, 2)` when `$s` contains "::": the part before the first
      "::" and everything after it. */
  function SplitScope(s: string): (r: Option<(string, string)>)
    ensures r.Some? ==> r.value.0 + "::" + r.value.1 == s
    ensures r.Some? ==> forall j :: !SeparatorAt(r.value.0, j)
    ensures r.None? ==> forall j :: !SeparatorAt(s, j)
  {
    match FindScopeSeparator(s, 0)
    case None => None
    case Some(i) =>
      var r := (s[..i], s[i + 2..]);
      assert s == s[..i] + "::" + s[i + 2..];
      assert forall j :: SeparatorAt(r.0, j) ==> SeparatorAt(s, j);
      Some(r)
  }

  /** `is_callable`, with the "Class::method" form tried as a static method. */
  function ResolveConverter(registry: Registry, name: string): Option<Converter> {
    if name in registry.functions then Some(registry.functions[name])
    else match SplitScope(name)
      case Some((cls, m)) => if (cls, m) in registry.methods then Some(registry.methods[(cls, m)]) else None
      case None => None
  }

  /** The raw value as a PHP value. */
  function ScalarOf(raw: Option<string>): Scalar {
    if raw.Some? then Str(raw.value) else Null
  }

  /** The conversion stage: the converter runs only on a value that is neither
      null nor empty. */
  function Convert(column: Option<CsvColumn>, property: string, raw: Option<string>, registry: Registry)
    : Result<Scalar, HydrationError>
  {
    if column.Some? && column.value.converter.Some? && !IsBlankCell(raw) then
      match ResolveConverter(registry, column.value.converter.value)
      case None => Failure(NotCallable(property))
      case Some(f) =>
        match f(raw.value)
        case Failure(cause) => Failure(ConverterFailed(property, cause))
        case Success(v) => Success(v)
    else Success(ScalarOf(raw))
  }

  // ----- coercion --------------------------------------------------------------

  const Truthy: seq<string> := ["1", "true", "yes", "y"]

  /** `castValue`: the lenient PHP casts. */
  function CastValue(v: Scalar, t: TypeName): Value {
    if v == Null then Null
    else match t
      case IntType => Int(ToInt(v))
      case FloatType => Float(ToStr(v))
      case BoolType => Bool(Lower(ToStr(v)) in Truthy)
      case StringType => Str(ToStr(v))
      case MixedType => v
      case OtherBuiltin(_) => v
  }

  /** `allowsNull()` of a declared type. */
  predicate AllowsNull(t: DeclaredType) {
    match t
    case Untyped => true
    case Builtin(name, nullable) => nullable || name == MixedType
    case ClassType(_, nullable) => nullable
  }

  /** The values a builtin-typed property accepts without a `TypeError`. */
  predicate Accepts(t: TypeName, nullable: bool, v: Value) {
    if v == Null then nullable || t == MixedType
    else match t
      case IntType => v.Int?
      case FloatType => v.Float?
      case BoolType => v.Bool?
      case StringType => v.Str?
      case MixedType => true
      case OtherBuiltin(_) => false
  }

  /** The typing stage: the value assigned to a property of type `t`, or
      `None` when the assignment raises a `TypeError`. An untyped property
      takes the value as it is; a class-typed one too, which only null fits. */
  function Coerce(t: DeclaredType, v: Scalar): Option<Value> {
    match t
    case Untyped => Some(v)
    case ClassType(_, nullable) => if v == Null && nullable then Some(Null) else None
    case Builtin(name, nullable) =>
      (var stored := if IsBlank(v) && AllowsNull(t) then Null else CastValue(v, name);
       if Accepts(name, nullable, stored) then Some(stored) else None)
  }

  // ----- one property, one row, all rows ----------------------------------------

  /** The value hydration assigns to property `p` for `row`, or the error it
      stops with. */
  function FieldValue(p: Property, row: Row, useAttributes: bool, registry: Registry): Result<Value, HydrationError> {
    var column := ColumnOf(p, useAttributes);
    var raw := Resolve(column, p.name, row);
    if column.Some? && column.value.required && IsBlankCell(raw) then Failure(Required(p.name))
    else match Convert(column, p.name, raw, registry)
      case Failure(e) => Failure(e)
      case Success(v) =>
        match Coerce(p.typ, v)
        case None => Failure(TypeMismatch(p.name))
        case Some(stored) => Success(stored)
  }

  /** The instance built from `row`: the properties are set in declaration
      order, and the first property that fails ends the row. */
  function RowValues(props: seq<Property>, row: Row, useAttributes: bool, registry: Registry)
    : Result<PropValues, HydrationError>
    decreases |props|
  {
    if props == [] then Success(map[])
    else
      match RowValues(props[..|props| - 1], row, useAttributes, registry)
      case Failure(e) => Failure(e)
      case Success(m) =>
        var p := props[|props| - 1];
        match FieldValue(p, row, useAttributes, registry)
        case Failure(e) => Failure(e)
        case Success(v) => Success(m[p.name := v])
  }

  /** Everything `hydrate` yields from the rows, in order, up to the first row
      that fails, and that row's error. */
  function HydrateRows(props: seq<Property>, rows: seq<Row>, useAttributes: bool, registry: Registry): Hydration
    decreases |rows|
  {
    if rows == [] then Hydration([], None)
    else
      var h := HydrateRows(props, rows[..|rows| - 1], useAttributes, registry);
      if h.error.Some? then h
      else match RowValues(props, rows[|rows| - 1], useAttributes, registry)
        case Failure(e) => Hydration(h.instances, Some(e))
        case Success(m) => Hydration(h.instances + [m], None)
  }

  // ----- properties -------------------------------------------------------------

  /** Header matching returns the value of the first entry, in row order,
      whose normalised key equals the normalised property name, and nothing
      when no entry matches. */
  lemma {:induction false} FirstMatchIsFirst(entries: Entries<string>, key: string)
    ensures FirstMatch(entries, key).Some? <==>
      exists i :: 0 <= i < |entries| && NormalizeHeaderKey(entries[i].0) == key
    ensures FirstMatch(entries, key).Some? ==>
      exists i :: && 0 <= i < |entries| && NormalizeHeaderKey(entries[i].0) == key
                  && FirstMatch(entries, key) == Some(entries[i].1)
                  && forall j :: 0 <= j < i ==> NormalizeHeaderKey(entries[j].0) != key
  {
    if entries != [] {
      FirstMatchIsFirst(entries[1..], key);
      if NormalizeHeaderKey(entries[0].0) != key && FirstMatch(entries, key).Some? {
        var i :| && 0 <= i < |entries[1..]| && NormalizeHeaderKey(entries[1..][i].0) == key
                 && FirstMatch(entries[1..], key) == Some(entries[1..][i].1)
                 && forall j :: 0 <= j < i ==> NormalizeHeaderKey(entries[1..][j].0) != key;
        assert NormalizeHeaderKey(entries[i + 1].0) == key;
      }
      if exists i :: 0 <= i < |entries| && NormalizeHeaderKey(entries[i].0) == key {
        var i :| 0 <= i < |entries| && NormalizeHeaderKey(entries[i].0) == key;
        if i > 0 {
          assert NormalizeHeaderKey(entries[1..][i - 1].0) == key;
        }
      }
    }
  }

  /** The entry found is the first whose normalised key matches. */
  lemma {:induction false} FirstMatchAt(entries: Entries<string>, key: string, i: nat)
    requires i < |entries| && NormalizeHeaderKey(entries[i].0) == key
    requires forall j :: 0 <= j < i ==> NormalizeHeaderKey(entries[j].0) != key
    ensures FirstMatch(entries, key) == Some(entries[i].1)
    decreases i
  {
    if i > 0 {
      assert NormalizeHeaderKey(entries[0].0) != key;
      FirstMatchAt(entries[1..], key, i - 1);
    }
  }

  /** Fallback on an indexed row, or on a row whose first key is an integer,
      finds nothing. */
  lemma FallbackNeedsStringKey(row: Row, property: string)
    requires !HasStringFirstKey(row)
    ensures Fallback(row, property) == None
  {
  }

  /** A declared index decides the raw value by itself: the declared name and
      header matching are not consulted. */
  lemma IndexWins(c: CsvColumn, property: string, property': string, name': Option<string>, row: Row)
    requires c.index.Some?
    ensures Resolve(Some(c), property, row) == LookupIndex(row, c.index.value)
    ensures Resolve(Some(c), property, row) == Resolve(Some(c.(name := name')), property', row)
  {
  }

  /** Without an index, a declared name decides the raw value and header
      matching is not consulted. */
  lemma NameWins(c: CsvColumn, property: string, property': string, row: Row)
    requires c.index.None? && c.name.Some?
    ensures Resolve(Some(c), property, row) == LookupName(row, c.name.value)
    ensures Resolve(Some(c), property, row) == Resolve(Some(c), property', row)
  {
  }

  /** A column with neither index nor name still uses header matching ... */
  lemma BareColumnFallsBack(c: CsvColumn, property: string, row: Row)
    requires c.index.None? && c.name.None?
    ensures Resolve(Some(c), property, row) == Fallback(row, property)
    ensures Resolve(Some(c), property, row) == Resolve(None, property, row)
  {
  }

  /** ... and its `required` flag still applies. */
  lemma BareRequiredColumn(p: Property, row: Row, registry: Registry)
    requires p.column.Some? && p.column.value.index.None? && p.column.value.name.None?
    requires p.column.value.required && Fallback(row, p.name).None?
    ensures FieldValue(p, row, true, registry) == Failure(Required(p.name))
  {
  }

  /** With attributes off, every property behaves as if it had no attribute:
      header matching, no required check, no converter. */
  lemma AttributesOff(p: Property, row: Row, registry: Registry)
    ensures FieldValue(p, row, false, registry) == FieldValue(p.(column := None), row, true, registry)
    ensures Resolve(ColumnOf(p, false), p.name, row) == Fallback(row, p.name)
  {
  }

  /** A required property whose raw value is null or empty fails with an
      error naming the property. */
  lemma RequiredBlankFails(p: Property, row: Row, registry: Registry)
    requires p.column.Some? && p.column.value.required
    requires IsBlankCell(Resolve(p.column, p.name, row))
    ensures FieldValue(p, row, true, registry) == Failure(Required(p.name))
  {
  }

  /** The converter is never invoked on null or '': the result does not depend
      on what the converter would do. */
  lemma ConverterSkippedOnBlank(p: Property, row: Row, useAttributes: bool, r1: Registry, r2: Registry)
    requires IsBlankCell(Resolve(ColumnOf(p, useAttributes), p.name, row))
    ensures FieldValue(p, row, useAttributes, r1) == FieldValue(p, row, useAttributes, r2)
  {
  }

  /** A converter name that resolves to no callable fails with "not callable". */
  lemma ConverterNotCallable(p: Property, row: Row, registry: Registry)
    requires p.column.Some? && p.column.value.converter.Some?
    requires !IsBlankCell(Resolve(p.column, p.name, row))
    requires ResolveConverter(registry, p.column.value.converter.value).None?
    ensures FieldValue(p, row, true, registry) == Failure(NotCallable(p.name))
  {
  }

  /** Without a converter and without `required`, the field is the raw cell
      coerced to the declared type; the registry plays no part. */
  lemma PlainField(p: Property, row: Row, useAttributes: bool, registry: Registry)
    requires ColumnOf(p, useAttributes).Some? ==>
      ColumnOf(p, useAttributes).value.converter.None? && !ColumnOf(p, useAttributes).value.required
    ensures FieldValue(p, row, useAttributes, registry) ==
      match Coerce(p.typ, ScalarOf(Resolve(ColumnOf(p, useAttributes), p.name, row)))
      case None => Failure(TypeMismatch(p.name))
      case Some(v) => Success(v)
  {
  }

  /** A converter that succeeds on a non-empty cell hands its result to the
      typing stage. */
  lemma ConvertedField(p: Property, row: Row, registry: Registry, f: Converter, v: Scalar)
    requires p.column.Some? && p.column.value.converter.Some?
    requires !IsBlankCell(Resolve(p.column, p.name, row))
    requires ResolveConverter(registry, p.column.value.converter.value) == Some(f)
    requires f(Resolve(p.column, p.name, row).value) == Success(v)
    ensures FieldValue(p, row, true, registry) ==
      match Coerce(p.typ, v)
      case None => Failure(TypeMismatch(p.name))
      case Some(stored) => Success(stored)
  {
  }

  /** A converter that throws fails hydration with an error that names the
      property and carries the original message. */
  lemma ConverterThrows(p: Property, row: Row, registry: Registry, cause: string)
    requires p.column.Some? && p.column.value.converter.Some?
    requires !IsBlankCell(Resolve(p.column, p.name, row))
    requires ResolveConverter(registry, p.column.value.converter.value).Some?
    requires ResolveConverter(registry, p.column.value.converter.value).value(Resolve(p.column, p.name, row).value) == Failure(cause)
    ensures FieldValue(p, row, true, registry) == Failure(ConverterFailed(p.name, cause))
    ensures Contains(Message(ConverterFailed(p.name, cause)), cause)
  {
    MessageNamesProperty(ConverterFailed(p.name, cause));
  }

  lemma OccursInMiddle(a: string, t: string, b: string)
    ensures OccursAt(a + t + b, t, |a|)
  {
    assert (a + t + b)[|a|..|a| + |t|] == t;
  }

  /** Every mapping error's message names its property in quotes; a wrapped
      converter failure's message also contains the original message. */
  lemma MessageNamesProperty(e: HydrationError)
    requires !e.TypeMismatch?
    ensures Contains(Message(e), Quoted(e.property))
    ensures e.ConverterFailed? ==> Contains(Message(e), e.cause)
  {
    match e
    case Required(p) =>
      OccursInMiddle("Required column for property ", Quoted(p), " is missing or empty.");
    case NotCallable(p) =>
      OccursInMiddle("Converter for property ", Quoted(p), " is not callable.");
    case ConverterFailed(p, cause) =>
      var pre := "Converter for property ";
      assert Message(e) == pre + Quoted(p) + (" failed: " + cause);
      OccursInMiddle(pre, Quoted(p), " failed: " + cause);
      assert Message(e) == (pre + Quoted(p) + " failed: ") + cause + "";
      OccursInMiddle(pre + Quoted(p) + " failed: ", cause, "");
  }

  /** Null or '' into a nullable property gives null. */
  lemma NullableBlankIsNull(t: DeclaredType, v: Scalar)
    requires IsBlank(v) && AllowsNull(t) && !t.ClassType?
    ensures Coerce(t, v) == Some(if t.Untyped? then v else Null)
  {
  }

  /** A bool property is true exactly when the lower-cased text is "1",
      "true", "yes" or "y"; anything else is false. */
  lemma BoolCoercion(nullable: bool, s: string)
    requires s != "" || !nullable
    ensures Coerce(Builtin(BoolType, nullable), Str(s)) ==
      Some(Bool(Lower(s) == "1" || Lower(s) == "true" || Lower(s) == "yes" || Lower(s) == "y"))
  {
    var stored := CastValue(Str(s), BoolType);
    assert stored == Bool(Lower(s) in Truthy);
  }

  /** "YES" is true; "no", "0" and "" (into a non-nullable bool) are false. */
  lemma BoolExamples()
    ensures Coerce(Builtin(BoolType, false), Str("YES")) == Some(Bool(true))
    ensures Coerce(Builtin(BoolType, false), Str("no")) == Some(Bool(false))
    ensures Coerce(Builtin(BoolType, false), Str("0")) == Some(Bool(false))
    ensures Coerce(Builtin(BoolType, false), Str("")) == Some(Bool(false))
  {
    BoolCoercion(false, "YES");
    BoolCoercion(false, "no");
    BoolCoercion(false, "0");
    BoolCoercion(false, "");
    assert Lower("YES") == "yes";
    assert Lower("no") == "no";
    assert Lower("0") == "0";
  }

  /** A string property takes the text unchanged (only '' into a nullable
      string becomes null). */
  lemma StringCoercion(nullable: bool, s: string)
    requires s != "" || !nullable
    ensures Coerce(Builtin(StringType, nullable), Str(s)) == Some(Str(s))
  {
  }

  /** An int property reads back the decimal text of any integer ... */
  lemma IntCoercionRoundTrip(nullable: bool, i: int)
    ensures Coerce(Builtin(IntType, nullable), Str(IntToString(i))) == Some(Int(i))
  {
    ParseIntRoundTrip(i);
    assert IntToString(i) != "" by {
      assert |NatToString(if i < 0 then -i else i)| > 0;
    }
    assert CastValue(Str(IntToString(i)), IntType) == Int(i);
  }

  /** ... and takes 0 from text that, after an optional sign, does not start
      with a digit. */
  lemma IntCoercionNonNumeric(nullable: bool, s: string)
    requires s != "" || !nullable
    requires NonNumeric(s)
    ensures Coerce(Builtin(IntType, nullable), Str(s)) == Some(Int(0))
  {
    ParseIntOfNonNumeric(s);
  }

  /** A float property gets the double PHP reads from the text ("4.5" gives
      4.5); an empty value into a non-nullable float gives the double of "",
      which is 0.0. */
  lemma FloatCoercion(s: string)
    ensures Coerce(Builtin(FloatType, false), Str(s)) == Some(Float(s))
  {
  }

  /** A missing value (null) cannot be assigned to a non-nullable typed
      property: the assignment raises a `TypeError`. */
  lemma NullIntoNonNullable(t: DeclaredType)
    requires !AllowsNull(t)
    ensures Coerce(t, Null) == None
  {
  }

  /** Property names are unique within a class. */
  predicate DistinctNames(props: seq<Property>) {
    forall i, j :: 0 <= i < j < |props| ==> props[i].name != props[j].name
  }

  /** A row's instance exists exactly when every property succeeds. */
  lemma {:induction false} RowValuesSucceeds(props: seq<Property>, row: Row, useAttributes: bool, registry: Registry)
    ensures RowValues(props, row, useAttributes, registry).Success? <==>
      forall j :: 0 <= j < |props| ==> FieldValue(props[j], row, useAttributes, registry).Success?
    decreases |props|
  {
    if props != [] {
      var init := props[..|props| - 1];
      RowValuesSucceeds(init, row, useAttributes, registry);
      assert forall j :: 0 <= j < |init| ==> init[j] == props[j];
    }
  }

  /** The instance holds exactly the class's properties ... */
  lemma {:induction false} RowValuesKeys(props: seq<Property>, row: Row, useAttributes: bool, registry: Registry)
    requires RowValues(props, row, useAttributes, registry).Success?
    ensures RowValues(props, row, useAttributes, registry).value.Keys == (set j | 0 <= j < |props| :: props[j].name)
    decreases |props|
  {
    if props != [] {
      var init := props[..|props| - 1];
      var p := props[|props| - 1];
      var prior := RowValues(init, row, useAttributes, registry);
      var field := FieldValue(p, row, useAttributes, registry);
      assert prior.Success? && field.Success?;
      RowValuesKeys(init, row, useAttributes, registry);
      assert RowValues(props, row, useAttributes, registry).value.Keys == prior.value.Keys + {p.name};
      assert (set j | 0 <= j < |props| :: props[j].name) == (set j | 0 <= j < |init| :: init[j].name) + {p.name} by {
        assert forall j :: 0 <= j < |init| ==> init[j] == props[j];
      }
    }
  }

  /** ... each with the value hydration computed for it. */
  lemma {:induction false} RowValuesContents(props: seq<Property>, row: Row, useAttributes: bool, registry: Registry)
    requires DistinctNames(props)
    requires RowValues(props, row, useAttributes, registry).Success?
    ensures var m := RowValues(props, row, useAttributes, registry).value;
      forall j :: 0 <= j < |props| ==> props[j].name in m && FieldValue(props[j], row, useAttributes, registry) == Success(m[props[j].name])
    decreases |props|
  {
    if props != [] {
      var init := props[..|props| - 1];
      var p := props[|props| - 1];
      assert DistinctNames(init);
      var prior := RowValues(init, row, useAttributes, registry);
      var field := FieldValue(p, row, useAttributes, registry);
      assert prior.Success? && field.Success?;
      RowValuesContents(init, row, useAttributes, registry);
      var m := prior.value[p.name := field.value];
      assert RowValues(props, row, useAttributes, registry).value == m;
      forall j | 0 <= j < |init|
        ensures props[j].name in m && FieldValue(props[j], row, useAttributes, registry) == Success(m[props[j].name])
      {
        assert init[j] == props[j];
        assert props[j].name != p.name;
      }
      assert props[|init|] == p;
    }
  }

  /** Setting one more property after a clean prefix. */
  lemma RowValuesStep(props: seq<Property>, k: nat, row: Row, useAttributes: bool, registry: Registry)
    requires k < |props|
    requires RowValues(props[..k], row, useAttributes, registry).Success?
    requires FieldValue(props[k], row, useAttributes, registry).Success?
    ensures RowValues(props[..k + 1], row, useAttributes, registry) ==
      Success(RowValues(props[..k], row, useAttributes, registry).value[props[k].name := FieldValue(props[k], row, useAttributes, registry).value])
  {
    assert props[..k + 1][..k] == props[..k];
  }

  /** A row fails with the error of its first failing property. */
  lemma {:induction false} RowValuesFailsAt(props: seq<Property>, k: nat, row: Row, useAttributes: bool, registry: Registry)
    requires k < |props|
    requires forall j :: 0 <= j < k ==> FieldValue(props[j], row, useAttributes, registry).Success?
    requires FieldValue(props[k], row, useAttributes, registry).Failure?
    ensures RowValues(props, row, useAttributes, registry) == Failure(FieldValue(props[k], row, useAttributes, registry).error)
    decreases |props|
  {
    var init := props[..|props| - 1];
    if k < |props| - 1 {
      RowValuesFailsAt(init, k, row, useAttributes, registry);
    } else {
      RowValuesSucceeds(init, row, useAttributes, registry);
    }
  }

  /** `hydrate` yields one instance per row, in row order, until the first row
      that fails; that row yields nothing and its error ends the sequence. */
  lemma {:induction false} HydrateRowsShape(props: seq<Property>, rows: seq<Row>, useAttributes: bool, registry: Registry)
    ensures var h := HydrateRows(props, rows, useAttributes, registry);
      && |h.instances| <= |rows|
      && (forall i :: 0 <= i < |h.instances| ==> RowValues(props, rows[i], useAttributes, registry) == Success(h.instances[i]))
      && (h.error.None? ==> |h.instances| == |rows|)
      && (h.error.Some? ==>
            && |h.instances| < |rows|
            && RowValues(props, rows[|h.instances|], useAttributes, registry) == Failure(h.error.value))
    decreases |rows|
  {
    if rows != [] {
      HydrateRowsShape(props, rows[..|rows| - 1], useAttributes, registry);
    }
  }

  /** A row that fails after a clean prefix decides the outcome of the whole run. */
  lemma {:induction false} HydrateRowsStopsAt(props: seq<Property>, rows: seq<Row>, k: nat, useAttributes: bool, registry: Registry)
    requires k < |rows|
    requires HydrateRows(props, rows[..k], useAttributes, registry).error.None?
    requires RowValues(props, rows[k], useAttributes, registry).Failure?
    ensures HydrateRows(props, rows, useAttributes, registry) ==
      Hydration(HydrateRows(props, rows[..k], useAttributes, registry).instances,
                Some(RowValues(props, rows[k], useAttributes, registry).error))
    decreases |rows|
  {
    if k == |rows| - 1 {
      assert rows[..|rows| - 1] == rows[..k];
    } else {
      var init := rows[..|rows| - 1];
      assert init[..k] == rows[..k] && init[k] == rows[k];
      HydrateRowsStopsAt(props, init, k, useAttributes, registry);
    }
  }

  /** A row that succeeds after a clean prefix adds its instance at the end. */
  lemma HydrateRowsStep(props: seq<Property>, rows: seq<Row>, k: nat, useAttributes: bool, registry: Registry)
    requires k < |rows|
    requires HydrateRows(props, rows[..k], useAttributes, registry).error.None?
    requires RowValues(props, rows[k], useAttributes, registry).Success?
    ensures HydrateRows(props, rows[..k + 1], useAttributes, registry) ==
      Hydration(HydrateRows(props, rows[..k], useAttributes, registry).instances
                  + [RowValues(props, rows[k], useAttributes, registry).value], None)
  {
    assert rows[..k + 1][..k] == rows[..k];
  }

  // ----- the engine ---------------------------------------------------------------

  /** The header-matching loop: the value of the first entry whose normalised
      key is `key`. */
  method FindHeader(entries: Entries<string>, key: string) returns (found: Option<string>)
    ensures found == FirstMatch(entries, key)
  {
    found := None;
    var i := 0;
    while i < |entries|
      invariant 0 <= i <= |entries|
      invariant FirstMatch(entries, key) == FirstMatch(entries[i..], key)
    {
      assert entries[i..][1..] == entries[i + 1..];
      if NormalizeHeaderKey(entries[i].0) == key {
        found := Some(entries[i].1);
        break;
      }
      i := i + 1;
    }
    if i == |entries| {
      assert entries[i..] == [];
    }
  }

  /** The body of the per-property loop of `hydrate`. */
  method ComputeField(p: Property, row: Row, useAttributes: bool, registry: Registry)
    returns (r: Result<Value, HydrationError>)
    ensures r == FieldValue(p, row, useAttributes, registry)
  {
    var column: Option<CsvColumn> := None;
    if useAttributes {
      column := p.column;
    }
    var value: Option<string>;
    if column.Some? && column.value.index.Some? {
      value := LookupIndex(row, column.value.index.value);
    } else if column.Some? && column.value.name.Some? {
      value := LookupName(row, column.value.name.value);
    } else if HasStringFirstKey(row) {
      value := FindHeader(row.entries, NormalizeHeaderKey(p.name));
    } else {
      value := None;
    }
    if column.Some? && column.value.required && (value == None || value == Some("")) {
      return Failure(Required(p.name));
    }
    var converted: Scalar := ScalarOf(value);
    if column.Some? && column.value.converter.Some? && value != None && value != Some("") {
      var callable := ResolveConverter(registry, column.value.converter.value);
      if callable.None? {
        return Failure(NotCallable(p.name));
      }
      var outcome := callable.value(value.value);
      if outcome.Failure? {
        return Failure(ConverterFailed(p.name, outcome.error));
      }
      converted := outcome.value;
    }
    var stored := Coerce(p.typ, converted);
    if stored.None? {
      return Failure(TypeMismatch(p.name));
    }
    return Success(stored.value);
  }

  /** A hydrated object: `newInstanceWithoutConstructor` gives a fresh one,
      and `setValue` assigns one property. Declared defaults are not kept:
      hydration assigns every property afterwards. */
  class Instance {
    var props: PropValues

    constructor ()
      ensures props == map[]
    {
      props := map[];
    }

    method SetValue(name: string, v: Value)
      modifies this
      ensures props == old(props)[name := v]
    {
      props := props[name := v];
    }
  }

  class CsvHydrator {
    const reader: CsvReader

    constructor (reader: CsvReader)
      ensures this.reader == reader
    {
      this.reader := reader;
    }

    /** The per-property loop of `hydrate` for one row: a fresh instance with
        every property set in declaration order, or the first error. */
    static method BuildInstance(props: seq<Property>, row: Row, useAttributes: bool, registry: Registry)
      returns (r: Result<Instance, HydrationError>)
      ensures r.Success? ==> && fresh(r.value)
                             && RowValues(props, row, useAttributes, registry) == Success(r.value.props)
      ensures r.Failure? ==> RowValues(props, row, useAttributes, registry) == Failure(r.error)
    {
      var instance := new Instance();
      var j := 0;
      while j < |props|
        invariant 0 <= j <= |props|
        invariant RowValues(props[..j], row, useAttributes, registry) == Success(instance.props)
        modifies instance
      {
        var v := ComputeField(props[j], row, useAttributes, registry);
        assert props[..j + 1][..j] == props[..j];
        if v.Failure? {
          RowValuesSucceeds(props[..j], row, useAttributes, registry);
          assert forall i :: 0 <= i < j ==> props[..j][i] == props[i];
          RowValuesFailsAt(props, j, row, useAttributes, registry);
          return Failure(v.error);
        }
        instance.SetValue(props[j].name, v.value);
        j := j + 1;
      }
      assert props[..j] == props;
      return Success(instance);
    }

    /** `hydrate`: one fresh instance per row the reader yields, in row order,
        until a row fails; the error of that row, if any, ends the sequence. */
    method Hydrate(props: seq<Property>, useAttributes: bool, registry: Registry)
      returns (instances: seq<Instance>, error: Option<HydrationError>)
      modifies reader
      ensures var h := HydrateRows(props, RowsOf(reader.options, reader.records), useAttributes, registry);
        && error == h.error
        && |instances| == |h.instances|
        && (forall i :: 0 <= i < |instances| ==> fresh(instances[i]) && instances[i].props == h.instances[i])
        && (forall i, j :: 0 <= i < j < |instances| ==> instances[i] != instances[j])
      ensures reader.header == HeaderAfter(reader.options, reader.records, old(reader.header))
    {
      var rows := reader.Rows();
      instances, error := HydrateEach(props, rows, useAttributes, registry);
    }

    /** The row loop of `hydrate`. */
    static method HydrateEach(props: seq<Property>, rows: seq<Row>, useAttributes: bool, registry: Registry)
      returns (instances: seq<Instance>, error: Option<HydrationError>)
      ensures var h := HydrateRows(props, rows, useAttributes, registry);
        && error == h.error
        && |instances| == |h.instances|
        && (forall i :: 0 <= i < |instances| ==> fresh(instances[i]) && instances[i].props == h.instances[i])
        && (forall i, j :: 0 <= i < j < |instances| ==> instances[i] != instances[j])
    {
      instances := [];
      error := None;
      var k := 0;
      while k < |rows|
        invariant 0 <= k <= |rows|
        invariant HydrateRows(props, rows[..k], useAttributes, registry).error.None?
        invariant |instances| == |HydrateRows(props, rows[..k], useAttributes, registry).instances|
        invariant forall i :: 0 <= i < |instances| ==>
          fresh(instances[i]) && instances[i].props == HydrateRows(props, rows[..k], useAttributes, registry).instances[i]
        invariant forall i, j :: 0 <= i < j < |instances| ==> instances[i] != instances[j]
        invariant error == None
      {
        var built := BuildInstance(props, rows[k], useAttributes, registry);
        if built.Failure? {
          HydrateRowsStopsAt(props, rows, k, useAttributes, registry);
          error := Some(built.error);
          return;
        }
        HydrateRowsStep(props, rows, k, useAttributes, registry);
        instances := instances + [built.value];
        k := k + 1;
      }
      assert rows[..k] == rows;
    }

    /** `hydrateAll`: the instances `hydrate` yields, collected in order; an
        error ends the call instead. */
    method HydrateAll(props: seq<Property>, useAttributes: bool, registry: Registry)
      returns (result: Result<seq<Instance>, HydrationError>)
      modifies reader
      ensures var h := HydrateRows(props, RowsOf(reader.options, reader.records), useAttributes, registry);
        && (h.error.Some? ==> result == Failure(h.error.value))
        && (h.error.None? ==> && result.Success? && |result.value| == |h.instances|
                              && forall i :: 0 <= i < |result.value| ==>
                                   fresh(result.value[i]) && result.value[i].props == h.instances[i])
      ensures reader.header == HeaderAfter(reader.options, reader.records, old(reader.header))
    {
      var yielded, error := Hydrate(props, useAttributes, registry);
      var collected: seq<Instance> := [];
      for i := 0 to |yielded|
        invariant collected == yielded[..i]
      {
        collected := collected + [yielded[i]];
      }
      if error.Some? {
        return Failure(error.value);
      }
      assert yielded[..|yielded|] == yielded;
      return Success(collected);
    }
  }
}
