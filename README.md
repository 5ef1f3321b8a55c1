# csv-helper, modelled in Dafny

This project models the core of the PHP library `aymericcucherousset/csv-helper`. It covers three parts:

- **The reader** (`CsvReader`). It turns the records of a delimited file into rows. When the options say the file has a header, the first record that is not skipped becomes the header. Every later record becomes an associative row keyed by the header's labels. Without a header, each record is yielded as it is. With `skipEmptyLines`, records whose cells are all null or `''` are dropped.
- **The hydrator** (`CsvHydrator`). For every row it builds a fresh instance of a target class. The value of each property comes from one of three places, in this order: a declared `CsvColumn` index, a declared header name, or fuzzy matching of the property name against the row's header keys. A `required` check comes next: a required property whose value is null or `''` fails. Then an optional converter callable is applied to a value that is neither. Last, the lenient PHP casts to `int`, `float`, `bool` or `string` coerce the value to the property's declared type.
- **The writer** (`CsvWriter`). It writes rows, or the properties of objects, as lines. For objects, each column is read through a getter named after it (`first_name` → `getFirstName`) if the object has one. Otherwise it is read from the public property, and a column with neither gives an empty cell.

Modules, one file each:

- `Wrappers` (`wrappers.dfy`): `Option` and `Result`.
- `Php` (`php.dfy`): the PHP values and string functions the core relies on: `strtolower`, `(int)`, `(string)` of an int, and which strings PHP turns into integer array keys.
- `AssocList` (`assoc_list.dfy`): an ordered PHP array with string keys, where assigning to an existing key overwrites it in place.
- `Options` (`options.dfy`): `CsvOptions`.
- `Mapping` (`mapping.dfy`): the `CsvColumn` attribute.
- `Reader` (`reader.dfy`): `CsvReader`.
- `Hydrator` (`hydrator.dfy`): `CsvHydrator`.
- `Writer` (`writer.dfy`): `CsvWriter`.
- `ReaderScenarios`, `Scenarios` and `WriterScenarios`: the library's own test cases, stated on the model. `WriterScenarios` also covers a write followed by a read.

The loops of the source are methods with loop invariants. Each method is proved equal to a specification function (`Reader.RowsOf`, `Hydrator.HydrateRows`, `Writer.ObjectLines`, …). The lemmas prove what the library promises about those functions. Objects that the source updates in place are classes:

- `CsvReader`: its `header` field is assigned while the rows are read.
- `Instance`: a hydrated object, whose properties are set one at a time.
- `CsvWriter`: its file is a list of lines.

The reader works on records after tokenising. A record is a list of cells, each `Some(text)` or `None` (null). A blank line is the record `[None]`.

Two points about the source:

- The comment at `src/Reader/CsvReader.php:66-68` speaks of normalising header values. The code only casts each cell to a string (`src/Reader/CsvReader.php:69`). Normalisation happens later, when the hydrator matches property names against the labels, and the model does the same.
- The hydration pipeline (`Hydrator.FieldValue`, `Hydrator.FindHeader`, `Hydrator.CsvHydrator.Hydrate`) uses the corrected header comparison. That comparison compares every key as text. The loop as written throws a `TypeError` on an integer key. It is modelled separately, with the input that shows the difference (see Findings).

## Model

| member | source | states |
|---|---|---|
| Php.Lower | src/Hydrator/CsvHydrator.php:153 | `strtolower` keeps the length and lower-cases each ASCII letter, position by position |
| Php.LowerAppend | src/Hydrator/CsvHydrator.php:153 | lower-casing distributes over concatenation |
| Php.LowerIdempotent | src/Hydrator/CsvHydrator.php:153 | lower-casing twice is lower-casing once |
| Php.NatToString | src/Reader/CsvReader.php:114 | the decimal text of a number is non-empty, all digits, and longer than one digit exactly when the number is 10 or more |
| Php.LeadingDigits | src/Hydrator/CsvHydrator.php:163 | the digit run `(int)` reads is a prefix of the text, made of digits, followed by a non-digit or the end |
| Php.ParseIntOfNonNumeric | src/Hydrator/CsvHydrator.php:163 | `(int)` of text that, after an optional sign, does not start with a digit is 0 |
| Php.DigitsValueOfNatToString | src/Hydrator/CsvHydrator.php:163 | reading back the digits of a number gives the number |
| Php.LeadingDigitsOfDigits | src/Hydrator/CsvHydrator.php:163 | on an all-digit text the leading digit run is the whole text |
| Php.ParseIntRoundTrip | src/Hydrator/CsvHydrator.php:163 | `(int)` of the decimal text of any integer, negative ones included, is that integer |
| Php.NatToStringNoLeadingZero | src/Reader/CsvReader.php:114 | the text of a positive number has no leading zero |
| Php.NatToStringOfDigits | src/Reader/CsvReader.php:114 | a digit text with no leading zero is the text of its value |
| Php.IntToStringIsIntKey | src/Reader/CsvReader.php:114 | the key `(string) $i` is one PHP stores as an integer key |
| Php.IntKeyIsCanonical | src/Hydrator/CsvHydrator.php:74 | every integer key is the decimal text of its integer, so comparing keys as strings is comparing them as PHP does |
| AssocList.Keys | src/Hydrator/CsvHydrator.php:78 | the keys in iteration order, one per entry |
| AssocList.Values | src/Writer/CsvWriter.php:42 | the values in iteration order, one per entry |
| AssocList.LookupNone | src/Hydrator/CsvHydrator.php:71 | `$row[$k] ?? null` is null exactly when `$k` is not a key of the row |
| AssocList.LookupAt | src/Hydrator/CsvHydrator.php:69 | in an array with distinct keys, looking up the key of an entry gives that entry's value |
| AssocList.FromPairsStep | src/Reader/CsvReader.php:113-116 | building from one more pair is one more assignment |
| AssocList.PutLookup | src/Reader/CsvReader.php:115 | an assignment changes the value of its key and of no other key |
| AssocList.PutKeys | src/Reader/CsvReader.php:115 | an assignment to an existing key keeps the key order; a new key goes at the end |
| AssocList.PutDistinct | src/Reader/CsvReader.php:115 | an assignment keeps the keys distinct |
| AssocList.FromPairsDistinct | src/Reader/CsvReader.php:113-116 | an array built by assignments has distinct keys |
| AssocList.FromPairsLookup | src/Reader/CsvReader.php:113-116 | after the assignments, each key holds the value of its last assignment (a later duplicate overwrites an earlier one) |
| AssocList.PutFresh | src/Reader/CsvReader.php:115 | assigning a new key appends the entry |
| AssocList.FromPairsOfDistinct | src/Reader/CsvReader.php:113-116 | when the keys are distinct, the array is the pairs in order |
| Options.OrDefault | src/Reader/CsvReader.php:38 | with no options given, the defaults apply (a header, blank lines skipped, comma delimiter); options given are used unchanged |
| Reader.HeaderOf | src/Reader/CsvReader.php:69 | the header has one label per cell, the cell's text, with null becoming `''` |
| Reader.Surviving | src/Reader/CsvReader.php:61-63 | skipping never adds records; without `skipEmptyLines` every record is kept |
| Reader.SurvivingAppend | src/Reader/CsvReader.php:53-63 | skipping is record by record: the records kept from two parts of a file are the records kept from each |
| Reader.SurvivingMembers | src/Reader/CsvReader.php:61-63 | every kept record is a record of the file and is not blank when blank records are skipped |
| Reader.SurvivingOne | src/Reader/CsvReader.php:61-63 | one record is kept exactly when it is not dropped |
| Reader.SurvivingAll | src/Reader/CsvReader.php:61-63 | when no record is dropped, all are kept |
| Reader.SurvivingNone | src/Reader/CsvReader.php:61-63 | when every record is dropped, none is kept |
| Reader.AllDroppedYieldsNothing | src/Reader/CsvReader.php:53-84 | a file of dropped records, the empty file included, yields no rows and leaves the header as it was |
| Reader.FirstSurvivorIsHeader | src/Reader/CsvReader.php:65-74 | with a header, the first record not dropped becomes the header and is not yielded; the records after it are yielded labelled by it |
| Reader.RowsWithHeader | src/Reader/CsvReader.php:65-79 | with a header, the count of rows is the count of kept records minus one (zero for none), and row `i` is record `i + 1` labelled by the first kept record |
| Reader.BlankNeverHeader | src/Reader/CsvReader.php:61-82 | when blank records are skipped, the header is never taken from a blank record and no blank record is yielded: without a header each row is a non-blank record, and with one each row is a non-blank record of the file labelled by the header |
| Reader.AssocOfShape | src/Reader/CsvReader.php:109-119 | the associative row has distinct keys, each holding the value of its last position; with distinct labels it is the position pairs themselves |
| Reader.LabelledStep | src/Reader/CsvReader.php:78-79 | labelling one more record appends its row |
| Reader.SurvivingStep | src/Reader/CsvReader.php:61-63 | the next record is kept or dropped by its own cells alone |
| Reader.RowsFromStep | src/Reader/CsvReader.php:65-82 | one more kept record either becomes the header (the first, with a header) or adds one row at the end |
| Reader.CsvReader.constructor | src/Reader/CsvReader.php:24-31 | a reader over the records with the given options, with no header yet |
| Reader.CsvReader.FromPath | src/Reader/CsvReader.php:33-43 | an unreadable path fails with "CSV file not readable: " followed by the path; otherwise a fresh reader with the options or the defaults |
| Reader.CsvReader.Rows | src/Reader/CsvReader.php:48-84 | the loop yields exactly the rows of the specification function `RowsOf` and sets the header field to the header it captured; without a header, `RowsOf` is each kept record unchanged, in order |
| Reader.CsvReader.Consume | src/Reader/CsvReader.php:56-82 | one iteration of the loop: the record is skipped, taken as the header, or yielded, keeping the loop's state equal to its specification on the records seen so far |
| Reader.CsvReader.IsEmptyRow | src/Reader/CsvReader.php:91-100 | true exactly when every cell is null or `''` |
| Reader.CsvReader.AssocRow | src/Reader/CsvReader.php:109-119 | the loop visits `max(count(header), count(row))` positions and assigns, at position `i`, the cell `row[i]` (or `''`, null included) to the key `header[i]` (or `(string) i`); an assignment to a repeated key overwrites |
| ReaderScenarios.ReadsHeaderAndRows | tests/Reader/CsvReaderTest.php:32-39 | "name,age / Alice,30 / Bob,25" read with a header gives the two rows keyed by name and age |
| ReaderScenarios.SkipsEmptyLines | tests/Reader/CsvReaderTest.php:41-49 | a blank line between header and data is skipped; one row is yielded |
| ReaderScenarios.IncludesEmptyLineWhenNotSkipping | tests/Reader/CsvReaderTest.php:51-64 | without skipping, the blank line is yielded as a row of empty cells under both labels, then the data row |
| Hydrator.NormalizeShape | src/Hydrator/CsvHydrator.php:151-154 | a normalised key holds only lower-case letters and digits and is no longer than the key |
| Hydrator.NormalizeFixed | src/Hydrator/CsvHydrator.php:151-154 | a key of lower-case letters and digits is its own normal form |
| Hydrator.NormalizeIdempotent | src/Hydrator/CsvHydrator.php:151-154 | normalising twice is normalising once |
| Hydrator.NormalizeIgnoresCase | src/Hydrator/CsvHydrator.php:151-154 | keys that differ only in letter case normalise alike |
| Hydrator.FallbackAsWrittenThrowsOnLongRow | src/Hydrator/CsvHydrator.php:78-79 | on a data row longer than the header, the matching loop as written throws, where comparing the keys as text finds no match |
| Hydrator.FallbackAsWrittenAgrees | src/Hydrator/CsvHydrator.php:78-84 | when no integer key comes before the match, the loop as written and the corrected comparison find the same value |
| Hydrator.FindScopeSeparator | src/Hydrator/CsvHydrator.php:102 | the position found is the first "::" at or after the start; none means the text has no "::" there |
| Hydrator.SplitScope | src/Hydrator/CsvHydrator.php:102-104 | `explode('::', $s, 2)`: the two parts joined by "::" give back the text, and the first part holds no "::" |
| Hydrator.FirstMatchIsFirst | src/Hydrator/CsvHydrator.php:74-89 | header matching finds a value exactly when some key normalises to the property's normal form, and then it is the value of the first such key in row order |
| Hydrator.FirstMatchAt | src/Hydrator/CsvHydrator.php:78-84 | the value found is that of the first entry whose key matches |
| Hydrator.FallbackNeedsStringKey | src/Hydrator/CsvHydrator.php:86-89 | on an indexed row, or one whose first key is an integer, header matching gives null |
| Hydrator.IndexWins | src/Hydrator/CsvHydrator.php:68-69 | a declared index alone decides the raw value: neither the declared name nor the property name changes it |
| Hydrator.NameWins | src/Hydrator/CsvHydrator.php:70-71 | without an index, a declared name decides the raw value and the property name plays no part |
| Hydrator.BareColumnFallsBack | src/Hydrator/CsvHydrator.php:68-75 | a column with neither index nor name resolves like having no column, by header matching |
| Hydrator.BareRequiredColumn | src/Hydrator/CsvHydrator.php:93-95 | the `required` flag of such a column still applies: no match fails as a required column |
| Hydrator.AttributesOff | src/Hydrator/CsvHydrator.php:58-65 | with attributes off every property behaves as if it had no attribute (header matching, no `required`, no converter) |
| Hydrator.RequiredBlankFails | src/Hydrator/CsvHydrator.php:93-95 | a required property whose raw value is null or `''` fails with the required-column error of that property |
| Hydrator.ConverterSkippedOnBlank | src/Hydrator/CsvHydrator.php:98 | the converter is never called on null or `''`: the outcome is the same whatever callables exist |
| Hydrator.ConverterNotCallable | src/Hydrator/CsvHydrator.php:107-109 | a converter name naming no callable fails with the not-callable error of that property |
| Hydrator.PlainField | src/Hydrator/CsvHydrator.php:66-144 | without converter and without `required`, a property takes its raw value coerced to its declared type, or fails only on a type mismatch |
| Hydrator.ConvertedField | src/Hydrator/CsvHydrator.php:111-112 | a converter that returns a value hands it to the typing stage |
| Hydrator.ConverterThrows | src/Hydrator/CsvHydrator.php:111-115 | a converter that throws fails the property with an error whose message contains the converter's own message |
| Hydrator.OccursInMiddle | src/Hydrator/CsvHydrator.php:114 | a text occurs in any text it is concatenated into |
| Hydrator.MessageNamesProperty | src/Hydrator/CsvHydrator.php:94-114 | every mapping error's message names the property in quotes, and a converter failure's message carries the cause |
| Hydrator.NullableBlankIsNull | src/Hydrator/CsvHydrator.php:126-129 | null or `''` into a nullable builtin type gives null |
| Hydrator.BoolCoercion | src/Hydrator/CsvHydrator.php:165 | a bool property is true exactly when the lower-cased text is "1", "true", "yes" or "y" |
| Hydrator.BoolExamples | src/Hydrator/CsvHydrator.php:165 | "YES" gives true; "no", "0" and `''` (into a non-nullable bool) give false |
| Hydrator.StringCoercion | src/Hydrator/CsvHydrator.php:166 | a string property takes the text unchanged |
| Hydrator.IntCoercionRoundTrip | src/Hydrator/CsvHydrator.php:163 | an int property takes back any integer from its decimal text |
| Hydrator.IntCoercionNonNumeric | src/Hydrator/CsvHydrator.php:163 | an int property takes 0 from non-numeric text |
| Hydrator.FloatCoercion | src/Hydrator/CsvHydrator.php:164 | a float property takes the double `(float)` reads from the text |
| Hydrator.NullIntoNonNullable | src/Hydrator/CsvHydrator.php:132-137 | null (cast to null) cannot be assigned to a non-nullable typed property (PHP's `TypeError`) |
| Hydrator.RowValuesSucceeds | src/Hydrator/CsvHydrator.php:56-145 | a row gives an instance exactly when every property succeeds |
| Hydrator.RowValuesKeys | src/Hydrator/CsvHydrator.php:56-145 | the instance sets exactly the class's properties |
| Hydrator.RowValuesContents | src/Hydrator/CsvHydrator.php:56-145 | each property of the instance holds the value computed for it |
| Hydrator.RowValuesStep | src/Hydrator/CsvHydrator.php:137-144 | setting one more property after a clean prefix adds that property's value |
| Hydrator.RowValuesFailsAt | src/Hydrator/CsvHydrator.php:56-145 | a row fails with the error of its first failing property, in declaration order |
| Hydrator.HydrateRowsShape | src/Hydrator/CsvHydrator.php:54-148 | one instance per row in row order, up to the first failing row, whose error ends the run |
| Hydrator.HydrateRowsStopsAt | src/Hydrator/CsvHydrator.php:54-148 | a row that fails after clean rows decides the outcome: the earlier instances and its error, nothing after |
| Hydrator.HydrateRowsStep | src/Hydrator/CsvHydrator.php:147 | a row that succeeds after clean rows adds its instance at the end |
| Hydrator.FindHeader | src/Hydrator/CsvHydrator.php:77-85 | the search loop returns the value of the first entry whose normalised key matches |
| Hydrator.ComputeField | src/Hydrator/CsvHydrator.php:57-144 | the body of the per-property loop computes the value or error the specification `FieldValue` gives |
| Hydrator.Instance.constructor | src/Hydrator/CsvHydrator.php:55 | `newInstanceWithoutConstructor`: a fresh instance; declared defaults are not modelled, since hydration then assigns every property |
| Hydrator.Instance.SetValue | src/Hydrator/CsvHydrator.php:137-144 | `setValue` assigns one property and leaves the others alone |
| Hydrator.CsvHydrator.constructor | src/Hydrator/CsvHydrator.php:51-54 | a hydrator over a reader |
| Hydrator.CsvHydrator.BuildInstance | src/Hydrator/CsvHydrator.php:55-145 | a fresh instance holding the properties `RowValues` gives, or that function's error |
| Hydrator.CsvHydrator.Hydrate | src/Hydrator/CsvHydrator.php:51-149 | one fresh, distinct instance per row the reader yields, in row order, holding that row's values, up to the error of the first failing row; the reader's header is captured as reading does |
| Hydrator.CsvHydrator.HydrateEach | src/Hydrator/CsvHydrator.php:54-148 | the row loop yields the instances and the error of `HydrateRows` |
| Hydrator.CsvHydrator.HydrateAll | src/Hydrator/CsvHydrator.php:32-40 | the instances `hydrate` yields, in the same order, or its error |
| Scenarios.ResolveStaticMethod | src/Hydrator/CsvHydrator.php:99-107 | "Class::method" that is not a function name resolves to the static method of that class |
| Scenarios.PersonRows | tests/Hydrator/CsvHydratorTest.php:55-66 | the test file read with a header gives the rows of Alice and Bob, keyed by name, age and note |
| Scenarios.PersonInstance | tests/Hydrator/CsvHydratorTest.php:55-66 | a Person row sets name, age and note, with an empty note becoming null |
| Scenarios.PersonScenario | tests/Hydrator/CsvHydratorTest.php:55-66 | hydrating the file gives Alice (30, "ok") and Bob (25, null), in order, with no error |
| Scenarios.PersonWithoutAttributes | tests/Hydrator/CsvHydratorTest.php:68-80 | without attributes every Person property is found by header matching and the same instance results |
| Scenarios.RequiredWithoutHeader | tests/Hydrator/CsvHydratorTest.php:82-101 | a required column read from a file without a header fails with the required-column error, before any instance |
| Scenarios.UnknownConverter | tests/Hydrator/CsvHydratorTest.php:103-118 | a converter naming nothing fails the row with the not-callable error |
| Scenarios.ThrowingConverterWrapped | tests/Hydrator/CsvHydratorTest.php:120-135 | a converter throwing "boom" fails the row with a message containing "boom" |
| Scenarios.IndexMapping | tests/Hydrator/CsvHydratorTest.php:137-162 | index mapping on a file without a header gives "Gina" and 50 |
| Scenarios.NullableBecomesNull | tests/Hydrator/CsvHydratorTest.php:164-183 | an empty cell into `?string` gives null |
| Scenarios.FloatAndBool | tests/Hydrator/CsvHydratorTest.php:213-237 | float and bool properties take the double read from the text and whether the text is truthy |
| Writer.SpaceForBreaks | src/Writer/CsvWriter.php:79 | no `_` or `-` remains: each becomes a space, and every other character stays |
| Writer.UcwordsFrom | src/Writer/CsvWriter.php:79 | `ucwords` keeps the length |
| Writer.UcwordsPointwise | src/Writer/CsvWriter.php:79 | `ucwords` changes letter case at most |
| Writer.RemoveSpaces | src/Writer/CsvWriter.php:79 | removing spaces leaves no space and never lengthens |
| Writer.RemovedSubsequence | src/Writer/CsvWriter.php:79 | every character kept comes from the input |
| Writer.GetterNameIgnoringCase | src/Writer/CsvWriter.php:79-80 | up to letter case, which `method_exists` ignores, the getter is "get" followed by the property without spaces, underscores and hyphens |
| Writer.GetterNameHasNoSeparators | src/Writer/CsvWriter.php:79 | the getter name starts with "get" and holds no space, underscore or hyphen |
| Writer.UcwordsAppend | src/Writer/CsvWriter.php:79 | `ucwords` works left to right across a concatenation |
| Writer.UcwordsWord | src/Writer/CsvWriter.php:79 | inside one word only the first letter can change |
| Writer.GetterNameOfWord | src/Writer/CsvWriter.php:79 | a one-word property looks for "get" and the word capitalised |
| Writer.GetterNameOfTwoWords | src/Writer/CsvWriter.php:79 | two words joined by `_`, `-` or a space look for "get" and both words capitalised |
| Writer.FindMethodSpec | src/Writer/CsvWriter.php:80 | `method_exists`: a method found is one of the object's, named alike ignoring case; none found means no method is |
| Writer.FindFieldSpec | src/Writer/CsvWriter.php:84 | `property_exists`: a property found has exactly that name; none found means the object has none |
| Writer.PublicValues | src/Writer/CsvWriter.php:70 | the line has no more cells than the object has properties (which values appear, and in what order, is `Writer.PublicValuesAppend` with `Writer.PublicValuesOne`) |
| Writer.GetterWins | src/Writer/CsvWriter.php:80-82 | a public getter wins over a property of the same name |
| Writer.PropertyWithoutGetter | src/Writer/CsvWriter.php:84-86 | without a getter, a public initialised property is read directly |
| Writer.MissingIsNull | src/Writer/CsvWriter.php:88 | with neither getter nor property the cell is null, written as an empty field |
| Writer.ColumnValuesShape | src/Writer/CsvWriter.php:64-68 | with explicit columns, the line exists exactly when every column can be read, and then has one cell per column in column order |
| Writer.ColumnValuesFailsAt | src/Writer/CsvWriter.php:64-68 | a line that fails, fails with the error of a column that cannot be read |
| Writer.PublicValuesAreFields | src/Writer/CsvWriter.php:69-70 | without columns, each cell is the value of a public initialised property, and all properties appear in declaration order when all are public and initialised |
| Writer.PublicValuesAppend | src/Writer/CsvWriter.php:69-70 | property by property, in declaration order: the values of two runs of properties are the values of each, in turn |
| Writer.PublicValuesOne | src/Writer/CsvWriter.php:69-70 | one property contributes its value exactly when it is public and initialised, and nothing otherwise |
| Writer.ObjectLinesShape | src/Writer/CsvWriter.php:62-73 | one line per object, in order, up to the first object that cannot be read |
| Writer.ObjectLinesWithoutColumns | src/Writer/CsvWriter.php:69-72 | without columns nothing fails: each object gives the line of its public values |
| Writer.TraversableLine | src/Writer/CsvWriter.php:41-43 | a Traversable with distinct keys is written as its values in order; a repeated key keeps its last value |
| Writer.FromPairsLength | src/Writer/CsvWriter.php:42 | `iterator_to_array` never gives more cells than the Traversable yields |
| Writer.ColumnValuesSticky | src/Writer/CsvWriter.php:65-67 | once a column fails, later columns do not change the outcome |
| Writer.ObjectLinesSticky | src/Writer/CsvWriter.php:62-73 | once an object fails, later objects do not change what is written |
| Writer.CsvWriter.constructor | src/Writer/CsvWriter.php:11-16 | a writer with its options, over the file's lines |
| Writer.CsvWriter.FromPath | src/Writer/CsvWriter.php:18-25 | mode "a" keeps the file's lines and mode "w" empties them, with the options or the defaults; a file that cannot be opened gives no writer |
| Writer.CsvWriter.WriteRows | src/Writer/CsvWriter.php:34-47 | the file gains the header line, if given, then one line per row, in order |
| Writer.CsvWriter.ObjectRow | src/Writer/CsvWriter.php:63-71 | the inner loop builds the line `ObjectLine` describes, or stops at the column that cannot be read |
| Writer.CsvWriter.WriteObjects | src/Writer/CsvWriter.php:56-74 | the file gains the header line, if given, then the lines `ObjectLines` gives, and the error that stopped it is returned |
| WriterScenarios.PublicPersonFields | tests/Writer/CsvWriterTest.php:47-70 | a person's public name and age are read directly; a missing note is null |
| WriterScenarios.WriteTwoPeople | tests/Writer/CsvWriterTest.php:47-115 | writing two people with columns name and age, by public properties or by getters, gives two lines whose cells are each person's name and age |
| WriterScenarios.JoinedNameAge | tests/Writer/CsvWriterTest.php:68-69 | a line of a name and an age reads the name, a comma, then the age's decimal text |
| WriterScenarios.WriteTwoPeopleText | tests/Writer/CsvWriterTest.php:68-69 | the test's two lines read "Alice,30" and "Bob,25" |
| WriterScenarios.GettersAreUsed | tests/Writer/CsvWriterTest.php:72-115 | private name and age are read through `getName` and `getAge` |
| WriterScenarios.MixedObjectValues | src/Writer/CsvWriter.php:69-70 | without columns, an object with private name and age and a public note is written as its note alone |
| WriterScenarios.MissingPropertyIsEmptyCell | tests/Writer/CsvWriterTest.php:117-134 | the columns name, note, age of a person without a note give an empty middle cell |
| WriterScenarios.JoinedNameNoteAge | tests/Writer/CsvWriterTest.php:133 | that line reads "Alice,,30" |
| WriterScenarios.TraversablePair | tests/Writer/CsvWriterTest.php:136-153 | an `ArrayIterator` over two values is written as those two values |
| WriterScenarios.ReadBackLabelled | src/Reader/CsvReader.php:109-119 | a line of text cells read back and labelled by distinct labels pairs each label with its cell |
| WriterScenarios.WriteThenRead | src/Writer/CsvWriter.php:34-47 | rows written with a distinct-label header and read back with a header come back as the same rows, labelled |
| WriterScenarios.WrittenRecordsKept | src/Reader/CsvReader.php:61-63 | written lines that hold some text are never dropped by the reader |
| WriterScenarios.WrittenRowsLabelled | src/Reader/CsvReader.php:78-79 | the data lines read back are labelled cell by cell with the header's labels |

## Left out

- File I/O and tokenising are outside the model: `SplFileObject`, `rewind`/`eof`, and the quoting and escaping of `fgetcsv`/`fputcsv`. The reader takes already-split records. The writer appends lines of cells to a list.
- `WriterScenarios.ReadBack` assumes the tokenizer gives back exactly the cells that were written. This holds when no cell needs quoting or escaping, which the model does not check.
- `is_readable` becomes a `readable` parameter of `Reader.CsvReader.FromPath`. Whether the writer's file opens becomes the `existing` parameter of `Writer.CsvWriter.FromPath`. The writer's path plays no part beyond that.
- The reader's `false`/`null` results from `fgetcsv` (`src/Reader/CsvReader.php:56-58`) are not modelled. They happen at end of file, and the record list simply ends there.
- PHP reflection and attributes are replaced by an explicit table of properties: `newInstanceWithoutConstructor`, `getProperties` and `getAttributes`. Each entry holds the property's name, its `CsvColumn` if any, and its declared type. Static properties are left out.
- Union and intersection types are left out. The source treats them as `string` in `castValue`. The model has only no type, a named builtin type (possibly nullable) and a class type.
- PHP's `TypeError` on assignment is an error kind of its own, `TypeMismatch`, not a precondition. It covers null into a non-nullable property, any value other than null into a class-typed property, and any value into `array` or another builtin type the casts do not cover.
- Converters return scalars only (null, string, int or bool). A converter returning an object, an array or a float is left out.
- `is_callable` and `call_user_func` become a registry: global functions by name, and static methods by class and method name.
  - A "Class::method" string is looked up as a function name first, then split at the first "::".
  - PHP's case-insensitive class and function names are not modelled; names compare exactly.
  - Callables that are closures, invokable objects or instance methods are left out.
- `Hydrator.FloatCoercion`: `(float)` is IEEE-754 parsing and is kept opaque. A float value carries the text it was read from. The property states only which text was read, not the double it gives.
- `Hydrator.Instance.constructor`: the declared defaults that `newInstanceWithoutConstructor` applies (such as a nullable property defaulting to `null`) are not modelled, because `src/Hydrator/CsvHydrator.php:137-144` then assigns every non-static property.
- `Php.ParseIntRoundTrip`, `Php.ParseIntOfNonNumeric`, `Hydrator.IntCoercionRoundTrip`, `Hydrator.IntCoercionNonNumeric`: `(int)` is modelled as an optional sign followed by a run of leading digits. PHP's leading whitespace (`(int)" 12"` is 12 in PHP, 0 here), exponent and trailing-whitespace rules are left out. So is 64-bit overflow, since integers are unbounded. This covers the inputs the tests use.
- `Php.IntKeyIsCanonical`: PHP turns a numeric-string array key into an integer key. The model keeps every key as a string and marks a canonical decimal (`0`, or an optional `-` then digits with no leading zero) as an integer key. The 64-bit range limit on such keys is left out.
- Hydrator.FindHeader: compares every row key as text. The loop at `src/Hydrator/CsvHydrator.php:78-79` instead throws a `TypeError` when it reaches an integer key before a match. That loop is `Hydrator.FirstMatchAsWritten`, and `Hydrator.FallbackAsWrittenAgrees` says when the two agree.
- Hydrator.CsvHydrator.Hydrate: uses the corrected comparison, so it does not end in the uncaught `TypeError` the source raises in that case. One example is a data line longer than its header with an unmatched property; another is a numeric header label such as `2024` reached before the match.
- Writer.RenderedCell: a float cell is written as the text it was read from. `fputcsv` writes PHP's own rendering of the double instead, so `"1.50"` is written as `1.5` and `"1e3"` as `1000`.
- Generators are modelled as the complete list they would produce, plus the error that ends them where one does. Laziness and interleaving with the caller are left out.
- The `delimiter`, `enclosure` and `escape` options only reach the tokenizer, which is not modelled. The `encoding` option is unused by the source. `Writer.Joined` renders a line with the delimiter only for cells that need no quoting.
- `propGet` is modelled for public methods and properties that can be read. Magic `__get`/`__call`, getters with side effects, and getters that throw are left out. Reading a private property or an uninitialised typed property becomes an `AccessError` that stops `writeObjects`, standing for PHP's `Error`.

## Findings

| source | as written | input that shows it | evidently intended | confidence | as-written member | corrected member |
|---|---|---|---|---|---|---|
| src/Hydrator/CsvHydrator.php:78-79 | header matching passes every row key to `normalizeHeaderKey(string $k)`; under `strict_types` an integer key raises a `TypeError` | header "name,age" with the data line "Alice,30,ok" and a property `note` with no column: the third cell gets the key `(string) 2`, which PHP stores as the integer 2, so matching throws instead of giving null | every key compared as text, so a row longer than its header matches as usual (here: no match, null) | not executed | Hydrator.FallbackAsWrittenThrowsOnLongRow | Hydrator.FirstMatchIsFirst |
