/** The row source: turns the records of a CSV file (already split into cells
    by the tokenizer) into the rows the hydrator consumes. It drops blank
    records when asked to, captures the first surviving record as the header,
    and labels every later record's cells with the header's labels. */
module Reader {
  import opened Wrappers
  import opened Php
  import opened AssocList
  import opened Options

  /** One tokenised record; `None` is a cell the tokenizer returned as null
      (a blank line comes back as `[None]`). */
  type Record = seq<Option<string>>

  /** A yielded row: the record itself when there is no header, or an
      associative array from header label to cell text. */
  datatype Row = Indexed(cells: Record) | Assoc(entries: Entries<string>)

  predicate IsBlankCell(c: Option<string>) {
    c == None || c == Some("")
  }

  /** Every cell is null or the empty string. */
  predicate IsEmptyRecord(r: Record) {
    forall i :: 0 <= i < |r| ==> IsBlankCell(r[i])
  }

  /** `(string) $cell`, and `$cell ?? ''`: null becomes the empty string. */
  function CellText(c: Option<string>): string {
    if c.Some? then c.value else ""
  }

  /** The header captured from a record: each cell as a string. */
  function HeaderOf(r: Record): (h: seq<string>)
    ensures |h| == |r|
    ensures forall i :: 0 <= i < |r| ==> h[i] == CellText(r[i])
  {
    if r == [] then [] else [CellText(r[0])] + HeaderOf(r[1..])
  }

  /** The key of position `i`: the header's label there, else `(string) $i`. */
  function KeyAt(header: seq<string>, i: nat): string {
    if i < |header| then header[i] else IntToString(i)
  }

  /** The value of position `i`: the record's cell there, else `''`. */
  function CellAt(r: Record, i: nat): string {
    if i < |r| then CellText(r[i]) else ""
  }

  /** The (key, value) assignments `assocRow` performs, in order: one for each
      position below `max(|header|, |r|)`. */
  function Pairs(header: seq<string>, r: Record): (ps: seq<(string, string)>)
    ensures |ps| == Max(|header|, |r|)
    ensures forall i :: 0 <= i < |ps| ==> ps[i] == (KeyAt(header, i), CellAt(r, i))
  {
    seq(Max(|header|, |r|), i requires 0 <= i => (KeyAt(header, i), CellAt(r, i)))
  }

  /** The associative row `assocRow` builds. */
  function AssocOf(header: seq<string>, r: Record): Entries<string> {
    FromPairs(Pairs(header, r))
  }

  /** A record the reader discards without yielding it or looking at it for the header. */
  predicate Dropped(options: CsvOptions, r: Record) {
    options.skipEmptyLines && IsEmptyRecord(r)
  }

  /** The records that are not dropped, in file order. */
  function Surviving(options: CsvOptions, records: seq<Record>): (s: seq<Record>)
    ensures |s| <= |records|
    ensures !options.skipEmptyLines ==> s == records
    decreases |records|
  {
    if records == [] then []
    else
      var init := Surviving(options, records[..|records| - 1]);
      var last := records[|records| - 1];
      if Dropped(options, last) then init else init + [last]
  }

  /** Rows labelled with a header: one associative row per record. */
  function Labelled(header: seq<string>, rs: seq<Record>): (rows: seq<Row>)
    ensures |rows| == |rs|
    ensures forall i :: 0 <= i < |rs| ==> rows[i] == Assoc(AssocOf(header, rs[i]))
  {
    seq(|rs|, i requires 0 <= i < |rs| => Assoc(AssocOf(header, rs[i])))
  }

  /** Rows without a header: every record as it is. */
  function Unlabelled(rs: seq<Record>): (rows: seq<Row>)
    ensures |rows| == |rs|
    ensures forall i :: 0 <= i < |rs| ==> rows[i] == Indexed(rs[i])
  {
    seq(|rs|, i requires 0 <= i < |rs| => Indexed(rs[i]))
  }

  /** Everything `rows()` yields from a file, as one list. With a header the
      first surviving record is consumed as the header and the others are
      labelled with it; without one the surviving records are yielded as they are. */
  function RowsOf(options: CsvOptions, records: seq<Record>): seq<Row> {
    RowsFrom(options, Surviving(options, records))
  }

  /** The rows yielded from the surviving records `s`. */
  function RowsFrom(options: CsvOptions, s: seq<Record>): seq<Row> {
    if !options.hasHeader then Unlabelled(s)
    else if s == [] then []
    else Labelled(HeaderOf(s[0]), s[1..])
  }

  /** The reader's `header` field after a full pass over the file. */
  function HeaderAfter(options: CsvOptions, records: seq<Record>, prior: Option<seq<string>>): Option<seq<string>> {
    HeaderFrom(options, Surviving(options, records), prior)
  }

  function HeaderFrom(options: CsvOptions, s: seq<Record>, prior: Option<seq<string>>): Option<seq<string>> {
    if options.hasHeader && s != [] then Some(HeaderOf(s[0])) else prior
  }

  // ----- properties of the row source ---------------------------------------

  /** Dropping works record by record and keeps the file's order: the records
      surviving from a concatenation are those surviving from each part. */
  lemma {:induction false} SurvivingAppend(options: CsvOptions, a: seq<Record>, b: seq<Record>)
    ensures Surviving(options, a + b) == Surviving(options, a) + Surviving(options, b)
    decreases |b|
  {
    if b == [] {
      assert a + b == a;
    } else {
      var b' := b[..|b| - 1];
      SurvivingAppend(options, a, b');
      assert (a + b)[..|a + b| - 1] == a + b';
      assert (a + b)[|a + b| - 1] == b[|b| - 1];
    }
  }

  /** Every survivor is a record of the file that is not dropped. */
  lemma {:induction false} SurvivingMembers(options: CsvOptions, records: seq<Record>)
    ensures forall r :: r in Surviving(options, records) ==> r in records && !Dropped(options, r)
    decreases |records|
  {
    if records != [] {
      var init := records[..|records| - 1];
      SurvivingMembers(options, init);
      assert forall r :: r in init ==> r in records;
    }
  }

  /** A single record survives exactly when it is not dropped. */
  lemma SurvivingOne(options: CsvOptions, r: Record)
    ensures Surviving(options, [r]) == if Dropped(options, r) then [] else [r]
  {
    assert [r][..0] == [];
  }

  /** When no record is dropped, all of them survive. */
  lemma {:induction false} SurvivingAll(options: CsvOptions, records: seq<Record>)
    requires forall j :: 0 <= j < |records| ==> !Dropped(options, records[j])
    ensures Surviving(options, records) == records
    decreases |records|
  {
    if records != [] {
      SurvivingAll(options, records[..|records| - 1]);
      assert records[..|records| - 1] + [records[|records| - 1]] == records;
    }
  }

  /** When every record is dropped, nothing survives ... */
  lemma {:induction false} SurvivingNone(options: CsvOptions, records: seq<Record>)
    requires forall j :: 0 <= j < |records| ==> Dropped(options, records[j])
    ensures Surviving(options, records) == []
    decreases |records|
  {
    if records != [] {
      SurvivingNone(options, records[..|records| - 1]);
    }
  }

  /** ... so the reader yields no row and leaves its header as it was. */
  lemma AllDroppedYieldsNothing(options: CsvOptions, records: seq<Record>, prior: Option<seq<string>>)
    requires forall j :: 0 <= j < |records| ==> Dropped(options, records[j])
    ensures RowsOf(options, records) == []
    ensures HeaderAfter(options, records, prior) == prior
  {
    SurvivingNone(options, records);
  }

  /** With a header, the first record that is not dropped becomes the header,
      and the rows are the records after it that are not dropped, each
      labelled with it. */
  lemma FirstSurvivorIsHeader(options: CsvOptions, records: seq<Record>, k: nat, prior: Option<seq<string>>)
    requires options.hasHeader
    requires k < |records| && !Dropped(options, records[k])
    requires forall j :: 0 <= j < k ==> Dropped(options, records[j])
    ensures HeaderAfter(options, records, prior) == Some(HeaderOf(records[k]))
    ensures RowsOf(options, records) == Labelled(HeaderOf(records[k]), Surviving(options, records[k + 1..]))
  {
    assert records == records[..k] + ([records[k]] + records[k + 1..]);
    SurvivingAppend(options, records[..k], [records[k]] + records[k + 1..]);
    SurvivingAppend(options, [records[k]], records[k + 1..]);
    SurvivingNone(options, records[..k]);
    SurvivingOne(options, records[k]);
    var s := Surviving(options, records);
    assert s == [records[k]] + Surviving(options, records[k + 1..]);
    assert s[1..] == Surviving(options, records[k + 1..]);
  }

  /** With a header, a non-empty file yields one row fewer than it has
      surviving records, all of them associative and labelled by the header. */
  lemma RowsWithHeader(options: CsvOptions, records: seq<Record>)
    requires options.hasHeader
    ensures var s := Surviving(options, records);
      && |RowsOf(options, records)| == (if s == [] then 0 else |s| - 1)
      && forall i :: 0 <= i < |RowsOf(options, records)| ==>
           RowsOf(options, records)[i] == Assoc(AssocOf(HeaderOf(s[0]), s[i + 1]))
  {
  }

  /** A blank record never becomes the header and is never yielded when blank
      records are skipped. */
  lemma BlankNeverHeader(options: CsvOptions, records: seq<Record>)
    requires options.skipEmptyLines
    ensures HeaderAfter(options, records, None).Some? ==>
      exists r :: r in records && !IsEmptyRecord(r) && HeaderAfter(options, records, None) == Some(HeaderOf(r))
    ensures forall i :: 0 <= i < |RowsOf(options, records)| && RowsOf(options, records)[i].Indexed? ==>
      !IsEmptyRecord(RowsOf(options, records)[i].cells)
    ensures options.hasHeader && Surviving(options, records) != [] ==>
      forall i :: 0 <= i < |RowsOf(options, records)| ==>
        exists r :: r in records && !IsEmptyRecord(r) &&
          RowsOf(options, records)[i] == Assoc(AssocOf(HeaderOf(Surviving(options, records)[0]), r))
  {
    var s := Surviving(options, records);
    SurvivingMembers(options, records);
    if options.hasHeader && s != [] {
      assert s[0] in s;
      forall i | 0 <= i < |RowsOf(options, records)|
        ensures exists r :: r in records && !IsEmptyRecord(r) && RowsOf(options, records)[i] == Assoc(AssocOf(HeaderOf(s[0]), r))
      {
        assert s[i + 1] in s;
      }
    }
    if !options.hasHeader {
      forall i | 0 <= i < |RowsOf(options, records)|
        ensures !IsEmptyRecord(RowsOf(options, records)[i].cells)
      {
        assert s[i] in s;
      }
    }
  }

  /** The associative row holds, for each key, the cell of the LAST position
      carrying that key (a later duplicate label overwrites an earlier one);
      its keys are distinct; and when the labels of all positions differ it
      is exactly one entry per position, in order. */
  lemma AssocOfShape(header: seq<string>, r: Record, k: string)
    ensures Lookup(AssocOf(header, r), k) == LastValue(Pairs(header, r), k)
    ensures DistinctKeys(AssocOf(header, r))
    ensures DistinctKeys(Pairs(header, r)) ==> AssocOf(header, r) == Pairs(header, r)
  {
    FromPairsLookup(Pairs(header, r), k);
    FromPairsDistinct(Pairs(header, r));
    if DistinctKeys(Pairs(header, r)) {
      FromPairsOfDistinct(Pairs(header, r));
    }
  }

  /** The next yielded row once a header has been captured. */
  lemma LabelledStep(header: seq<string>, rs: seq<Record>, r: Record)
    ensures Labelled(header, rs + [r]) == Labelled(header, rs) + [Assoc(AssocOf(header, r))]
  {
  }

  /** One more record: dropped, or appended to the survivors. */
  lemma SurvivingStep(options: CsvOptions, records: seq<Record>, k: nat)
    requires k < |records|
    ensures Surviving(options, records[..k + 1]) ==
      if Dropped(options, records[k]) then Surviving(options, records[..k]) else Surviving(options, records[..k]) + [records[k]]
  {
    assert records[..k + 1][..k] == records[..k];
  }

  /** One more survivor: it becomes the header when it is the first one and
      there is a header; otherwise it is yielded, labelled or as it is. */
  lemma RowsFromStep(options: CsvOptions, s: seq<Record>, r: Record)
    ensures RowsFrom(options, s + [r]) ==
      if !options.hasHeader then RowsFrom(options, s) + [Indexed(r)]
      else if s == [] then []
      else RowsFrom(options, s) + [Assoc(AssocOf(HeaderOf(s[0]), r))]
  {
    if options.hasHeader && s != [] {
      assert (s + [r])[1..] == s[1..] + [r];
      LabelledStep(HeaderOf(s[0]), s[1..], r);
    }
  }

  // ----- the reader object ---------------------------------------------------

  class CsvReader {
    /** The configuration, fixed at construction. */
    const options: CsvOptions
    /** The file's records, as the tokenizer returns them. */
    const records: seq<Record>
    /** The header labels, captured by the first pass over the file. */
    var header: Option<seq<string>>

    constructor (options: CsvOptions, records: seq<Record>)
      ensures this.options == options && this.records == records && header == None
    {
      this.options := options;
      this.records := records;
      header := None;
    }

    /** `fromPath`: fails when the file is not readable; otherwise a reader
        over the file's records with the given options or the defaults. */
    static method FromPath(path: string, readable: bool, records: seq<Record>, options: Option<CsvOptions>)
      returns (r: Result<CsvReader, string>)
      ensures !readable ==> r == Failure("CSV file not readable: " + path)
      ensures readable ==> && r.Success? && fresh(r.value) && r.value.options == OrDefault(options)
                           && r.value.records == records && r.value.header == None
    {
      if !readable {
        return Failure("CSV file not readable: " + path);
      }
      var reader := new CsvReader(OrDefault(options), records);
      return Success(reader);
    }

    /** One full pass over the file: every row `rows()` yields, in order; the
        header field is set to the captured header. */
    method Rows() returns (out: seq<Row>)
      modifies this
      ensures out == RowsOf(options, records)
      ensures header == HeaderAfter(options, records, old(header))
    {
      out := [];
      var first := true;
      ghost var s: seq<Record> := [];
      var k := 0;
      while k < |records|
        invariant 0 <= k <= |records|
        invariant s == Surviving(options, records[..k])
        invariant first <==> s == []
        invariant out == RowsFrom(options, s)
        invariant header == HeaderFrom(options, s, old(header))
      {
        SurvivingStep(options, records, k);
        first, out, s := Consume(records[k], first, out, s, old(header));
        k := k + 1;
      }
      assert records[..k] == records;
    }

    /** One pass of the loop in `rows()`: the record is skipped when blank
        records are skipped and it is blank; otherwise it becomes the header
        if it is the first one and there is a header, or is yielded. `s` is
        the records that survived before it. */
    method Consume(row: Record, first: bool, out: seq<Row>, ghost s: seq<Record>, ghost prior: Option<seq<string>>)
      returns (first': bool, out': seq<Row>, ghost s': seq<Record>)
      modifies this
      requires first <==> s == []
      requires out == RowsFrom(options, s)
      requires header == HeaderFrom(options, s, prior)
      ensures s' == if Dropped(options, row) then s else s + [row]
      ensures first' <==> s' == []
      ensures out' == RowsFrom(options, s')
      ensures header == HeaderFrom(options, s', prior)
    {
      first', out', s' := first, out, s;
      var skip := false;
      if options.skipEmptyLines {
        skip := IsEmptyRow(row);
      }
      if skip {
        return;
      }
      RowsFromStep(options, s, row);
      s' := s + [row];
      if first && options.hasHeader {
        header := Some(HeaderOf(row));
        first' := false;
        return;
      }
      first' := false;
      if options.hasHeader && header.Some? {
        var assoc := AssocRow(row);
        out' := out + [Assoc(assoc)];
      } else {
        out' := out + [Indexed(row)];
      }
    }

    /** `isEmptyRow`: every cell is null or the empty string. */
    static method IsEmptyRow(row: Record) returns (empty: bool)
      ensures empty <==> IsEmptyRecord(row)
    {
      for i := 0 to |row|
        invariant forall j :: 0 <= j < i ==> IsBlankCell(row[j])
      {
        if row[i] != None && row[i] != Some("") {
          return false;
        }
      }
      return true;
    }

    /** `assocRow`: labels the cells of `row` with the header's labels. */
    method AssocRow(row: Record) returns (assoc: Entries<string>)
      ensures assoc == AssocOf(if header.Some? then header.value else [], row)
    {
      var h := if header.Some? then header.value else [];
      ghost var ps := Pairs(h, row);
      assoc := [];
      var len := Max(|h|, |row|);
      for i := 0 to len
        invariant assoc == FromPairs(ps[..i])
      {
        var key := if i < |h| then h[i] else IntToString(i);
        var cell := if i < |row| && row[i].Some? then row[i].value else "";
        assert ps[i] == (key, cell);
        FromPairsStep(ps, i);
        assoc := Put(assoc, key, cell);
      }
      assert ps[..len] == ps;
    }
  }
}
