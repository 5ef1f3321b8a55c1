/** The reader's documented scenarios, stated on the model: small files as the
    tokenizer splits them and the rows `rows()` yields from them. A blank line
    comes back from the tokenizer as the one-cell record `[None]`. */
module ReaderScenarios {
  import opened Wrappers
  import opened AssocList
  import opened Options
  import opened Reader

  /** A two-cell record labelled by two distinct labels. */
  lemma TwoLabelled(h0: string, h1: string, c0: string, c1: string)
    requires h0 != h1
    ensures AssocOf([h0, h1], [Some(c0), Some(c1)]) == [(h0, c0), (h1, c1)]
  {
    var ps := Pairs([h0, h1], [Some(c0), Some(c1)]);
    assert ps == [(h0, c0), (h1, c1)];
    FromPairsOfDistinct(ps);
  }

  /** A blank line read under a two-label header: both labels, both empty. */
  lemma BlankLabelled(h0: string, h1: string)
    requires h0 != h1
    ensures AssocOf([h0, h1], [None]) == [(h0, ""), (h1, "")]
  {
    var ps := Pairs([h0, h1], [None]);
    assert ps == [(h0, ""), (h1, "")];
    FromPairsOfDistinct(ps);
  }

  /** "name,age\nAlice,30\nBob,25\n" with a header: two rows, labelled. */
  lemma ReadsHeaderAndRows()
    ensures RowsOf(Default, [[Some("name"), Some("age")], [Some("Alice"), Some("30")], [Some("Bob"), Some("25")]])
      == [Assoc([("name", "Alice"), ("age", "30")]), Assoc([("name", "Bob"), ("age", "25")])]
  {
    var file := [[Some("name"), Some("age")], [Some("Alice"), Some("30")], [Some("Bob"), Some("25")]];
    assert Surviving(Default, file) == file by {
      assert forall j :: 0 <= j < |file| ==> file[j][0].Some? && file[j][0].value != "";
      assert forall j :: 0 <= j < |file| ==> !Dropped(Default, file[j]);
      SurvivingAll(Default, file);
    }
    assert HeaderOf(file[0]) == ["name", "age"];
    TwoLabelled("name", "age", "Alice", "30");
    TwoLabelled("name", "age", "Bob", "25");
  }

  /** "name,age\n\nAlice,30\n" skipping blank lines: the blank line is
      dropped and one row is yielded. */
  lemma SkipsEmptyLines()
    ensures RowsOf(Default, [[Some("name"), Some("age")], [None], [Some("Alice"), Some("30")]])
      == [Assoc([("name", "Alice"), ("age", "30")])]
  {
    var file: seq<Record> := [[Some("name"), Some("age")], [None], [Some("Alice"), Some("30")]];
    assert Surviving(Default, file) == [file[0], file[2]] by {
      assert file[..0] == [] && file[..3] == file;
      assert !IsBlankCell(file[0][0]) && !IsBlankCell(file[2][0]);
      assert Dropped(Default, file[1]);
      SurvivingStep(Default, file, 0);
      assert Surviving(Default, file[..1]) == [file[0]];
      SurvivingStep(Default, file, 1);
      assert Surviving(Default, file[..2]) == [file[0]];
      SurvivingStep(Default, file, 2);
    }
    assert HeaderOf(file[0]) == ["name", "age"];
    TwoLabelled("name", "age", "Alice", "30");
  }

  /** The same file without skipping: the blank line is yielded as a row of
      empty cells under the header's labels, then the data row. */
  lemma IncludesEmptyLineWhenNotSkipping()
    ensures var options := Default.(skipEmptyLines := false);
      RowsOf(options, [[Some("name"), Some("age")], [None], [Some("Alice"), Some("30")]])
        == [Assoc([("name", ""), ("age", "")]), Assoc([("name", "Alice"), ("age", "30")])]
  {
    var options := Default.(skipEmptyLines := false);
    var file: seq<Record> := [[Some("name"), Some("age")], [None], [Some("Alice"), Some("30")]];
    assert Surviving(options, file) == file;
    assert HeaderOf(file[0]) == ["name", "age"];
    BlankLabelled("name", "age");
    TwoLabelled("name", "age", "Alice", "30");
  }
}
