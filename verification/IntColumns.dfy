// Integer columns of an ASCII table: when every cell can be printed, and a
// table that an unprintable one leaves half edited.
module IntColumns {
  import opened FitsBytes
  import opened CardText
  import opened CardNumbers
  import opened FileStorage
  import opened HeaderBlocks
  import opened FileRuns
  import opened FitsFiles
  import opened AsciiRows
  import opened AsciiShuffles
  import opened AsciiCards
  import opened AsciiSchemas
  import opened AsciiBuilds
  import opened AsciiEdits
  import opened Reparse
  import SpareBlocks

  // format_int_field: right-justified, refused when it is too long.
  function IntCell(value: int, width: nat): (cell: Option<seq<byte>>) {
    var text := IntText(value);
    if |text| > width then None else Some(AsciiBytes(Spaces(width - |text|) + text))
  }

  lemma {:induction false} TenToGrows(a: nat, b: nat)
    requires a <= b
    ensures 1 <= TenTo(a) <= TenTo(b)
    decreases b
  {
    if a < b {
      TenToGrows(a, b - 1);
    } else if b > 0 {
      TenToGrows(b - 1, b - 1);
    }
  }

  lemma DecimalFitsIff(n: nat, k: nat)
    requires k > 0
    ensures |Decimal(n)| <= k <==> n < TenTo(k)
  {
    if n < TenTo(k) {
      DecimalLength(n, k);
    }
    if |Decimal(n)| <= k {
      DecimalReads(n);
      DigitsBelow(Decimal(n));
      TenToGrows(|Decimal(n)|, k);
    }
  }

  // The numbers a field of this width can hold.
  predicate InRange(value: int, width: nat) {
    width > 0 && value < TenTo(width) && 0 < value + TenTo(width - 1)
  }

  lemma IntCellIff(value: int, width: nat)
    ensures IntCell(value, width).Some? <==> InRange(value, width)
    ensures IntCell(value, width).Some? ==> |IntCell(value, width).value| == width
  {
    hide Decimal;
    if width > 0 {
      if value < 0 {
        TenToGrows(0, width);
        if width > 1 {
          DecimalFitsIff(-value, width - 1);
        }
      } else {
        DecimalFitsIff(value, width);
        TenToGrows(0, width - 1);
      }
    }
  }

  // What is printed fills the field, ends in a digit, and is what a reader of
  // the field gets.
  lemma IntCellReads(value: int, width: nat)
    requires IntCell(value, width).Some? && FitsI64(value)
    ensures var cell := IntCell(value, width).value;
      && |cell| == width > 0 && 48 <= cell[width - 1] <= 57
      && ParseInt(Trim(Decoded(cell))) == Some(value)
  {
    var gap, text := Spaces(width - |IntText(value)|), IntText(value);
    IntTextReads(value);
    SpareBlocks.IntTextPrints(value);
    assert PrintableText(gap + text);
    AsciiReadsBack(gap + text);
    assert (gap + text)[width - 1] == text[|text| - 1];
    hide IntText, Decoded, AsciiBytes;
    assert gap + text + "" == gap + text;
    TrimOf(gap, text, "");
  }

  // A column of integers put in after the first `pre` bytes of a row.
  function IntColumn(pre: nat, width: nat, values: seq<int>): (edit: Edit) {
    InsertCells(pre, width, seq(|values|, r requires 0 <= r < |values| => IntCell(values[r], width)))
  }

  // Its insertion is half done exactly when some number is out of the field's
  // range: what a caller can check beforehand.
  lemma IntColumnPrintsIff(pre: nat, width: nat, values: seq<int>, w: nat)
    requires pre <= w
    ensures Suits(IntColumn(pre, width, values), |values|, w)
    ensures Printable(IntColumn(pre, width, values), 0, |values|)
       <==> forall r :: 0 <= r < |values| ==> InRange(values[r], width)
  {
    hide IntCell, InRange;
    forall r | 0 <= r < |values|
      ensures IntCell(values[r], width).Some? <==> InRange(values[r], width)
      ensures IntCell(values[r], width).Some? ==> |IntCell(values[r], width).value| == width
    {
      IntCellIff(values[r], width);
    }
    assert forall r :: 0 <= r < |values| ==>
      IntColumn(pre, width, values).cells[r] == IntCell(values[r], width);
  }

  // ----- one number too wide -----

  const FIVE_WIDE := NewColumn("A", "I5", 5, None, None)
  const THREE_WIDE := NewColumn("B", "I3", 3, None, None)

  // A primary image of one byte, and a table of one column and one row.
  function TableHeader(): (cards: seq<string>) {
    TableCards([FIVE_WIDE], 1, None, None)
  }

  lemma TableHeaderIs()
    ensures FullCards(TableHeader()) && Packed(TrimmedAll(TableHeader()), [5])
    ensures Editable(TrimmedAll(TableHeader())) && EndsInEnd(TrimmedAll(TableHeader()))
  {
    OneWidth();
    BuiltTableIsPadded([FIVE_WIDE], 1, None, None);
    TableHeaderKept();
    hide Packed, Editable, IsEnd, Kept, TableCards, TrimmedAll, Widths, Total, TableHeader;
    BuiltTableIsPacked([FIVE_WIDE], 1, None, None);
    BuiltTableIsEditable([FIVE_WIDE], 1, None, None);
  }

  lemma TableHeaderKept()
    ensures TableHeader() == TableCards([FIVE_WIDE], 1, None, None)
    ensures TrimmedAll(TableHeader()) == Kept([FIVE_WIDE], 1, None, None)
  {
    hide TableCards, TrimmedAll;
  }

  lemma OneWidth()
    ensures Widths([FIVE_WIDE]) == [5] && Total([5]) == 5 && Before([5], 1) == 5
  {
    TotalOfOne(5);
    assert [5][..1] == [5];
  }

  lemma InsertionIsAccepted(cards: seq<string>)
    requires Packed(cards, [5]) && Editable(cards)
    ensures CardsWithColumn(cards, 1, 3, TrimmedAll(ColumnCards(THREE_WIDE, 2, 6)), 1, 5).Some?
    ensures TrimmedAll(ColumnCards(THREE_WIDE, 2, 6)) != []
  {
    OneWidth();
    hide Packed, Editable, CardsWithColumn, NewColumnCards, ColumnCards, Before;
    BuiltColumnIsNew(THREE_WIDE, 1, 6);
    InsertKeepsPacked(cards, [5], 1, 3, TrimmedAll(ColumnCards(THREE_WIDE, 2, 6)), 5);
  }

  lemma OneRow()
    ensures RowStart(0, 5, 1) == 5 && IntColumn(5, 3, [1000]).InsertCells? && IntColumn(5, 3, [1000]).width == 3
    ensures Suits(IntColumn(5, 3, [1000]), 1, 5) && !Printable(IntColumn(5, 3, [1000]), 0, 1)
  {
    IntColumnPrintsIff(5, 3, [1000], 5);
    assert TenTo(3) == 1000;
    hide IntColumn;
    assert !InRange([1000][0], 3);
  }

  lemma TwoAppends(s0: FileState, a: seq<string>, b: seq<string>)
    requires Consistent(s0) && FullCards(a) && FullCards(b)
    ensures Consistent(Appended(Appended(s0, a, 1), b, 5))
  {
    hide Consistent, FullCards, Appended;
    AppendStaysConsistent(s0, a, 1);
    AppendStaysConsistent(Appended(s0, a, 1), b, 5);
  }

  // The files before the insertion: a primary image of one byte and a table
  // of one column and one row, both as a creation call writes them.
  method CreateTable() returns (f: FitsFile)
    ensures fresh(f) && fresh(f.file) && fresh(f.layout) && f.Valid() && !f.tainted && !f.file.mayFail
    ensures |f.layout| == 2 && Consistent(f.State()) && f.sizes[1] == 5
    ensures f.headers[1] == TrimmedAll(TableHeader())
  {
    TableHeaderIs();
    EmptyFileIsConsistent();
    PrimaryIsFull();
    hide TableHeader, SpareBlocks.FullHeader, FullCards, Consistent, Packed, Editable, TrimmedAll;
    hide HeaderBytes, BlocksFor, NewHdu;
    var file := new Storage([], false);
    f := new FitsFile(file, 4096);
    ghost var s0 := f.State();
    var ok := f.AppendHdu(SpareBlocks.FullHeader(1, [], 0), 1);
    ok := f.AppendHdu(TableHeader(), 5);
    TwoAppends(s0, SpareBlocks.FullHeader(1, [], 0), TableHeader());
  }

  lemma PrimaryIsFull()
    ensures FullCards(SpareBlocks.FullHeader(1, [], 0))
  {
    hide FullCards, SpareBlocks.FullHeader;
    SpareBlocks.HeaderIsWellFormed(1, [], 0);
  }

  function AddedCards(): (cards: seq<string>) {
    TrimmedAll(ColumnCards(THREE_WIDE, 2, 6))
  }

  lemma TableAccepts()
    ensures CardsWithColumn(TrimmedAll(TableHeader()), 1, 3, AddedCards(), 1, 5).Some?
    ensures EndsInEnd(TrimmedAll(TableHeader())) && AddedCards() != []
  {
    hide TableHeader, Packed, Editable, TrimmedAll, CardsWithColumn, ColumnCards, EndsInEnd;
    TableHeaderIs();
    InsertionIsAccepted(TrimmedAll(TableHeader()));
  }

  // A column of width 3 with the number 1000: an error is reported, nothing is
  // tainted, and the file is not what its records say.
  method InsertTooWideNumber() returns (f: FitsFile)
    ensures fresh(f) && f.Valid() && !f.tainted && !Consistent(f.State())
    ensures |f.headers| == 2 && f.headers[1] == TrimmedAll(TableHeader())
  {
    hide TableHeader, Consistent, TrimmedAll;
    f := CreateTable();
    InsertThousand(f);
  }

  method InsertThousand(f: FitsFile)
    requires f.Valid() && !f.tainted && !f.file.mayFail && |f.layout| == 2 && Consistent(f.State())
    requires f.sizes[1] == 5 && f.headers[1] == TrimmedAll(TableHeader())
    modifies f`tainted, f`headers, f`sizes, f.file, f.layout
    ensures f.Valid() && !f.tainted && !Consistent(f.State()) && f.headers == old(f.headers)
  {
    OneRow();
    TableAccepts();
    hide TableHeader, Consistent, TrimmedAll, CardsWithColumn, ColumnCards, IntColumn, Suits;
    hide Printable, TableEdited, RowStart, HeaderAhead, EndsInEnd, Sane, InRange;
    ghost var s := f.State();
    SaneIs(s);
    var added := BuildColumnCards(THREE_WIDE, 1, 5);
    var outcome := InsertColumn(f, 1, 1, 1, added, IntColumn(5, 3, [1000]), 1, 5, 1);
    HalfDoneIs(s, 1, CardsWithColumn(s.cards[1], 1, 3, added, 1, 5).value, f.State());
    SaneIs(f.State());
  }

  lemma SaneIs(s: FileState)
    ensures Sane(s) <==> s.tainted || Consistent(s)
  {
    hide Consistent;
  }

  lemma HalfDoneIs(s: FileState, i: nat, cards: seq<string>, s': FileState)
    requires HeaderAhead(s, i, cards, s')
    ensures !s'.tainted && s'.cards == s.cards
  {
    hide HeaderOnDisk;
  }
}
