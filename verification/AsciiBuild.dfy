// The cards of an ASCII table as it is created, and of a column as it is put
// in: headers that are flush-packed, can be edited, and pass validation.
module AsciiBuilds {
  import opened FitsBytes
  import opened CardText
  import opened StringCardBuilders
  import opened CardNumbers
  import opened DataSize
  import opened AsciiCards
  import opened AsciiSchemas

  datatype NewColumn = NewColumn(name: string, format: string, width: nat, tzero: Option<nat>, unit: Option<string>)

  // Column n's cards, with its start.
  function ColumnCards(col: NewColumn, n: nat, start: nat): (cards: seq<string>) {
    [CardString(ColumnKey("TTYPE", n), col.name, "label for column"),
     CardInt(ColumnKey("TBCOL", n), start, START_COMMENT),
     CardString(ColumnKey("TFORM", n), col.format, "data format of column")]
    + (ZeroCards(col, n) + UnitCards(col, n))
  }

  function ZeroCards(col: NewColumn, n: nat): (cards: seq<string>) {
    match col.tzero
    case None => []
    case Some(zero) => [CardInt(ColumnKey("TZERO", n), zero, "offset for unsigned integer (unsigned-int trick)")]
  }

  function UnitCards(col: NewColumn, n: nat): (cards: seq<string>) {
    match col.unit
    case None => []
    case Some(unit) => [CardString(ColumnKey("TUNIT", n), unit, "physical unit of column")]
  }

  // build_new_column_cards
  method BuildColumnCards(col: NewColumn, at: nat, pre: nat) returns (cards: seq<string>)
    ensures cards == TrimmedAll(ColumnCards(col, at + 1, 1 + pre))
  {
    hide CardString, CardInt, ColumnKey, TrimEnd;
    var n := at + 1;
    cards := [TrimEnd(CardString(ColumnKey("TTYPE", n), col.name, "label for column")),
              TrimEnd(CardInt(ColumnKey("TBCOL", n), pre + 1, START_COMMENT)),
              TrimEnd(CardString(ColumnKey("TFORM", n), col.format, "data format of column"))];
    if col.tzero.Some? {
      cards := cards + [TrimEnd(CardInt(ColumnKey("TZERO", n), col.tzero.value,
                                        "offset for unsigned integer (unsigned-int trick)"))];
    }
    if col.unit.Some? {
      cards := cards + [TrimEnd(CardString(ColumnKey("TUNIT", n), col.unit.value, "physical unit of column"))];
    }
  }

  // ----- cards that lead with a keyword -----

  predicate Leads(card: string, key: string) {
    |card| >= 9 && card[..8] == PadTo(key, 8) && card[8] == '='
  }

  lemma TrimmedLeads(card: string, key: string)
    requires Leads(card, key)
    ensures Leads(TrimEnd(card), key)
  {
    InkStays(card, 9);
    TrimEndCuts(card);
    hide TrimEnd;
    assert TrimEnd(card)[..8] == card[..8];
  }

  lemma CardIntLeads(key: string, value: int, comment: string)
    requires IsKey(key)
    ensures Leads(CardInt(key, value, comment), key)
  {
    hide IntText;
  }

  lemma CardStringLeads(key: string, value: string, comment: string)
    requires IsKey(key)
    ensures Leads(CardString(key, value, comment), key)
  {
    hide Escape;
    var head := PadTo(key, 8) + "= " + "'" + PadTo(Escape(value), 8) + "'";
    assert head[..8] == PadTo(key, 8) && head[8] == '=' && |head| >= 20;
  }

  // The prefix of a column's k-th card.
  function PrefixAt(col: NewColumn, k: nat): (prefix: string) {
    if k == 0 then "TTYPE" else if k == 1 then "TBCOL" else if k == 2 then "TFORM"
    else if k == 3 && col.tzero.Some? then "TZERO" else "TUNIT"
  }

  lemma PrefixIsListed(col: NewColumn, k: nat)
    ensures PrefixAt(col, k) in PREFIXES && (PrefixAt(col, k) == "TBCOL" <==> k == 1)
  {
    assert PREFIXES[0] == "TTYPE" && PREFIXES[1] == "TFORM" && PREFIXES[2] == "TUNIT" && PREFIXES[3] == "TZERO"
      && PREFIXES[7] == "TBCOL";
    assert "TTYPE"[1] == 'T' && "TBCOL"[1] == 'B' && "TFORM"[1] == 'F' && "TZERO"[1] == 'Z' && "TUNIT"[1] == 'U';
  }

  lemma ColumnCardLeads(col: NewColumn, n: nat, start: nat, k: nat)
    requires 1 <= n <= 999 && k < |ColumnCards(col, n, start)|
    ensures Leads(ColumnCards(col, n, start)[k], ColumnKey(PrefixAt(col, k), n))
  {
    PrefixIsListed(col, k);
    AsciiCards.ShortKey(PrefixAt(col, k), n);
    hide CardString, CardInt, ColumnKey, Leads, IsKey, PREFIXES;
    var key := ColumnKey(PrefixAt(col, k), n);
    if k < 3 {
      FirstCardsLead(col, n, start, k, key);
    } else {
      assert ColumnCards(col, n, start)[k] == (ZeroCards(col, n) + UnitCards(col, n))[k - 3];
      if col.tzero.Some? {
        CardIntLeads(key, col.tzero.value, "offset for unsigned integer (unsigned-int trick)");
      }
      if col.unit.Some? {
        CardStringLeads(key, col.unit.value, "physical unit of column");
      }
    }
  }

  lemma FirstCardsLead(col: NewColumn, n: nat, start: nat, k: nat, key: string)
    requires k < 3 && key == ColumnKey(PrefixAt(col, k), n) && IsKey(key)
    ensures Leads(ColumnCards(col, n, start)[k], key)
  {
    hide CardString, CardInt, ColumnKey, Leads, IsKey, ZeroCards, UnitCards;
    if k == 1 {
      CardIntLeads(key, start, START_COMMENT);
    } else {
      CardStringLeads(key, col.name, "label for column");
      CardStringLeads(key, col.format, "data format of column");
    }
  }

  lemma LeadsNames(card: string, prefix: string, n: nat)
    requires prefix in PREFIXES && 1 <= n <= 999 && Leads(card, ColumnKey(prefix, n))
    ensures PlainKeyword(card) && ColumnOf(card) == Some(ColumnCard(prefix, n))
  {
    hide ColumnOf, PlainKeyword, ColumnKey;
    KeywordNames(prefix, n, card[8..]);
    assert card == card[..8] + card[8..];
  }

  // ----- a new column -----

  lemma {:induction false} OnlyKeyed(cards: seq<string>, key: string, j: nat)
    requires j < |cards| && forall k :: 0 <= k < |cards| && k != j ==> Entry(cards[k], key) == []
    ensures Keyed(cards, key) == Entry(cards[j], key)
  {
    hide Entry;
    if j == 0 {
      NoneKeyed(cards[1..], key);
    } else {
      OnlyKeyed(cards[1..], key, j - 1);
    }
  }

  lemma BuiltCardIs(col: NewColumn, n: nat, start: nat, k: nat)
    requires 1 <= n <= 999 && k < |ColumnCards(col, n, start)|
    ensures var card := TrimEnd(ColumnCards(col, n, start)[k]);
      PlainKeyword(card) && ColumnOf(card) == Some(ColumnCard(PrefixAt(col, k), n))
  {
    hide *;
    ColumnCardLeads(col, n, start, k);
    TrimmedLeads(ColumnCards(col, n, start)[k], ColumnKey(PrefixAt(col, k), n));
    PrefixIsListed(col, k);
    LeadsNames(TrimEnd(ColumnCards(col, n, start)[k]), PrefixAt(col, k), n);
  }

  lemma BuiltEntry(col: NewColumn, n: nat, start: nat, k: nat)
    requires 1 <= n <= 999 && k < |ColumnCards(col, n, start)|
    ensures var card := TrimEnd(ColumnCards(col, n, start)[k]);
      |card| >= 8 && Entry(card, ColumnKey("TBCOL", n)) == if k == 1 then [card[8..]] else []
  {
    BuiltCardIs(col, n, start, k);
    PrefixIsListed(col, k);
    PrefixListed();
    ColumnShape(TrimEnd(ColumnCards(col, n, start)[k]));
    hide ColumnCards, Entry, ColumnKey, TrimEnd, PlainKeyword, ColumnOf, PrefixAt, PREFIXES;
    ReadersAgree(TrimEnd(ColumnCards(col, n, start)[k]), "TBCOL", n);
  }

  lemma SecondIsStart(col: NewColumn, n: nat, start: nat)
    ensures |ColumnCards(col, n, start)| >= 3 && TrimEnd(ColumnCards(col, n, start)[1]) == StartCard(n, start)
  {
    hide CardString, CardInt, TrimEnd;
  }

  // A built column's cards describe it, with its start, and nothing else.
  lemma BuiltColumnIsNew(col: NewColumn, at: nat, start: nat)
    requires at < 999 && FitsI64(start)
    ensures NewColumnCards(TrimmedAll(ColumnCards(col, at + 1, start)), at, start)
    ensures |ColumnCards(col, at + 1, start)| >= 3
  {
    var n := at + 1;
    var added := TrimmedAll(ColumnCards(col, n, start));
    hide ColumnCards, TrimEnd, PlainKeyword, ColumnOf, StartIs, PrefixAt;
    BuiltStart(col, n, start);
    forall k | 0 <= k < |added|
      ensures PlainKeyword(added[k]) && Describes(added[k], n)
    {
      BuiltCardIs(col, n, start, k);
    }
  }

  lemma BuiltStart(col: NewColumn, n: nat, start: nat)
    requires 1 <= n <= 999 && FitsI64(start)
    ensures StartIs(TrimmedAll(ColumnCards(col, n, start)), n - 1, start) && |ColumnCards(col, n, start)| >= 3
  {
    var added, key := TrimmedAll(ColumnCards(col, n, start)), ColumnKey("TBCOL", n);
    hide ColumnKey, ColumnCards, TrimEnd, PlainKeyword, ColumnOf, SaysStart, StartCard, Entry, Keyed;
    SecondIsStart(col, n, start);
    StartCardNames(n, start);
    forall k | 0 <= k < |added|
      ensures |added[k]| >= 8 && Entry(added[k], key) == if k == 1 then [added[k][8..]] else []
    {
      BuiltEntry(col, n, start, k);
    }
    OnlyKeyed(added, key, 1);
  }

  // ----- a new table -----

  function Widths(cols: seq<NewColumn>): (widths: seq<nat>)
    ensures |widths| == |cols|
  {
    seq(|cols|, k requires 0 <= k < |cols| => cols[k].width)
  }

  // The cards of the first n columns; each starts where the widths before it
  // end.
  function AllColumnCards(cols: seq<NewColumn>, n: nat): (cards: seq<string>)
    requires n <= |cols|
  {
    if n == 0 then []
    else AllColumnCards(cols, n - 1) + ColumnCards(cols[n - 1], n, 1 + Before(Widths(cols), n - 1))
  }

  function HeadKey(k: nat): (key: string) {
    if k == 0 then "XTENSION" else if k == 1 then "BITPIX" else if k == 2 then "NAXIS" else if k == 3 then "NAXIS1"
    else if k == 4 then "NAXIS2" else if k == 5 then "PCOUNT" else if k == 6 then "GCOUNT" else "TFIELDS"
  }

  function HeadValue(k: nat, w: nat, rows: nat, columns: nat): (value: nat) {
    if k == 1 then 8 else if k == 2 then 2 else if k == 3 then w else if k == 4 then rows else if k == 5 then 0
    else if k == 6 then 1 else columns
  }

  function HeadComment(k: nat): (comment: string) {
    if k == 1 then "8-bit bytes" else if k == 2 then "2-dimensional ASCII table"
    else if k == 3 then "width of table in bytes" else if k == 4 then "number of rows in table"
    else if k == 5 then "size of special data area" else if k == 6 then "one data group (required keyword)"
    else "number of columns"
  }

  function HeadCard(k: nat, w: nat, rows: nat, columns: nat): (card: string) {
    if k == 0 then CardString("XTENSION", "TABLE", "ASCII table extension")
    else CardInt(HeadKey(k), HeadValue(k, w, rows, columns), HeadComment(k))
  }

  function HeadCards(w: nat, rows: nat, columns: nat): (cards: seq<string>)
    ensures |cards| == 8
  {
    seq(8, k requires 0 <= k < 8 => HeadCard(k, w, rows, columns))
  }

  function NameCards(name: Option<string>, version: Option<int>): (cards: seq<string>) {
    (if name.Some? then [CardString("EXTNAME", name.value, "name of this HDU")] else [])
    + (if version.Some? then [CardInt("EXTVER", version.value, "extension version")] else [])
  }

  // build_ascii_table_header_cards
  function TableCards(cols: seq<NewColumn>, rows: nat, name: Option<string>, version: Option<int>)
    : (cards: seq<string>)
  {
    HeadCards(Total(Widths(cols)), rows, |cols|)
    + (NameCards(name, version) + (AllColumnCards(cols, |cols|) + [PadToCard("END")]))
  }

  method BuildTableCards(cols: seq<NewColumn>, rows: nat, name: Option<string>, version: Option<int>)
    returns (cards: seq<string>)
    ensures cards == TableCards(cols, rows, name, version)
  {
    hide CardString, CardInt, ColumnCards, HeadCards, PadToCard, Total, Before;
    var widths := Widths(cols);
    var w := 0;
    BeforeEnds(widths);
    for k := 0 to |cols|
      invariant w == Before(widths, k)
    {
      BeforeNext(widths, k);
      w := w + cols[k].width;
    }
    cards := HeadCards(w, rows, |cols|);
    if name.Some? {
      cards := cards + [CardString("EXTNAME", name.value, "name of this HDU")];
    }
    if version.Some? {
      cards := cards + [CardInt("EXTVER", version.value, "extension version")];
    }
    ghost var front := cards;
    assert front == HeadCards(w, rows, |cols|) + NameCards(name, version);
    var offset := 0;
    for k := 0 to |cols|
      invariant offset == Before(widths, k) && cards == front + AllColumnCards(cols, k)
    {
      BeforeNext(widths, k);
      cards := cards + ColumnCards(cols[k], k + 1, offset + 1);
      offset := offset + cols[k].width;
    }
    cards := cards + [PadToCard("END")];
  }

  lemma BeforeEnds(widths: seq<nat>)
    ensures Before(widths, 0) == 0 && Before(widths, |widths|) == Total(widths)
  {
    hide Total;
    assert widths[..|widths|] == widths && widths[..0] == [];
    assert Total([]) == 0 by { NothingTotals(); }
  }

  lemma NothingTotals()
    ensures Total([]) == 0
  {
  }

  // ----- what the header of a new table says -----

  function Kept(cols: seq<NewColumn>, rows: nat, name: Option<string>, version: Option<int>): (cards: seq<string>) {
    TrimmedAll(TableCards(cols, rows, name, version))
  }

  lemma TrimmedParts(a: seq<string>, b: seq<string>)
    ensures TrimmedAll(a + b) == TrimmedAll(a) + TrimmedAll(b)
  {
    hide TrimEnd;
  }

  // A keyword that is no column's.
  predicate OtherKey(key: string) {
    IsKey(key) && (|key| <= 5 || key[..5] !in PREFIXES)
  }

  lemma OtherIsPlain(card: string, key: string)
    requires Leads(card, key) && OtherKey(key)
    ensures PlainKeyword(card) && ColumnOf(card) == None && Trim(card[..8]) == key && HasKeyword(card, key)
  {
    TrimEndDrops(key, Spaces(8 - |key|));
    InkEnd(key);
    KeyField(key);
    hide TrimEnd, DigitsValue, Trim;
    assert card[..8] == key + Spaces(8 - |key|);
    assert card[0] == card[..8][0] == key[0];
  }

  lemma HeadKeysAreOther(k: nat)
    ensures OtherKey(HeadKey(k))
  {
    assert HeadKey(k)[0] != 'T' || HeadKey(k)[1] == 'F';
    if |HeadKey(k)| > 5 {
      assert HeadKey(k)[..5][0] == HeadKey(k)[0] && HeadKey(k)[..5][1] == HeadKey(k)[1];
      assert HeadKey(k)[..5][4] == HeadKey(k)[4];
    }
  }

  lemma NameKeysAreOther()
    ensures OtherKey("EXTNAME") && OtherKey("EXTVER")
  {
    assert "EXTNAME"[..5][0] == 'E' && "EXTVER"[..5][0] == 'E';
  }

  lemma HeadCardLeads(k: nat, w: nat, rows: nat, columns: nat)
    requires k < 8
    ensures Leads(TrimEnd(HeadCard(k, w, rows, columns)), HeadKey(k))
  {
    HeadKeysAreOther(k);
    hide TrimEnd, CardString, CardInt, HeadKey, Leads;
    if k == 0 {
      CardStringLeads(HeadKey(0), "TABLE", "ASCII table extension");
      HeadKeyZero();
    } else {
      CardIntLeads(HeadKey(k), HeadValue(k, w, rows, columns), HeadComment(k));
    }
    TrimmedLeads(HeadCard(k, w, rows, columns), HeadKey(k));
  }

  lemma HeadKeyZero()
    ensures HeadKey(0) == "XTENSION"
  {
  }

  // Cards that describe no column.
  predicate NoColumn(card: string) {
    PlainKeyword(card) && ColumnOf(card) == None
  }

  predicate NoColumns(cards: seq<string>) {
    forall k :: 0 <= k < |cards| ==> NoColumn(cards[k])
  }

  lemma HeadIsNoColumn(w: nat, rows: nat, columns: nat)
    ensures NoColumns(TrimmedAll(HeadCards(w, rows, columns)))
  {
    hide HeadCard, HeadKey, TrimEnd, Leads, PlainKeyword, ColumnOf, HasKeyword, OtherKey;
    forall k | 0 <= k < 8 ensures NoColumn(TrimEnd(HeadCard(k, w, rows, columns))) {
      HeadCardLeads(k, w, rows, columns);
      HeadKeysAreOther(k);
      OtherIsPlain(TrimEnd(HeadCard(k, w, rows, columns)), HeadKey(k));
    }
  }

  lemma NamesAreNoColumn(name: Option<string>, version: Option<int>)
    ensures NoColumns(TrimmedAll(NameCards(name, version)))
  {
    NameKeysAreOther();
    hide CardString, CardInt, TrimEnd, Leads, PlainKeyword, ColumnOf, HasKeyword, OtherKey;
    OtherKeyIsKey("EXTNAME");
    OtherKeyIsKey("EXTVER");
    if name.Some? {
      var card := CardString("EXTNAME", name.value, "name of this HDU");
      CardStringLeads("EXTNAME", name.value, "name of this HDU");
      TrimmedLeads(card, "EXTNAME");
      OtherIsPlain(TrimEnd(card), "EXTNAME");
    }
    if version.Some? {
      var card := CardInt("EXTVER", version.value, "extension version");
      CardIntLeads("EXTVER", version.value, "extension version");
      TrimmedLeads(card, "EXTVER");
      OtherIsPlain(TrimEnd(card), "EXTVER");
    }
  }

  lemma OtherKeyIsKey(key: string)
    requires OtherKey(key)
    ensures IsKey(key)
  {
  }

  lemma EndIsNoColumn()
    ensures TrimmedAll([PadToCard("END")]) == ["END"] && NoColumn("END") && IsEnd("END")
  {
    TrimPadded("END");
    assert TrimEnd("END") == "END";
    assert "END"[..3] == "END";
    TrimOf("", "END", "");
    assert "" + "END" + "" == "END";
    hide PadToCard, TrimEnd, Trim;
  }

  // ----- a new table's header is packed -----

  lemma NoColumnKeyed(cards: seq<string>, prefix: string, n: nat)
    requires NoColumns(cards) && prefix in PREFIXES && 1 <= n <= 999
    ensures Keyed(cards, ColumnKey(prefix, n)) == []
  {
    hide Entry, ColumnOf, PlainKeyword, ColumnKey, Keyed, PREFIXES;
    forall k | 0 <= k < |cards| ensures Entry(cards[k], ColumnKey(prefix, n)) == [] {
      assert NoColumn(cards[k]);
      ReadersAgree(cards[k], prefix, n);
    }
    NoneKeyed(cards, ColumnKey(prefix, n));
  }

  // Column m's cards as they are kept.
  function KeptColumn(cols: seq<NewColumn>, m: nat): (cards: seq<string>)
    requires 1 <= m <= |cols|
  {
    TrimmedAll(ColumnCards(cols[m - 1], m, 1 + Before(Widths(cols), m - 1)))
  }

  function KeptColumns(cols: seq<NewColumn>, n: nat): (cards: seq<string>)
    requires n <= |cols|
  {
    TrimmedAll(AllColumnCards(cols, n))
  }

  lemma OneMoreColumn(cols: seq<NewColumn>, n: nat)
    requires 1 <= n <= |cols|
    ensures KeptColumns(cols, n) == KeptColumns(cols, n - 1) + KeptColumn(cols, n)
  {
    hide TrimmedAll, ColumnCards, Before;
    TrimmedParts(AllColumnCards(cols, n - 1), ColumnCards(cols[n - 1], n, 1 + Before(Widths(cols), n - 1)));
  }

  lemma KeptColumnIsNew(cols: seq<NewColumn>, m: nat)
    requires 1 <= m <= |cols| <= 999 && FitsI64(1 + Total(Widths(cols)))
    ensures NewColumnCards(KeptColumn(cols, m), m - 1, 1 + Before(Widths(cols), m - 1)) && KeptColumn(cols, m) != []
  {
    hide NewColumnCards, ColumnCards, Total, Before;
    BeforeNext(Widths(cols), m - 1);
    BuiltColumnIsNew(cols[m - 1], m - 1, 1 + Before(Widths(cols), m - 1));
  }

  lemma {:induction false} ColumnsKeyed(cols: seq<NewColumn>, n: nat, m: nat)
    requires n <= |cols| <= 999 && 1 <= m <= |cols| && FitsI64(1 + Total(Widths(cols)))
    ensures Keyed(KeptColumns(cols, n), ColumnKey("TBCOL", m))
         == if m <= n then Keyed(KeptColumn(cols, m), ColumnKey("TBCOL", m)) else []
  {
    hide Keyed, ColumnKey, KeptColumn, Total, Describes, PlainKeyword, StartIs, PREFIXES;
    if n == 0 {
      NothingKept(cols, ColumnKey("TBCOL", m));
    } else {
      ColumnsKeyed(cols, n - 1, m);
      OneMoreColumn(cols, n);
      hide KeptColumns;
      KeyedParts(KeptColumns(cols, n - 1), KeptColumn(cols, n), ColumnKey("TBCOL", m));
      KeptColumnIsNew(cols, n);
      PrefixListed();
      if m != n {
        AddedSayNothing(KeptColumn(cols, n), n - 1, "TBCOL", m);
      }
    }
  }

  lemma NothingKept(cols: seq<NewColumn>, key: string)
    ensures KeptColumns(cols, 0) == [] && Keyed([], key) == []
  {
  }

  lemma {:induction false} ColumnsAreNumbered(cols: seq<NewColumn>, n: nat)
    requires n <= |cols| <= 999 && FitsI64(1 + Total(Widths(cols)))
    ensures PlainKeywords(KeptColumns(cols, n)) && AllNumberedTo(KeptColumns(cols, n), n)
  {
    hide PlainKeywords, AllNumberedTo, KeptColumn, Total, StartIs, Before, KeptColumns, NewColumnCards;
    if n == 0 {
      NothingKept(cols, "");
      NoColumnsArePlain([], 0);
    } else {
      ColumnsAreNumbered(cols, n - 1);
      OneMoreColumn(cols, n);
      KeptColumnIsNew(cols, n);
      NewAreNumbered(KeptColumn(cols, n), n, 1 + Before(Widths(cols), n - 1));
      NumberedHigher(KeptColumns(cols, n - 1), n - 1);
      PlainParts(KeptColumns(cols, n - 1), KeptColumn(cols, n), n);
    }
  }

  lemma NewAreNumbered(cards: seq<string>, n: nat, start: int)
    requires n >= 1 && NewColumnCards(cards, n - 1, start)
    ensures PlainKeywords(cards) && AllNumberedTo(cards, n)
  {
    hide PlainKeyword, ColumnOf, StartIs;
    forall k | 0 <= k < |cards| ensures PlainKeyword(cards[k]) && NumberedTo(cards[k], n) {
      assert Describes(cards[k], n);
    }
  }

  lemma NumberedHigher(cards: seq<string>, n: nat)
    requires AllNumberedTo(cards, n)
    ensures AllNumberedTo(cards, n + 1)
  {
    hide ColumnOf;
    forall k | 0 <= k < |cards| ensures NumberedTo(cards[k], n + 1) {
      assert NumberedTo(cards[k], n);
    }
  }

  lemma {:induction false} ColumnIsThere(cols: seq<NewColumn>, n: nat, at: nat)
    requires at < n <= |cols| <= 999 && FitsI64(1 + Total(Widths(cols)))
    ensures HasColumn(KeptColumns(cols, n), at)
  {
    hide ColumnOf, PlainKeyword, KeptColumn, Total, StartIs, Before, KeptColumns;
    OneMoreColumn(cols, n);
    var a, b := KeptColumns(cols, n - 1), KeptColumn(cols, n);
    if at == n - 1 {
      KeptColumnIsNew(cols, n);
      assert (a + b)[|a|] == b[0] && Describes(b[0], n);
    } else {
      ColumnIsThere(cols, n - 1, at);
      var k :| 0 <= k < |a| && Describes(a[k], at + 1);
      assert (a + b)[k] == a[k];
    }
  }

  lemma KeptParts(cols: seq<NewColumn>, rows: nat, name: Option<string>, version: Option<int>)
    returns (head: seq<string>, names: seq<string>)
    ensures head == TrimmedAll(HeadCards(Total(Widths(cols)), rows, |cols|)) && |head| == 8
    ensures NoColumns(head) && NoColumns(names) && NoColumns(["END"])
    ensures Kept(cols, rows, name, version) == head + (names + (KeptColumns(cols, |cols|) + ["END"]))
  {
    hide TrimmedAll, HeadCards, NameCards, AllColumnCards, PadToCard, NoColumn, Total;
    head := TrimmedAll(HeadCards(Total(Widths(cols)), rows, |cols|));
    names := TrimmedAll(NameCards(name, version));
    HeadIsNoColumn(Total(Widths(cols)), rows, |cols|);
    NamesAreNoColumn(name, version);
    EndIsNoColumn();
    var columns, end := AllColumnCards(cols, |cols|), [PadToCard("END")];
    TrimmedParts(columns, end);
    TrimmedParts(NameCards(name, version), columns + end);
    TrimmedParts(HeadCards(Total(Widths(cols)), rows, |cols|), NameCards(name, version) + (columns + end));
  }

  lemma NoColumnsArePlain(cards: seq<string>, n: nat)
    requires NoColumns(cards)
    ensures PlainKeywords(cards) && AllNumberedTo(cards, n)
  {
    hide PlainKeyword, ColumnOf;
    assert forall k :: 0 <= k < |cards| ==> NoColumn(cards[k]);
  }

  lemma PlainParts(a: seq<string>, b: seq<string>, n: nat)
    ensures PlainKeywords(a + b) <==> PlainKeywords(a) && PlainKeywords(b)
    ensures AllNumberedTo(a + b, n) <==> AllNumberedTo(a, n) && AllNumberedTo(b, n)
  {
    hide PlainKeyword, NumberedTo;
    assert forall k :: 0 <= k < |a| ==> (a + b)[k] == a[k];
    assert forall k :: 0 <= k < |b| ==> (a + b)[|a| + k] == b[k];
    assert forall k :: |a| <= k < |a + b| ==> (a + b)[k] == b[k - |a|];
  }

  // Every table this library creates is flush-packed.
  lemma BuiltTableIsPacked(cols: seq<NewColumn>, rows: nat, name: Option<string>, version: Option<int>)
    requires |cols| <= 999 && FitsI64(1 + Total(Widths(cols)))
    ensures Packed(Kept(cols, rows, name, version), Widths(cols))
  {
    hide Keyed, ColumnKey, PlainKeywords, AllNumberedTo, KeptColumns, KeptColumn, NoColumns, Total, Before, Kept;
    hide SaysStart, Describes, PlainKeyword, PREFIXES;
    var n, kept := |cols|, Kept(cols, rows, name, version);
    var head, names := KeptParts(cols, rows, name, version);
    NoColumnsArePlain(head, n);
    NoColumnsArePlain(names, n);
    NoColumnsArePlain(["END"], n);
    ColumnsAreNumbered(cols, n);
    var columns := KeptColumns(cols, n);
    PlainParts(columns, ["END"], n);
    PlainParts(names, columns + ["END"], n);
    PlainParts(head, names + (columns + ["END"]), n);
    forall k | 0 <= k < n ensures StartIs(kept, k, 1 + Before(Widths(cols), k)) {
      var key := ColumnKey("TBCOL", k + 1);
      PrefixListed();
      KeyedParts(columns, ["END"], key);
      KeyedParts(names, columns + ["END"], key);
      KeyedParts(head, names + (columns + ["END"]), key);
      NoColumnKeyed(head, "TBCOL", k + 1);
      NoColumnKeyed(names, "TBCOL", k + 1);
      NoColumnKeyed(["END"], "TBCOL", k + 1);
      ColumnsKeyed(cols, n, k + 1);
      KeptColumnIsNew(cols, k + 1);
    }
  }

  // ... can be edited, and ends in END.
  lemma BuiltTableIsEditable(cols: seq<NewColumn>, rows: nat, name: Option<string>, version: Option<int>)
    requires |cols| <= 999 && FitsI64(1 + Total(Widths(cols)))
    ensures Editable(Kept(cols, rows, name, version)) && EndsInEnd(Kept(cols, rows, name, version))
    ensures forall at :: 0 <= at < |cols| ==> HasColumn(Kept(cols, rows, name, version), at)
  {
    hide Kept, KeptColumns, NoColumns, Total, HeadCards, IsEnd, HasKeyword, Describes;
    var w, n, kept := Total(Widths(cols)), |cols|, Kept(cols, rows, name, version);
    var head, names := KeptParts(cols, rows, name, version);
    var rest := names + (KeptColumns(cols, n) + ["END"]);
    EndIsNoColumn();
    assert kept[|kept| - 1] == "END";
    CountIsThere(w, rows, n, 7);
    CountIsThere(w, rows, n, 3);
    assert head[7] == kept[7] && head[3] == kept[3];
    forall at | 0 <= at < n ensures HasColumn(kept, at) {
      ColumnIsThere(cols, n, at);
      var columns := KeptColumns(cols, n);
      var k :| 0 <= k < |columns| && Describes(columns[k], at + 1);
      assert kept[8 + |names| + k] == columns[k];
    }
  }

  lemma CountIsThere(w: nat, rows: nat, columns: nat, k: nat)
    requires k < 8
    ensures HasKeyword(TrimmedAll(HeadCards(w, rows, columns))[k], HeadKey(k))
    ensures HeadKey(7) == "TFIELDS" && HeadKey(3) == "NAXIS1"
  {
    hide HeadCard, TrimEnd, Leads, HasKeyword, OtherKey, PlainKeyword, ColumnOf;
    HeadCardLeads(k, w, rows, columns);
    HeadKeysAreOther(k);
    OtherIsPlain(TrimEnd(HeadCard(k, w, rows, columns)), HeadKey(k));
  }

  // ----- validation and size -----

  lemma HeadKeysDiffer(j: nat, k: nat)
    requires j < k < 8
    ensures HeadKey(j) != HeadKey(k)
  {
    assert HeadKey(j)[0] == 'N' && HeadKey(k)[0] == 'N' ==>
      |HeadKey(j)| != |HeadKey(k)| || HeadKey(j)[5] != HeadKey(k)[5];
  }

  lemma HeadCardReads(w: nat, rows: nat, columns: nat, j: nat, k: nat)
    requires 1 <= k < 8 && j <= k && FitsI64(w) && FitsI64(rows) && FitsI64(columns)
    ensures ReadKeyword(TrimEnd(HeadCard(j, w, rows, columns)), HeadKey(k))
         == if j == k then Hit(Some(HeadValue(k, w, rows, columns))) else Pass
  {
    HeadCardLeads(j, w, rows, columns);
    HeadKeysAreOther(j);
    OtherIsPlain(TrimEnd(HeadCard(j, w, rows, columns)), HeadKey(j));
    if j < k {
      HeadKeysDiffer(j, k);
      hide TrimEnd, Trim, HeadCard, HeadKey, FirstWord, TrimMarks, ParseInt, OtherKey, HasKeyword;
    } else {
      hide ReadKeyword, TrimEnd, HeadKey, CardInt;
      IntCardReads(HeadKey(k), HeadValue(k, w, rows, columns), HeadComment(k), HeadKey(k));
    }
  }

  lemma HeadIsRead(cols: seq<NewColumn>, rows: nat, name: Option<string>, version: Option<int>, k: nat)
    requires 1 <= k < 8 && FitsI64(Total(Widths(cols))) && FitsI64(rows) && FitsI64(|cols|)
    ensures KeywordValue(Kept(cols, rows, name, version), HeadKey(k))
         == Some(HeadValue(k, Total(Widths(cols)), rows, |cols|))
  {
    hide Kept, KeptColumns, NoColumns, Total, HeadKey, HeadCard, TrimEnd, ReadKeyword, HeadValue;
    var w, n, kept := Total(Widths(cols)), |cols|, Kept(cols, rows, name, version);
    var head, names := KeptParts(cols, rows, name, version);
    forall j | 0 <= j <= k
      ensures ReadKeyword(kept[j], HeadKey(k)) == if j == k then Hit(Some(HeadValue(k, w, rows, n))) else Pass
    {
      assert kept[j] == head[j] == TrimEnd(HeadCard(j, w, rows, n));
      HeadCardReads(w, rows, n, j, k);
    }
    FirstHit(kept, HeadKey(k), k);
  }

  lemma FirstKeyIs(cards: seq<string>, key: string)
    requires cards != [] && Leads(cards[0], key) && OtherKey(key)
    ensures FirstKey(cards) == key
  {
    var card := cards[0];
    OtherIsPlain(card, key);
    assert card[0] == card[..8][0] == key[0];
    InkStays(card, 1);
    assert TrimStart(card) == card;
    hide TrimEnd;
    assert Trim(card) != "";
  }

  lemma AxesAre()
    ensures AxisKey(1) == "NAXIS1" == HeadKey(3) && AxisKey(2) == "NAXIS2" == HeadKey(4)
    ensures HeadKey(1) == "BITPIX" && HeadKey(2) == "NAXIS" && HeadKey(5) == "PCOUNT" && HeadKey(6) == "GCOUNT"
  {
    assert Decimal(1) == "1" && Decimal(2) == "2";
  }

  // A new table passes the validation of every open.
  lemma BuiltTableIsValid(cols: seq<NewColumn>, rows: nat, name: Option<string>, version: Option<int>)
    requires FitsI64(Total(Widths(cols))) && FitsI64(rows) && FitsI64(|cols|)
    ensures HeaderValid(Kept(cols, rows, name, version), false)
  {
    AxesAre();
    hide Kept, KeptColumns, NoColumns, Total, HeadCard, TrimEnd, KeywordValue, FirstKey, OtherKey, Leads;
    hide AxisKey, HeadKey;
    var head, names := KeptParts(cols, rows, name, version);
    var kept := Kept(cols, rows, name, version);
    HeadCardLeads(0, Total(Widths(cols)), rows, |cols|);
    HeadKeysAreOther(0);
    HeadKeyZero();
    assert kept[0] == head[0] == TrimEnd(HeadCard(0, Total(Widths(cols)), rows, |cols|));
    FirstKeyIs(kept, HeadKey(0));
    HeadIsRead(cols, rows, name, version, 1);
    HeadIsRead(cols, rows, name, version, 2);
    HeadIsRead(cols, rows, name, version, 3);
    HeadIsRead(cols, rows, name, version, 4);
  }

  // ... and declares exactly its rows.
  lemma BuiltTableDeclares(cols: seq<NewColumn>, rows: nat, name: Option<string>, version: Option<int>)
    requires FitsI64(Total(Widths(cols))) && FitsI64(rows) && FitsI64(|cols|)
    requires Total(Widths(cols)) * rows <= U64_MAX
    ensures DeclaredSize(Kept(cols, rows, name, version)) == Total(Widths(cols)) * rows
  {
    AxesAre();
    hide Kept, Total, KeywordValue, AxisKey, HeadKey;
    HeadIsRead(cols, rows, name, version, 1);
    HeadIsRead(cols, rows, name, version, 2);
    HeadIsRead(cols, rows, name, version, 3);
    HeadIsRead(cols, rows, name, version, 4);
    HeadIsRead(cols, rows, name, version, 5);
    HeadIsRead(cols, rows, name, version, 6);
    TwoAxes(Kept(cols, rows, name, version), Total(Widths(cols)), rows);
  }

  lemma TwoAxes(cards: seq<string>, w: nat, rows: nat)
    requires KeywordValue(cards, "BITPIX") == Some(8) && KeywordValue(cards, "NAXIS") == Some(2)
    requires KeywordValue(cards, AxisKey(1)) == Some(w) && KeywordValue(cards, AxisKey(2)) == Some(rows)
    requires KeywordValue(cards, "PCOUNT") == Some(0) && KeywordValue(cards, "GCOUNT") == Some(1)
    requires w * rows <= U64_MAX && w <= U64_MAX
    ensures DeclaredSize(cards) == w * rows
  {
    hide KeywordValue, AxisKey;
    assert AxesProduct(cards, 0) == 1;
    assert AxesProduct(cards, 1) == w;
    assert AxesProduct(cards, 2) == w * rows;
  }

  // ----- every card fills 80 columns -----

  predicate AllPadded(cards: seq<string>) {
    forall k :: 0 <= k < |cards| ==> |cards[k]| == CARD_SIZE
  }

  lemma PaddedCard(key: string, value: int, text: string, comment: string)
    ensures |CardInt(key, value, comment)| == CARD_SIZE && |CardString(key, text, comment)| == CARD_SIZE
  {
    hide IntText, Escape;
  }

  lemma PaddedParts(a: seq<string>, b: seq<string>)
    requires AllPadded(a) && AllPadded(b)
    ensures AllPadded(a + b)
  {
  }

  lemma ColumnIsPadded(col: NewColumn, n: nat, start: nat)
    ensures AllPadded(ColumnCards(col, n, start))
  {
    hide CardInt, CardString, ColumnKey;
    PaddedCard(ColumnKey("TTYPE", n), 0, col.name, "label for column");
    PaddedCard(ColumnKey("TBCOL", n), start, "", START_COMMENT);
    PaddedCard(ColumnKey("TFORM", n), 0, col.format, "data format of column");
    if col.tzero.Some? {
      PaddedCard(ColumnKey("TZERO", n), col.tzero.value, "", "offset for unsigned integer (unsigned-int trick)");
    }
    if col.unit.Some? {
      PaddedCard(ColumnKey("TUNIT", n), 0, col.unit.value, "physical unit of column");
    }
  }

  lemma {:induction false} ColumnsArePadded(cols: seq<NewColumn>, n: nat)
    requires n <= |cols|
    ensures AllPadded(AllColumnCards(cols, n))
  {
    hide Before, ColumnCards, AllPadded;
    if n > 0 {
      ColumnsArePadded(cols, n - 1);
      ColumnIsPadded(cols[n - 1], n, 1 + Before(Widths(cols), n - 1));
      PaddedParts(AllColumnCards(cols, n - 1), ColumnCards(cols[n - 1], n, 1 + Before(Widths(cols), n - 1)));
    } else {
      NothingPaddedYet();
    }
  }

  lemma NothingPaddedYet()
    ensures AllPadded([])
  {
  }

  lemma HeadIsPadded(w: nat, rows: nat, columns: nat)
    ensures AllPadded(HeadCards(w, rows, columns))
  {
    hide CardInt, CardString, HeadKey, HeadValue, HeadComment;
    forall k | 0 <= k < 8 ensures |HeadCard(k, w, rows, columns)| == CARD_SIZE {
      PaddedCard("XTENSION", 0, "TABLE", "ASCII table extension");
      PaddedCard(HeadKey(k), HeadValue(k, w, rows, columns), "", HeadComment(k));
    }
  }

  lemma NamesArePadded(name: Option<string>, version: Option<int>)
    ensures AllPadded(NameCards(name, version)) && AllPadded([PadToCard("END")])
  {
    hide CardInt, CardString, PadToCard;
    if name.Some? {
      PaddedCard("EXTNAME", 0, name.value, "name of this HDU");
    }
    if version.Some? {
      PaddedCard("EXTVER", version.value, "", "extension version");
    }
  }

  lemma BuiltTableIsPadded(cols: seq<NewColumn>, rows: nat, name: Option<string>, version: Option<int>)
    ensures AllPadded(TableCards(cols, rows, name, version)) && TableCards(cols, rows, name, version) != []
  {
    hide AllPadded, HeadCards, NameCards, AllColumnCards, PadToCard, Total;
    HeadIsPadded(Total(Widths(cols)), rows, |cols|);
    NamesArePadded(name, version);
    ColumnsArePadded(cols, |cols|);
    PaddedParts(AllColumnCards(cols, |cols|), [PadToCard("END")]);
    PaddedParts(NameCards(name, version), AllColumnCards(cols, |cols|) + [PadToCard("END")]);
    PaddedParts(HeadCards(Total(Widths(cols)), rows, |cols|),
                NameCards(name, version) + (AllColumnCards(cols, |cols|) + [PadToCard("END")]));
  }
}
