// Inserting and deleting a column of an ASCII table: which headers accept it,
// the header it leaves, and what the readers of that header find.
module AsciiSchemas {
  import opened FitsBytes
  import opened CardText
  import opened CardNumbers
  import opened AsciiCards

  // ----- widths and starts -----

  function Total(widths: seq<nat>): (n: nat) {
    if widths == [] then 0 else Total(widths[..|widths| - 1]) + widths[|widths| - 1]
  }

  // The bytes of a row before its k-th column, counted from 0.
  function Before(widths: seq<nat>, k: nat): (n: nat)
    requires k <= |widths|
  {
    Total(widths[..k])
  }

  function WithColumn(widths: seq<nat>, at: nat, width: nat): (r: seq<nat>)
    requires at <= |widths|
  {
    widths[..at] + [width] + widths[at..]
  }

  function WithoutColumn(widths: seq<nat>, at: nat): (r: seq<nat>)
    requires at < |widths|
  {
    widths[..at] + widths[at + 1..]
  }

  lemma {:induction false} TotalOfParts(a: seq<nat>, b: seq<nat>)
    ensures Total(a + b) == Total(a) + Total(b)
  {
    if b == [] {
      assert a + b == a;
    } else {
      var n := |b| - 1;
      assert (a + b)[..|a| + n] == a + b[..n];
      TotalOfParts(a, b[..n]);
    }
  }

  lemma BeforeNext(widths: seq<nat>, k: nat)
    requires k < |widths|
    ensures Before(widths, k + 1) == Before(widths, k) + widths[k] <= Total(widths)
  {
    hide Total;
    assert widths[..k + 1] == widths[..k] + [widths[k]];
    assert widths == widths[..k + 1] + widths[k + 1..];
    TotalOfParts(widths[..k], [widths[k]]);
    TotalOfOne(widths[k]);
    TotalOfParts(widths[..k + 1], widths[k + 1..]);
  }

  lemma BeforeWithColumn(widths: seq<nat>, at: nat, width: nat, k: nat)
    requires at <= |widths| && k <= |widths|
    ensures k <= at ==> Before(WithColumn(widths, at, width), k) == Before(widths, k)
    ensures k >= at ==> Before(WithColumn(widths, at, width), k + 1) == Before(widths, k) + width
    ensures Total(WithColumn(widths, at, width)) == Total(widths) + width
  {
    hide Total, WithColumn;
    if k <= at {
      FrontWithColumn(widths, at, width, k);
    }
    if k >= at {
      BackWithColumn(widths, at, width, k);
      TotalWithColumn(widths[..k], at, width);
    }
    TotalWithColumn(widths, at, width);
  }

  lemma FrontWithColumn(widths: seq<nat>, at: nat, width: nat, k: nat)
    requires k <= at <= |widths|
    ensures |WithColumn(widths, at, width)| == |widths| + 1 && WithColumn(widths, at, width)[..k] == widths[..k]
  {
  }

  lemma BackWithColumn(widths: seq<nat>, at: nat, width: nat, k: nat)
    requires at <= k <= |widths|
    ensures |WithColumn(widths, at, width)| == |widths| + 1
    ensures WithColumn(widths, at, width)[..k + 1] == WithColumn(widths[..k], at, width)
  {
  }

  lemma TotalWithColumn(widths: seq<nat>, at: nat, width: nat)
    requires at <= |widths|
    ensures Total(WithColumn(widths, at, width)) == Total(widths) + width
  {
    hide Total;
    TotalOfParts(widths[..at] + [width], widths[at..]);
    TotalOfParts(widths[..at], [width]);
    TotalOfParts(widths[..at], widths[at..]);
    TotalOfOne(width);
    assert widths == widths[..at] + widths[at..];
  }

  lemma TotalOfOne(width: nat)
    ensures Total([width]) == width
  {
    assert [width][..0] == [];
  }

  lemma PutBack(widths: seq<nat>, at: nat)
    requires at < |widths|
    ensures WithColumn(WithoutColumn(widths, at), at, widths[at]) == widths
  {
  }

  // ----- flush-packed headers -----

  // Column k, counted from 0, has one TBCOL card, and it says v.
  predicate StartIs(cards: seq<string>, k: nat, v: int) {
    |Keyed(cards, ColumnKey("TBCOL", k + 1))| == 1 && SaysStart(Keyed(cards, ColumnKey("TBCOL", k + 1))[0], v)
  }

  // The columns follow each other without gaps from column 1 of the row.
  predicate Packed(cards: seq<string>, widths: seq<nat>) {
    && PlainKeywords(cards) && |widths| <= 999 && FitsI64(1 + Total(widths))
    && AllNumberedTo(cards, |widths|)
    && (forall k :: 0 <= k < |widths| ==> StartIs(cards, k, 1 + Before(widths, k)))
  }

  // So the readers find each column where the widths before it end.
  lemma PackedReads(cards: seq<string>, widths: seq<nat>, k: nat)
    requires Packed(cards, widths) && k < |widths|
    ensures KeywordValue(cards, ColumnKey("TBCOL", k + 1)) == Some(1 + Before(widths, k))
  {
    hide Keyed, ColumnOf, SaysStart, PlainKeywords, Before;
    assert StartIs(cards, k, 1 + Before(widths, k));
    PrefixListed();
    ShortKey("TBCOL", k + 1);
    StartIsRead(cards, ColumnKey("TBCOL", k + 1), 1 + Before(widths, k));
  }

  // ----- the header after an edit -----

  const FIELDS_COMMENT := "number of columns"
  const WIDTH_COMMENT := "width of table in bytes"

  // The counts of columns and of bytes in a row, renewed.
  function WithCounts(cards: seq<string>, columns: nat, w: nat): (new_: Option<seq<string>>) {
    match WithCount(cards, "TFIELDS", columns, FIELDS_COMMENT)
    case None => None
    case Some(counted) => WithCount(counted, "NAXIS1", w, WIDTH_COMMENT)
  }

  // The cards of insert_column_impl: a table of `columns` columns and rows of
  // w bytes gets a column of `width` bytes at position `at`.
  function CardsWithColumn(cards: seq<string>, at: nat, width: nat, added: seq<string>, columns: nat, w: nat)
    : (new_: Option<seq<string>>)
  {
    match RenumberedAll(cards, Opening(at, width))
    case None => None
    case Some(moved) =>
      match WithBeforeEnd(moved, added)
      case None => None
      case Some(more) => WithCounts(more, columns + 1, w + width)
  }

  // The cards of delete_column_impl.
  function CardsWithoutColumn(cards: seq<string>, at: nat, width: nat, columns: nat, w: nat)
    : (new_: Option<seq<string>>)
    requires columns > 0 && width <= w
  {
    match RenumberedAll(Dropped(cards, at), Closing(at, width))
    case None => None
    case Some(moved) => WithCounts(moved, columns - 1, w - width)
  }

  method InsertColumnCards(cards: seq<string>, at: nat, width: nat, added: seq<string>, columns: nat, w: nat)
    returns (new_: Option<seq<string>>)
    ensures new_ == CardsWithColumn(cards, at, width, added, columns, w)
  {
    hide RenumberedAll, WithBeforeEnd, WithCount;
    new_ := RenumberCards(cards, Opening(at, width));
    if new_.Some? {
      new_ := InsertBeforeEnd(new_.value, added);
    }
    if new_.Some? {
      new_ := UpdateIntCard(new_.value, "TFIELDS", columns + 1, FIELDS_COMMENT);
    }
    if new_.Some? {
      new_ := UpdateIntCard(new_.value, "NAXIS1", w + width, WIDTH_COMMENT);
    }
  }

  method DeleteColumnCards(cards: seq<string>, at: nat, width: nat, columns: nat, w: nat)
    returns (new_: Option<seq<string>>)
    requires columns > 0 && width <= w
    ensures new_ == CardsWithoutColumn(cards, at, width, columns, w)
  {
    hide RenumberedAll, Dropped, WithCount;
    new_ := RenumberCards(Dropped(cards, at), Closing(at, width));
    if new_.Some? {
      new_ := UpdateIntCard(new_.value, "TFIELDS", columns - 1, FIELDS_COMMENT);
    }
    if new_.Some? {
      new_ := UpdateIntCard(new_.value, "NAXIS1", w - width, WIDTH_COMMENT);
    }
  }

  // The cards of the new column: they describe it, with its start, and
  // nothing else.
  predicate NewColumnCards(added: seq<string>, at: nat, start: int) {
    && StartIs(added, at, start)
    && forall k :: 0 <= k < |added| ==> PlainKeyword(added[k]) && Describes(added[k], at + 1)
  }

  // A stage of an edit that leaves column n of `prefix` its cards.
  lemma CountsKeepColumns(cards: seq<string>, columns: nat, w: nat, numbered: nat, prefix: string, n: nat)
    requires WithCounts(cards, columns, w).Some? && FitsI64(columns) && FitsI64(w)
    requires PlainKeywords(cards) && AllNumberedTo(cards, numbered) && prefix in PREFIXES && 1 <= n <= 999
    ensures var new_ := WithCounts(cards, columns, w).value;
            && PlainKeywords(new_) && AllNumberedTo(new_, numbered)
            && Keyed(new_, ColumnKey(prefix, n)) == Keyed(cards, ColumnKey(prefix, n))
  {
    hide WithCount, PlainKeywords, AllNumberedTo, Keyed, ColumnKey;
    CountKeepsColumns(cards, "TFIELDS", columns, FIELDS_COMMENT, numbered, prefix, n);
    var counted := WithCount(cards, "TFIELDS", columns, FIELDS_COMMENT).value;
    CountKeepsColumns(counted, "NAXIS1", w, WIDTH_COMMENT, numbered, prefix, n);
  }

  lemma OpeningNumbers(cards: seq<string>, r: Renumbering, columns: nat)
    requires r.Opening? && PlainKeywords(cards) && AllNumberedTo(cards, columns) && columns < 999
    ensures Renumberable(cards, r)
  {
    hide PlainKeyword, ColumnOf;
  }

  lemma RenumberedKind(cards: seq<string>, r: Renumbering, new_: seq<string>, columns: nat)
    requires Renumberable(cards, r) && IsRenumbered(cards, r, new_) && AllNumberedTo(cards, columns)
    ensures PlainKeywords(new_)
    ensures AllNumberedTo(new_, if r.Opening? then columns + 1 else if r.at < columns then columns - 1 else columns)
  {
    hide PlainKeyword, ColumnOf, Renumbered, Numbered;
    forall k | 0 <= k < |new_|
      ensures PlainKeyword(new_[k])
      ensures NumberedTo(new_[k], if r.Opening? then columns + 1 else if r.at < columns then columns - 1 else columns)
    {
      RenumberedAt(cards, r, new_, k);
      RenumberedColumn(cards[k], r);
      NewNumberBound(cards[k], r, columns);
    }
  }

  lemma NewNumberBound(card: string, r: Renumbering, columns: nat)
    requires NumberedTo(card, columns) && Numbered(card, r)
    ensures ColumnOf(card).Some? ==>
      NewNumber(r, ColumnOf(card).value.n)
      <= if r.Opening? then columns + 1 else if r.at < columns then columns - 1 else columns
  {
    hide ColumnOf;
  }

  lemma MovedStart(cards: seq<string>, r: Renumbering, moved: seq<string>, k: nat, v: int)
    requires Renumberable(cards, r) && IsRenumbered(cards, r, moved) && Keeps(r, k + 1) && StartIs(cards, k, v)
    ensures NewNumber(r, k + 1) >= 1
    ensures StartIs(moved, NewNumber(r, k + 1) - 1, if NewNumber(r, k + 1) == k + 1 then v else v + Shift(r))
  {
    hide Renumberable, IsRenumbered, Keyed, ColumnKey, SaysStart;
    PrefixListed();
    if Restarts(r, "TBCOL", k + 1) {
      RestartedKeyed(cards, r, moved, k + 1, v);
    } else {
      RenumberedKeyed(cards, r, moved, "TBCOL", k + 1);
    }
  }

  // What the new column's cards say under other keywords: nothing.
  lemma {:induction false} AddedSayNothing(added: seq<string>, at: nat, prefix: string, n: nat)
    requires prefix in PREFIXES && 1 <= n <= 999 && n != at + 1
    requires forall k :: 0 <= k < |added| ==> PlainKeyword(added[k]) && Describes(added[k], at + 1)
    ensures Keyed(added, ColumnKey(prefix, n)) == []
  {
    hide Entry, Keyed, ColumnOf, ColumnKey, PlainKeyword;
    forall k | 0 <= k < |added| ensures Entry(added[k], ColumnKey(prefix, n)) == [] {
      ReadersAgree(added[k], prefix, n);
      assert Describes(added[k], at + 1);
    }
    NoneKeyed(added, ColumnKey(prefix, n));
  }

  // What the edit is asked: a table whose cards number at most `numbered`
  // columns, and cards that describe the new column only.
  predicate InsertionPosed(cards: seq<string>, at: nat, added: seq<string>, numbered: nat) {
    && PlainKeywords(cards) && AllNumberedTo(cards, numbered) && at <= numbered < 999
    && forall k :: 0 <= k < |added| ==> PlainKeyword(added[k]) && Describes(added[k], at + 1)
  }

  lemma InsertedStages(cards: seq<string>, at: nat, width: nat, added: seq<string>, columns: nat, w: nat, numbered: nat)
    returns (moved: seq<string>, e: nat, more: seq<string>)
    requires CardsWithColumn(cards, at, width, added, columns, w).Some? && InsertionPosed(cards, at, added, numbered)
    ensures Renumberable(cards, Opening(at, width)) && IsRenumbered(cards, Opening(at, width), moved)
    ensures e <= |moved| && more == moved[..e] + added + moved[e..]
    ensures WithCounts(more, columns + 1, w + width) == CardsWithColumn(cards, at, width, added, columns, w)
    ensures PlainKeywords(more) && AllNumberedTo(more, numbered + 1)
  {
    hide WithCounts, PlainKeywords, AllNumberedTo, Renumberable, LastEnd, PlainKeyword, ColumnOf;
    moved := RenumberedAll(cards, Opening(at, width)).value;
    e := LastEnd(moved);
    more := moved[..e] + added + moved[e..];
    OpeningNumbers(cards, Opening(at, width), numbered);
    RenumberedKind(cards, Opening(at, width), moved, numbered);
    InsertedKind(moved, added, e, at, numbered + 1);
  }

  // Column n's cards after the insertion, under its new number, are those of
  // the renumbered header.
  lemma InsertedColumn(cards: seq<string>, at: nat, width: nat, added: seq<string>, columns: nat, w: nat,
                       numbered: nat, prefix: string, n: nat) returns (moved: seq<string>)
    requires CardsWithColumn(cards, at, width, added, columns, w).Some? && FitsI64(columns + 1) && FitsI64(w + width)
    requires InsertionPosed(cards, at, added, numbered) && prefix in PREFIXES && 1 <= n <= numbered
    ensures Renumberable(cards, Opening(at, width)) && IsRenumbered(cards, Opening(at, width), moved)
    ensures Keeps(Opening(at, width), n)
    ensures var m := NewNumber(Opening(at, width), n);
            var new_ := CardsWithColumn(cards, at, width, added, columns, w).value;
            Keyed(new_, ColumnKey(prefix, m)) == Keyed(moved, ColumnKey(prefix, m))
  {
    hide WithCounts, PlainKeywords, AllNumberedTo, Renumberable, IsRenumbered, Keyed, ColumnKey, Keeps, CardsWithColumn;
    hide PREFIXES, PlainKeyword, Describes, NewNumber;
    var e, more;
    moved, e, more := InsertedStages(cards, at, width, added, columns, w, numbered);
    OpeningKeeps(Opening(at, width), n);
    var m := NewNumber(Opening(at, width), n);
    AddedSayNothing(added, at, prefix, m);
    InsertedKeyed(moved, added, e, ColumnKey(prefix, m));
    CountsKeepColumns(more, columns + 1, w + width, numbered + 1, prefix, m);
  }

  // The column put in has the cards made for it.
  lemma InsertedNewColumn(cards: seq<string>, at: nat, width: nat, added: seq<string>, columns: nat, w: nat,
                          numbered: nat, prefix: string)
    requires CardsWithColumn(cards, at, width, added, columns, w).Some? && FitsI64(columns + 1) && FitsI64(w + width)
    requires InsertionPosed(cards, at, added, numbered) && prefix in PREFIXES
    ensures var new_ := CardsWithColumn(cards, at, width, added, columns, w).value;
            && PlainKeywords(new_) && AllNumberedTo(new_, numbered + 1)
            && Keyed(new_, ColumnKey(prefix, at + 1)) == Keyed(added, ColumnKey(prefix, at + 1))
  {
    hide WithCounts, PlainKeywords, AllNumberedTo, Renumberable, IsRenumbered, Keyed, ColumnKey, CardsWithColumn;
    hide PREFIXES, PlainKeyword, Describes;
    var moved, e, more := InsertedStages(cards, at, width, added, columns, w, numbered);
    VacatedKeyed(cards, Opening(at, width), moved, prefix);
    InsertedKeyed(moved, added, e, ColumnKey(prefix, at + 1));
    CountsKeepColumns(more, columns + 1, w + width, numbered + 1, prefix, at + 1);
  }

  lemma OpeningKeeps(r: Renumbering, n: nat)
    requires r.Opening? && 1 <= n < 999
    ensures Keeps(r, n) && 1 <= NewNumber(r, n) <= 999 && NewNumber(r, n) != r.at + 1
  {
  }

  lemma InsertedKind(cards: seq<string>, added: seq<string>, e: nat, at: nat, numbered: nat)
    requires e <= |cards| && at + 1 <= numbered && PlainKeywords(cards) && AllNumberedTo(cards, numbered)
    requires forall k :: 0 <= k < |added| ==> PlainKeyword(added[k]) && Describes(added[k], at + 1)
    ensures PlainKeywords(cards[..e] + added + cards[e..]) && AllNumberedTo(cards[..e] + added + cards[e..], numbered)
  {
    hide PlainKeyword, ColumnOf;
    var all := cards[..e] + added + cards[e..];
    forall k | 0 <= k < |all| ensures PlainKeyword(all[k]) && NumberedTo(all[k], numbered) {
      if e <= k < e + |added| {
        assert all[k] == added[k - e];
      } else {
        assert all[k] == cards[if k < e then k else k - |added|];
      }
    }
  }

  // A column put in: every other column keeps what its cards say, under its
  // new number, but for the starts of the columns behind it.
  lemma InsertKeepsCards(cards: seq<string>, at: nat, width: nat, added: seq<string>, columns: nat, w: nat,
                         numbered: nat, prefix: string, n: nat)
    requires CardsWithColumn(cards, at, width, added, columns, w).Some? && FitsI64(columns + 1) && FitsI64(w + width)
    requires InsertionPosed(cards, at, added, numbered) && prefix in PREFIXES && 1 <= n <= numbered
    requires prefix != "TBCOL" || n <= at
    ensures var new_ := CardsWithColumn(cards, at, width, added, columns, w).value;
            Keyed(new_, ColumnKey(prefix, if n <= at then n else n + 1)) == Keyed(cards, ColumnKey(prefix, n))
  {
    hide Keyed, ColumnKey, CardsWithColumn, Renumberable, IsRenumbered, InsertionPosed;
    var moved := InsertedColumn(cards, at, width, added, columns, w, numbered, prefix, n);
    RenumberedKeyed(cards, Opening(at, width), moved, prefix, n);
  }

  lemma InsertedIsPacked(cards: seq<string>, widths: seq<nat>, at: nat, width: nat, added: seq<string>, w: nat)
    requires Packed(cards, widths) && at <= |widths| < 999 && FitsI64(1 + Total(widths) + width) && FitsI64(w + width)
    requires NewColumnCards(added, at, 1 + Before(widths, at))
    requires CardsWithColumn(cards, at, width, added, |widths|, w).Some?
    ensures Packed(CardsWithColumn(cards, at, width, added, |widths|, w).value, WithColumn(widths, at, width))
  {
    hide Keyed, ColumnKey, CardsWithColumn, PlainKeywords, AllNumberedTo, PlainKeyword, Describes, SaysStart;
    hide Before, Total;
    hide PREFIXES;
    PrefixListed();
    var new_, r := CardsWithColumn(cards, at, width, added, |widths|, w).value, WithColumn(widths, at, width);
    InsertedNewColumn(cards, at, width, added, |widths|, w, |widths|, "TBCOL");
    BeforeWithColumn(widths, at, width, at);
    forall k | 0 <= k < |r| ensures StartIs(new_, k, 1 + Before(r, k)) {
      if k != at {
        InsertedStart(cards, widths, at, width, added, w, if k < at then k else k - 1);
      }
    }
  }

  lemma InsertedStart(cards: seq<string>, widths: seq<nat>, at: nat, width: nat, added: seq<string>, w: nat, k: nat)
    requires Packed(cards, widths) && at <= |widths| < 999 && FitsI64(w + width) && k < |widths|
    requires NewColumnCards(added, at, 1 + Before(widths, at))
    requires CardsWithColumn(cards, at, width, added, |widths|, w).Some?
    ensures var m := if k < at then k else k + 1;
            StartIs(CardsWithColumn(cards, at, width, added, |widths|, w).value, m,
                    1 + Before(WithColumn(widths, at, width), m))
  {
    hide Keyed, ColumnKey, CardsWithColumn, PlainKeywords, AllNumberedTo, PlainKeyword, Describes, SaysStart;
    hide Before, Total;
    hide PREFIXES, Renumberable, IsRenumbered;
    PrefixListed();
    var v := 1 + Before(widths, k);
    assert StartIs(cards, k, v);
    var moved := InsertedColumn(cards, at, width, added, |widths|, w, |widths|, "TBCOL", k + 1);
    MovedStart(cards, Opening(at, width), moved, k, v);
    BeforeWithColumn(widths, at, width, k);
  }

  // The readers find the new counts.
  lemma CountsAreRead(cards: seq<string>, columns: nat, w: nat, numbered: nat)
    requires WithCounts(cards, columns, w).Some? && FitsI64(columns) && FitsI64(w)
    requires PlainKeywords(cards) && AllNumberedTo(cards, numbered)
    ensures var new_ := WithCounts(cards, columns, w).value;
            KeywordValue(new_, "NAXIS1") == Some(w) && KeywordValue(new_, "TFIELDS") == Some(columns)
  {
    hide WithCount, PlainKeywords, KeywordValue, AllNumberedTo;
    PrefixListed();
    CountKeepsColumns(cards, "TFIELDS", columns, FIELDS_COMMENT, numbered, "TBCOL", 1);
    var counted := WithCount(cards, "TFIELDS", columns, FIELDS_COMMENT).value;
    CountIsRead(cards, "TFIELDS", columns, FIELDS_COMMENT);
    CountIsRead(counted, "NAXIS1", w, WIDTH_COMMENT);
    OtherCountStays(counted, "NAXIS1", w, WIDTH_COMMENT, "TFIELDS");
  }

  // A column put in: the counts say so.
  lemma InsertedCounts(cards: seq<string>, at: nat, width: nat, added: seq<string>, columns: nat, w: nat, numbered: nat)
    requires CardsWithColumn(cards, at, width, added, columns, w).Some? && FitsI64(columns + 1) && FitsI64(w + width)
    requires InsertionPosed(cards, at, added, numbered)
    ensures var new_ := CardsWithColumn(cards, at, width, added, columns, w).value;
            KeywordValue(new_, "NAXIS1") == Some(w + width) && KeywordValue(new_, "TFIELDS") == Some(columns + 1)
  {
    hide KeywordValue, PlainKeywords, WithCounts, AllNumberedTo, CardsWithColumn, Renumberable, IsRenumbered;
    var moved, e, more := InsertedStages(cards, at, width, added, columns, w, numbered);
    CountsAreRead(more, columns + 1, w + width, numbered + 1);
  }

  // ----- deletion -----

  lemma DroppedRenumberable(cards: seq<string>, at: nat, width: nat, numbered: nat)
    requires PlainKeywords(cards) && AllNumberedTo(cards, numbered) && numbered <= 999
    ensures Renumberable(Dropped(cards, at), Closing(at, width)) && AllNumberedTo(Dropped(cards, at), numbered)
  {
    hide PlainKeyword, ColumnOf, Dropped;
    var kept := Dropped(cards, at);
    forall k | 0 <= k < |kept|
      ensures PlainKeyword(kept[k]) && Numbered(kept[k], Closing(at, width)) && NumberedTo(kept[k], numbered)
    {
      var j := DroppedCard(cards, at, k);
      assert NumberedTo(cards[j], numbered);
    }
  }

  lemma DeletedColumn(cards: seq<string>, at: nat, width: nat, columns: nat, w: nat, numbered: nat, prefix: string,
                      n: nat)
    returns (moved: seq<string>)
    requires columns > 0 && width <= w && FitsI64(columns) && FitsI64(w)
    requires CardsWithoutColumn(cards, at, width, columns, w).Some?
    requires PlainKeywords(cards) && AllNumberedTo(cards, numbered) && at < numbered <= 999 && prefix in PREFIXES
    requires 1 <= n <= numbered && n != at + 1
    ensures Renumberable(Dropped(cards, at), Closing(at, width))
    ensures IsRenumbered(Dropped(cards, at), Closing(at, width), moved) && Keeps(Closing(at, width), n)
    ensures var new_, m := CardsWithoutColumn(cards, at, width, columns, w).value, NewNumber(Closing(at, width), n);
            && PlainKeywords(new_) && AllNumberedTo(new_, numbered - 1)
            && Keyed(new_, ColumnKey(prefix, m)) == Keyed(moved, ColumnKey(prefix, m))
            && Keyed(Dropped(cards, at), ColumnKey(prefix, n)) == Keyed(cards, ColumnKey(prefix, n))
  {
    hide WithCounts, PlainKeywords, AllNumberedTo, Renumberable, IsRenumbered, Keyed, ColumnKey, Dropped, PREFIXES;
    moved := RenumberedAll(Dropped(cards, at), Closing(at, width)).value;
    DroppedRenumberable(cards, at, width, numbered);
    RenumberedKind(Dropped(cards, at), Closing(at, width), moved, numbered);
    DroppedKeyed(cards, at, prefix, n);
    CountsKeepColumns(moved, columns - 1, w - width, numbered - 1, prefix, NewNumber(Closing(at, width), n));
  }

  // A column taken out: the counts say so.
  lemma DeletedCounts(cards: seq<string>, at: nat, width: nat, columns: nat, w: nat)
    requires columns > 0 && width <= w && FitsI64(w) && columns <= 999 && at < columns
    requires CardsWithoutColumn(cards, at, width, columns, w).Some?
    requires PlainKeywords(cards) && AllNumberedTo(cards, columns)
    ensures var new_ := CardsWithoutColumn(cards, at, width, columns, w).value;
            KeywordValue(new_, "NAXIS1") == Some(w - width) && KeywordValue(new_, "TFIELDS") == Some(columns - 1)
  {
    hide WithCounts, PlainKeywords, AllNumberedTo, Renumberable, IsRenumbered, KeywordValue, Dropped;
    var moved := RenumberedAll(Dropped(cards, at), Closing(at, width)).value;
    DroppedRenumberable(cards, at, width, columns);
    RenumberedKind(Dropped(cards, at), Closing(at, width), moved, columns);
    CountsAreRead(moved, columns - 1, w - width, columns - 1);
  }

  // A column taken out: every other column keeps what its cards say, under
  // its new number, but for the starts of the columns behind it.
  lemma DeleteKeepsCards(cards: seq<string>, at: nat, width: nat, columns: nat, w: nat, numbered: nat, prefix: string,
                         n: nat)
    requires columns > 0 && width <= w && FitsI64(columns) && FitsI64(w)
    requires CardsWithoutColumn(cards, at, width, columns, w).Some?
    requires PlainKeywords(cards) && AllNumberedTo(cards, numbered) && at < numbered <= 999 && prefix in PREFIXES
    requires 1 <= n <= numbered && n != at + 1 && (prefix != "TBCOL" || n <= at)
    ensures var new_ := CardsWithoutColumn(cards, at, width, columns, w).value;
            Keyed(new_, ColumnKey(prefix, if n <= at then n else n - 1)) == Keyed(cards, ColumnKey(prefix, n))
  {
    hide Keyed, ColumnKey, CardsWithoutColumn, Renumberable, IsRenumbered, PlainKeywords, AllNumberedTo, Dropped;
    var moved := DeletedColumn(cards, at, width, columns, w, numbered, prefix, n);
    RenumberedKeyed(Dropped(cards, at), Closing(at, width), moved, prefix, n);
  }

  lemma BeforeWithoutColumn(widths: seq<nat>, at: nat, k: nat)
    requires at < |widths| && k < |widths|
    ensures k <= at ==> Before(WithoutColumn(widths, at), k) == Before(widths, k)
    ensures k >= at ==> Before(WithoutColumn(widths, at), k) + widths[at] == Before(widths, k + 1)
    ensures Total(WithoutColumn(widths, at)) + widths[at] == Total(widths)
  {
    hide Before, Total;
    PutBack(widths, at);
    BeforeWithColumn(WithoutColumn(widths, at), at, widths[at], k);
  }

  lemma DeletedIsPacked(cards: seq<string>, widths: seq<nat>, at: nat, w: nat)
    requires Packed(cards, widths) && at < |widths| && widths[at] <= w && FitsI64(w)
    requires CardsWithoutColumn(cards, at, widths[at], |widths|, w).Some?
    ensures Packed(CardsWithoutColumn(cards, at, widths[at], |widths|, w).value, WithoutColumn(widths, at))
  {
    hide Keyed, ColumnKey, CardsWithoutColumn, PlainKeywords, AllNumberedTo, SaysStart, Before, Total, Dropped;
    hide Renumberable, IsRenumbered, PREFIXES;
    PrefixListed();
    var new_, r := CardsWithoutColumn(cards, at, widths[at], |widths|, w).value, WithoutColumn(widths, at);
    DeletedKind(cards, at, widths[at], |widths|, w);
    BeforeWithoutColumn(widths, at, at);
    forall k | 0 <= k < |r| ensures StartIs(new_, k, 1 + Before(r, k)) {
      DeletedStart(cards, widths, at, w, if k < at then k else k + 1);
    }
  }

  lemma DeletedKind(cards: seq<string>, at: nat, width: nat, columns: nat, w: nat)
    requires columns > 0 && width <= w && FitsI64(w) && columns <= 999 && at < columns
    requires CardsWithoutColumn(cards, at, width, columns, w).Some?
    requires PlainKeywords(cards) && AllNumberedTo(cards, columns)
    ensures var new_ := CardsWithoutColumn(cards, at, width, columns, w).value;
            PlainKeywords(new_) && AllNumberedTo(new_, columns - 1)
  {
    hide WithCounts, PlainKeywords, AllNumberedTo, Renumberable, IsRenumbered, Keyed, ColumnKey, Dropped, PREFIXES;
    PrefixListed();
    var moved := RenumberedAll(Dropped(cards, at), Closing(at, width)).value;
    DroppedRenumberable(cards, at, width, columns);
    RenumberedKind(Dropped(cards, at), Closing(at, width), moved, columns);
    CountsKeepColumns(moved, columns - 1, w - width, columns - 1, "TBCOL", 1);
  }

  lemma DeletedStart(cards: seq<string>, widths: seq<nat>, at: nat, w: nat, k: nat)
    requires Packed(cards, widths) && at < |widths| && widths[at] <= w && FitsI64(w) && k < |widths| && k != at
    requires CardsWithoutColumn(cards, at, widths[at], |widths|, w).Some?
    ensures var m := if k < at then k else k - 1;
            StartIs(CardsWithoutColumn(cards, at, widths[at], |widths|, w).value, m,
                    1 + Before(WithoutColumn(widths, at), m))
  {
    hide Keyed, ColumnKey, CardsWithoutColumn, PlainKeywords, AllNumberedTo, SaysStart, Before, Total, Dropped;
    hide Renumberable, IsRenumbered, PREFIXES;
    PrefixListed();
    var v := 1 + Before(widths, k);
    assert StartIs(cards, k, v);
    var moved := DeletedColumn(cards, at, widths[at], |widths|, w, |widths|, "TBCOL", k + 1);
    assert StartIs(Dropped(cards, at), k, v);
    MovedStart(Dropped(cards, at), Closing(at, widths[at]), moved, k, v);
    BeforeWithoutColumn(widths, at, if k < at then k else k - 1);
  }

  // Deleting the column just inserted gives every column back what its cards
  // said; the starts are right again because the header is packed.
  lemma DeleteUndoesInsert(cards: seq<string>, widths: seq<nat>, at: nat, width: nat, added: seq<string>, w: nat,
                           prefix: string, n: nat)
    requires Packed(cards, widths) && at <= |widths| < 999 && FitsI64(1 + Total(widths) + width) && FitsI64(w + width)
    requires NewColumnCards(added, at, 1 + Before(widths, at)) && prefix in PREFIXES && 1 <= n <= |widths|
    requires Editable(cards)
    ensures CardsWithColumn(cards, at, width, added, |widths|, w).Some?
    ensures var with := CardsWithColumn(cards, at, width, added, |widths|, w).value;
            CardsWithoutColumn(with, at, width, |widths| + 1, w + width).Some?
    ensures var with := CardsWithColumn(cards, at, width, added, |widths|, w).value;
            var back := CardsWithoutColumn(with, at, width, |widths| + 1, w + width).value;
            && Editable(back) && Packed(back, widths)
            && (prefix != "TBCOL" ==> Keyed(back, ColumnKey(prefix, n)) == Keyed(cards, ColumnKey(prefix, n)))
            && (prefix == "TBCOL" ==>
                  KeywordValue(back, ColumnKey(prefix, n)) == KeywordValue(cards, ColumnKey(prefix, n)))
  {
    hide Keyed, ColumnKey, CardsWithColumn, CardsWithoutColumn, PlainKeywords, AllNumberedTo, SaysStart, Before, Total;
    hide PREFIXES, KeywordValue, Describes, PlainKeyword, HasEnd, HasCounts;
    InsertKeepsPacked(cards, widths, at, width, added, w);
    TakenOutAgain(widths, at, width);
    var with := CardsWithColumn(cards, at, width, added, |widths|, w).value;
    DeleteKeepsPacked(with, WithColumn(widths, at, width), at, w + width);
    var back := CardsWithoutColumn(with, at, width, |widths| + 1, w + width).value;
    if prefix != "TBCOL" {
      InsertKeepsCards(cards, at, width, added, |widths|, w, |widths|, prefix, n);
      DeleteKeepsCards(with, at, width, |widths| + 1, w + width, |widths| + 1, prefix, if n <= at then n else n + 1);
    } else {
      PackedReads(cards, widths, n - 1);
      PackedReads(back, widths, n - 1);
    }
  }

  lemma TakenOutAgain(widths: seq<nat>, at: nat, width: nat)
    requires at <= |widths|
    ensures |WithColumn(widths, at, width)| == |widths| + 1 && WithColumn(widths, at, width)[at] == width
    ensures WithoutColumn(WithColumn(widths, at, width), at) == widths
  {
  }

  // ----- when an edit refuses, and when it should -----

  lemma {:induction false} EntryIsKeyed(cards: seq<string>, key: string, k: nat)
    requires |Keyed(cards, key)| == 1 && k < |cards| && Entry(cards[k], key) != []
    ensures Entry(cards[k], key) == Keyed(cards, key)
  {
    hide Entry;
    if k > 0 {
      if Entry(cards[0], key) != [] {
        EmptyKeyed(cards[1..], key);
      } else {
        EntryIsKeyed(cards[1..], key, k - 1);
      }
    }
  }

  // In a packed header every start that has to move can.
  lemma RenumberingSucceeds(cards: seq<string>, widths: seq<nat>, r: Renumbering)
    requires Packed(cards, widths) && r.at <= |widths|
    requires if r.Opening? then FitsI64(1 + Total(widths) + r.shift) else r.at < |widths| && r.shift == widths[r.at]
    ensures RenumberedAll(cards, r).Some?
  {
    hide Renumbered, PlainKeywords, AllNumberedTo, Total;
    forall k | 0 <= k < |cards| ensures Renumbered(cards[k], r).Some? {
      if Restarted(cards[k], r) {
        StartMoves(cards, widths, r, k);
      } else {
        RestRenumbered(cards[k], r);
      }
    }
  }

  lemma RestRenumbered(card: string, r: Renumbering)
    requires !Restarted(card, r)
    ensures Renumbered(card, r).Some?
  {
    hide ColumnOf;
  }

  lemma StartMoves(cards: seq<string>, widths: seq<nat>, r: Renumbering, k: nat)
    requires Packed(cards, widths) && r.at <= |widths| && k < |cards| && Restarted(cards[k], r)
    requires if r.Opening? then FitsI64(1 + Total(widths) + r.shift) else r.at < |widths| && r.shift == widths[r.at]
    ensures Renumbered(cards[k], r).Some?
  {
    hide Keyed, SaysStart, Before, Total, ShiftedStart, PlainKeyword, ColumnOf, PREFIXES, ColumnKey, Renumbered;
    hide PlainKeywords, StartIs;
    var card := cards[k];
    ColumnShape(card);
    RestartSucceeds(card, r);
    var c := ColumnOf(card).value;
    assert NumberedTo(card, |widths|);
    var v := 1 + Before(widths, c.n - 1);
    StartOnCard(cards, widths, k, c.n);
    StartReads(card, v, Shift(r));
    BeforeNext(widths, c.n - 1);
    if r.Closing? {
      BeforeNext(widths, r.at);
      BeforeGrows(widths, r.at + 1, c.n - 1);
    }
  }

  lemma RestartSucceeds(card: string, r: Renumbering)
    requires Restarted(card, r)
    ensures Renumbered(card, r).Some? <==> ShiftedStart(card, Shift(r)).Some?
  {
  }

  lemma StartOnCard(cards: seq<string>, widths: seq<nat>, k: nat, n: nat)
    requires Packed(cards, widths) && k < |cards| && 1 <= n <= |widths|
    requires ColumnOf(cards[k]) == Some(ColumnCard("TBCOL", n))
    ensures |cards[k]| >= 8 && SaysStart(cards[k][8..], 1 + Before(widths, n - 1))
  {
    hide Keyed, SaysStart, Before, Total, ColumnOf, PREFIXES, ColumnKey;
    PrefixListed();
    ColumnShape(cards[k]);
    assert PlainKeyword(cards[k]);
    assert StartIs(cards, n - 1, 1 + Before(widths, n - 1));
    ReadersAgree(cards[k], "TBCOL", n);
    EntryIsKeyed(cards, ColumnKey("TBCOL", n), k);
  }

  // ----- accepted headers -----

  predicate HasEnd(cards: seq<string>) {
    exists k :: 0 <= k < |cards| && IsEnd(cards[k])
  }

  predicate HasCard(cards: seq<string>, keyword: string) {
    exists k :: 0 <= k < |cards| && HasKeyword(cards[k], keyword)
  }

  predicate HasCounts(cards: seq<string>) {
    HasCard(cards, "TFIELDS") && HasCard(cards, "NAXIS1")
  }

  predicate Editable(cards: seq<string>) {
    HasEnd(cards) && HasCounts(cards)
  }

  lemma {:induction false} EndIsFound(cards: seq<string>)
    ensures LastEnd(cards) < |cards| <==> HasEnd(cards)
  {
    hide IsEnd;
    var n := |cards| - 1;
    if cards != [] && !IsEnd(cards[n]) {
      EndIsFound(cards[..n]);
      if HasEnd(cards) {
        var k :| 0 <= k < |cards| && IsEnd(cards[k]);
        assert IsEnd(cards[..n][k]);
      }
    }
  }

  lemma CardIsFound(cards: seq<string>, keyword: string)
    ensures FirstWith(cards, keyword) < |cards| <==> HasCard(cards, keyword)
  {
    hide HasKeyword;
  }

  // The kinds of card the edits look for: END, TFIELDS and NAXIS1.
  predicate SameKind(a: string, b: string) {
    && (IsEnd(a) <==> IsEnd(b))
    && (HasKeyword(a, "TFIELDS") <==> HasKeyword(b, "TFIELDS"))
    && (HasKeyword(a, "NAXIS1") <==> HasKeyword(b, "NAXIS1"))
  }

  // A card that starts with a column prefix is none of them.
  lemma ColumnCardKind(card: string)
    requires |card| >= 5 && card[..5] in PREFIXES
    ensures !IsEnd(card) && !HasKeyword(card, "TFIELDS") && !HasKeyword(card, "NAXIS1")
  {
    assert card[0] == card[..5][0] == 'T';
    TrimStartsSame(card[..3]);
    if |card| >= 8 {
      TrimEndCuts(card[..8]);
      hide TrimEnd;
      var keyword := TrimEnd(card[..8]);
      if |keyword| >= 5 {
        assert keyword[..5] == card[..5];
      }
      assert "TFIELDS"[..5] == "TFIEL" && "NAXIS1"[..5] == "NAXIS";
    }
  }

  lemma TrimStartsSame(s: string)
    requires s != [] && s[0] == 'T'
    ensures Trim(s) != "END"
  {
    TrimEndCuts(s);
    assert TrimStart(s) == s;
    hide TrimEnd;
    assert "END"[0] == 'E';
  }

  lemma ColumnPrefix(card: string)
    requires ColumnOf(card).Some?
    ensures |card| >= 8 && card[..5] == ColumnOf(card).value.prefix && card[..5] in PREFIXES
  {
    TrimEndCuts(card[..8]);
    hide TrimEnd, DigitsValue;
    assert TrimEnd(card[..8])[..5] == card[..8][..5] == card[..5];
  }

  lemma StartCardPrefix(n: nat, start: int)
    ensures |StartCard(n, start)| >= 5 && StartCard(n, start)[..5] == "TBCOL"
  {
    var key := ColumnKey("TBCOL", n);
    hide Decimal, IntText, TrimEnd;
    var full := CardInt(key, start, START_COMMENT);
    assert full[..5] == "TBCOL" && full[5] == Decimal(n)[0];
    InkStays(full, 6);
    TrimEndCuts(full);
  }

  lemma RebuiltPrefix(card: string, prefix: string, n: nat)
    requires prefix in PREFIXES
    ensures |RebuiltCard(card, prefix, n)| >= 5 && RebuiltCard(card, prefix, n)[..5] == prefix
  {
    PrefixInk(prefix);
    hide Decimal;
  }

  // Renumbering leaves the kind of every card.
  lemma RenumberedSameKind(card: string, r: Renumbering)
    requires Renumbered(card, r).Some?
    ensures SameKind(card, Renumbered(card, r).value)
  {
    var column := ColumnOf(card);
    if column.Some? && Renumbered(card, r).value != card {
      ColumnPrefix(card);
      ColumnCardKind(card);
      PrefixListed();
      hide ColumnOf, StartCard, RebuiltCard, IsEnd, HasKeyword, ShiftedStart, PREFIXES;
      var m := NewNumber(r, column.value.n);
      RebuiltPrefix(card, column.value.prefix, m);
      if Restarted(card, r) {
        StartCardPrefix(m, ShiftedStart(card, Shift(r)).value);
      }
      ColumnCardKind(Renumbered(card, r).value);
    }
  }

  lemma SameKinds(cards: seq<string>, new_: seq<string>)
    requires |new_| == |cards| && forall k :: 0 <= k < |cards| ==> SameKind(cards[k], new_[k])
    ensures HasEnd(new_) <==> HasEnd(cards)
    ensures HasCard(new_, "TFIELDS") <==> HasCard(cards, "TFIELDS")
    ensures HasCard(new_, "NAXIS1") <==> HasCard(cards, "NAXIS1")
  {
    hide IsEnd, HasKeyword;
  }

  lemma RenumberedSameKinds(cards: seq<string>, r: Renumbering, new_: seq<string>)
    requires IsRenumbered(cards, r, new_)
    ensures HasEnd(new_) <==> HasEnd(cards)
    ensures HasCounts(new_) <==> HasCounts(cards)
  {
    hide Renumbered, SameKind;
    forall k | 0 <= k < |cards| ensures SameKind(cards[k], new_[k]) {
      RenumberedSameKind(cards[k], r);
    }
    SameKinds(cards, new_);
  }

  // The counts can be renewed exactly when both are there, and still are.
  lemma CountsAccepted(cards: seq<string>, columns: nat, w: nat)
    requires FitsI64(columns) && FitsI64(w)
    ensures WithCounts(cards, columns, w).Some? <==> HasCounts(cards)
    ensures WithCounts(cards, columns, w).Some? ==>
      HasCounts(WithCounts(cards, columns, w).value) && (HasEnd(WithCounts(cards, columns, w).value) <==> HasEnd(cards))
  {
    hide WithCount, HasCard, HasEnd;
    CountAccepted(cards, "TFIELDS", columns, FIELDS_COMMENT);
    if HasCard(cards, "TFIELDS") {
      var counted := WithCount(cards, "TFIELDS", columns, FIELDS_COMMENT).value;
      CountAccepted(counted, "NAXIS1", w, WIDTH_COMMENT);
    }
  }

  lemma CountAccepted(cards: seq<string>, keyword: string, value: int, comment: string)
    requires CountKey(keyword) && FitsI64(value)
    ensures WithCount(cards, keyword, value, comment).Some? <==> HasCard(cards, keyword)
    ensures WithCount(cards, keyword, value, comment).Some? ==>
      var new_ := WithCount(cards, keyword, value, comment).value;
      && (HasEnd(new_) <==> HasEnd(cards))
      && (HasCard(new_, "TFIELDS") <==> HasCard(cards, "TFIELDS"))
      && (HasCard(new_, "NAXIS1") <==> HasCard(cards, "NAXIS1"))
  {
    CardIsFound(cards, keyword);
    var k, card := FirstWith(cards, keyword), CardIntTrimmed(keyword, value, comment);
    hide IsEnd, HasKeyword, CardIntTrimmed, HasEnd, HasCard, PlainKeyword;
    if k < |cards| {
      CountCardIs(keyword, value, comment);
      SameCount(cards[k], card, keyword);
      OneReplaced(cards, k, card);
    }
  }

  lemma SameCount(a: string, b: string, keyword: string)
    requires CountKey(keyword) && HasKeyword(a, keyword) && HasKeyword(b, keyword)
    ensures SameKind(a, b)
  {
    CountKind(a, keyword);
    CountKind(b, keyword);
    hide IsEnd, HasKeyword;
  }

  lemma OneReplaced(cards: seq<string>, k: nat, card: string)
    requires k < |cards| && SameKind(cards[k], card)
    ensures var new_ := cards[k := card];
      && (HasEnd(new_) <==> HasEnd(cards))
      && (HasCard(new_, "TFIELDS") <==> HasCard(cards, "TFIELDS"))
      && (HasCard(new_, "NAXIS1") <==> HasCard(cards, "NAXIS1"))
  {
    hide IsEnd, HasKeyword, HasEnd, HasCard;
    SameKinds(cards, cards[k := card]);
  }

  // A count's card is of its own kind only.
  lemma CountKind(card: string, keyword: string)
    requires CountKey(keyword) && HasKeyword(card, keyword)
    ensures !IsEnd(card) && (HasKeyword(card, "TFIELDS") <==> keyword == "TFIELDS")
    ensures HasKeyword(card, "NAXIS1") <==> keyword == "NAXIS1"
  {
    TrimEndCuts(card[..8]);
    TrimEndCuts(card[..3]);
    hide TrimEnd;
    assert card[0] == card[..8][0] == keyword[0] && keyword[0] != 'E';
    assert TrimStart(card[..3]) == card[..3];
    assert "END"[0] == 'E' && card[..3][0] == card[0];
  }

  lemma DeletionSucceeds(cards: seq<string>, widths: seq<nat>, at: nat)
    requires Packed(cards, widths) && at < |widths|
    ensures RenumberedAll(Dropped(cards, at), Closing(at, widths[at])).Some?
  {
    hide Renumbered, Packed, Dropped;
    RenumberingSucceeds(cards, widths, Closing(at, widths[at]));
    var kept := Dropped(cards, at);
    forall k | 0 <= k < |kept| ensures Renumbered(kept[k], Closing(at, widths[at])).Some? {
      var j := DroppedCard(cards, at, k);
    }
  }

  // An insertion into a packed header is accepted exactly when END, TFIELDS
  // and NAXIS1 are there, and leaves them there.
  lemma InsertionAcceptedIff(cards: seq<string>, widths: seq<nat>, at: nat, width: nat, added: seq<string>, w: nat)
    requires Packed(cards, widths) && at <= |widths| && FitsI64(1 + Total(widths) + width) && FitsI64(w + width)
    requires forall k :: 0 <= k < |added| ==> Describes(added[k], at + 1)
    ensures var new_ := CardsWithColumn(cards, at, width, added, |widths|, w);
      && (new_.Some? <==> Editable(cards))
      && (new_.Some? ==> Editable(new_.value))
  {
    hide WithCounts, Packed, Describes, HasEnd, HasCard, IsRenumbered, Total, WithBeforeEnd, RenumberedAll;
    PackedColumns(cards, widths);
    RenumberingSucceeds(cards, widths, Opening(at, width));
    var moved := RenumberedAll(cards, Opening(at, width)).value;
    RenumberedIs(cards, Opening(at, width), moved);
    RenumberedSameKinds(cards, Opening(at, width), moved);
    AddingAccepted(moved, added, at);
    if HasEnd(cards) {
      CountsAccepted(WithBeforeEnd(moved, added).value, |widths| + 1, w + width);
    }
  }

  lemma RenumberedIs(cards: seq<string>, r: Renumbering, new_: seq<string>)
    requires RenumberedAll(cards, r) == Some(new_)
    ensures IsRenumbered(cards, r, new_)
  {
    hide IsRenumbered;
  }

  lemma AddingAccepted(cards: seq<string>, added: seq<string>, at: nat)
    requires forall k :: 0 <= k < |added| ==> Describes(added[k], at + 1)
    ensures WithBeforeEnd(cards, added).Some? <==> HasEnd(cards)
    ensures HasEnd(cards) ==>
      var more := WithBeforeEnd(cards, added).value;
      HasEnd(more) && (HasCounts(more) <==> HasCounts(cards))
  {
    hide LastEnd, Describes, HasEnd, HasCounts;
    EndIsFound(cards);
    if HasEnd(cards) {
      AddedKinds(cards, added, LastEnd(cards), at);
    }
  }

  // The kinds of card that move with a column.
  lemma ColumnKeywords(prefix: string)
    ensures prefix in PREFIXES
       <==> prefix == "TTYPE" || prefix == "TFORM" || prefix == "TUNIT" || prefix == "TZERO" || prefix == "TSCAL"
            || prefix == "TNULL" || prefix == "TDISP" || prefix == "TBCOL"
  {
    assert PREFIXES[0] == "TTYPE" && PREFIXES[1] == "TFORM" && PREFIXES[2] == "TUNIT" && PREFIXES[3] == "TZERO"
      && PREFIXES[4] == "TSCAL" && PREFIXES[5] == "TNULL" && PREFIXES[6] == "TDISP" && PREFIXES[7] == "TBCOL";
  }

  // A packed header that can be edited stays both, with the new width in its
  // place.
  lemma InsertKeepsPacked(cards: seq<string>, widths: seq<nat>, at: nat, width: nat, added: seq<string>, w: nat)
    requires Packed(cards, widths) && at <= |widths| < 999 && FitsI64(1 + Total(widths) + width) && FitsI64(w + width)
    requires NewColumnCards(added, at, 1 + Before(widths, at)) && Editable(cards)
    ensures CardsWithColumn(cards, at, width, added, |widths|, w).Some?
    ensures var new_ := CardsWithColumn(cards, at, width, added, |widths|, w).value;
      Packed(new_, WithColumn(widths, at, width)) && Editable(new_)
  {
    hide CardsWithColumn, Packed, Editable, Describes, Before, Total, StartIs;
    InsertionAcceptedIff(cards, widths, at, width, added, w);
    InsertedIsPacked(cards, widths, at, width, added, w);
  }

  lemma DeleteKeepsPacked(cards: seq<string>, widths: seq<nat>, at: nat, w: nat)
    requires Packed(cards, widths) && at < |widths| && widths[at] <= w && FitsI64(w) && HasCounts(cards)
    ensures CardsWithoutColumn(cards, at, widths[at], |widths|, w).Some?
    ensures var new_ := CardsWithoutColumn(cards, at, widths[at], |widths|, w).value;
      Packed(new_, WithoutColumn(widths, at)) && HasCounts(new_) && (HasEnd(new_) <==> HasEnd(cards))
  {
    hide CardsWithoutColumn, Packed, HasCounts, HasEnd;
    DeletionAcceptedIff(cards, widths, at, w);
    DeletedIsPacked(cards, widths, at, w);
  }

  lemma PackedColumns(cards: seq<string>, widths: seq<nat>)
    requires Packed(cards, widths)
    ensures |widths| <= 999 && FitsI64(|widths|) && FitsI64(|widths| + 1)
  {
    hide PlainKeywords, AllNumberedTo, StartIs, Total;
  }

  lemma AddedKinds(cards: seq<string>, added: seq<string>, e: nat, at: nat)
    requires e <= |cards| && forall k :: 0 <= k < |added| ==> Describes(added[k], at + 1)
    ensures var all := cards[..e] + added + cards[e..];
      (HasEnd(all) <==> HasEnd(cards)) && (HasCounts(all) <==> HasCounts(cards))
  {
    hide IsEnd, HasKeyword, ColumnOf;
    var all := cards[..e] + added + cards[e..];
    forall k | e <= k < e + |added|
      ensures !IsEnd(all[k]) && !HasKeyword(all[k], "TFIELDS") && !HasKeyword(all[k], "NAXIS1")
    {
      assert all[k] == added[k - e] && Describes(added[k - e], at + 1);
      ColumnPrefix(all[k]);
      ColumnCardKind(all[k]);
    }
    OthersAmong(cards, added, e);
  }

  lemma OthersAmong(cards: seq<string>, added: seq<string>, e: nat)
    requires e <= |cards|
    requires var all := cards[..e] + added + cards[e..];
      forall k :: e <= k < e + |added| ==>
        !IsEnd(all[k]) && !HasKeyword(all[k], "TFIELDS") && !HasKeyword(all[k], "NAXIS1")
    ensures var all := cards[..e] + added + cards[e..];
      (HasEnd(all) <==> HasEnd(cards)) && (HasCounts(all) <==> HasCounts(cards))
  {
    hide IsEnd, HasKeyword;
    var all := cards[..e] + added + cards[e..];
    assert forall k :: 0 <= k < |cards| ==> cards[k] == all[if k < e then k else k + |added|];
    assert forall k :: 0 <= k < e ==> all[k] == cards[k];
    assert forall k :: e + |added| <= k < |all| ==> all[k] == cards[k - |added|];
  }

  // A deletion does not need END.
  lemma DeletionAcceptedIff(cards: seq<string>, widths: seq<nat>, at: nat, w: nat)
    requires Packed(cards, widths) && at < |widths| && widths[at] <= w && FitsI64(w)
    ensures var new_ := CardsWithoutColumn(cards, at, widths[at], |widths|, w);
      && (new_.Some? <==> HasCounts(cards))
      && (new_.Some? ==> HasCounts(new_.value) && (HasEnd(new_.value) <==> HasEnd(cards)))
  {
    hide WithCounts, Packed, Dropped, HasEnd, HasCard, IsRenumbered;
    PackedColumns(cards, widths);
    DeletionSucceeds(cards, widths, at);
    var kept := Dropped(cards, at);
    var moved := RenumberedAll(kept, Closing(at, widths[at])).value;
    DroppedKinds(cards, at);
    RenumberedSameKinds(kept, Closing(at, widths[at]), moved);
    CountsAccepted(moved, |widths| - 1, w - widths[at]);
  }

  lemma {:induction false} DroppedKinds(cards: seq<string>, at: nat)
    ensures HasEnd(Dropped(cards, at)) <==> HasEnd(cards)
    ensures HasCard(Dropped(cards, at), "TFIELDS") <==> HasCard(cards, "TFIELDS")
    ensures HasCard(Dropped(cards, at), "NAXIS1") <==> HasCard(cards, "NAXIS1")
  {
    hide IsEnd, HasKeyword, ColumnOf;
    if cards != [] {
      DroppedKinds(cards[1..], at);
      FrontKinds(cards[0], cards[1..]);
      FrontKinds(cards[0], Dropped(cards[1..], at));
      assert [cards[0]] + cards[1..] == cards;
      if Describes(cards[0], at + 1) {
        ColumnPrefix(cards[0]);
        ColumnCardKind(cards[0]);
      }
    }
  }

  lemma FrontKinds(card: string, rest: seq<string>)
    ensures HasEnd([card] + rest) <==> IsEnd(card) || HasEnd(rest)
    ensures HasCard([card] + rest, "TFIELDS") <==> HasKeyword(card, "TFIELDS") || HasCard(rest, "TFIELDS")
    ensures HasCard([card] + rest, "NAXIS1") <==> HasKeyword(card, "NAXIS1") || HasCard(rest, "NAXIS1")
  {
    hide IsEnd, HasKeyword;
    var all := [card] + rest;
    assert forall k :: 0 <= k < |rest| ==> rest[k] == all[k + 1];
    assert forall k :: 0 < k < |all| ==> all[k] == rest[k - 1];
    assert all[0] == card;
  }

  lemma BeforeGrows(widths: seq<nat>, a: nat, b: nat)
    requires a <= b <= |widths|
    ensures Before(widths, a) <= Before(widths, b)
  {
    assert widths[..b] == widths[..a] + widths[a..b];
    TotalOfParts(widths[..a], widths[a..b]);
  }

  // ----- how long the new header is, and how it ends -----

  // END comes last, as every reader of a file leaves it.
  predicate EndsInEnd(cards: seq<string>) {
    cards != [] && IsEnd(cards[|cards| - 1])
  }

  lemma CountsKeepShape(cards: seq<string>, columns: nat, w: nat)
    requires WithCounts(cards, columns, w).Some?
    ensures |WithCounts(cards, columns, w).value| == |cards|
    ensures EndsInEnd(cards) ==> EndsInEnd(WithCounts(cards, columns, w).value)
  {
    hide WithCount;
    CountKeepsShape(cards, "TFIELDS", columns, FIELDS_COMMENT);
    CountKeepsShape(WithCount(cards, "TFIELDS", columns, FIELDS_COMMENT).value, "NAXIS1", w, WIDTH_COMMENT);
  }

  lemma CountKeepsShape(cards: seq<string>, keyword: string, value: int, comment: string)
    requires CountKey(keyword) && WithCount(cards, keyword, value, comment).Some?
    ensures |WithCount(cards, keyword, value, comment).value| == |cards|
    ensures EndsInEnd(cards) ==> EndsInEnd(WithCount(cards, keyword, value, comment).value)
  {
    CountKind(cards[FirstWith(cards, keyword)], keyword);
    hide IsEnd, HasKeyword, CardIntTrimmed, FirstWith;
  }

  lemma RenumberedKeepsShape(cards: seq<string>, r: Renumbering, new_: seq<string>)
    requires IsRenumbered(cards, r, new_)
    ensures |new_| == |cards| && (EndsInEnd(cards) ==> EndsInEnd(new_))
  {
    hide Renumbered, IsEnd, HasKeyword;
    if cards != [] {
      RenumberedSameKind(cards[|cards| - 1], r);
    }
  }

  // An insertion makes the header longer by the new column's cards, END still
  // last.
  lemma InsertedShape(cards: seq<string>, at: nat, width: nat, added: seq<string>, columns: nat, w: nat)
    requires CardsWithColumn(cards, at, width, added, columns, w).Some? && EndsInEnd(cards)
    ensures var new_ := CardsWithColumn(cards, at, width, added, columns, w).value;
      |new_| == |cards| + |added| && EndsInEnd(new_)
  {
    hide WithCounts, IsRenumbered, IsEnd;
    var moved := RenumberedAll(cards, Opening(at, width)).value;
    RenumberedKeepsShape(cards, Opening(at, width), moved);
    var e := LastEnd(moved);
    assert e == |moved| - 1;
    var more := moved[..e] + added + moved[e..];
    assert more[|more| - 1] == moved[e];
    CountsKeepShape(more, columns + 1, w + width);
  }

  // Some card describes the column at position `at`.
  predicate HasColumn(cards: seq<string>, at: nat) {
    exists k :: 0 <= k < |cards| && Describes(cards[k], at + 1)
  }

  // A deletion makes it shorter when it drops a card.
  lemma DeletedShape(cards: seq<string>, at: nat, width: nat, columns: nat, w: nat)
    requires columns > 0 && width <= w && CardsWithoutColumn(cards, at, width, columns, w).Some?
    requires HasColumn(cards, at)
    ensures |CardsWithoutColumn(cards, at, width, columns, w).value| < |cards|
  {
    hide WithCounts, IsRenumbered, Dropped, ColumnOf, RenumberedAll, Describes;
    var k :| 0 <= k < |cards| && Describes(cards[k], at + 1);
    SomeDropped(cards, at, k);
    var moved := RenumberedAll(Dropped(cards, at), Closing(at, width)).value;
    RenumberedIs(Dropped(cards, at), Closing(at, width), moved);
    RenumberedKeepsShape(Dropped(cards, at), Closing(at, width), moved);
    CountsKeepShape(moved, columns - 1, w - width);
  }

  lemma {:induction false} SomeDropped(cards: seq<string>, at: nat, k: nat)
    requires k < |cards| && Describes(cards[k], at + 1)
    ensures |Dropped(cards, at)| < |cards|
  {
    hide ColumnOf;
    if k > 0 {
      SomeDropped(cards[1..], at, k - 1);
    } else {
      NoMoreKept(cards[1..], at);
    }
  }

  lemma {:induction false} NoMoreKept(cards: seq<string>, at: nat)
    ensures |Dropped(cards, at)| <= |cards|
  {
    hide ColumnOf;
    if cards != [] {
      NoMoreKept(cards[1..], at);
    }
  }

  // ----- the thousandth column -----

  lemma {:induction false} DigitsBelow(s: string)
    ensures DigitsValue(s).Some? ==> DigitsValue(s).value < TenTo(|s|)
  {
    if s != [] {
      DigitsBelow(s[..|s| - 1]);
    }
  }

  lemma LongDecimal(n: nat)
    requires n >= 1000
    ensures |Decimal(n)| >= 4
  {
    assert Decimal(n) == Decimal(n / 10) + [DigitChar(n % 10)];
    assert Decimal(n / 10) == Decimal(n / 10 / 10) + [DigitChar(n / 10 % 10)];
    assert n / 10 / 10 >= 10;
    assert Decimal(n / 10 / 10) == Decimal(n / 10 / 10 / 10) + [DigitChar(n / 10 / 10 % 10)];
  }

  // Nothing stops an insertion into a table of 999 columns, and the cards it
  // renumbers to 1000 no longer name that column: their number runs past the
  // eight columns of a keyword.
  lemma KeywordNamesIff(prefix: string, n: nat, rest: string)
    requires prefix in PREFIXES && n >= 1
    ensures ColumnOf(PadTo(ColumnKey(prefix, n), 8) + rest) == Some(ColumnCard(prefix, n)) <==> n <= 999
  {
    if n <= 999 {
      KeywordNames(prefix, n, rest);
    } else {
      LongDecimal(n);
      PrefixInk(prefix);
      hide Decimal, DigitsValue, TrimEnd;
      var card := PadTo(ColumnKey(prefix, n), 8) + rest;
      assert card[..8] == prefix + Decimal(n)[..3];
      assert card[..8][5..] == Decimal(n)[..3];
      DigitsAreInk(n);
      assert Decimal(n)[2] in Decimal(n);
      InkAtEnd(card[..8]);
      DigitsBelow(Decimal(n)[..3]);
      assert TenTo(3) == 1000;
    }
  }

  lemma InkAtEnd(s: string)
    requires s != [] && s[|s| - 1] != ' '
    ensures TrimEnd(s) == s
  {
  }

  lemma {:induction false} LongKeyReadsNothing(cards: seq<string>, key: string)
    requires |key| > 8
    ensures KeywordValue(cards, key) == None
  {
    forall k | 0 <= k < |cards| ensures ReadKeyword(cards[k], key) == Pass {
      if |cards[k]| >= 9 {
        TrimIsShorter(cards[k][..8]);
      }
    }
    NoHit(cards, key);
  }

  lemma TrimIsShorter(s: string)
    ensures |Trim(s)| <= |s|
  {
  }

  // An insertion does not need room for its column's number: cards that say
  // nothing about END and the counts only have to be put before END.
  lemma InsertionGoesThrough(cards: seq<string>, widths: seq<nat>, at: nat, width: nat, added: seq<string>, w: nat)
    requires Packed(cards, widths) && at <= |widths| && FitsI64(1 + Total(widths) + width) && FitsI64(w + width)
    requires Editable(cards)
    ensures CardsWithColumn(cards, at, width, added, |widths|, w).Some?
  {
    hide WithCounts, Packed, LastEnd, HasEnd, HasCard, IsRenumbered, Total;
    PackedColumns(cards, widths);
    RenumberingSucceeds(cards, widths, Opening(at, width));
    var moved := RenumberedAll(cards, Opening(at, width)).value;
    RenumberedSameKinds(cards, Opening(at, width), moved);
    EndIsFound(moved);
    var e := LastEnd(moved);
    MoreKeepsCounts(moved, added, e);
    CountsAccepted(moved[..e] + added + moved[e..], |widths| + 1, w + width);
  }

  lemma MoreKeepsCounts(cards: seq<string>, added: seq<string>, e: nat)
    requires e <= |cards| && HasCounts(cards)
    ensures HasCounts(cards[..e] + added + cards[e..])
  {
    hide HasKeyword;
    var all := cards[..e] + added + cards[e..];
    assert forall k :: 0 <= k < |cards| ==> cards[k] == all[if k < e then k else k + |added|];
  }

  // So nothing stops an insertion into a packed table of 999 columns, and then
  // its last column has no readable start: it has one if and only if there
  // were fewer.
  lemma LastColumnReadsIff(cards: seq<string>, widths: seq<nat>, at: nat, width: nat, added: seq<string>, w: nat)
    requires Packed(cards, widths) && at <= |widths| && FitsI64(1 + Total(widths) + width) && FitsI64(w + width)
    requires Editable(cards) && (|widths| < 999 ==> NewColumnCards(added, at, 1 + Before(widths, at)))
    ensures CardsWithColumn(cards, at, width, added, |widths|, w).Some?
    ensures var new_ := CardsWithColumn(cards, at, width, added, |widths|, w).value;
      KeywordValue(new_, ColumnKey("TBCOL", |widths| + 1)).Some? <==> |widths| < 999
  {
    hide CardsWithColumn, Packed, Editable, KeywordValue, ColumnKey, Before, Total, NewColumnCards;
    PackedColumns(cards, widths);
    if |widths| < 999 {
      InsertKeepsPacked(cards, widths, at, width, added, w);
      TakenOutAgain(widths, at, width);
      PackedReads(CardsWithColumn(cards, at, width, added, |widths|, w).value, WithColumn(widths, at, width), |widths|);
    } else {
      InsertionGoesThrough(cards, widths, at, width, added, w);
      ThousandIsLong();
      LongKeyReadsNothing(CardsWithColumn(cards, at, width, added, |widths|, w).value, ColumnKey("TBCOL", 1000));
    }
  }

  lemma ThousandIsLong()
    ensures |ColumnKey("TBCOL", 1000)| > 8
  {
    LongDecimal(1000);
    hide Decimal;
  }
}
