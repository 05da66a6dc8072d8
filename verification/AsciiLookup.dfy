// What a look-up answers on the header of a new table: the names, formats and
// units its columns were given.
module AsciiLookups {
  import opened FitsBytes
  import opened CardText
  import opened CardNumbers
  import opened StringCards
  import opened StringCardBuilders
  import opened StringRoundTrip
  import opened HeaderKeys
  import opened HeaderEdit
  import opened CardReadings
  import opened AsciiCards
  import opened AsciiSchemas
  import opened AsciiBuilds

  predicate NotUnder(cards: seq<string>, key: string) {
    forall k :: 0 <= k < |cards| ==> FindKey(cards[k]) != Some(key)
  }

  // A keyword in capitals, as a card holds it and as it is looked up.
  predicate PlainWord(key: string) {
    IsKey(key) && PlainKey(key) && UserKey(key) && '=' !in key
  }

  lemma LedCardKey(card: string, key: string)
    requires Leads(card, key) && PlainWord(key)
    ensures FindKey(card) == Some(key)
  {
    hide FindKey, LookupKey, PadTo, UserKey;
    CardKeyIs(card, key);
    PlainLooksUp(key);
  }

  // Neither a CONTINUE card nor END starts like a column's card.
  lemma NoContinue(card: string)
    requires card != "" && card[0] != 'C' && card[0] != ' '
    ensures !IsContinue(card)
  {
    TrimEndCuts(card);
    InkStays(card, 1);
    hide TrimEnd;
    assert TrimEnd(card)[0] == card[0];
    assert "CONTINUE"[0] == 'C';
  }

  // A string that fits its card together with its comment.
  predicate ShortString(value: string, comment: string) {
    EndsInk(value) && |comment| <= 47 && |Escape(value)| <= LastPayload(comment)
  }

  // The first card under its key answers a look-up with its string.
  lemma StringLookup(a: seq<string>, b: seq<string>, key: string, value: string, comment: string)
    requires b != [] && b[0] == TrimEnd(CardString(key, value, comment)) && PlainWord(key) && NotUnder(a, key)
    requires ShortString(value, comment) && StartsInk(comment) && EndsInk(comment)
    requires |b| > 1 ==> !IsContinue(b[1])
    ensures Lookup(a + b, key) == Some(Entry(Text(value), comment))
  {
    var all := a + b;
    LedString(key, value, comment);
    assert all[|a|] == b[0] && (|b| > 1 ==> all[|a| + 1] == b[1]);
    hide CardString, TrimEnd, FindKey, ReadCard, QuotedField, ShownComment, IsContinue, Escape;
    forall j | 0 <= j < |a| ensures FindKey(all[j]) != Some(key) {
      assert all[j] == a[j];
    }
    FirstValue(all, key, |a|);
    StringReads(all, |a|, key, value, comment);
  }

  lemma LedString(key: string, value: string, comment: string)
    requires PlainWord(key)
    ensures FindKey(TrimEnd(CardString(key, value, comment))) == Some(key)
  {
    hide CardString, TrimEnd, FindKey, Leads;
    CardStringLeads(key, value, comment);
    TrimmedLeads(CardString(key, value, comment), key);
    LedCardKey(TrimEnd(CardString(key, value, comment)), key);
  }

  lemma StringReads(header: seq<string>, i: nat, key: string, value: string, comment: string)
    requires i < |header| && header[i] == TrimEnd(CardString(key, value, comment)) && PlainWord(key)
    requires ShortString(value, comment) && StartsInk(comment) && EndsInk(comment) && ChainEndsAt(header, i + 1)
    ensures ReadCard(header, i) == Some(Entry(Text(value), comment))
  {
    assert '=' !in PadTo(key, 8);
    assert FirstLead(key) == PadTo(key, 8) + "= ";
    hide Escape, QuotedField, CardString, ReadCard, PadTo, FirstLead, StartsInk;
    CardStringShows(key, value, comment);
    FillsBlank(value, comment);
    assert ShownComment(value, comment) == comment;
    var line := TrimEnd(CardString(key, value, comment));
    StaysTrimmed(line);
    hide TrimEnd;
    ReadSingle(header, i, PadTo(key, 8), value, ValueFill(value), StringGap(value, comment), comment);
  }

  // ----- the cards in front of a column -----

  lemma ColumnWord(prefix: string, n: nat)
    requires prefix in PREFIXES && 1 <= n <= 999
    ensures PlainWord(ColumnKey(prefix, n)) && ColumnKey(prefix, n)[0] == 'T'
  {
    AsciiCards.ShortKey(prefix, n);
    PrefixInk(prefix);
    hide Decimal;
    var key := ColumnKey(prefix, n);
    forall i | 0 <= i < |key| ensures key[i] != ' ' && !('a' <= key[i] <= 'z') && key[i] != '=' {
      if i >= 5 {
        assert key[i] == Decimal(n)[i - 5];
      } else {
        assert key[i] == prefix[i];
      }
    }
    assert key[0] == prefix[0] == 'T';
  }

  lemma ColumnKeysDiffer(p: string, m: nat, q: string, n: nat)
    requires |p| == |q| == 5
    ensures ColumnKey(p, m) == ColumnKey(q, n) <==> p == q && m == n
  {
    DecimalReads(m);
    DecimalReads(n);
    hide Decimal, DigitsValue;
    assert ColumnKey(p, m)[..5] == p && ColumnKey(q, n)[..5] == q;
    assert ColumnKey(p, m)[5..] == Decimal(m) && ColumnKey(q, n)[5..] == Decimal(n);
  }

  lemma KeptCardKey(col: NewColumn, n: nat, start: nat, k: nat)
    requires 1 <= n <= 999 && k < |ColumnCards(col, n, start)|
    ensures var card := TrimEnd(ColumnCards(col, n, start)[k]);
      FindKey(card) == Some(ColumnKey(PrefixAt(col, k), n)) && !IsContinue(card)
  {
    hide ColumnCards, TrimEnd, FindKey, ColumnKey, PrefixAt, PREFIXES, IsContinue;
    var card, key := TrimEnd(ColumnCards(col, n, start)[k]), ColumnKey(PrefixAt(col, k), n);
    ColumnCardLeads(col, n, start, k);
    TrimmedLeads(ColumnCards(col, n, start)[k], key);
    PrefixIsListed(col, k);
    ColumnWord(PrefixAt(col, k), n);
    LedCardKey(card, key);
    assert card[0] == card[..8][0] == key[0];
    NoContinue(card);
  }

  lemma OtherColumnNotUnder(cols: seq<NewColumn>, m: nat, prefix: string, n: nat)
    requires 1 <= m <= |cols| <= 999 && prefix in PREFIXES && m != n
    ensures NotUnder(KeptColumn(cols, m), ColumnKey(prefix, n))
  {
    hide ColumnCards, FindKey, ColumnKey, PrefixAt, PREFIXES, Before, IsContinue;
    var start: nat := 1 + Before(Widths(cols), m - 1);
    PrefixInk(prefix);
    forall k | 0 <= k < |KeptColumn(cols, m)|
      ensures FindKey(KeptColumn(cols, m)[k]) != Some(ColumnKey(prefix, n))
    {
      KeptCardKey(cols[m - 1], m, start, k);
      PrefixIsListed(cols[m - 1], k);
      PrefixInk(PrefixAt(cols[m - 1], k));
      ColumnKeysDiffer(PrefixAt(cols[m - 1], k), m, prefix, n);
    }
  }

  lemma {:induction false} EarlierNotUnder(cols: seq<NewColumn>, m: nat, prefix: string, n: nat)
    requires m < n && m <= |cols| <= 999 && prefix in PREFIXES
    ensures NotUnder(KeptColumns(cols, m), ColumnKey(prefix, n))
  {
    hide KeptColumn, FindKey, ColumnKey, PREFIXES, KeptColumns, NotUnder;
    if m > 0 {
      EarlierNotUnder(cols, m - 1, prefix, n);
      OtherColumnNotUnder(cols, m, prefix, n);
      OneMoreColumn(cols, m);
      NotUnderBoth(KeptColumns(cols, m - 1), KeptColumn(cols, m), ColumnKey(prefix, n));
    } else {
      NothingKept(cols, "");
      NothingUnder(ColumnKey(prefix, n));
    }
  }

  lemma NothingUnder(key: string)
    ensures NotUnder([], key)
  {
  }

  lemma NotUnderBoth(a: seq<string>, b: seq<string>, key: string)
    requires NotUnder(a, key) && NotUnder(b, key)
    ensures NotUnder(a + b, key)
  {
    hide FindKey;
    forall k | 0 <= k < |a + b| ensures FindKey((a + b)[k]) != Some(key) {
      assert (a + b)[k] == if k < |a| then a[k] else b[k - |a|];
    }
  }

  lemma HeadWord(k: nat)
    requires k < 8
    ensures PlainWord(HeadKey(k)) && (k > 0 ==> HeadKey(k)[0] != 'C')
    ensures k > 0 ==> HeadKey(k) != "XTENSION"
  {
  }

  lemma HeadNotUnder(w: nat, rows: nat, columns: nat, prefix: string, n: nat)
    requires prefix in PREFIXES && 1 <= n <= 999
    ensures NotUnder(TrimmedAll(HeadCards(w, rows, columns)), ColumnKey(prefix, n))
  {
    hide HeadCard, TrimEnd, FindKey, ColumnKey, HeadKey, Leads, PREFIXES;
    forall k | 0 <= k < 8
      ensures FindKey(TrimEnd(HeadCard(k, w, rows, columns))) != Some(ColumnKey(prefix, n))
    {
      HeadCardLeads(k, w, rows, columns);
      HeadWord(k);
      HeadKeysAreOther(k);
      LedCardKey(TrimEnd(HeadCard(k, w, rows, columns)), HeadKey(k));
      OtherKeyDiffers(HeadKey(k), prefix, n);
    }
  }

  lemma OtherKeyDiffers(key: string, prefix: string, n: nat)
    requires OtherKey(key) && prefix in PREFIXES
    ensures key != ColumnKey(prefix, n)
  {
    PrefixInk(prefix);
    hide Decimal;
    assert ColumnKey(prefix, n)[..5] == prefix && |ColumnKey(prefix, n)| > 5;
  }

  lemma NamesNotUnder(name: Option<string>, version: Option<int>, prefix: string, n: nat)
    requires prefix in PREFIXES
    ensures NotUnder(TrimmedAll(NameCards(name, version)), ColumnKey(prefix, n))
  {
    NameKeysAreOther();
    NameWords();
    hide CardString, CardInt, TrimEnd, FindKey, ColumnKey, Leads, PlainWord, OtherKey, PREFIXES;
    if name.Some? {
      NameCardLeads(name.value);
      OtherNotUnder(CardString("EXTNAME", name.value, "name of this HDU"), "EXTNAME", prefix, n);
    }
    if version.Some? {
      VersionCardLeads(version.value);
      OtherNotUnder(CardInt("EXTVER", version.value, "extension version"), "EXTVER", prefix, n);
    }
  }

  lemma NameWords()
    ensures PlainWord("EXTNAME") && PlainWord("EXTVER")
  {
  }

  lemma NameCardLeads(name: string)
    ensures Leads(CardString("EXTNAME", name, "name of this HDU"), "EXTNAME")
  {
    NameWords();
    hide CardString, Leads;
    CardStringLeads("EXTNAME", name, "name of this HDU");
  }

  lemma VersionCardLeads(version: int)
    ensures Leads(CardInt("EXTVER", version, "extension version"), "EXTVER")
  {
    NameWords();
    hide CardInt, Leads;
    CardIntLeads("EXTVER", version, "extension version");
  }

  lemma OtherNotUnder(card: string, key: string, prefix: string, n: nat)
    requires Leads(card, key) && PlainWord(key) && OtherKey(key) && prefix in PREFIXES
    ensures FindKey(TrimEnd(card)) != Some(ColumnKey(prefix, n))
  {
    hide *;
    TrimmedLeads(card, key);
    LedCardKey(TrimEnd(card), key);
    OtherKeyDiffers(key, prefix, n);
  }

  // The columns from m on start with a card that continues nothing.
  lemma {:induction false} ColumnsSplit(cols: seq<NewColumn>, m: nat, n: nat) returns (rest: seq<string>)
    requires m <= n <= |cols| <= 999
    ensures KeptColumns(cols, n) == KeptColumns(cols, m) + rest
    ensures rest != [] ==> !IsContinue(rest[0])
  {
    hide *;
    rest := [];
    if m < n {
      var front := ColumnsSplit(cols, m, n - 1);
      OneMoreColumn(cols, n);
      ColumnStarts(cols, n);
      rest := front + KeptColumn(cols, n);
      SeqAssoc(KeptColumns(cols, m), front, KeptColumn(cols, n));
    }
    assert KeptColumns(cols, m) + [] == KeptColumns(cols, m);
  }

  lemma ColumnStarts(cols: seq<NewColumn>, n: nat)
    requires 1 <= n <= |cols| <= 999
    ensures KeptColumn(cols, n) != [] && !IsContinue(KeptColumn(cols, n)[0])
  {
    var start: nat := 1 + Before(Widths(cols), n - 1);
    hide ColumnCards, FindKey, Before, IsContinue;
    SecondIsStart(cols[n - 1], n, start);
    KeptCardKey(cols[n - 1], n, start, 0);
  }

  lemma EndContinuesNothing()
    ensures !IsContinue("END")
  {
    NoContinue("END");
  }

  // What stands before column m and what stands behind it.
  lemma AroundColumn(cols: seq<NewColumn>, rows: nat, name: Option<string>, version: Option<int>, m: nat,
                     prefix: string)
    returns (front: seq<string>, back: seq<string>)
    requires 1 <= m <= |cols| <= 999 && prefix in PREFIXES
    ensures Kept(cols, rows, name, version) == front + (KeptColumn(cols, m) + back)
    ensures NotUnder(front, ColumnKey(prefix, m)) && back != [] && !IsContinue(back[0])
  {
    hide HeadCards, NameCards, KeptColumns, KeptColumn, NotUnder, ColumnKey, PREFIXES, NoColumns, Total, IsContinue;
    hide Kept, TrimmedAll;
    var head, names := KeptSplit(cols, rows, name, version);
    var rest := ColumnsSplit(cols, m, |cols|);
    OneMoreColumn(cols, m);
    EndContinuesNothing();
    var before := KeptColumns(cols, m - 1);
    front := head + (names + before);
    back := rest + ["END"];
    HeadNotUnder(Total(Widths(cols)), rows, |cols|, prefix, m);
    NamesNotUnder(name, version, prefix, m);
    EarlierNotUnder(cols, m - 1, prefix, m);
    NotUnderBoth(names, before, ColumnKey(prefix, m));
    NotUnderBoth(head, names + before, ColumnKey(prefix, m));
    Regrouped(head, names, before, KeptColumn(cols, m), rest);
  }

  lemma Regrouped(a: seq<string>, b: seq<string>, c: seq<string>, d: seq<string>, e: seq<string>)
    ensures a + (b + (((c + d) + e) + ["END"])) == (a + (b + c)) + (d + (e + ["END"]))
  {
  }

  lemma KeptSplit(cols: seq<NewColumn>, rows: nat, name: Option<string>, version: Option<int>)
    returns (head: seq<string>, names: seq<string>)
    ensures head == TrimmedAll(HeadCards(Total(Widths(cols)), rows, |cols|))
    ensures names == TrimmedAll(NameCards(name, version))
    ensures Kept(cols, rows, name, version) == head + (names + (KeptColumns(cols, |cols|) + ["END"]))
  {
    hide TrimmedAll, HeadCards, NameCards, AllColumnCards, PadToCard, Total;
    head := TrimmedAll(HeadCards(Total(Widths(cols)), rows, |cols|));
    names := TrimmedAll(NameCards(name, version));
    EndIsNoColumn();
    var columns, end := AllColumnCards(cols, |cols|), [PadToCard("END")];
    TrimmedParts(columns, end);
    TrimmedParts(NameCards(name, version), columns + end);
    TrimmedParts(HeadCards(Total(Widths(cols)), rows, |cols|), NameCards(name, version) + (columns + end));
  }

  lemma PrefixesDiffer(col: NewColumn, j: nat, k: nat, n: nat, start: nat)
    requires j < k < |ColumnCards(col, n, start)|
    ensures PrefixAt(col, j) != PrefixAt(col, k) && |PrefixAt(col, j)| == |PrefixAt(col, k)| == 5
  {
    hide CardString, CardInt, ColumnKey;
    assert "TTYPE"[1] == 'T' && "TBCOL"[1] == 'B' && "TFORM"[1] == 'F' && "TZERO"[1] == 'Z' && "TUNIT"[1] == 'U';
  }

  // The header around card k of column m.
  lemma AroundCard(cols: seq<NewColumn>, rows: nat, name: Option<string>, version: Option<int>, m: nat, k: nat)
    returns (a: seq<string>, b: seq<string>)
    requires 1 <= m <= |cols| <= 999 && k < |KeptColumn(cols, m)|
    ensures Kept(cols, rows, name, version) == a + b && b != [] && b[0] == KeptColumn(cols, m)[k]
    ensures NotUnder(a, ColumnKey(PrefixAt(cols[m - 1], k), m)) && (|b| > 1 ==> !IsContinue(b[1]))
  {
    hide *;
    var column, key := KeptColumn(cols, m), ColumnKey(PrefixAt(cols[m - 1], k), m);
    PrefixIsListed(cols[m - 1], k);
    var front, back := AroundColumn(cols, rows, name, version, m, PrefixAt(cols[m - 1], k));
    WithinColumn(cols, m, k);
    NotUnderBoth(front, column[..k], key);
    a, b := front + column[..k], column[k..] + back;
    CutColumn(front, column, back, k);
  }

  function ColumnStart(cols: seq<NewColumn>, m: nat): (start: nat)
    requires 1 <= m <= |cols|
  {
    1 + Before(Widths(cols), m - 1)
  }

  lemma KeptColumnIs(cols: seq<NewColumn>, m: nat)
    requires 1 <= m <= |cols|
    ensures KeptColumn(cols, m) == TrimmedAll(ColumnCards(cols[m - 1], m, ColumnStart(cols, m)))
  {
    hide ColumnCards, Before, TrimmedAll;
  }

  lemma WithinColumn(cols: seq<NewColumn>, m: nat, k: nat)
    requires 1 <= m <= |cols| <= 999 && k < |KeptColumn(cols, m)|
    ensures NotUnder(KeptColumn(cols, m)[..k], ColumnKey(PrefixAt(cols[m - 1], k), m))
    ensures k + 1 < |KeptColumn(cols, m)| ==> !IsContinue(KeptColumn(cols, m)[k + 1])
  {
    hide *;
    KeptColumnIs(cols, m);
    EarlierCards(cols[m - 1], m, ColumnStart(cols, m), k);
    if k + 1 < |KeptColumn(cols, m)| {
      KeptCardKey(cols[m - 1], m, ColumnStart(cols, m), k + 1);
    }
  }

  lemma CutColumn(front: seq<string>, column: seq<string>, back: seq<string>, k: nat)
    requires k < |column| && back != []
    ensures front + (column + back) == (front + column[..k]) + (column[k..] + back)
    ensures (column[k..] + back)[0] == column[k] && |column[k..] + back| > 1
    ensures (column[k..] + back)[1] == if k + 1 < |column| then column[k + 1] else back[0]
  {
  }

  // A string among column m's cards is what a look-up of its key answers.
  lemma ColumnStringLookup(cols: seq<NewColumn>, rows: nat, name: Option<string>, version: Option<int>, m: nat, k: nat,
                           value: string, comment: string)
    requires 1 <= m <= |cols| <= 999 && k < |KeptColumn(cols, m)|
    requires KeptColumn(cols, m)[k]
          == TrimEnd(CardString(ColumnKey(PrefixAt(cols[m - 1], k), m), value, comment))
    requires ShortString(value, comment) && StartsInk(comment) && EndsInk(comment)
    ensures Lookup(Kept(cols, rows, name, version), ColumnKey(PrefixAt(cols[m - 1], k), m))
         == Some(Entry(Text(value), comment))
  {
    hide *;
    PrefixIsListed(cols[m - 1], k);
    ColumnWord(PrefixAt(cols[m - 1], k), m);
    var a, b := AroundCard(cols, rows, name, version, m, k);
    StringLookup(a, b, ColumnKey(PrefixAt(cols[m - 1], k), m), value, comment);
  }

  lemma EarlierCards(col: NewColumn, n: nat, start: nat, k: nat)
    requires 1 <= n <= 999 && k < |ColumnCards(col, n, start)|
    ensures NotUnder(TrimmedAll(ColumnCards(col, n, start))[..k], ColumnKey(PrefixAt(col, k), n))
  {
    hide ColumnCards, TrimEnd, FindKey, ColumnKey, PrefixAt, IsContinue;
    forall j | 0 <= j < k
      ensures FindKey(TrimmedAll(ColumnCards(col, n, start))[..k][j]) != Some(ColumnKey(PrefixAt(col, k), n))
    {
      KeptCardKey(col, n, start, j);
      PrefixesDiffer(col, j, k, n, start);
      ColumnKeysDiffer(PrefixAt(col, j), n, PrefixAt(col, k), n);
    }
  }

  // A reader of a new table's header finds each column's name under TTYPEn,
  // its format under TFORMn and its unit under TUNITn.
  lemma BuiltColumnLookups(cols: seq<NewColumn>, rows: nat, name: Option<string>, version: Option<int>, m: nat)
    requires 1 <= m <= |cols| <= 999
    requires ShortString(cols[m - 1].name, "label for column")
    requires ShortString(cols[m - 1].format, "data format of column")
    requires cols[m - 1].unit.Some? ==> ShortString(cols[m - 1].unit.value, "physical unit of column")
    ensures var kept, col := Kept(cols, rows, name, version), cols[m - 1];
      && Lookup(kept, "TTYPE" + Decimal(m)) == Some(Entry(Text(col.name), "label for column"))
      && Lookup(kept, "TFORM" + Decimal(m)) == Some(Entry(Text(col.format), "data format of column"))
      && (col.unit.Some? ==>
            Lookup(kept, "TUNIT" + Decimal(m)) == Some(Entry(Text(col.unit.value), "physical unit of column")))
  {
    var col, u := cols[m - 1], if cols[m - 1].tzero.Some? then 4 else 3;
    ColumnCardsAre(cols, m);
    hide KeptColumn, Kept, Lookup, TrimEnd, CardString, Decimal, ShortString;
    ColumnStringLookup(cols, rows, name, version, m, 0, col.name, "label for column");
    ColumnStringLookup(cols, rows, name, version, m, 2, col.format, "data format of column");
    if col.unit.Some? {
      ColumnStringLookup(cols, rows, name, version, m, u, col.unit.value, "physical unit of column");
    }
  }

  lemma ColumnCardsAre(cols: seq<NewColumn>, m: nat)
    requires 1 <= m <= |cols|
    ensures var col, cards := cols[m - 1], KeptColumn(cols, m);
      && |cards| >= 3 && cards[0] == TrimEnd(CardString(ColumnKey("TTYPE", m), col.name, "label for column"))
      && cards[2] == TrimEnd(CardString(ColumnKey("TFORM", m), col.format, "data format of column"))
      && (col.unit.Some? ==>
            var u := if col.tzero.Some? then 4 else 3;
            && u < |cards| && PrefixAt(col, u) == "TUNIT"
            && cards[u] == TrimEnd(CardString(ColumnKey("TUNIT", m), col.unit.value, "physical unit of column")))
  {
    hide TrimEnd, CardString, CardInt, ColumnKey, Before;
  }

  // ... and that it is an ASCII table.
  lemma BuiltKindLookup(cols: seq<NewColumn>, rows: nat, name: Option<string>, version: Option<int>)
    ensures Lookup(Kept(cols, rows, name, version), "XTENSION") == Some(Entry(Text("TABLE"), "ASCII table extension"))
  {
    var kept := Kept(cols, rows, name, version);
    TableFits();
    hide Kept, KeptColumns, TrimEnd, CardString, Total, Lookup, IsContinue, NameCards, ShortString, PlainWord;
    var head, names := KeptSplit(cols, rows, name, version);
    var w := Total(Widths(cols));
    FirstTwo(w, rows, |cols|);
    hide HeadCards;
    assert kept[0] == head[0] && kept[1] == head[1];
    assert [] + kept == kept;
    NothingUnder("XTENSION");
    StringLookup([], kept, "XTENSION", "TABLE", "ASCII table extension");
  }

  lemma TableFits()
    ensures ShortString("TABLE", "ASCII table extension") && PlainWord("XTENSION")
    ensures StartsInk("ASCII table extension") && EndsInk("ASCII table extension")
  {
    HeadWord(0);
    HeadKeyZero();
    hide PlainWord;
    NoQuotesToEscape("TABLE");
    hide Escape;
  }

  lemma FirstTwo(w: nat, rows: nat, columns: nat)
    ensures var head := TrimmedAll(HeadCards(w, rows, columns));
      && head[0] == TrimEnd(CardString("XTENSION", "TABLE", "ASCII table extension")) && !IsContinue(head[1])
  {
    hide TrimEnd, CardString, CardInt, IsContinue, Leads;
    var card := TrimEnd(HeadCard(1, w, rows, columns));
    HeadCardLeads(1, w, rows, columns);
    HeadWord(1);
    LeadsWith(card, HeadKey(1));
    NoContinue(card);
  }

  lemma LeadsWith(card: string, key: string)
    requires Leads(card, key) && IsKey(key)
    ensures card != "" && card[0] == key[0]
  {
    assert card[0] == card[..8][0];
  }
}
