// The per-column cards of an ASCII table when a column is inserted or
// deleted: indices renumbered, starting columns shifted, and what every
// reader of those cards then finds.
module AsciiCards {
  import opened FitsBytes
  import opened CardText
  import opened CardNumbers

  const PREFIXES: seq<string> := ["TTYPE", "TFORM", "TUNIT", "TZERO", "TSCAL", "TNULL", "TDISP", "TBCOL"]

  datatype ColumnCard = ColumnCard(prefix: string, n: nat)

  function ColumnKey(prefix: string, n: nat): (key: string) {
    prefix + Decimal(n)
  }

  // parse_per_column_card
  function ColumnOf(card: string): (column: Option<ColumnCard>) {
    if |card| < 8 then None
    else
      var keyword := TrimEnd(card[..8]);
      if |keyword| <= 5 || keyword[..5] !in PREFIXES then None
      else match DigitsValue(keyword[5..])
        case None => None
        case Some(n) => if n >= 1 then Some(ColumnCard(keyword[..5], n)) else None
  }

  // rebuild_per_column_card
  function RebuiltCard(card: string, prefix: string, n: nat): (rebuilt: string) {
    PadTo(ColumnKey(prefix, n), 8) + if |card| <= 8 then "" else card[8..]
  }

  // shift_tbcol_value; a sum past the i64 range is taken for an error.
  function ShiftedStart(card: string, delta: int): (start: Option<int>) {
    if |card| < 30 then None
    else match ParseInt(Trim(card[10..30]))
      case None => None
      case Some(v) => if v + delta < 1 || !FitsI64(v + delta) then None else Some(v + delta)
  }

  const START_COMMENT := "starting column of field"

  // build_tbcol_card
  function StartCard(n: nat, start: int): (card: string) {
    CardIntTrimmed(ColumnKey("TBCOL", n), start, START_COMMENT)
  }

  // A column put in at, or taken out of, 0-based position `at`; the columns
  // behind it move by `shift` bytes.
  datatype Renumbering = Opening(at: nat, shift: nat) | Closing(at: nat, shift: nat)

  // The number column n has afterwards.
  function NewNumber(r: Renumbering, n: nat): (m: nat) {
    match r
    case Opening(at, _) => if n >= at + 1 then n + 1 else n
    case Closing(at, _) => if n > at + 1 then n - 1 else n
  }

  function Shift(r: Renumbering): (delta: int) {
    if r.Opening? then r.shift else -(r.shift as int)
  }

  // One card of renumber_and_shift_per_column_cards; None is its error.
  function Renumbered(card: string, r: Renumbering): (new_: Option<string>) {
    match ColumnOf(card)
    case None => Some(card)
    case Some(c) =>
      var m := NewNumber(r, c.n);
      if m == c.n then Some(card)
      else if c.prefix == "TBCOL" && r.shift != 0 then
        match ShiftedStart(card, Shift(r))
        case None => None
        case Some(start) => Some(StartCard(m, start))
      else Some(RebuiltCard(card, c.prefix, m))
  }

  // renumber_and_shift_per_column_cards
  method RenumberCards(cards: seq<string>, r: Renumbering) returns (new_: Option<seq<string>>)
    ensures new_ == RenumberedAll(cards, r)
  {
    hide Renumbered;
    var now := cards;
    for k := 0 to |cards|
      invariant |now| == |cards|
      invariant forall j :: 0 <= j < k ==> Renumbered(cards[j], r) == Some(now[j])
      invariant forall j :: k <= j < |cards| ==> now[j] == cards[j]
    {
      var card := Renumbered(now[k], r);
      if card.None? {
        return None;
      }
      now := now[k := card.value];
    }
    AllRenumbered(cards, r, now);
    new_ := Some(now);
  }

  lemma AllRenumbered(cards: seq<string>, r: Renumbering, new_: seq<string>)
    requires IsRenumbered(cards, r, new_)
    ensures RenumberedAll(cards, r) == Some(new_)
  {
    hide Renumbered;
    assert forall k :: 0 <= k < |cards| ==> Renumbered(cards[k], r).Some?;
    var all := RenumberedAll(cards, r);
    assert all.Some? && |all.value| == |new_|;
    assert all.value == new_;
  }

  function RenumberedAll(cards: seq<string>, r: Renumbering): (new_: Option<seq<string>>)
    ensures new_.Some? ==> IsRenumbered(cards, r, new_.value)
  {
    if forall k :: 0 <= k < |cards| ==> Renumbered(cards[k], r).Some?
    then Some(seq(|cards|,
                  k requires 0 <= k < |cards| && Renumbered(cards[k], r).Some? => Renumbered(cards[k], r).value))
    else None
  }

  predicate IsRenumbered(cards: seq<string>, r: Renumbering, new_: seq<string>) {
    |new_| == |cards| && forall k :: 0 <= k < |cards| ==> Renumbered(cards[k], r) == Some(new_[k])
  }

  // drop_per_column_cards
  function Dropped(cards: seq<string>, at: nat): (kept: seq<string>) {
    if cards == [] then []
    else
      var card, rest := cards[0], Dropped(cards[1..], at);
      match ColumnOf(card)
      case Some(c) => if c.n == at + 1 then rest else [card] + rest
      case None => [card] + rest
  }

  // ----- what readers find -----

  // What a card with this keyword says behind it.
  function Entry(card: string, key: string): (rest: seq<string>) {
    if |card| >= 8 && Trim(card[..8]) == key then [card[8..]] else []
  }

  // What the cards with this keyword say, in order.  Every reader of a keyword
  // takes its value from these.
  function Keyed(cards: seq<string>, key: string): (rests: seq<string>) {
    if cards == [] then []
    else Entry(cards[0], key) + Keyed(cards[1..], key)
  }

  lemma {:induction false} KeyedParts(a: seq<string>, b: seq<string>, key: string)
    ensures Keyed(a + b, key) == Keyed(a, key) + Keyed(b, key)
  {
    hide Entry;
    if a == [] {
      assert a + b == b;
    } else {
      assert (a + b)[1..] == a[1..] + b;
      KeyedParts(a[1..], b, key);
    }
  }

  lemma {:induction false} NoneKeyed(cards: seq<string>, key: string)
    requires forall k :: 0 <= k < |cards| ==> Entry(cards[k], key) == []
    ensures Keyed(cards, key) == []
  {
    hide Entry;
    if cards != [] {
      NoneKeyed(cards[1..], key);
    }
  }

  lemma {:induction false} SameEntries(cards: seq<string>, key: string, new_: seq<string>, newKey: string)
    requires |new_| == |cards|
    requires forall k :: 0 <= k < |cards| ==> Entry(new_[k], newKey) == Entry(cards[k], key)
    ensures Keyed(new_, newKey) == Keyed(cards, key)
  {
    hide Entry;
    if cards != [] {
      SameEntries(cards[1..], key, new_[1..], newKey);
    }
  }

  // The editor and the readers agree on which column a card describes: no
  // blank before the keyword, no leading zero in its number.
  predicate PlainKeyword(card: string) {
    |card| >= 8 ==>
      && (card[0] != ' ' || Blank(card[..8]))
      && (match ColumnOf(card)
          case Some(c) => TrimEnd(card[..8]) == ColumnKey(c.prefix, c.n)
          case None => true)
  }

  predicate PlainKeywords(cards: seq<string>) {
    forall k :: 0 <= k < |cards| ==> PlainKeyword(cards[k])
  }

  lemma DigitsAreInk(n: nat)
    ensures Decimal(n) != [] && ' ' !in Decimal(n)
  {
  }

  lemma ShortKey(prefix: string, n: nat)
    requires prefix in PREFIXES && n <= 999
    ensures IsKey(ColumnKey(prefix, n)) && |prefix| == 5
    ensures ColumnKey(prefix, n)[..5] == prefix && ColumnKey(prefix, n)[5..] == Decimal(n)
  {
    assert TenTo(3) == 1000;
    DecimalLength(n, 3);
    hide Decimal;
    PrefixInk(prefix);
    var key := ColumnKey(prefix, n);
    forall i | 0 <= i < |key| ensures key[i] != ' ' {
      if i >= 5 {
        assert key[i] == Decimal(n)[i - 5];
      }
    }
  }

  lemma PrefixInk(prefix: string)
    requires prefix in PREFIXES
    ensures |prefix| == 5 && ' ' !in prefix
  {
  }

  // A column's keyword at the front of a card names that column to the
  // editor and to the readers.
  lemma KeywordNames(prefix: string, n: nat, rest: string)
    requires prefix in PREFIXES && 1 <= n <= 999
    ensures var card := PadTo(ColumnKey(prefix, n), 8) + rest;
            && |card| >= 8 && card[..8] == PadTo(ColumnKey(prefix, n), 8) && card[8..] == rest
            && ColumnOf(card) == Some(ColumnCard(prefix, n))
            && Trim(card[..8]) == ColumnKey(prefix, n) && PlainKeyword(card)
  {
    ShortKey(prefix, n);
    DecimalReads(n);
    hide Decimal, DigitsValue, Trim, TrimEnd;
    var key := ColumnKey(prefix, n);
    var card := PadTo(key, 8) + rest;
    assert card[..8] == PadTo(key, 8) == key + Spaces(8 - |key|);
    KeyField(key);
    TrimEndDrops(key, Spaces(8 - |key|));
    InkEnd(key);
  }

  lemma InkEnd(key: string)
    requires IsKey(key)
    ensures TrimEnd(key) == key
  {
  }

  lemma ReadersAgree(card: string, prefix: string, n: nat)
    requires PlainKeyword(card) && prefix in PREFIXES && 1 <= n <= 999
    ensures Entry(card, ColumnKey(prefix, n))
         == if ColumnOf(card) == Some(ColumnCard(prefix, n)) then [card[8..]] else []
  {
    if |card| >= 8 {
      ShortKey(prefix, n);
      DecimalReads(n);
      KeywordOf(card);
      hide Decimal, DigitsValue, Trim, TrimEnd;
      var key := ColumnKey(prefix, n);
      if ColumnOf(card) == Some(ColumnCard(prefix, n)) {
        assert TrimEnd(card[..8]) == key;
      }
    }
  }

  // Only a blank field starts with a blank.
  lemma KeywordOf(card: string)
    requires PlainKeyword(card) && |card| >= 8
    ensures if Blank(card[..8]) then Trim(card[..8]) == TrimEnd(card[..8]) == ""
      else Trim(card[..8]) == TrimEnd(card[..8])
  {
    var field := card[..8];
    if Blank(field) {
      assert field == field + "" + "";
      TrimOf(field, "", "");
      assert field == "" + field;
      TrimEndDrops("", field);
    } else {
      assert StartsInk(field);
    }
  }

  // The column a card describes, after the renumbering.
  function NewColumn(column: Option<ColumnCard>, r: Renumbering): (new_: Option<ColumnCard>) {
    if column.None? then None else Some(ColumnCard(column.value.prefix, NewNumber(r, column.value.n)))
  }

  predicate Numbered(card: string, r: Renumbering) {
    match ColumnOf(card)
    case None => true
    case Some(c) => NewNumber(r, c.n) <= 999 && (r.Closing? ==> c.n != r.at + 1)
  }

  lemma ColumnShape(card: string)
    ensures ColumnOf(card).Some? ==>
      |card| >= 8 && ColumnOf(card).value.prefix in PREFIXES && ColumnOf(card).value.n >= 1
  {
  }

  lemma RenumberedColumn(card: string, r: Renumbering)
    requires PlainKeyword(card) && Numbered(card, r) && Renumbered(card, r).Some?
    ensures PlainKeyword(Renumbered(card, r).value)
    ensures ColumnOf(Renumbered(card, r).value) == NewColumn(ColumnOf(card), r)
    ensures ColumnOf(card).Some? && !Restarted(card, r) ==> Renumbered(card, r).value[8..] == card[8..]
  {
    hide PlainKeyword, ShiftedStart, StartCard;
    ColumnShape(card);
    StartFits(card, Shift(r));
    var column := ColumnOf(card);
    if column.Some? && NewNumber(r, column.value.n) != column.value.n {
      var c, m := column.value, NewNumber(r, column.value.n);
      hide ColumnOf, ColumnKey;
      KeywordNames(c.prefix, m, if |card| <= 8 then "" else card[8..]);
      if Restarted(card, r) {
        StartCardNames(m, ShiftedStart(card, Shift(r)).value);
      } else if |card| == 8 {
        assert card[8..] == "";
      }
    }
  }

  lemma StartFits(card: string, delta: int)
    ensures ShiftedStart(card, delta).Some? ==> FitsI64(ShiftedStart(card, delta).value)
  {
  }

  // Cards whose value is rewritten: the starts of the columns that move.
  predicate Restarted(card: string, r: Renumbering) {
    match ColumnOf(card)
    case None => false
    case Some(c) => NewNumber(r, c.n) != c.n && c.prefix == "TBCOL" && r.shift != 0
  }

  // ----- starting columns -----

  // Behind the keyword stands this number, in the fixed format.
  function StartText(v: int): (text: string) {
    "= " + (IntGap(v) + IntText(v))
  }

  predicate SaysStart(rest: string, v: int) {
    && FitsI64(v) && |rest| >= 22 && rest[..22] == StartText(v)
    && (|rest| == 22 || rest[22] == ' ')
  }

  lemma StartCardNames(n: nat, start: int)
    requires 1 <= n <= 999 && FitsI64(start)
    ensures var card := StartCard(n, start);
            && |card| >= 8 && ColumnOf(card) == Some(ColumnCard("TBCOL", n)) && PlainKeyword(card)
            && SaysStart(card[8..], start)
  {
    ShortKey("TBCOL", n);
    IntCardShape(ColumnKey("TBCOL", n), start, START_COMMENT);
    hide ColumnOf, PlainKeyword, Trim, TrimEnd, ColumnKey, CardIntTrimmed, SaysStart;
    var key, card := ColumnKey("TBCOL", n), StartCard(n, start);
    assert card == PadTo(key, 8) + card[8..];
    KeywordNames("TBCOL", n, card[8..]);
  }

  lemma IntCardShape(key: string, value: int, comment: string)
    requires IsKey(key) && FitsI64(value)
    ensures var card := CardIntTrimmed(key, value, comment);
            |card| >= 8 && card[..8] == PadTo(key, 8) && SaysStart(card[8..], value)
  {
    var rest := TrimmedField(key, value, comment);
    IntTextFits(value);
    hide IntText, CardIntTrimmed;
    SeqAssoc(PadTo(key, 8), StartText(value), rest);
    assert CardIntTrimmed(key, value, comment)[8..] == StartText(value) + rest;
    assert |StartText(value)| == 22;
  }

  lemma StartReads(card: string, v: int, delta: int)
    requires |card| >= 8 && SaysStart(card[8..], v)
    ensures ShiftedStart(card, delta) == if v + delta < 1 || !FitsI64(v + delta) then None else Some(v + delta)
  {
    IntTextFits(v);
    IntTextReads(v);
    NumberTrims(v);
    hide IntText, ParseInt, Trim, IntGap;
    assert card[10..30] == card[8..][..22][2..] == StartText(v)[2..] == IntGap(v) + IntText(v);
  }

  lemma NumberTrims(v: int)
    ensures Trim(IntGap(v) + IntText(v)) == IntText(v)
  {
    assert IntGap(v) + IntText(v) + "" == IntGap(v) + IntText(v);
    TrimOf(IntGap(v), IntText(v), "");
  }

  // The readers' value of a keyword with one such card.
  lemma {:induction false} StartIsRead(cards: seq<string>, key: string, v: int)
    requires IsKey(key) && |Keyed(cards, key)| == 1 && SaysStart(Keyed(cards, key)[0], v)
    ensures KeywordValue(cards, key) == Some(v)
  {
    hide SaysStart, ReadKeyword, IsKey;
    var card := cards[0];
    if Entry(card, key) == [] {
      OtherPasses(card, key);
      StartIsRead(cards[1..], key, v);
    } else {
      CardIsRead(card, key, v);
    }
  }

  lemma OtherPasses(card: string, key: string)
    requires Entry(card, key) == []
    ensures ReadKeyword(card, key) == Pass
  {
    hide Trim, FirstWord, TrimMarks, ParseInt;
  }

  lemma CardIsRead(card: string, key: string, v: int)
    requires IsKey(key) && |Entry(card, key)| == 1 && SaysStart(Entry(card, key)[0], v)
    ensures ReadKeyword(card, key) == Hit(Some(v))
  {
    IntTextFits(v);
    IntTextReads(v);
    NoMarks(IntText(v));
    hide IntText, ParseInt, Trim, FirstWord, TrimMarks;
    var tail := card[30..];
    assert card[9..] == card[8..][1..];
    assert card[8..] == StartText(v) + tail;
    assert card[8] == card[8..][0] == '=';
    assert card[9..] == (" " + IntGap(v)) + (IntText(v) + tail);
    BlankGap(v);
    WordBehindBlanks(" " + IntGap(v), IntText(v), tail);
  }

  // ----- the cards as a whole -----

  predicate Renumberable(cards: seq<string>, r: Renumbering) {
    PlainKeywords(cards) && forall k :: 0 <= k < |cards| ==> Numbered(cards[k], r)
  }

  // Column n stays a column, and its new number still fits its keyword.
  predicate Keeps(r: Renumbering, n: nat) {
    1 <= n <= 999 && NewNumber(r, n) <= 999 && (r.Closing? ==> n != r.at + 1)
  }

  // Whether column n's cards of this kind get a new value.
  predicate Restarts(r: Renumbering, prefix: string, n: nat) {
    prefix == "TBCOL" && NewNumber(r, n) != n && r.shift != 0
  }

  lemma NewNumbersDiffer(r: Renumbering, m: nat, n: nat)
    requires r.Closing? ==> m != r.at + 1 && n != r.at + 1
    ensures NewNumber(r, m) == NewNumber(r, n) ==> m == n
    ensures r.Opening? ==> NewNumber(r, n) != r.at + 1
  {
  }

  lemma RenumberedEntry(card: string, r: Renumbering, prefix: string, n: nat)
    requires PlainKeyword(card) && Numbered(card, r) && Renumbered(card, r).Some?
    requires prefix in PREFIXES && Keeps(r, n)
    ensures !Restarts(r, prefix, n) ==>
      Entry(Renumbered(card, r).value, ColumnKey(prefix, NewNumber(r, n))) == Entry(card, ColumnKey(prefix, n))
    ensures Entry(card, ColumnKey(prefix, n)) == [] ==>
      Entry(Renumbered(card, r).value, ColumnKey(prefix, NewNumber(r, n))) == []
  {
    RenumberedColumn(card, r);
    ReadersAgree(card, prefix, n);
    ReadersAgree(Renumbered(card, r).value, prefix, NewNumber(r, n));
    if ColumnOf(card).Some? {
      NewNumbersDiffer(r, ColumnOf(card).value.n, n);
    }
    hide ColumnOf, PlainKeyword, Renumbered, Entry, ColumnKey, NewNumber;
  }

  lemma RestartedEntry(card: string, r: Renumbering, n: nat, v: int)
    requires PlainKeyword(card) && Numbered(card, r) && Renumbered(card, r).Some?
    requires Keeps(r, n) && Restarts(r, "TBCOL", n)
    requires |Entry(card, ColumnKey("TBCOL", n))| == 1 && SaysStart(Entry(card, ColumnKey("TBCOL", n))[0], v)
    ensures FitsI64(v + Shift(r)) && v + Shift(r) >= 1
    ensures var new_ := Entry(Renumbered(card, r).value, ColumnKey("TBCOL", NewNumber(r, n)));
            |new_| == 1 && SaysStart(new_[0], v + Shift(r))
  {
    ReadersAgree(card, "TBCOL", n);
    ColumnShape(card);
    StartReads(card, v, Shift(r));
    StartCardNames(NewNumber(r, n), ShiftedStart(card, Shift(r)).value);
    RenumberedColumn(card, r);
    ReadersAgree(Renumbered(card, r).value, "TBCOL", NewNumber(r, n));
  }

  // No card describes the column that is to be put in.
  lemma VacatedEntry(card: string, r: Renumbering, prefix: string)
    requires PlainKeyword(card) && Numbered(card, r) && Renumbered(card, r).Some?
    requires r.Opening? && prefix in PREFIXES && r.at + 1 <= 999
    ensures Entry(Renumbered(card, r).value, ColumnKey(prefix, r.at + 1)) == []
  {
    RenumberedColumn(card, r);
    ReadersAgree(Renumbered(card, r).value, prefix, r.at + 1);
    if ColumnOf(card).Some? {
      NewNumbersDiffer(r, ColumnOf(card).value.n, ColumnOf(card).value.n);
    }
    hide ColumnOf, PlainKeyword, Renumbered, Entry, ColumnKey, NewNumber;
  }

  lemma RenumberedAt(cards: seq<string>, r: Renumbering, new_: seq<string>, k: nat)
    requires Renumberable(cards, r) && IsRenumbered(cards, r, new_) && k < |cards|
    ensures k < |new_| && Renumbered(cards[k], r) == Some(new_[k])
    ensures PlainKeyword(cards[k]) && Numbered(cards[k], r)
  {
  }

  // Every kept column's cards are found under its new number, saying what
  // they said before.
  lemma RenumberedKeyed(cards: seq<string>, r: Renumbering, new_: seq<string>, prefix: string, n: nat)
    requires Renumberable(cards, r) && IsRenumbered(cards, r, new_)
    requires prefix in PREFIXES && Keeps(r, n) && !Restarts(r, prefix, n)
    ensures Keyed(new_, ColumnKey(prefix, NewNumber(r, n))) == Keyed(cards, ColumnKey(prefix, n))
  {
    hide *;
    RenumberedSize(cards, r, new_);
    forall k | 0 <= k < |cards|
      ensures Entry(new_[k], ColumnKey(prefix, NewNumber(r, n))) == Entry(cards[k], ColumnKey(prefix, n))
    {
      RenumberedAt(cards, r, new_, k);
      RenumberedEntry(cards[k], r, prefix, n);
    }
    SameEntries(cards, ColumnKey(prefix, n), new_, ColumnKey(prefix, NewNumber(r, n)));
  }

  lemma RenumberedSize(cards: seq<string>, r: Renumbering, new_: seq<string>)
    requires IsRenumbered(cards, r, new_)
    ensures |new_| == |cards|
  {
  }

  // A column that moves says where it now starts.
  lemma {:induction false} RestartedKeyed(cards: seq<string>, r: Renumbering, new_: seq<string>, n: nat, v: int)
    requires Renumberable(cards, r) && IsRenumbered(cards, r, new_)
    requires Keeps(r, n) && Restarts(r, "TBCOL", n)
    requires |Keyed(cards, ColumnKey("TBCOL", n))| == 1 && SaysStart(Keyed(cards, ColumnKey("TBCOL", n))[0], v)
    ensures FitsI64(v + Shift(r)) && v + Shift(r) >= 1
    ensures var key := ColumnKey("TBCOL", NewNumber(r, n));
            |Keyed(new_, key)| == 1 && SaysStart(Keyed(new_, key)[0], v + Shift(r))
  {
    hide *;
    var key, newKey := ColumnKey("TBCOL", n), ColumnKey("TBCOL", NewNumber(r, n));
    KeyedFront(cards, key);
    RenumberedSize(cards, r, new_);
    KeyedFront(new_, newKey);
    RenumberedAt(cards, r, new_, 0);
    RenumberedTail(cards, r, new_);
    PrefixListed();
    if Entry(cards[0], key) == [] {
      RenumberedEntry(cards[0], r, "TBCOL", n);
      RestartedKeyed(cards[1..], r, new_[1..], n, v);
    } else {
      RestartedEntry(cards[0], r, n, v);
      NoneElse(cards[1..], r, new_[1..], "TBCOL", n);
    }
  }

  lemma PrefixListed()
    ensures "TBCOL" in PREFIXES
  {
    assert PREFIXES[7] == "TBCOL";
  }

  lemma KeyedFront(cards: seq<string>, key: string)
    requires cards != [] || Keyed(cards, key) != []
    ensures cards != [] && Keyed(cards, key) == Entry(cards[0], key) + Keyed(cards[1..], key)
    ensures Entry(cards[0], key) != [] ==> |Entry(cards[0], key)| == 1
  {
  }

  lemma RenumberedTail(cards: seq<string>, r: Renumbering, new_: seq<string>)
    requires Renumberable(cards, r) && IsRenumbered(cards, r, new_) && cards != []
    ensures new_ != [] && Renumberable(cards[1..], r) && IsRenumbered(cards[1..], r, new_[1..])
  {
    hide PlainKeyword, Numbered, Renumbered;
  }

  lemma {:induction false} NoneElse(cards: seq<string>, r: Renumbering, new_: seq<string>, prefix: string, n: nat)
    requires Renumberable(cards, r) && IsRenumbered(cards, r, new_)
    requires prefix in PREFIXES && Keeps(r, n) && Keyed(cards, ColumnKey(prefix, n)) == []
    ensures Keyed(new_, ColumnKey(prefix, NewNumber(r, n))) == []
  {
    hide *;
    RenumberedSize(cards, r, new_);
    EmptyKeyed(cards, ColumnKey(prefix, n));
    forall k | 0 <= k < |new_|
      ensures Entry(new_[k], ColumnKey(prefix, NewNumber(r, n))) == []
    {
      RenumberedAt(cards, r, new_, k);
      RenumberedEntry(cards[k], r, prefix, n);
    }
    NoneKeyed(new_, ColumnKey(prefix, NewNumber(r, n)));
  }

  lemma {:induction false} EmptyKeyed(cards: seq<string>, key: string)
    requires Keyed(cards, key) == []
    ensures forall k :: 0 <= k < |cards| ==> Entry(cards[k], key) == []
  {
    hide Entry;
    if cards != [] {
      EmptyKeyed(cards[1..], key);
    }
  }

  lemma VacatedKeyed(cards: seq<string>, r: Renumbering, new_: seq<string>, prefix: string)
    requires Renumberable(cards, r) && IsRenumbered(cards, r, new_)
    requires r.Opening? && prefix in PREFIXES && r.at + 1 <= 999
    ensures Keyed(new_, ColumnKey(prefix, r.at + 1)) == []
  {
    hide *;
    RenumberedSize(cards, r, new_);
    forall k | 0 <= k < |new_|
      ensures Entry(new_[k], ColumnKey(prefix, r.at + 1)) == []
    {
      RenumberedAt(cards, r, new_, k);
      VacatedEntry(cards[k], r, prefix);
    }
    NoneKeyed(new_, ColumnKey(prefix, r.at + 1));
  }

  // Dropping a column's cards drops no others.
  lemma {:induction false} DroppedKeyed(cards: seq<string>, at: nat, prefix: string, n: nat)
    requires PlainKeywords(cards) && prefix in PREFIXES && 1 <= n <= 999 && n != at + 1
    ensures Keyed(Dropped(cards, at), ColumnKey(prefix, n)) == Keyed(cards, ColumnKey(prefix, n))
  {
    if cards != [] {
      DroppedKeyed(cards[1..], at, prefix, n);
      ReadersAgree(cards[0], prefix, n);
      hide ColumnOf, PlainKeyword, Entry, ColumnKey;
      assert ([cards[0]] + Dropped(cards[1..], at))[1..] == Dropped(cards[1..], at);
    }
  }

  lemma {:induction false} DroppedCard(cards: seq<string>, at: nat, k: nat) returns (j: nat)
    requires k < |Dropped(cards, at)|
    ensures j < |cards| && Dropped(cards, at)[k] == cards[j] && !Describes(cards[j], at + 1)
  {
    hide ColumnOf;
    if Describes(cards[0], at + 1) {
      j := DroppedCard(cards[1..], at, k);
      j := j + 1;
    } else if k == 0 {
      j := 0;
    } else {
      j := DroppedCard(cards[1..], at, k - 1);
      j := j + 1;
    }
  }

  predicate Describes(card: string, n: nat) {
    ColumnOf(card).Some? && ColumnOf(card).value.n == n
  }

  // ----- the other cards an edit touches -----

  predicate IsEnd(card: string) {
    |card| >= 3 && Trim(card[..3]) == "END"
  }

  // The last END card; past the end when there is none.
  function LastEnd(cards: seq<string>): (e: nat)
    ensures e <= |cards| && (e < |cards| ==> IsEnd(cards[e]))
    decreases |cards|
  {
    var n := |cards| - 1;
    if cards == [] then 0
    else if IsEnd(cards[n]) then n
    else
      var e := LastEnd(cards[..n]);
      if e == n then |cards| else e
  }

  function WithBeforeEnd(cards: seq<string>, added: seq<string>): (new_: Option<seq<string>>) {
    var e := LastEnd(cards);
    if e < |cards| then Some(cards[..e] + added + cards[e..]) else None
  }

  // insert_cards_before_end
  method InsertBeforeEnd(cards: seq<string>, added: seq<string>) returns (new_: Option<seq<string>>)
    ensures new_ == WithBeforeEnd(cards, added)
  {
    var k := |cards|;
    assert cards[..k] == cards;
    while k > 0
      invariant 0 <= k <= |cards|
      invariant LastEnd(cards) == if LastEnd(cards[..k]) == k then |cards| else LastEnd(cards[..k])
    {
      assert cards[..k][..k - 1] == cards[..k - 1];
      k := k - 1;
      if IsEnd(cards[k]) {
        return Some(cards[..k] + added + cards[k..]);
      }
    }
    new_ := None;
  }

  lemma InsertedKeyed(cards: seq<string>, added: seq<string>, e: nat, key: string)
    requires e <= |cards| && (Keyed(added, key) == [] || Keyed(cards, key) == [])
    ensures Keyed(cards[..e] + added + cards[e..], key) == Keyed(cards, key) + Keyed(added, key)
  {
    hide Keyed;
    KeyedParts(cards[..e] + added, cards[e..], key);
    KeyedParts(cards[..e], added, key);
    KeyedParts(cards[..e], cards[e..], key);
    assert cards[..e] + cards[e..] == cards;
  }

  predicate HasKeyword(card: string, keyword: string) {
    |card| >= 8 && TrimEnd(card[..8]) == keyword
  }

  function FirstWith(cards: seq<string>, keyword: string): (k: nat)
    ensures k <= |cards| && (k < |cards| ==> HasKeyword(cards[k], keyword))
    ensures forall j :: 0 <= j < k ==> !HasKeyword(cards[j], keyword)
  {
    if cards == [] || HasKeyword(cards[0], keyword) then 0 else 1 + FirstWith(cards[1..], keyword)
  }

  function WithCount(cards: seq<string>, keyword: string, value: int, comment: string): (new_: Option<seq<string>>) {
    var k := FirstWith(cards, keyword);
    if k < |cards| then Some(cards[k := CardIntTrimmed(keyword, value, comment)]) else None
  }

  // update_int_card
  method UpdateIntCard(cards: seq<string>, keyword: string, value: int, comment: string)
    returns (new_: Option<seq<string>>)
    ensures new_ == WithCount(cards, keyword, value, comment)
  {
    hide HasKeyword, CardIntTrimmed;
    for k := 0 to |cards|
      invariant forall j :: 0 <= j < k ==> !HasKeyword(cards[j], keyword)
    {
      if HasKeyword(cards[k], keyword) {
        return Some(cards[k := CardIntTrimmed(keyword, value, comment)]);
      }
    }
    new_ := None;
  }

  // The count cards: NAXIS1 and TFIELDS.
  predicate CountKey(keyword: string) {
    keyword == "NAXIS1" || keyword == "TFIELDS"
  }

  // Such a card is no column's.
  lemma CountIsNoColumn(card: string, keyword: string)
    requires CountKey(keyword) && HasKeyword(card, keyword) && PlainKeyword(card)
    ensures ColumnOf(card) == None && Entry(card, keyword) == [card[8..]]
  {
    KeywordOf(card);
    assert keyword[..5] == "NAXIS" || keyword[..5] == "TFIEL";
  }

  lemma CountCardIs(keyword: string, value: int, comment: string)
    requires CountKey(keyword) && FitsI64(value)
    ensures var card := CardIntTrimmed(keyword, value, comment);
            && HasKeyword(card, keyword) && PlainKeyword(card) && SaysStart(card[8..], value)
  {
    CountKeyIs(keyword);
    IntCardShape(keyword, value, comment);
    hide PlainKeyword, ColumnOf, Trim, TrimEnd, CardIntTrimmed, SaysStart, CountKey;
    var card := CardIntTrimmed(keyword, value, comment);
    assert card[..8] == keyword + Spaces(8 - |keyword|);
    TrimEndDrops(keyword, Spaces(8 - |keyword|));
    InkEnd(keyword);
    CountIsPlain(card, keyword);
  }

  lemma CountKeyIs(keyword: string)
    requires CountKey(keyword)
    ensures IsKey(keyword)
  {
  }

  lemma CountIsPlain(card: string, keyword: string)
    requires CountKey(keyword) && |card| >= 8 && TrimEnd(card[..8]) == keyword && keyword <= card
    ensures PlainKeyword(card)
  {
    assert keyword[..5] == "NAXIS" || keyword[..5] == "TFIEL";
    assert card[0] == keyword[0];
  }

  predicate NumberedTo(card: string, columns: nat) {
    ColumnOf(card).Some? ==> ColumnOf(card).value.n <= columns
  }

  predicate AllNumberedTo(cards: seq<string>, columns: nat) {
    forall k :: 0 <= k < |cards| ==> NumberedTo(cards[k], columns)
  }

  lemma UpdatedKeyed(cards: seq<string>, k: nat, card: string, key: string)
    requires k < |cards| && Entry(cards[k], key) == Entry(card, key)
    ensures Keyed(cards[k := card], key) == Keyed(cards, key)
  {
    hide Entry;
    SameEntries(cards, key, cards[k := card], key);
  }

  // Updating a count leaves every column's cards.
  lemma CountKeepsColumns(cards: seq<string>, keyword: string, value: int, comment: string, columns: nat,
                          prefix: string, n: nat)
    requires CountKey(keyword) && FitsI64(value) && WithCount(cards, keyword, value, comment).Some?
    requires PlainKeywords(cards) && AllNumberedTo(cards, columns) && prefix in PREFIXES && 1 <= n <= 999
    ensures var new_ := WithCount(cards, keyword, value, comment).value;
            && PlainKeywords(new_) && AllNumberedTo(new_, columns)
            && Keyed(new_, ColumnKey(prefix, n)) == Keyed(cards, ColumnKey(prefix, n))
  {
    var k, card := FirstWith(cards, keyword), CardIntTrimmed(keyword, value, comment);
    assert PlainKeyword(cards[k]);
    CountCardIs(keyword, value, comment);
    CountIsNoColumn(cards[k], keyword);
    CountIsNoColumn(card, keyword);
    ReadersAgree(cards[k], prefix, n);
    ReadersAgree(card, prefix, n);
    hide Entry, ColumnOf, PlainKeyword, HasKeyword, FirstWith, CardIntTrimmed, ColumnKey, Keyed;
    UpdatedKeyed(cards, k, card, ColumnKey(prefix, n));
  }

  // The readers find the new count.
  lemma CountIsRead(cards: seq<string>, keyword: string, value: int, comment: string)
    requires CountKey(keyword) && FitsI64(value) && WithCount(cards, keyword, value, comment).Some?
    requires PlainKeywords(cards)
    ensures KeywordValue(WithCount(cards, keyword, value, comment).value, keyword) == Some(value)
  {
    var k := FirstWith(cards, keyword);
    var new_ := WithCount(cards, keyword, value, comment).value;
    CountCardIs(keyword, value, comment);
    CountIsNoColumn(new_[k], keyword);
    CountKeyIs(keyword);
    CardIsRead(new_[k], keyword, value);
    hide ReadKeyword, CardIntTrimmed, PlainKeyword, HasKeyword, FirstWith;
    forall j | 0 <= j < k ensures ReadKeyword(new_[j], keyword) == Pass {
      NotTheCount(cards[j], keyword);
      OtherPasses(cards[j], keyword);
    }
    FirstHit(new_, keyword, k);
  }

  lemma NotTheCount(card: string, keyword: string)
    requires PlainKeyword(card) && !HasKeyword(card, keyword)
    ensures Entry(card, keyword) == []
  {
    if |card| >= 8 {
      KeywordOf(card);
    }
  }

  // The readers of one count do not see the other being renewed.
  lemma OtherCountStays(cards: seq<string>, keyword: string, value: int, comment: string, other: string)
    requires CountKey(keyword) && other != keyword && FitsI64(value) && PlainKeywords(cards)
    requires WithCount(cards, keyword, value, comment).Some?
    ensures KeywordValue(WithCount(cards, keyword, value, comment).value, other) == KeywordValue(cards, other)
  {
    var k, card := FirstWith(cards, keyword), CardIntTrimmed(keyword, value, comment);
    assert PlainKeyword(cards[k]);
    CountCardIs(keyword, value, comment);
    CountIsNoColumn(cards[k], keyword);
    CountIsNoColumn(card, keyword);
    OneKeyword(cards[k], keyword, other);
    OneKeyword(card, keyword, other);
    hide ReadKeyword, Entry, PlainKeyword, HasKeyword, FirstWith, CardIntTrimmed;
    SameReads(cards, k, card, other);
  }

  lemma OneKeyword(card: string, keyword: string, other: string)
    requires Entry(card, keyword) != [] && other != keyword
    ensures ReadKeyword(card, other) == Pass
  {
    hide Trim;
  }
}
