// Integer cards and the data size a header declares.
module CardNumbers {
  import opened FitsBytes
  import opened CardText

  const U64_MAX: nat := 0xFFFF_FFFF_FFFF_FFFF

  // ===== decimal text =====

  function DigitChar(d: nat): (r: char)
    requires d < 10
  {
    '0' + d as char
  }

  predicate IsDigit(c: char) {
    '0' <= c <= '9'
  }

  function DigitValue(c: char): (n: nat)
    requires IsDigit(c)
  {
    c as int - '0' as int
  }

  function Decimal(n: nat): (s: string)
    ensures s != [] && forall i :: 0 <= i < |s| ==> IsDigit(s[i])
  {
    if n < 10 then [DigitChar(n)] else Decimal(n / 10) + [DigitChar(n % 10)]
  }

  function IntText(v: int): (s: string)
    ensures s != [] && IsDigit(s[|s| - 1]) && forall i :: 0 <= i < |s| ==> s[i] != ' '
  {
    if v < 0 then "-" + Decimal(-v) else Decimal(v)
  }

  function DigitsValue(s: string): (r: Option<nat>) {
    if s == [] then Some(0)
    else if !IsDigit(s[|s| - 1]) then None
    else match DigitsValue(s[..|s| - 1])
      case None => None
      case Some(n) => Some(10 * n + DigitValue(s[|s| - 1]))
  }

  predicate FitsI64(v: int) {
    -0x8000_0000_0000_0000 <= v <= 0x7FFF_FFFF_FFFF_FFFF
  }

  // `parse::<i64>`
  function ParseInt(s: string): (value: Option<int>)
    ensures value.Some? ==> FitsI64(value.value)
  {
    var digits := if s != [] && (s[0] == '-' || s[0] == '+') then s[1..] else s;
    if digits == [] then None
    else match DigitsValue(digits)
      case None => None
      case Some(n) =>
        var v := if s[0] == '-' then -(n as int) else n as int;
        if FitsI64(v) then Some(v) else None
  }

  lemma {:induction false} DecimalReads(n: nat)
    ensures DigitsValue(Decimal(n)) == Some(n)
  {
    if n < 10 {
      assert Decimal(n)[..0] == [];
      assert DigitsValue([]) == Some(0);
    } else {
      DecimalReads(n / 10);
      assert Decimal(n)[..|Decimal(n)| - 1] == Decimal(n / 10);
    }
  }

  // A number prints and reads back, and nothing wider than 64 bits is read.
  lemma IntTextReadsIff(v: int)
    ensures ParseInt(IntText(v))
         == if -9_223_372_036_854_775_808 <= v <= 9_223_372_036_854_775_807 then Some(v) else None
  {
    DecimalReads(if v < 0 then -v else v);
    hide Decimal, DigitsValue;
    if v < 0 {
      assert IntText(v)[1..] == Decimal(-v);
    } else {
      assert IsDigit(IntText(v)[0]);
    }
  }

  lemma IntTextReads(v: int)
    requires FitsI64(v)
    ensures ParseInt(IntText(v)) == Some(v)
  {
    IntTextReadsIff(v);
  }

  function TenTo(k: nat): (p: nat) {
    if k == 0 then 1 else 10 * TenTo(k - 1)
  }

  lemma {:induction false} DecimalLength(n: nat, k: nat)
    requires n < TenTo(k) && k > 0
    ensures |Decimal(n)| <= k
  {
    if n >= 10 {
      DecimalLength(n / 10, k - 1);
    }
  }

  // No i64 is wider than the 20 columns of a card's number.
  lemma IntTextFits(v: int)
    requires FitsI64(v)
    ensures |IntText(v)| <= 20
  {
    assert TenTo(5) == 10_0000;
    assert TenTo(10) == 100_0000_0000;
    assert TenTo(15) == 1000_0000_0000_0000;
    assert TenTo(19) == 1000_0000_0000_0000_0000;
    DecimalLength(if v < 0 then -v else v, 19);
  }

  // ===== integer cards =====

  // card_int, before it is padded to a card: the number ends in column 30.
  function IntField(key: string, value: int): (text: string) {
    PadTo(key, 8) + "= " + (Spaces(Max(0, 20 - |IntText(value)|)) + IntText(value))
  }

  function CardInt(key: string, value: int, comment: string): (text: string) {
    PadToCard(IntField(key, value) + if comment == "" then "" else " / " + comment)
  }

  // `split_whitespace().next()`, empty when there is none.
  function FirstWord(s: string): (w: string)
    ensures |w| <= |s|
  {
    if s == [] then ""
    else if s[0] == ' ' then FirstWord(s[1..])
    else s[..Find(s, ' ')]
  }

  // `trim_end_matches` over quotes, blanks and slashes.
  function TrimMarks(s: string): (text: string) {
    if s != [] && s[|s| - 1] in {QUOTE, ' ', '/'} then TrimMarks(s[..|s| - 1]) else s
  }

  // What parse_keyword makes of one card.
  datatype KeywordRead = Pass | Hit(value: Option<int>)

  function ReadKeyword(card: string, key: string): (r: KeywordRead) {
    if |card| < 9 || Trim(card[..8]) != key || card[8] != '=' then Pass
    else
      var word := FirstWord(card[9..]);
      if word == "" then Pass else Hit(ParseInt(TrimMarks(word)))
  }

  // The value of the first card that has one.
  function KeywordValue(cards: seq<string>, key: string): (r: Option<int>) {
    if cards == [] then None
    else match ReadKeyword(cards[0], key)
      case Pass => KeywordValue(cards[1..], key)
      case Hit(value) => value
  }

  // parse_keyword
  method ParseKeyword(cards: seq<string>, key: string) returns (value: Option<int>)
    ensures value == KeywordValue(cards, key)
  {
    assert cards[0..] == cards;
    for k := 0 to |cards|
      invariant KeywordValue(cards[k..], key) == KeywordValue(cards, key)
    {
      assert cards[k..][1..] == cards[k + 1..];
      hide ReadKeyword;
      var read := ReadKeyword(cards[k], key);
      if read.Hit? {
        return read.value;
      }
    }
    value := None;
  }

  lemma {:induction false} FirstHit(cards: seq<string>, key: string, k: nat)
    requires k < |cards| && ReadKeyword(cards[k], key).Hit?
    requires forall j :: 0 <= j < k ==> ReadKeyword(cards[j], key) == Pass
    ensures KeywordValue(cards, key) == ReadKeyword(cards[k], key).value
  {
    hide ReadKeyword;
    if k > 0 {
      FirstHit(cards[1..], key, k - 1);
    }
  }

  lemma {:induction false} NoHit(cards: seq<string>, key: string)
    requires forall j :: 0 <= j < |cards| ==> ReadKeyword(cards[j], key) == Pass
    ensures KeywordValue(cards, key) == None
  {
    hide ReadKeyword;
    if cards != [] {
      NoHit(cards[1..], key);
    }
  }

  // A card that does not say anything about a keyword can be replaced by
  // another such.
  lemma {:induction false} SameReads(cards: seq<string>, k: nat, card: string, key: string)
    requires k < |cards| && ReadKeyword(cards[k], key) == Pass && ReadKeyword(card, key) == Pass
    ensures KeywordValue(cards[k := card], key) == KeywordValue(cards, key)
  {
    hide ReadKeyword;
    var new_ := cards[k := card];
    if k == 0 {
      assert new_[1..] == cards[1..];
    } else {
      assert new_[1..] == cards[1..][k - 1 := card];
      SameReads(cards[1..], k - 1, card, key);
    }
  }

  predicate IsKey(key: string) {
    1 <= |key| <= 8 && forall i :: 0 <= i < |key| ==> key[i] != ' '
  }

  lemma KeyField(key: string)
    requires IsKey(key)
    ensures Trim(PadTo(key, 8)) == key
  {
    TrimOf("", key, Spaces(8 - |key|));
    assert PadTo(key, 8) == "" + key + Spaces(8 - |key|);
  }

  lemma {:induction false} WordBehindBlanks(blanks: string, word: string, rest: string)
    requires Blank(blanks) && word != [] && (forall i :: 0 <= i < |word| ==> word[i] != ' ')
    requires rest == [] || rest[0] == ' '
    ensures FirstWord(blanks + (word + rest)) == word
  {
    var s := blanks + (word + rest);
    if blanks == [] {
      assert s == word + rest;
      WordEnds(word, rest);
      assert s[..|word|] == word;
    } else {
      assert s[1..] == blanks[1..] + (word + rest);
      WordBehindBlanks(blanks[1..], word, rest);
    }
  }

  lemma NoMarks(word: string)
    requires word != [] && IsDigit(word[|word| - 1])
    ensures TrimMarks(word) == word
  {
  }

  function IntGap(value: int): (text: string) {
    Spaces(Max(0, 20 - |IntText(value)|))
  }

  lemma FieldParts(key: string, value: int, rest: string)
    requires IsKey(key)
    ensures var card := IntField(key, value) + rest;
      && |card| >= 9 && card[..8] == PadTo(key, 8) && card[8] == '='
      && card[9..] == (" " + IntGap(value)) + (IntText(value) + rest)
  {
    hide IntText;
    var card := IntField(key, value) + rest;
    assert card == PadTo(key, 8) + ("= " + (IntGap(value) + IntText(value)) + rest);
  }

  // Any card whose first 30 columns are an integer field reads as its value.
  lemma FieldReads(key: string, value: int, rest: string)
    requires IsKey(key) && FitsI64(value) && (rest == [] || rest[0] == ' ')
    ensures ReadKeyword(IntField(key, value) + rest, key) == Hit(Some(value))
  {
    FieldParts(key, value, rest);
    KeyField(key);
    IntTextReads(value);
    NoMarks(IntText(value));
    hide IntText, Trim, FirstWord, TrimMarks, ParseInt, PadTo, IntField, IntGap;
    BlankGap(value);
    WordBehindBlanks(" " + IntGap(value), IntText(value), rest);
  }

  lemma BlankGap(value: int)
    ensures Blank(" " + IntGap(value))
  {
  }

  lemma OtherKeyPasses(key: string, value: int, rest: string, other: string)
    requires IsKey(key) && key != other
    ensures ReadKeyword(IntField(key, value) + rest, other) == Pass
  {
    KeyField(key);
    hide IntText, Trim, FirstWord, TrimMarks, ParseInt;
    var card := IntField(key, value) + rest;
    assert card[..8] == PadTo(key, 8);
  }

  // An integer card as it is kept in memory.
  function CardIntTrimmed(key: string, value: int, comment: string): (text: string) {
    TrimEnd(CardInt(key, value, comment))
  }

  // Padding and trimming leave the field and what follows it.
  lemma TrimmedField(key: string, value: int, comment: string) returns (rest: string)
    requires IsKey(key) && FitsI64(value)
    ensures CardIntTrimmed(key, value, comment) == IntField(key, value) + rest
    ensures rest == [] || rest[0] == ' '
  {
    IntTextFits(value);
    hide IntText;
    var field := IntField(key, value);
    var tail := if comment == "" then "" else " / " + comment;
    var card := CardInt(key, value, comment);
    assert |field| == 30 && field[29] != ' ';
    hide IntText, IntField;
    TrimEndCuts(card);
    assert card[..30] == field;
    InkStays(card, 30);
    rest := CardIntTrimmed(key, value, comment)[30..];
    assert CardIntTrimmed(key, value, comment)[..30] == card[..30];
    if rest != [] {
      assert rest[0] == card[30];
      assert card[30] == (field + tail + Spaces(80))[30];
    }
  }

  lemma IntCardReads(key: string, value: int, comment: string, other: string)
    requires IsKey(key) && FitsI64(value)
    ensures ReadKeyword(CardIntTrimmed(key, value, comment), other) == if other == key then Hit(Some(value)) else Pass
  {
    var rest := TrimmedField(key, value, comment);
    hide *;
    if other == key {
      FieldReads(key, value, rest);
    } else {
      OtherKeyPasses(key, value, rest, other);
    }
  }
}
