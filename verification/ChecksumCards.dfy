// Writing the CHECKSUM card of an HDU so that header and data together sum to
// all ones (FITS Standard 4.0, section 4.4.2.7).
module ChecksumCards {
  import opened FitsBytes
  import opened CardText
  import opened HeaderBlocks
  import opened Checksum
  import opened ChecksumStreaming
  import opened ChecksumEncoding
  import opened StringCardBuilders
  import opened StringRoundTrip

  // ===== replacing or inserting one managed card =====

  // The library compares the first |key| columns only, trimmed and upper-cased.
  predicate CardHasKey(card: string, key: string) {
    |card| >= |key| && UpperCase(Trim(card[..|key|])) == UpperCase(key)
  }

  function FirstWithKey(cards: seq<string>, key: string): (i: nat)
    ensures i <= |cards|
    ensures forall k :: 0 <= k < i ==> !CardHasKey(cards[k], key)
    ensures i < |cards| ==> CardHasKey(cards[i], key)
  {
    if cards == [] || CardHasKey(cards[0], key) then 0 else 1 + FirstWithKey(cards[1..], key)
  }

  lemma FirstIs(cards: seq<string>, key: string, i: nat)
    requires i <= |cards|
    requires forall k :: 0 <= k < i ==> !CardHasKey(cards[k], key)
    requires i < |cards| ==> CardHasKey(cards[i], key)
    ensures FirstWithKey(cards, key) == i
  {
    hide CardHasKey;
    var j := FirstWithKey(cards, key);
    assert i < |cards| ==> CardHasKey(cards[i], key);
    assert j < |cards| ==> CardHasKey(cards[j], key);
  }

  // The place a managed card goes to: over the old one, or before END.
  function PlaceFor(cards: seq<string>, key: string): (i: nat)
    ensures i <= |cards|
  {
    var i := FirstWithKey(cards, key);
    if i < |cards| then i else Max(|cards| - 1, 0)
  }

  function CardsAfter(cards: seq<string>, key: string): (r: seq<string>) {
    var i := FirstWithKey(cards, key);
    if i < |cards| then cards[i + 1..] else cards[PlaceFor(cards, key)..]
  }

  // The cards with one managed card in its place.
  function Placed(cards: seq<string>, key: string, card: string): (r: seq<string>) {
    cards[..PlaceFor(cards, key)] + [card] + CardsAfter(cards, key)
  }

  // What setting a card does: the first card with the key is replaced, or the
  // card goes right before the last one, END.
  predicate OneCardSet(cards: seq<string>, key: string, card: string, out: seq<string>) {
    && (cards == [] ==> out == [card])
    && (cards != [] && (forall k :: 0 <= k < |cards| ==> !CardHasKey(cards[k], key)) ==>
          out == cards[..|cards| - 1] + [card] + [cards[|cards| - 1]])
    && (forall i :: 0 <= i < |cards| && CardHasKey(cards[i], key)
                    && (forall k :: 0 <= k < i ==> !CardHasKey(cards[k], key)) ==>
          out == cards[i := card])
  }

  lemma PlacedIsOneCard(cards: seq<string>, key: string, card: string)
    ensures OneCardSet(cards, key, card, Placed(cards, key, card))
  {
    hide CardHasKey;
    var out := Placed(cards, key, card);
    if cards != [] && forall k :: 0 <= k < |cards| ==> !CardHasKey(cards[k], key) {
      FirstIs(cards, key, |cards|);
      assert cards[|cards| - 1..] == [cards[|cards| - 1]];
    }
    forall i | 0 <= i < |cards| && CardHasKey(cards[i], key)
               && (forall k :: 0 <= k < i ==> !CardHasKey(cards[k], key))
      ensures out == cards[i := card]
    {
      FirstIs(cards, key, i);
      ReplaceAt(cards, i, card);
    }
  }

  lemma EndStaysLast(cards: seq<string>, key: string, card: string, out: seq<string>)
    requires OneCardSet(cards, key, card, out)
    ensures cards != [] && cards[|cards| - 1] == "END" && |key| > 3 ==> out != [] && out[|out| - 1] == "END"
  {
    if cards != [] && cards[|cards| - 1] == "END" && |key| > 3 {
      assert !CardHasKey("END", key);
      hide CardHasKey;
      if FirstWithKey(cards, key) < |cards| {
        assert out == cards[FirstWithKey(cards, key) := card];
      }
    }
  }

  // A card has a key when its first columns spell it, in any letter case.
  lemma CardHasKeyIff(card: string, key: string)
    requires ManagedKey(key)
    ensures CardHasKey(card, key) <==> |card| >= |key| && SameLetters(card[..|key|], key)
  {
    if |card| >= |key| {
      var front := card[..|key|];
      TrimKeepsAll(front);
      if SameLetters(front, key) {
        assert StartsInk(front) && EndsInk(front);
        assert "" + front + "" == front;
        TrimOf("", front, "");
        hide Trim;
      }
    }
  }

  lemma TrimKeepsAll(s: string)
    ensures |Trim(s)| <= |s| && (|Trim(s)| == |s| ==> Trim(s) == s)
  {
    TrimEndCuts(TrimStart(s));
  }

  // A managed card is found again, so setting it twice is setting it once.
  lemma PlacedTwice(cards: seq<string>, key: string, card: string, card': string)
    requires CardHasKey(card, key)
    ensures Placed(Placed(cards, key, card), key, card') == Placed(cards, key, card')
  {
    hide CardHasKey;
    var p := PlaceFor(cards, key);
    var placed := Placed(cards, key, card);
    PlacedParts(cards, key, card);
    FirstIs(placed, key, p);
  }

  lemma PlacedParts(cards: seq<string>, key: string, card: string)
    ensures var p, placed := PlaceFor(cards, key), Placed(cards, key, card);
      && p < |placed| && placed[p] == card && placed[..p] == cards[..p] && placed[p + 1..] == CardsAfter(cards, key)
      && forall k :: 0 <= k < p ==> placed[k] == cards[k]
  {
    hide CardHasKey;
  }

  method SetOrInsertStringCard(cards: seq<string>, key: string, value: string, comment: string)
    returns (out: seq<string>)
    ensures out == Placed(cards, key, TrimEnd(CardString(key, value, comment)))
    ensures OneCardSet(cards, key, TrimEnd(CardString(key, value, comment)), out)
  {
    hide CardHasKey, CardString, TrimEnd, OneCardSet, Placed;
    var card := TrimEnd(CardString(key, value, comment));
    PlacedIsOneCard(cards, key, card);
    var i := FindCardWithKey(cards, key);
    PlacedAt(cards, key, card);
    if i < |cards| {
      out := cards[i := card];
    } else {
      var pos := if |cards| == 0 then 0 else |cards| - 1;
      out := cards[..pos] + [card] + cards[pos..];
    }
  }

  method FindCardWithKey(cards: seq<string>, key: string) returns (i: nat)
    ensures i == FirstWithKey(cards, key)
  {
    i := 0;
    while i < |cards| && !CardHasKey(cards[i], key)
      invariant i <= |cards|
      invariant forall k :: 0 <= k < i ==> !CardHasKey(cards[k], key)
    {
      i := i + 1;
    }
    hide CardHasKey;
    FirstIs(cards, key, i);
  }

  lemma PlacedAt(cards: seq<string>, key: string, card: string)
    ensures var i := FirstWithKey(cards, key);
      Placed(cards, key, card) == if i < |cards| then cards[i := card]
                                  else var pos := if |cards| == 0 then 0 else |cards| - 1;
                                       cards[..pos] + [card] + cards[pos..]
  {
    hide CardHasKey;
    if FirstWithKey(cards, key) < |cards| {
      ReplaceAt(cards, FirstWithKey(cards, key), card);
    }
  }

  lemma ReplaceAt(cards: seq<string>, i: nat, card: string)
    requires i < |cards|
    ensures cards[i := card] == cards[..i] + [card] + cards[i + 1..]
  {
  }

  // ===== one CHECKSUM card =====

  const PLACEHOLDER: string := "0000000000000000"
  const COMMENT: string := "HDU checksum"

  predicate ManagedKey(key: string) {
    1 <= |key| <= 8 && StartsInk(key) && EndsInk(key)
  }

  function Letters(ascii: seq<int>): (s: string)
    requires forall i :: 0 <= i < |ascii| ==> LetterOrDigit(ascii[i])
    ensures |s| == |ascii|
    ensures forall i :: 0 <= i < |s| ==> s[i] as int == ascii[i]
  {
    seq(|ascii|, i requires 0 <= i < |ascii| && LetterOrDigit(ascii[i]) => ascii[i] as char)
  }

  // The sixteen characters sit in columns 12 to 27, so their first character
  // is the last byte of a word.
  function ChecksumLine(key: string, value: string): (text: string) {
    FirstLead(key) + "'" + value + "'" + "   / HDU checksum"
  }

  predicate SixteenLetters(value: string) {
    |value| == 16 && forall i :: 0 <= i < 16 ==> LetterOrDigit(value[i] as int)
  }

  lemma ChecksumCardText(key: string, value: string)
    requires ManagedKey(key) && SixteenLetters(value)
    ensures |ChecksumLine(key, value)| == 45
    ensures TrimEnd(CardString(key, value, COMMENT)) == ChecksumLine(key, value)
    ensures CardBytes(TrimEnd(CardString(key, value, COMMENT))) == AsciiBytes(ChecksumLine(key, value) + Spaces(35))
  {
    var line := ChecksumLine(key, value);
    ChecksumCardPrints(key, value);
    assert line[44] == 'm';
    hide TrimEnd, CardString, ChecksumLine;
    TrimPadded(line);
    PadTrimmed(line);
  }

  lemma ChecksumCardPrints(key: string, value: string)
    requires ManagedKey(key) && SixteenLetters(value)
    ensures |ChecksumLine(key, value)| == 45
    ensures CardString(key, value, COMMENT) == PadToCard(ChecksumLine(key, value))
  {
    assert QUOTE !in value;
    NoQuotesToEscape(value);
    hide Escape;
    var head := FirstLead(key) + "'" + value + "'";
    assert |head| == 28;
    assert Spaces(3) == "   ";
    assert "   / HDU checksum" == "   " + "/ " + COMMENT;
    SeqAssoc(head, "   ", "/ ");
    SeqAssoc(head, "   " + "/ ", COMMENT);
  }

  // The card is found again under its key.
  lemma ChecksumCardHasKey(key: string, value: string)
    requires ManagedKey(key) && SixteenLetters(value)
    ensures CardHasKey(TrimEnd(CardString(key, value, COMMENT)), key)
  {
    ChecksumCardText(key, value);
    var line := ChecksumLine(key, value);
    hide CardString, TrimEnd;
    assert line[..|key|] == key;
    assert "" + key + "" == key;
    TrimOf("", key, "");
  }

  // ===== what a CHECKSUM card adds to the header sum =====

  // The 20 bytes of the card from column 9 on, which start on a word.
  function ValueBytes(asc: seq<byte>): (b: seq<byte>)
    requires |asc| == 16
    ensures |b| == 20
  {
    [61, 32, 39] + asc + [39]
  }

  // In columns 12 to 27 the rotated string puts each byte of its value in the
  // right place of a word.
  lemma ValueBytesSum(ascii: seq<byte>)
    requires |ascii| == 16
    ensures var asc := Unrotate(ascii);
      && UpperSum(ValueBytes(ascii)) == 15648 + 256 * Column(asc, 0) + Column(asc, 1)
      && LowerSum(ValueBytes(ascii)) == 10023 + 256 * Column(asc, 2) + Column(asc, 3)
  {
    var b := ValueBytes(ascii);
    FiveWords(b);
    hide UpperSum, LowerSum;
    var asc := Unrotate(ascii);
    assert forall k :: 0 <= k < 15 ==> asc[k] == ascii[k + 1];
    assert asc[15] == ascii[0];
    assert forall k :: 0 <= k < 16 ==> b[k + 3] == ascii[k];
  }

  lemma FiveWords(b: seq<byte>)
    requires |b| == 20
    ensures UpperSum(b)
         == Half(b[0], b[1]) + Half(b[4], b[5]) + Half(b[8], b[9]) + Half(b[12], b[13]) + Half(b[16], b[17])
    ensures LowerSum(b)
         == Half(b[2], b[3]) + Half(b[6], b[7]) + Half(b[10], b[11]) + Half(b[14], b[15]) + Half(b[18], b[19])
  {
    assert b[..0] == [] && b[..20] == b;
    assert UpperSum([]) == 0 && LowerSum([]) == 0;
    hide UpperSum, LowerSum, Half;
    NextWord(b, 0);
    NextWord(b, 4);
    NextWord(b, 8);
    NextWord(b, 12);
    NextWord(b, 16);
  }

  lemma SumOfEncoded(ascii: seq<byte>, zeros: seq<byte>, value: u32)
    requires |ascii| == |zeros| == 16 && Encodes(ascii, value)
    requires forall k :: 0 <= k < 16 ==> zeros[k] == 0x30
    ensures WordSum(ValueBytes(ascii)) == WordSum(ValueBytes(zeros)) + value
    ensures WordSum(ValueBytes(zeros)) > 0
  {
    ValueBytesSum(ascii);
    ValueBytesSum(zeros);
    var zero := Unrotate(zeros);
    assert forall k :: 0 <= k < 16 ==> zero[k] == 0x30;
    assert forall ii :: 0 <= ii < 4 ==> Column(Unrotate(ascii), ii) == ByteOf(value, ii) as int + 4 * 0x30;
    BytesMakeValue(value);
  }

  lemma ChecksumCardBytes(key: string, value: string)
    requires ManagedKey(key) && SixteenLetters(value)
    ensures CardBytes(TrimEnd(CardString(key, value, COMMENT)))
         == AsciiBytes(PadTo(key, 8)) + ValueBytes(AsciiBytes(value)) + AsciiBytes("   / HDU checksum" + Spaces(35))
  {
    ChecksumCardText(key, value);
    hide CardString, PadTo, ManagedKey, SixteenLetters;
    var line := ChecksumLine(key, value) + Spaces(35);
    assert "= " + "'" + value + "'" == ['=', ' ', QUOTE] + value + [QUOTE];
    assert line == PadTo(key, 8) + (['=', ' ', QUOTE] + value + [QUOTE]) + ("   / HDU checksum" + Spaces(35));
    AsciiConcat(PadTo(key, 8) + (['=', ' ', QUOTE] + value + [QUOTE]), "   / HDU checksum" + Spaces(35));
    AsciiConcat(PadTo(key, 8), ['=', ' ', QUOTE] + value + [QUOTE]);
    AsciiConcat(['=', ' ', QUOTE] + value, [QUOTE]);
    AsciiConcat(['=', ' ', QUOTE], value);
  }

  lemma AsciiConcat(a: string, b: string)
    ensures AsciiBytes(a + b) == AsciiBytes(a) + AsciiBytes(b)
  {
  }

  lemma ChecksumCardSum(key: string, value: string)
    requires ManagedKey(key) && SixteenLetters(value)
    ensures WordSum(CardBytes(TrimEnd(CardString(key, value, COMMENT))))
         == WordSum(AsciiBytes(PadTo(key, 8))) + WordSum(ValueBytes(AsciiBytes(value)))
            + WordSum(AsciiBytes("   / HDU checksum" + Spaces(35)))
  {
    ChecksumCardBytes(key, value);
    hide WordSum, CardBytes, AsciiBytes, ValueBytes, PadTo, CardString, TrimEnd;
    WordSumSplits(AsciiBytes(PadTo(key, 8)), ValueBytes(AsciiBytes(value)));
    WordSumSplits(AsciiBytes(PadTo(key, 8)) + ValueBytes(AsciiBytes(value)),
                  AsciiBytes("   / HDU checksum" + Spaces(35)));
  }

  // Only the changed card changes the header sum.
  function SumOfOthers(before: seq<string>, after: seq<string>): (n: nat) {
    WordSum(CardsBytes(before)) + WordSum(CardsBytes(after))
    + WordSum(Repeat(BLANK_BYTE,
                     2880 * DivCeil(|before| + 1 + |after|, CARDS_PER_BLOCK) - 80 * (|before| + 1 + |after|)))
  }

  lemma HeaderSum(cards: seq<string>, key: string, card: string)
    ensures WordSum(HeaderBytes(Placed(cards, key, card)))
         == SumOfOthers(cards[..PlaceFor(cards, key)], CardsAfter(cards, key)) + WordSum(CardBytes(card))
  {
    hide PlaceFor, CardsAfter;
    SumAround(cards[..PlaceFor(cards, key)], card, CardsAfter(cards, key));
  }

  lemma SumAround(before: seq<string>, card: string, after: seq<string>)
    ensures WordSum(HeaderBytes(before + [card] + after)) == SumOfOthers(before, after) + WordSum(CardBytes(card))
  {
    CardsAround(before, card, after);
    hide WordSum, CardBytes, CardsBytes, DivCeil;
    var cards := before + [card] + after;
    assert |cards| == |before| + 1 + |after|;
    var pad := Repeat(BLANK_BYTE, 2880 * BlocksFor(cards) - 80 * |cards|);
    WholeWords(|before|);
    WholeWords(|after|);
    SumOfFour(CardsBytes(before), CardBytes(card), CardsBytes(after), pad);
  }

  // Cards are made of whole words.
  lemma WholeWords(n: nat)
    ensures 80 * n % 4 == 0
  {
  }

  lemma WordsAdd(m: nat, n: nat)
    requires m % 4 == 0 && n % 4 == 0
    ensures (m + n) % 4 == 0
  {
  }

  lemma SumOfFour(a: seq<byte>, b: seq<byte>, c: seq<byte>, d: seq<byte>)
    requires |a| % 4 == 0 && |b| % 4 == 0 && |c| % 4 == 0
    ensures WordSum(a + b + c + d) == WordSum(a) + WordSum(b) + WordSum(c) + WordSum(d)
  {
    hide *;
    WordsAdd(|a|, |b|);
    WordsAdd(|a| + |b|, |c|);
    WordSumSplits(a, b);
    SumOfThree(a + b, c, d);
  }

  lemma SumOfThree(a: seq<byte>, b: seq<byte>, c: seq<byte>)
    requires |a| % 4 == 0 && |b| % 4 == 0 && (|a| + |b|) % 4 == 0
    ensures WordSum(a + b + c) == WordSum(a) + WordSum(b) + WordSum(c)
  {
    hide *;
    assert |a + b| == |a| + |b|;
    WordSumSplits(a, b);
    WordSumSplits(a + b, c);
  }

  // ===== the CHECKSUM keyword =====

  function BigEndian(b: u32): (bytes: seq<byte>) {
    [ByteOf(b, 0), ByteOf(b, 1), ByteOf(b, 2), ByteOf(b, 3)]
  }

  lemma BigEndianSum(b: u32)
    ensures WordSum(BigEndian(b)) == b
  {
    var w := BigEndian(b);
    assert w[..0] == [] && w[..4] == w;
    NextWord(w, 0);
    BytesMakeValue(b);
  }

  method OnesComplementAdd(a: u32, b: u32) returns (sum: u32)
    ensures sum == OnesSum(a + b)
  {
    hide WrappedChecksum, OnesSum, WordSum;
    sum := ComputeChecksum(a, BigEndian(b));
    ShortBuffersAreExact(a, BigEndian(b));
    BigEndianSum(b);
  }

  function ChecksumCard(key: string, value: string): (text: string) {
    TrimEnd(CardString(key, value, COMMENT))
  }

  // The header that the encoded sum is taken of.
  function PlaceholderHeader(cards: seq<string>, key: string): (bytes: seq<byte>) {
    HeaderBytes(Placed(cards, key, ChecksumCard(key, PLACEHOLDER)))
  }

  // With CHECKSUM in place the header and a data section of the given sum add
  // up to all ones -- for every card list, exactly when the header itself was
  // summed without a lasting wrap error.
  method CardsWithChecksum(cards: seq<string>, datasum: u32, key: string) returns (out: seq<string>)
    requires ManagedKey(key)
    ensures exists text ::
      && SixteenLetters(text) && out == Placed(cards, key, ChecksumCard(key, text))
      && OneCardSet(cards, key, ChecksumCard(key, text), out)
    ensures cards != [] && cards[|cards| - 1] == "END" && |key| > 3 ==> out != [] && out[|out| - 1] == "END"
    ensures (OnesSum(WordSum(HeaderBytes(out)) + datasum) == ALL_ONES)
       <==> (WrapError(0, PlaceholderHeader(cards, key)) % ALL_ONES == 0)
  {
    hide WrappedChecksum, OnesSum, WordSum, WrapError, HeaderBytes, CardString, TrimEnd, CardHasKey, Encodes;
    hide Placed, SixteenLetters, OneCardSet;
    var placed := SetOrInsertStringCard(cards, key, PLACEHOLDER, COMMENT);
    var header := SerializeHeader(placed);
    var hsum := ComputeChecksum(0, header);
    var total := OnesComplementAdd(hsum, datasum);
    var encoded := EncodeChecksum(total, true);
    var text := EncodedText(encoded, Complement(total));
    out := SetOrInsertStringCard(placed, key, text, COMMENT);
    PlaceholderIsPlain();
    ChecksumCardHasKey(key, PLACEHOLDER);
    PlacedTwice(cards, key, ChecksumCard(key, PLACEHOLDER), ChecksumCard(key, text));
    PlacedIsOneCard(cards, key, ChecksumCard(key, text));
    EndStaysLast(cards, key, ChecksumCard(key, text), out);
    EncodedHeaderSum(cards, key, text, Complement(total));
    AllOnesIff(header, hsum, datasum, total);
  }

  lemma PlaceholderIsPlain()
    ensures SixteenLetters(PLACEHOLDER) && |AsciiBytes(PLACEHOLDER)| == 16
    ensures forall k :: 0 <= k < 16 ==> AsciiBytes(PLACEHOLDER)[k] == 0x30
  {
  }

  method EncodedText(ascii: seq<int>, ghost value: u32) returns (text: string)
    requires Encodes(ascii, value)
    ensures SixteenLetters(text) && Encodes(AsciiBytes(text), value)
  {
    text := Letters(ascii);
    assert AsciiBytes(text) == ascii;
  }

  // What the header sums to without the sixteen characters.
  function SumWithoutValue(cards: seq<string>, key: string): (n: nat) {
    SumOfOthers(cards[..PlaceFor(cards, key)], CardsAfter(cards, key))
    + WordSum(AsciiBytes(PadTo(key, 8))) + WordSum(AsciiBytes("   / HDU checksum" + Spaces(35)))
  }

  lemma ValueInHeader(cards: seq<string>, key: string, text: string)
    requires ManagedKey(key) && SixteenLetters(text)
    ensures |AsciiBytes(text)| == 16
    ensures WordSum(HeaderBytes(Placed(cards, key, ChecksumCard(key, text))))
         == SumWithoutValue(cards, key) + WordSum(ValueBytes(AsciiBytes(text)))
  {
    assert |AsciiBytes(text)| == 16;
    hide WordSum, HeaderBytes, CardString, TrimEnd, Placed, AsciiBytes, ValueBytes, CardBytes, SumOfOthers;
    hide PlaceFor, CardsAfter;
    HeaderSum(cards, key, ChecksumCard(key, text));
    ChecksumCardSum(key, text);
  }

  // The encoded string adds exactly its value to the header sum.
  lemma EncodedHeaderSum(cards: seq<string>, key: string, text: string, value: u32)
    requires ManagedKey(key) && SixteenLetters(text) && Encodes(AsciiBytes(text), value)
    ensures WordSum(HeaderBytes(Placed(cards, key, ChecksumCard(key, text))))
         == WordSum(PlaceholderHeader(cards, key)) + value
    ensures WordSum(PlaceholderHeader(cards, key)) > 0
  {
    hide *;
    PlaceholderIsPlain();
    ValueInHeader(cards, key, PLACEHOLDER);
    ValueInHeader(cards, key, text);
    PlaceholderHeaderIs(cards, key);
    SumOfEncoded(AsciiBytes(text), AsciiBytes(PLACEHOLDER), value);
  }

  lemma PlaceholderHeaderIs(cards: seq<string>, key: string)
    ensures PlaceholderHeader(cards, key) == HeaderBytes(Placed(cards, key, ChecksumCard(key, PLACEHOLDER)))
  {
    hide HeaderBytes, Placed, ChecksumCard;
  }

  // The arithmetic of the convention, for a header h that is not all zeros.
  lemma AllOnesIff(h: seq<byte>, hsum: u32, datasum: u32, total: u32)
    requires WordSum(h) > 0
    requires hsum == WrappedChecksum(0, h) && total == OnesSum(hsum + datasum)
    ensures OnesSum(WordSum(h) + Complement(total) + datasum) == ALL_ONES <==> WrapError(0, h) % ALL_ONES == 0
  {
    WrappedTotal(0, h);
    var q1 := OnesSumDecomposes(65536 * WrappedUpper(0, h) + WrappedLower(0, h));
    var q2 := OnesSumDecomposes(hsum + datasum);
    var e := WrapError(0, h);
    var f := WordSum(h) + Complement(total) + datasum;
    hide OnesSum, WordSum, WrapError, WrappedUpper, WrappedLower;
    OnesSumEqual(f, ALL_ONES);
    assert OnesSum(ALL_ONES) == ALL_ONES by { AllOnesIsItself(); }
    assert hsum == WordSum(h) - e * WRAP - q1 * ALL_ONES;
    assert f - ALL_ONES == (q1 + q2 + e) * ALL_ONES + e;
    MultiplePlus(f - ALL_ONES, q1 + q2 + e, e);
  }

  lemma AllOnesIsItself()
    ensures OnesSum(ALL_ONES) == ALL_ONES
  {
  }

  lemma MultiplePlus(d: int, q: int, e: nat)
    requires d == q * ALL_ONES + e
    ensures d % ALL_ONES == 0 <==> e % ALL_ONES == 0
  {
    SameRemainder(-d, e, -q);
    if d % ALL_ONES == 0 { assert -d == (-(d / ALL_ONES)) * ALL_ONES; }
    if (-d) % ALL_ONES == 0 { assert d == (-((-d) / ALL_ONES)) * ALL_ONES; }
  }

  // ===== verification =====

  // The header sum seeds the running sum of the data section.
  method VerifyChecksum(cards: seq<string>, data: seq<byte>, chunk: nat) returns (ok: bool)
    requires chunk > 0
    ensures chunk % 4 == 0 && |data| % 4 == 0 ==>
      (ok <==> Chunked(WrappedChecksum(0, HeaderBytes(cards)), data, chunk) == ALL_ONES)
    ensures chunk <= SAFE_FEED ==>
      (ok <==> OnesSum(WrappedChecksum(0, HeaderBytes(cards)) + WordSum(data)) == ALL_ONES)
  {
    hide OnesSum, WordSum, WrappedChecksum, HeaderBytes, Chunked;
    var header := SerializeHeader(cards);
    var hsum := ComputeChecksum(0, header);
    var total := StreamDataSection(hsum, data, chunk);
    ok := total == ALL_ONES;
  }

  // For a header of at most 91 blocks and up to 16 GiB of data, the sum that
  // is compared is the true one exactly when no chunk of the data wraps.
  lemma VerifiesWhenNothingWraps(cards: seq<string>, data: seq<byte>, chunk: nat)
    requires chunk > 0 && chunk % 4 == 0 && |data| <= 0x3_FFFF_FFF8 && |HeaderBytes(cards)| <= 4 * 65536
    ensures var h := OnesSum(WordSum(HeaderBytes(cards)));
      && WrappedChecksum(0, HeaderBytes(cards)) == h
      && (NoChunkWraps(h, data, chunk)
          <==> Chunked(h, data, chunk) == OnesSum(WordSum(HeaderBytes(cards)) + WordSum(data)))
  {
    hide *;
    ShortBuffersAreExact(0, HeaderBytes(cards));
    var h := OnesSum(WordSum(HeaderBytes(cards)));
    StreamedSumCorrectIffNoChunkWraps(h, data, chunk);
    OnesSumAdds(WordSum(HeaderBytes(cards)), WordSum(data));
  }

  // A header of at most 91 blocks that was given its CHECKSUM passes, whatever
  // the cards and the data: only the sum of the data had to be known.
  lemma ChecksummedHduPasses(cards: seq<string>, key: string, out: seq<string>, data: seq<byte>)
    requires BlocksFor(Placed(cards, key, ChecksumCard(key, PLACEHOLDER))) <= 91
    requires (OnesSum(WordSum(HeaderBytes(out)) + OnesSum(WordSum(data))) == ALL_ONES)
        <==> (WrapError(0, PlaceholderHeader(cards, key)) % ALL_ONES == 0)
    ensures OnesSum(WordSum(HeaderBytes(out)) + WordSum(data)) == ALL_ONES
  {
    hide *;
    PlaceholderLength(cards, key);
    NoWrapRemainder();
    ShortBuffersAreExact(0, PlaceholderHeader(cards, key));
    OnesSumAdds(WordSum(data), WordSum(HeaderBytes(out)));
  }

  lemma PlaceholderLength(cards: seq<string>, key: string)
    requires BlocksFor(Placed(cards, key, ChecksumCard(key, PLACEHOLDER))) <= 91
    ensures |PlaceholderHeader(cards, key)| <= 4 * 65536
  {
    hide Placed, ChecksumCard, BlocksFor, CardsBytes;
  }

  lemma NoWrapRemainder()
    ensures 0 % ALL_ONES == 0
  {
  }
}
