// A header that was given its CHECKSUM, printed and read back.
module ChecksumReadBacks {
  import opened FitsBytes
  import opened CardText
  import opened HeaderBlocks
  import opened LayoutModel
  import opened FileRuns
  import opened Reparse
  import opened ChecksumEncoding
  import opened ChecksumCards
  import opened StringCards
  import opened StringCardBuilders
  import opened CardReadings

  // A managed keyword: longer than END, printable, no `=`.
  predicate PrintableKey(key: string) {
    ManagedKey(key) && |key| > 3 && PrintableText(key) && '=' !in key
  }

  lemma LinePrints(key: string, text: string)
    requires PrintableKey(key) && SixteenLetters(text)
    ensures var card := ChecksumCard(key, text);
      PrintableText(card) && EndsInk(card) && |card| == 45 && card != END_CARD
  {
    ChecksumCardText(key, text);
    var line := ChecksumLine(key, text);
    hide CardString, TrimEnd;
    forall i | 0 <= i < |text| ensures ' ' <= text[i] <= '~' {
      assert LetterOrDigit(text[i] as int);
    }
    assert PrintableText(line) && line[44] == 'm';
  }

  // Where the card has gone: in front of END, or over the old one.
  lemma CardPlace(cards: seq<string>, key: string, card: string, out: seq<string>) returns (i: nat)
    requires WellFormedCards(cards) && PrintableKey(key) && OneCardSet(cards, key, card, out)
    ensures i + 1 < |out| && out[i] == card && out[|out| - 1] == END_CARD
    ensures forall j :: 0 <= j < |out| && j != i ==> out[j] in cards && (out[j] == END_CARD <==> j == |out| - 1)
  {
    hide CardHasKey, PrintableText, EndsInk;
    EndHasNoKey(key);
    i := FirstWithKey(cards, key);
    if i == |cards| {
      i := |cards| - 1;
      assert out == cards[..i] + [card] + [cards[i]];
    } else {
      assert out == cards[i := card];
    }
  }

  lemma EndHasNoKey(key: string)
    requires PrintableKey(key)
    ensures !CardHasKey(END_CARD, key)
  {
  }

  // The printed header gives back every card, the new one among them, and a
  // reader finds the sixteen characters under it.
  lemma ChecksumReadsBack(cards: seq<string>, key: string, text: string, out: seq<string>, lenient: bool)
    returns (i: nat)
    requires WellFormedCards(cards) && PrintableKey(key) && SixteenLetters(text)
    requires OneCardSet(cards, key, ChecksumCard(key, text), out)
    ensures out != [] && out[|out| - 1] == END_CARD
    ensures ReadHeaderFrom(HeaderBytes(out), 0, [], lenient) == HeaderCards(out)
    ensures i + 1 < |out| && out[i] == ChecksumCard(key, text)
    ensures ReadCard(out, i) == Some(Entry(Text(text), "HDU checksum"))
  {
    hide OneCardSet, ChecksumCard, ReadHeaderFrom, ReadCard, PrintableKey, SixteenLetters, HeaderImage;
    i := CardPlace(cards, key, ChecksumCard(key, text), out);
    LinePrints(key, text);
    StillWellFormed(cards, i, out);
    PrintedOnDisk(out);
    hide WellFormedCards, HeaderOnDisk, BlocksFor;
    HeaderReadsBack(HeaderBytes(out), Extent(0, BlocksFor(out), 2880 * BlocksFor(out)), out, lenient);
    LineReads(out, i, key, text);
  }

  lemma StillWellFormed(cards: seq<string>, i: nat, out: seq<string>)
    requires WellFormedCards(cards) && i + 1 < |out| && out[|out| - 1] == END_CARD
    requires PrintableText(out[i]) && EndsInk(out[i]) && |out[i]| <= CARD_SIZE && out[i] != END_CARD
    requires forall j :: 0 <= j < |out| && j != i ==> out[j] in cards && (out[j] == END_CARD <==> j == |out| - 1)
    ensures WellFormedCards(out)
  {
    hide PrintableText, EndsInk;
    forall j | 0 <= j < |out|
      ensures PrintableText(out[j]) && EndsInk(out[j]) && |out[j]| <= CARD_SIZE
    {
      if j != i {
        assert out[j] in cards;
      }
    }
  }

  lemma PrintedOnDisk(cards: seq<string>)
    ensures HeaderOnDisk(HeaderBytes(cards), Extent(0, BlocksFor(cards), 2880 * BlocksFor(cards)), cards)
  {
    HeaderFits(cards, BlocksFor(cards));
    hide BlocksFor, CardsBytes;
    var image := HeaderImage(cards, BlocksFor(cards));
    assert HeaderBytes(cards)[0..2880 * BlocksFor(cards)] == image;
  }

  lemma LineReads(header: seq<string>, i: nat, key: string, text: string)
    requires i < |header| && header[i] == ChecksumCard(key, text) && PrintableKey(key) && SixteenLetters(text)
    ensures ReadCard(header, i) == Some(Entry(Text(text), "HDU checksum"))
  {
    ChecksumCardText(key, text);
    PlainText(text);
    LineIsField(key, text);
    LineTrims(key, text);
    assert '=' !in PadTo(key, 8) && Blank("") && Blank("   ");
    hide CardString, TrimEnd, ChecksumLine, QuotedField, ReadCard, PadTo, Escape, CommentTail;
    QuotedCardReads(header, i, PadTo(key, 8), text, "", "   ", "HDU checksum");
  }

  lemma PlainText(text: string)
    requires SixteenLetters(text)
    ensures EndsInk(text) && !EndsWithAmp(text) && Escape(text) == text
  {
    assert LetterOrDigit(text[15] as int);
    assert QUOTE !in text;
    NoQuotesToEscape(text);
  }

  lemma LineIsField(key: string, text: string)
    requires Escape(text) == text
    ensures ChecksumLine(key, text)
         == PadTo(key, 8) + ("=" + (" " + QuotedField(text, "", "   " + CommentTail("HDU checksum"))))
  {
    hide Escape, PadTo;
    assert "   / HDU checksum" == "   " + ("/ " + "HDU checksum");
    assert "" + ("'" + "   / HDU checksum") == "'" + "   / HDU checksum";
  }

  lemma LineTrims(key: string, text: string)
    requires ManagedKey(key) && SixteenLetters(text)
    ensures TrimEnd(ChecksumLine(key, text)) == ChecksumLine(key, text)
  {
    ChecksumCardText(key, text);
    hide CardString, PadToCard;
    StaysTrimmed(ChecksumLine(key, text));
  }
}
