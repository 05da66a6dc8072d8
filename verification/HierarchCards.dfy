// String values under HIERARCH keys: the first card carries the long key and is
// never the last one, and a value that fits it gets an empty CONTINUE card.
module HierarchCards {
  import opened FitsBytes
  import opened CardText
  import opened StringCards
  import opened StringCardBuilders
  import opened StringRoundTrip

  const CONTINUE_LEAD: string := "CONTINUE  "

  function HierarchKey(key: string): (text: string) {
    "HIERARCH " + key + " "
  }

  function HierarchLead(key: string): (text: string) {
    HierarchKey(key) + "= "
  }

  // The unchained card.
  function HierarchSingle(key: string, value: string, comment: string): (text: string) {
    HierarchLead(key) + "'" + PadTo(Escape(value), 8) + "'" + CommentGap(comment) + CommentTail(comment)
  }

  // The first card has 65 - |key| columns for the string, too few for a leading
  // pair of quotes under a key of the full 64 characters.
  predicate FirstCardFits(key: string, value: string) {
    |key| < 64 || value == "" || value[0] != QUOTE
  }

  // All of the value is on the first card, or its end fits the last one.
  predicate TailFits(key: string, value: string, comment: string) {
    |Escape(value)| + |key| <= 65 || LastCardFits(value, comment)
  }

  ghost predicate HierarchBuilt(cards: seq<string>, key: string, value: string, comment: string) {
    if |HierarchSingle(key, value, comment)| <= CARD_SIZE then
      cards == [PadToCard(HierarchSingle(key, value, comment))]
    else if FirstCardFits(key, value) then
      Printed(cards, HierarchLead(key), value, if TailFits(key, value, comment) then Some(comment) else None)
    else
      && |cards| > 1 && cards[0] == PadToCard(OpenLine(HierarchLead(key), 0, [QUOTE]))
      && IsContinue(cards[1])
  }

  method BuildHierarchStringCards(key: string, value: string, comment: string) returns (r: Result<seq<string>>)
    ensures r.Err? <==> |HierarchSingle(key, value, comment)| > CARD_SIZE
                        && (value == "" || |key| >= 65 || |comment| >= 65)
    ensures r.Ok? ==> HierarchBuilt(r.value, key, value, comment)
    ensures r.Ok? && QUOTE !in value && |HierarchSingle(key, value, comment)| > CARD_SIZE ==>
      var n := Min(65 - |key|, |value|);
      r.value == [PlainOpen(HierarchLead(key), 0, value[..n])] + PlainChain(CONTINUE_LEAD, value[n..], comment)
  {
    hide Escape, Printed, OpenLine, PadToCard, EndsQuote, EndsInk, PlainChain;
    var single := HierarchSingle(key, value, comment);
    if |single| <= CARD_SIZE {
      return Ok([PadToCard(single)]);
    }
    if value == "" || |key| >= 65 || |comment| >= 65 {
      return Err("HIERARCH key, value or comment is too long");
    }
    var bytes := Escape(value);
    var want := Min(65 - |key|, |bytes|);
    assert bytes[0..] == bytes;
    EscapePlain(value);
    var pos;
    ghost var piece, tail;
    pos, piece, tail := TakePiece(bytes, 0, want, value);
    var line := OpenCard(HierarchLead(key), 0, bytes[0..pos], piece);
    FirstTake(key, value, bytes, want, pos, piece, tail);
    var rest := PrintTail(bytes, pos, comment, tail);
    TailEnds(piece, tail, value);
    if FirstCardFits(key, value) {
      PrependFirst(HierarchLead(key), piece, rest, tail, comment,
                   if TailFits(key, value, comment) then Some(comment) else None);
    } else {
      PrintedContinues(rest, tail, if tail == "" || LastCardFits(tail, comment) then Some(comment) else None);
    }
    return Ok([PadToCard(line)] + rest);
  }

  // Every card after the first one.
  method PrintTail(bytes: string, start: nat, comment: string, ghost tail: string) returns (cards: seq<string>)
    requires start <= |bytes| && bytes[start..] == Escape(tail) && |comment| < 65
    ensures Printed(cards, CONTINUE_LEAD, tail,
                    if tail == "" || LastCardFits(tail, comment) then Some(comment) else None)
    ensures QUOTE !in bytes ==> cards == PlainChain(CONTINUE_LEAD, bytes[start..], comment)
  {
    hide Escape, Printed, LastLine, PadToCard, EndsQuote;
    NothingToPrint(bytes, start, tail);
    if start == |bytes| {
      var line := LastCard(CONTINUE_LEAD, 0, "", comment, "");
      EmptyLast(comment);
      return [PadToCard(line)];
    }
    cards := PrintChain(CONTINUE_LEAD, bytes, start, comment, tail);
  }

  // The cards behind the first one are CONTINUE cards.
  lemma PrintedContinues(cards: seq<string>, tail: string, end: Option<string>)
    requires Printed(cards, CONTINUE_LEAD, tail, end)
    ensures cards != [] && IsContinue(cards[0])
  {
    hide Line, Flatten, EndsInk;
    var pieces :| pieces != [] && Flatten(pieces) == tail && IsChain(cards, CONTINUE_LEAD, pieces, end)
                  && (end.Some? && EndsInk(tail) ==> EndsInk(pieces[|pieces| - 1]));
    ContinueLine(pieces, end);
  }

  lemma ContinueLine(pieces: seq<string>, end: Option<string>)
    requires pieces != []
    ensures IsContinue(PadToCard(Line(CONTINUE_LEAD, pieces, end, 0)))
  {
    hide QuotedField;
    var card := PadToCard(Line(CONTINUE_LEAD, pieces, end, 0));
    assert card[..8] == "CONTINUE";
    TrimEndCuts(card);
    InkStays(card, 8);
    assert TrimEnd(card)[..8] == card[..8];
  }

  lemma NothingToPrint(bytes: string, start: nat, tail: string)
    requires start <= |bytes| && bytes[start..] == Escape(tail)
    ensures start == |bytes| <==> tail == ""
    ensures Escape("") == ""
  {
    if start == |bytes| { NoBytesNoText(tail); }
  }

  lemma EmptyLast(comment: string)
    requires |comment| < 65
    ensures Printed([PadToCard(LastLine(CONTINUE_LEAD, 0, "", comment))], CONTINUE_LEAD, "", Some(comment))
  {
    FlattenOne("");
    assert [""][0] == "";
    var cards := [PadToCard(LastLine(CONTINUE_LEAD, 0, "", comment))];
    PrintedField(CONTINUE_LEAD, "", "", CommentGap(comment) + CommentTail(comment));
    hide QuotedField;
    assert IsChain(cards, CONTINUE_LEAD, [""], Some(comment));
  }

  lemma FirstTake(key: string, value: string, bytes: string, want: nat, take: nat, piece: string, tail: string)
    requires bytes == Escape(value) && value != "" && |key| < 65 && want == Min(65 - |key|, |bytes|)
    requires value == piece + tail && piece != [] && |Escape(piece)| == take
    requires take <= want || (want == 1 && take == 2)
    requires take > want ==> value[0] == QUOTE
    requires value[0] == QUOTE && want == 1 < |bytes| ==> take == 2
    requires want == |bytes| ==> take == want
    ensures FirstCardFits(key, value) ==> take + |key| <= 65 && (tail == "" <==> |Escape(value)| + |key| <= 65)
    ensures !FirstCardFits(key, value) ==> piece == [QUOTE]
  {
    EscapeConcat(piece, tail);
    if tail != "" { assert |Escape(tail)| > 0; }
    if value[0] == QUOTE {
      assert |bytes| >= 2;
      assert Escape(piece) == EscapeChar(piece[0]) + Escape(piece[1..]);
      if take == 2 { NoBytesNoText(piece[1..]); }
    }
    EscapeNothing();
  }

  lemma TailEnds(piece: string, tail: string, value: string)
    requires value == piece + tail
    ensures tail != "" ==> EndsQuote(tail) == EndsQuote(value) && EndsInk(tail) == EndsInk(value)
  {
    if tail != "" {
      assert value[|value| - 1] == tail[|tail| - 1];
    }
  }

  // A first card in front of a printed tail.
  lemma PrependFirst(first: string, piece: string, cards: seq<string>, tail: string, comment: string,
                     end: Option<string>)
    requires Printed(cards, CONTINUE_LEAD, tail, end)
    requires |OpenLine(first, 0, piece)| <= CARD_SIZE
    requires tail != "" ==> EndsInk(tail) == EndsInk(piece + tail)
    ensures Printed([PadToCard(OpenLine(first, 0, piece))] + cards, first, piece + tail, end)
  {
    hide OpenLine, LastLine, PadToCard, EndsInk;
    var pieces :| pieces != [] && Flatten(pieces) == tail && IsChain(cards, CONTINUE_LEAD, pieces, end)
                  && (end.Some? && EndsInk(tail) ==> EndsInk(pieces[|pieces| - 1]));
    PrependLine(first, piece, cards, pieces, end);
    var all := [piece] + pieces;
    assert all[1..] == pieces;
    assert Flatten(all) == piece + tail;
    LastOfEmpty(pieces);
    assert all[|all| - 1] == pieces[|pieces| - 1];
  }

  lemma LastOfEmpty(pieces: seq<string>)
    requires pieces != []
    ensures Flatten(pieces) == "" ==> pieces[|pieces| - 1] == "" && EndsInk("")
  {
    if Flatten(pieces) == "" && |pieces| > 1 {
      assert pieces[0] == "" && Flatten(pieces[1..]) == "";
      LastOfEmpty(pieces[1..]);
      assert pieces[1..][|pieces| - 2] == pieces[|pieces| - 1];
    }
  }

  lemma PrependLine(first: string, piece: string, cards: seq<string>, pieces: seq<string>, end: Option<string>)
    requires IsChain(cards, CONTINUE_LEAD, pieces, end) && pieces != []
    requires |OpenLine(first, 0, piece)| <= CARD_SIZE
    ensures IsChain([PadToCard(OpenLine(first, 0, piece))] + cards, first, [piece] + pieces, end)
  {
    var all, printed := [piece] + pieces, [PadToCard(OpenLine(first, 0, piece))] + cards;
    forall k | 0 <= k < |all|
      ensures |Line(first, all, end, k)| <= CARD_SIZE && printed[k] == PadToCard(Line(first, all, end, k))
    {
      if k > 0 {
        assert all[k] == pieces[k - 1];
        assert Line(first, all, end, k) == Line(CONTINUE_LEAD, pieces, end, k - 1);
        assert printed[k] == cards[k - 1];
      }
    }
  }

  // ===== reading back =====

  // The round trip holds exactly when both ends of the value fit their cards.
  lemma HierarchRoundTrip(key: string, value: string, comment: string, cards: seq<string>, header: seq<string>, i: nat)
    requires '=' !in key && |key| <= 64
    requires EndsInk(value) && StartsInk(comment) && EndsInk(comment)
    requires HierarchBuilt(cards, key, value, comment)
    requires Holds(header, i, cards) && ChainEndsAt(header, i + |cards|)
    ensures i < |header|
    ensures ReadCard(header, i) == Some(Entry(Text(value), comment))
       <==> |HierarchSingle(key, value, comment)| <= CARD_SIZE
            || (FirstCardFits(key, value) && TailFits(key, value, comment))
  {
    hide HierarchBuilt, HierarchSingle, ReadCard, EndsInk, StartsInk, FirstCardFits, TailFits, Holds;
    HierarchReads(key, value, comment, cards, header, i);
    assert |value + "&"| == |value| + 1;
  }

  lemma HierarchReads(key: string, value: string, comment: string, cards: seq<string>, header: seq<string>, i: nat)
    requires '=' !in key && |key| <= 64
    requires EndsInk(value) && StartsInk(comment) && EndsInk(comment)
    requires HierarchBuilt(cards, key, value, comment)
    requires Holds(header, i, cards) && ChainEndsAt(header, i + |cards|)
    ensures i < |header|
    ensures ReadCard(header, i) == Some(
      if |HierarchSingle(key, value, comment)| <= CARD_SIZE then Entry(Text(value), comment)
      else if !FirstCardFits(key, value) then Entry(Bare([QUOTE, QUOTE, QUOTE, '&']), "")
      else if TailFits(key, value, comment) then Entry(Text(value), comment)
      else Entry(Text(value + "&"), ""))
  {
    hide Escape, QuotedField, ReadCard, TrimEnd, EndsInk, StartsInk, Printed, OpenLine, PadToCard;
    hide HierarchKey, HierarchSingle;
    if |HierarchSingle(key, value, comment)| <= CARD_SIZE {
      FirstHeld(header, i, cards);
      SingleReads(key, value, comment, header, i);
    } else if FirstCardFits(key, value) {
      hide Holds;
      KeyHasNoEquals(key);
      PrintedReads(HierarchKey(key), value, if TailFits(key, value, comment) then Some(comment) else None, cards,
                   header, i);
      assert value + "" == value;
    } else {
      FirstHeld(header, i, cards);
      CutFirstCard(key, header, i);
    }
  }

  lemma FirstHeld(header: seq<string>, i: nat, cards: seq<string>)
    requires Holds(header, i, cards) && cards != []
    ensures i < |header| && TrimEnd(header[i]) == TrimEnd(cards[0])
  {
    assert TrimEnd(header[i + 0]) == TrimEnd(cards[0]);
  }

  lemma KeyHasNoEquals(key: string)
    requires '=' !in key
    ensures '=' !in HierarchKey(key)
  {
  }

  lemma SingleReads(key: string, value: string, comment: string, header: seq<string>, i: nat)
    requires '=' !in key && i < |header|
    requires EndsInk(value) && StartsInk(comment) && EndsInk(comment)
    requires |HierarchSingle(key, value, comment)| <= CARD_SIZE
    requires TrimEnd(header[i]) == TrimEnd(PadToCard(HierarchSingle(key, value, comment)))
    requires ChainEndsAt(header, i + 1)
    ensures ReadCard(header, i) == Some(Entry(Text(value), comment))
  {
    SingleLine(HierarchLead(key), value, CommentGap(comment), comment);
    KeyHasNoEquals(key);
    GapBlank(value, comment);
    hide Escape, QuotedField, ReadCard, TrimEnd, EndsInk, StartsInk, PadToCard, HierarchKey, PadTo;
    TrimPadded(HierarchSingle(key, value, comment));
    TailEndsInk(HierarchLead(key), value, ValueFill(value), CommentGap(comment), comment);
    ReadSingle(header, i, HierarchKey(key), value, ValueFill(value), CommentGap(comment), comment);
  }

  lemma GapBlank(value: string, comment: string)
    ensures Blank(ValueFill(value)) && Blank(CommentGap(comment))
  {
  }

  // Column 81 held the closing quote: what is left is no string at all.
  lemma CutFirstCard(key: string, header: seq<string>, i: nat)
    requires |key| == 64 && '=' !in key && i < |header|
    requires TrimEnd(header[i]) == TrimEnd(PadToCard(OpenLine(HierarchLead(key), 0, [QUOTE])))
    ensures ReadCard(header, i) == Some(Entry(Bare([QUOTE, QUOTE, QUOTE, '&']), ""))
  {
    var field := [QUOTE, QUOTE, QUOTE, '&'];
    CutLine(key, field);
    KeyHasNoEquals(key);
    hide HierarchKey, OpenLine, PadToCard, TrimEnd, ReadCard;
    SplitCutField(" " + field);
    hide SplitValueComment, PadTo;
    ReadKeyed(header, i, HierarchKey(key), field);
  }

  lemma CutLine(key: string, field: string)
    requires |key| == 64 && field == [QUOTE, QUOTE, QUOTE, '&']
    ensures TrimEnd(PadToCard(OpenLine(HierarchLead(key), 0, [QUOTE]))) == HierarchKey(key) + "= " + field
  {
    OneQuote();
    var lead := HierarchLead(key);
    assert |lead| == 76;
    hide HierarchKey;
    assert QuotedField([QUOTE], "&", "") == field + [QUOTE];
    assert OpenLine(lead, 0, [QUOTE]) == (lead + field) + [QUOTE];
    assert PadToCard(OpenLine(lead, 0, [QUOTE])) == lead + field;
    assert (lead + field)[79] == '&';
  }

  lemma SplitCutField(part: string)
    requires part == [' ', QUOTE, QUOTE, QUOTE, '&']
    ensures SplitValueComment(part) == Field([QUOTE, QUOTE, QUOTE, '&'], "")
  {
    var s1, s2, s3, s4 := part[1..], part[2..], part[3..], part[4..];
    assert s4[1..] == [] && CommentAt([], true) == 0;
    assert s4 == ['&'] && CommentAt(s4, true) == 1;
    assert s3[1..] == s4 && CommentAt(s3, false) == 2;
    assert s2[1..] == s3 && CommentAt(s2, true) == 3;
    assert s1[1..] == s2 && CommentAt(s1, false) == 4;
    assert CommentAt(part, false) == 5;
    assert part[..5] == " " + s1 + "";
    assert s1 == [QUOTE, QUOTE, QUOTE, '&'];
    TrimOf(" ", s1, "");
  }

  lemma {:induction false} EscapeGrows(v: string)
    ensures |Escape(v)| >= |v|
  {
    if v != "" {
      EscapeGrows(v[1..]);
    }
  }

  // One value that cannot be stored next to a comment of 64 characters under a
  // long key: sixty letters and a quote.
  lemma HierarchQuoteBeforeLongComment(value: string, comment: string, cards: seq<string>, header: seq<string>, i: nat)
    requires value == Repeat('A', 60) + [QUOTE] && |comment| == 64 && StartsInk(comment) && EndsInk(comment)
    requires HierarchBuilt(cards, "ESO INS A", value, comment)
    requires Holds(header, i, cards) && ChainEndsAt(header, i + |cards|)
    ensures i < |header| && ReadCard(header, i) == Some(Entry(Text(value + "&"), ""))
  {
    SixtyLetters(value);
    ShortKeyIs("ESO INS A");
    hide *;
    TailTooLong("ESO INS A", value, comment);
    HierarchReads("ESO INS A", value, comment, cards, header, i);
  }

  lemma ShortKeyIs(key: string)
    requires key == "ESO INS A"
    ensures |key| == 9 && '=' !in key
  {
  }

  lemma SixtyLetters(value: string)
    requires value == Repeat('A', 60) + [QUOTE]
    ensures |value| == 61 && EndsInk(value) && EndsQuote(value)
  {
  }

  lemma TailTooLong(key: string, value: string, comment: string)
    requires |key| == 9 && |value| == 61 && EndsQuote(value) && |comment| == 64
    ensures |HierarchSingle(key, value, comment)| > CARD_SIZE
    ensures FirstCardFits(key, value) && !TailFits(key, value, comment)
  {
    EscapeGrows(value);
    hide Escape;
  }

  // One value whose first card is cut: a quote under a key of 64 characters.
  lemma QuoteUnderLongestKey(key: string, comment: string, cards: seq<string>, header: seq<string>, i: nat)
    requires |key| == 64 && '=' !in key && StartsInk(comment) && EndsInk(comment)
    requires HierarchBuilt(cards, key, [QUOTE], comment)
    requires Holds(header, i, cards) && ChainEndsAt(header, i + |cards|)
    ensures i < |header| && ReadCard(header, i) == Some(Entry(Bare([QUOTE, QUOTE, QUOTE, '&']), ""))
  {
    QuoteTooLong(key, comment);
    hide *;
    HierarchReads(key, [QUOTE], comment, cards, header, i);
  }

  lemma QuoteTooLong(key: string, comment: string)
    requires |key| == 64
    ensures EndsInk([QUOTE]) && !FirstCardFits(key, [QUOTE])
    ensures |HierarchSingle(key, [QUOTE], comment)| > CARD_SIZE
  {
    hide Escape;
  }
}
