// What the string builders print is what the parser reads: the exact condition
// for standard keys.
module StringRoundTrip {
  import opened FitsBytes
  import opened CardText
  import opened StringCards
  import opened StringCardBuilders

  // The comment as it survives printing: card_string cuts it at column 80.
  function ShownComment(value: string, comment: string): (text: string)
    requires |comment| < 65
  {
    if |Escape(value)| <= LastPayload(comment) && |comment| > 47 then TrimEnd(comment[..47]) else comment
  }

  function ValueFill(value: string): (text: string) {
    if |Escape(value)| < 8 then Spaces(8 - |Escape(value)|) else ""
  }

  function StringGap(value: string, comment: string): (text: string) {
    var n := 12 + Max(8, |Escape(value)|);
    if comment == "" then "" else if n <= COMMENT_COL then Spaces(COMMENT_COL - n) else " "
  }

  lemma TrimEndAfter(a: string, b: string)
    requires b != "" && b[0] != ' '
    ensures TrimEnd(b) != "" && TrimEnd(b)[0] == b[0]
    ensures TrimEnd(a + b) == a + TrimEnd(b)
  {
    if EndsInk(b) {
      assert (a + b)[|a + b| - 1] == b[|b| - 1];
    } else {
      assert (a + b)[|a + b| - 1] == b[|b| - 1];
      var b' := b[..|b| - 1];
      assert (a + b)[..|a + b| - 1] == a + b';
      TrimEndAfter(a, b');
    }
  }

  // The uncut text of a single string card.
  lemma SingleLine(lead: string, value: string, gap: string, comment: string)
    ensures lead + "'" + PadTo(Escape(value), 8) + "'" + gap + CommentTail(comment)
         == lead + QuotedField(value, ValueFill(value), gap + CommentTail(comment))
    ensures |QuotedField(value, ValueFill(value), gap + CommentTail(comment))|
         == 2 + Max(8, |Escape(value)|) + |gap| + |CommentTail(comment)|
  {
    var after := gap + CommentTail(comment);
    assert PadTo(Escape(value), 8) == Escape(value) + ValueFill(value);
    PrintedField(lead, value, ValueFill(value), after);
    hide Escape, PadTo;
    Assoc(lead + "'", Escape(value), ValueFill(value));
    Assoc(lead + "'" + Escape(value) + ValueFill(value) + "'", gap, CommentTail(comment));
  }

  lemma CardStringLine(key: string, value: string, comment: string)
    requires |key| <= 8
    ensures CardString(key, value, comment)
         == PadToCard(FirstLead(key)
               + QuotedField(value, ValueFill(value), StringGap(value, comment) + CommentTail(comment)))
  {
    hide Escape, PadToCard;
    SingleLine(FirstLead(key), value, StringGap(value, comment), comment);
    var head := FirstLead(key) + "'" + PadTo(Escape(value), 8) + "'";
    assert |head| == 12 + Max(8, |Escape(value)|);
    if comment != "" && |head| > COMMENT_COL {
      assert " / " == " " + "/ ";
      Assoc(head, " ", "/ ");
      Assoc(head + " ", "/ ", comment);
    } else if comment != "" {
      Assoc(head + Spaces(COMMENT_COL - |head|), "/ ", comment);
    } else {
      assert head + "" + "" == head;
    }
  }

  // What a single card shows once it is stored without trailing blanks.
  lemma CardStringShows(key: string, value: string, comment: string)
    requires |key| <= 8 && |comment| < 65 && |Escape(value)| <= LastPayload(comment)
    requires StartsInk(comment) && EndsInk(comment)
    ensures TrimEnd(CardString(key, value, comment))
         == FirstLead(key) + QuotedField(value, ValueFill(value),
              StringGap(value, comment) + CommentTail(ShownComment(value, comment)))
    ensures StartsInk(ShownComment(value, comment)) && EndsInk(ShownComment(value, comment))
  {
    var lead, gap, fill := FirstLead(key), StringGap(value, comment), ValueFill(value);
    var shown := ShownComment(value, comment);
    CardStringLine(key, value, comment);
    SingleLine(lead, value, gap, comment);
    hide Escape, QuotedField, CardString, TrimEnd;
    var line := lead + QuotedField(value, fill, gap + CommentTail(comment));
    if |comment| <= 47 {
      TrimPadded(line);
      TailEndsInk(lead, value, fill, gap, comment);
    } else {
      CutTail(lead, value, fill, gap, comment);
    }
  }

  lemma TailEndsInk(lead: string, value: string, fill: string, gap: string, comment: string)
    requires EndsInk(comment) && (comment == "" ==> gap == "")
    ensures TrimEnd(lead + QuotedField(value, fill, gap + CommentTail(comment)))
         == lead + QuotedField(value, fill, gap + CommentTail(comment))
  {
    hide QuotedField;
    assert EndsInk(gap + CommentTail(comment));
    FieldEndsInk(lead, value, fill, gap + CommentTail(comment));
  }

  // A card cut at column 80 keeps the first 47 characters of its comment.
  lemma CutTail(lead: string, value: string, fill: string, gap: string, comment: string)
    requires |comment| > 47 && StartsInk(comment)
    requires |lead + QuotedField(value, fill, gap + CommentTail(comment))| == 33 + |comment|
    ensures TrimEnd(PadToCard(lead + QuotedField(value, fill, gap + CommentTail(comment))))
         == lead + QuotedField(value, fill, gap + CommentTail(TrimEnd(comment[..47])))
    ensures StartsInk(TrimEnd(comment[..47])) && TrimEnd(comment[..47]) != ""
  {
    var body := "'" + (Escape(value) + (fill + "'"));
    var kept := comment[..47];
    var shown := TrimEnd(kept);
    TrimEndAfter("", kept);
    FieldIsBody(value, fill, gap + CommentTail(comment));
    FieldIsBody(value, fill, gap + CommentTail(shown));
    hide Escape, QuotedField, TrimEnd;
    var head := lead + body + gap + "/ ";
    assert lead + (body + (gap + ("/ " + comment))) == head + comment by { AssocFive(lead, body, gap, "/ ", comment); }
    assert lead + (body + (gap + ("/ " + shown))) == head + shown by { AssocFive(lead, body, gap, "/ ", shown); }
    assert |head| == 33;
    assert (head + comment)[..80] == head + kept;
    TrimEndAfter(head, kept);
  }

  lemma AssocFive(a: string, b: string, c: string, d: string, e: string)
    ensures a + (b + (c + (d + e))) == a + b + c + d + e
  {
    Assoc(a, b, c + (d + e));
    Assoc(a + b, c, d + e);
    Assoc(a + b + c, d, e);
  }

  // Reading back what BuildStringValueCards printed: the value and its comment
  // come back exactly when the last card could hold the end of the value.
  // Otherwise a stray `&` is read and the comment is gone.
  lemma StringValueRoundTrip(key: string, value: string, comment: string, cards: seq<string>, header: seq<string>,
                             i: nat)
    requires |key| <= 8 && '=' !in key && |comment| < 65
    requires EndsInk(value) && StartsInk(comment) && EndsInk(comment)
    requires Built(cards, key, value, comment)
    requires Holds(header, i, cards) && ChainEndsAt(header, i + |cards|)
    ensures i < |header|
    ensures ReadCard(header, i) == Some(Entry(Text(value), ShownComment(value, comment)))
       <==> LastCardFits(value, comment)
    ensures !LastCardFits(value, comment) ==> ReadCard(header, i) == Some(Entry(Text(value + "&"), ""))
  {
    hide CardString, ReadCard, TrimEnd, EndsInk, StartsInk, ShownComment, Built, Holds, LastCardFits;
    BuiltReads(key, value, comment, cards, header, i);
    assert value + "&" != value by { assert |value + "&"| == |value| + 1; }
  }

  lemma BuiltReads(key: string, value: string, comment: string, cards: seq<string>, header: seq<string>, i: nat)
    requires |key| <= 8 && '=' !in key && |comment| < 65
    requires EndsInk(value) && StartsInk(comment) && EndsInk(comment)
    requires Built(cards, key, value, comment)
    requires Holds(header, i, cards) && ChainEndsAt(header, i + |cards|)
    ensures i < |header|
    ensures LastCardFits(value, comment) ==>
      ReadCard(header, i) == Some(Entry(Text(value), ShownComment(value, comment)))
    ensures !LastCardFits(value, comment) ==> ReadCard(header, i) == Some(Entry(Text(value + "&"), ""))
  {
    var keyPart := PadTo(key, 8);
    assert '=' !in keyPart;
    if |Escape(value)| <= LastPayload(comment) {
      ShortEndsWell(value, comment);
      assert TrimEnd(header[i + 0]) == TrimEnd(cards[0]);
      hide Escape, QuotedField, CardString, ReadCard, TrimEnd, PadTo, Holds;
      CardStringShows(key, value, comment);
      FillsBlank(value, comment);
      ReadSingle(header, i, keyPart, value, ValueFill(value), StringGap(value, comment), ShownComment(value, comment));
    } else {
      var end := if LastCardFits(value, comment) then Some(comment) else None;
      assert ShownComment(value, comment) == comment;
      hide Escape, QuotedField, CardString, ReadCard, TrimEnd, PadTo, Printed, Holds;
      PrintedReads(keyPart, value, end, cards, header, i);
      assert value + "" == value;
    }
  }

  lemma FillsBlank(value: string, comment: string)
    ensures Blank(ValueFill(value)) && Blank(StringGap(value, comment))
  {
  }

  lemma ShortEndsWell(value: string, comment: string)
    requires |comment| < 65 && |Escape(value)| <= LastPayload(comment)
    ensures LastCardFits(value, comment)
  {
    if |comment| == 64 && EndsQuote(value) {
      EndQuoteNeedsTwo(value);
    }
  }

  lemma PrintedReads(keyPart: string, value: string, end: Option<string>, cards: seq<string>, header: seq<string>,
                     i: nat)
    requires '=' !in keyPart && EndsInk(value)
    requires end.Some? ==> StartsInk(end.value) && EndsInk(end.value)
    requires Printed(cards, keyPart + "= ", value, end)
    requires Holds(header, i, cards) && ChainEndsAt(header, i + |cards|)
    ensures i < |header|
    ensures ReadCard(header, i)
         == Some(Entry(Text(value + (if end.Some? then "" else "&")), if end.Some? then end.value else ""))
  {
    hide ReadCard, Line, EndsInk, StartsInk, IsChain, Flatten, Holds;
    var pieces :| pieces != [] && Flatten(pieces) == value && IsChain(cards, keyPart + "= ", pieces, end)
                  && (end.Some? && EndsInk(value) ==> EndsInk(pieces[|pieces| - 1]));
    ChainIsReadable(keyPart + "= ", pieces, end, cards, header, i);
    ReadChain(header, i, cards, keyPart, pieces, end);
  }

  lemma ChainIsReadable(first: string, pieces: seq<string>, end: Option<string>, cards: seq<string>,
                        header: seq<string>, i: nat)
    requires IsChain(cards, first, pieces, end) && pieces != []
    requires Holds(header, i, cards) && ChainEndsAt(header, i + |cards|)
    requires end.Some? ==> StartsInk(end.value) && EndsInk(end.value) && EndsInk(pieces[|pieces| - 1])
    ensures i < |header| && ReadableChain(header, i, cards, first, pieces, end)
  {
    hide Line;
  }

  // One value that cannot be stored next to a comment of 64 characters: 5'.
  lemma QuoteBeforeLongComment(key: string, value: string, comment: string, cards: seq<string>, header: seq<string>,
                               i: nat)
    requires |key| <= 8 && '=' !in key && value == ['5', QUOTE]
    requires |comment| == 64 && StartsInk(comment) && EndsInk(comment)
    requires Built(cards, key, value, comment)
    requires Holds(header, i, cards) && ChainEndsAt(header, i + |cards|)
    ensures i < |header| && ReadCard(header, i) == Some(Entry(Text(['5', QUOTE, '&']), ""))
  {
    assert value + "&" == ['5', QUOTE, '&'];
    assert !LastCardFits(value, comment) && EndsInk(value);
    hide Built, Holds, ReadCard, EndsInk, StartsInk, LastCardFits;
    BuiltReads(key, value, comment, cards, header, i);
  }
}
