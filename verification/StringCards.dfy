// String values in header cards: the builders that print a value over one card
// or a CONTINUE chain (FITS Standard 4.0, section 4.2.1.2), and the parser that
// reads it back.
module StringCards {
  import opened FitsBytes
  import opened CardText

  datatype Value = Undefined | Text(text: string) | Bare(raw: string)
  datatype Entry = Entry(value: Value, comment: string)

  // ===== reading =====

  predicate IsContinue(card: string) {
    StartsWith(TrimEnd(card), "CONTINUE")
  }

  function JoinComments(a: string, b: string): (text: string) {
    if b == "" then a else if a == "" then b else a + " " + b
  }

  // The value field of a CONTINUE card.
  function ContinueField(card: string): (r: Field) {
    var t := TrimEnd(card);
    SplitValueComment(if |t| > 8 then t[8..] else "")
  }

  // What is read from card i on, when the text so far is s.
  function ContinueText(cards: seq<string>, i: nat, s: string, comment: string): (r: Entry)
    decreases |cards| - i
  {
    if !EndsWithAmp(s) || i + 1 >= |cards| || !IsContinue(cards[i + 1]) then Entry(Text(s), comment)
    else
      var f := ContinueField(cards[i + 1]);
      if !Quoted(f.raw) then Entry(Text(s), comment)
      else ContinueText(cards, i + 1, s[..|s| - 1] + ExtractString(f.raw), JoinComments(comment, f.comment))
  }

  function ParseValue(cards: seq<string>, i: nat, valuePart: string): (r: Entry) {
    var f := SplitValueComment(valuePart);
    if f.raw == "" then Entry(Undefined, f.comment)
    else if Quoted(f.raw) then ContinueText(cards, i, ExtractString(f.raw), f.comment)
    else Entry(Bare(f.raw), f.comment)
  }

  // parse_value_with_continue
  method ParseValueWithContinue(cards: seq<string>, start: nat, valuePart: string) returns (entry: Entry)
    ensures entry == ParseValue(cards, start, valuePart)
  {
    var f := SplitValueComment(valuePart);
    if f.raw == "" {
      return Entry(Undefined, f.comment);
    }
    if !Quoted(f.raw) {
      return Entry(Bare(f.raw), f.comment);
    }
    var s, comment, i := ExtractString(f.raw), f.comment, start;
    while EndsWithAmp(s)
      invariant ContinueText(cards, i, s, comment) == ParseValue(cards, start, valuePart)
      decreases |cards| - i
    {
      if i + 1 >= |cards| || !IsContinue(cards[i + 1]) {
        break;
      }
      var next := ContinueField(cards[i + 1]);
      if !Quoted(next.raw) {
        break;
      }
      s := s[..|s| - 1] + ExtractString(next.raw);
      comment := JoinComments(comment, next.comment);
      i := i + 1;
    }
    entry := Entry(Text(s), comment);
  }

  // The value and comment read at card i of a header: None without a `=`.
  function ReadCard(header: seq<string>, i: nat): (r: Option<Entry>)
    requires i < |header|
  {
    var card := TrimEnd(header[i]);
    var eq := Find(card, '=');
    if eq == |card| then None else Some(ParseValue(header, i, card[eq + 1..]))
  }

  // ===== the shape of a chain =====

  function Flatten(pieces: seq<string>): (text: string) {
    if pieces == [] then "" else pieces[0] + Flatten(pieces[1..])
  }

  function Lead(first: string, k: nat): (text: string) {
    if k == 0 then first else "CONTINUE  "
  }

  // A card whose string goes on in the next card.
  function OpenLine(first: string, k: nat, piece: string): (text: string) {
    Lead(first, k) + QuotedField(piece, "&", "")
  }

  // The card that ends the string.
  function LastLine(first: string, k: nat, piece: string, comment: string): (text: string) {
    Lead(first, k) + QuotedField(piece, "", CommentGap(comment) + CommentTail(comment))
  }

  function CommentGap(comment: string): (text: string) {
    if comment == "" then "" else " "
  }

  function Line(first: string, pieces: seq<string>, comment: Option<string>, k: nat): (text: string)
    requires k < |pieces|
  {
    if comment.Some? && k == |pieces| - 1 then LastLine(first, k, pieces[k], comment.value)
    else OpenLine(first, k, pieces[k])
  }

  // The cards print the pieces in order, none of them cut at column 80.  With
  // no comment given even the last card still promises a continuation.
  predicate IsChain(cards: seq<string>, first: string, pieces: seq<string>, comment: Option<string>) {
    && |cards| == |pieces|
    && forall k :: 0 <= k < |pieces| ==>
         |Line(first, pieces, comment, k)| <= CARD_SIZE && cards[k] == PadToCard(Line(first, pieces, comment, k))
  }

  // Header cards are kept without their trailing blanks.
  predicate Holds(header: seq<string>, i: nat, cards: seq<string>) {
    && i + |cards| <= |header|
    && forall k :: 0 <= k < |cards| ==> TrimEnd(header[i + k]) == TrimEnd(cards[k])
  }

  predicate ChainEndsAt(header: seq<string>, end: nat) {
    end < |header| ==> !IsContinue(header[end])
  }

  lemma TrimmedLine(first: string, pieces: seq<string>, comment: Option<string>, k: nat)
    requires k < |pieces|
    requires comment.Some? ==> EndsInk(comment.value)
    requires |Line(first, pieces, comment, k)| <= CARD_SIZE
    ensures TrimEnd(PadToCard(Line(first, pieces, comment, k))) == Line(first, pieces, comment, k)
  {
    var line := Line(first, pieces, comment, k);
    TrimPadded(line);
    FieldEndsInk(Lead(first, k), pieces[k], "&", "");
    if comment.Some? {
      FieldEndsInk(Lead(first, k), pieces[k], "", CommentGap(comment.value) + CommentTail(comment.value));
    }
  }

  lemma FieldEndsInk(lead: string, v: string, mark: string, after: string)
    requires EndsInk(after)
    ensures EndsInk(lead + QuotedField(v, mark, after))
  {
    hide Escape;
    var s := lead + QuotedField(v, mark, after);
    if after == "" {
      assert s[|s| - 1] == QUOTE;
    } else {
      assert s[|s| - 1] == after[|after| - 1];
    }
  }

  // One CONTINUE card read back: its payload, and the mark that asks for more.
  lemma ReadContinueLine(card: string, piece: string, mark: string, comment: string)
    requires QUOTE !in mark && StartsInk(comment) && EndsInk(comment)
    requires TrimEnd(card) == "CONTINUE  " + QuotedField(piece, mark, CommentGap(comment) + CommentTail(comment))
    ensures IsContinue(card)
    ensures Quoted(ContinueField(card).raw)
    ensures ExtractString(ContinueField(card).raw) == TrimEnd(piece + mark)
    ensures ContinueField(card).comment == comment
  {
    var field := QuotedField(piece, mark, CommentGap(comment) + CommentTail(comment));
    var t := TrimEnd(card);
    assert t[8..] == "  " + field;
    SplitQuoted("  ", piece, mark, CommentGap(comment), comment);
    ExtractQuoted(piece, mark);
  }

  // The mark printed after piece k: none on a card that ends the string.
  function MarkAt(pieces: seq<string>, comment: Option<string>, k: nat): (text: string) {
    if comment.Some? && k == |pieces| - 1 then "" else "&"
  }

  function CommentOn(pieces: seq<string>, comment: Option<string>, k: nat): (text: string) {
    if comment.Some? && k == |pieces| - 1 then comment.value else ""
  }

  lemma LineAt(first: string, pieces: seq<string>, comment: Option<string>, k: nat)
    requires k < |pieces|
    ensures Line(first, pieces, comment, k)
         == Lead(first, k) + QuotedField(pieces[k], MarkAt(pieces, comment, k),
              CommentGap(CommentOn(pieces, comment, k)) + CommentTail(CommentOn(pieces, comment, k)))
  {
    assert CommentGap("") + CommentTail("") == "";
  }

  lemma TrimMarked(piece: string, mark: string)
    requires mark == "&" || (mark == "" && EndsInk(piece))
    ensures TrimEnd(piece + mark) == piece + mark
  {
    if mark == "" { assert piece + mark == piece; }
  }

  predicate ReadableChain(header: seq<string>, i: nat, cards: seq<string>, first: string, pieces: seq<string>,
                          comment: Option<string>) {
    && IsChain(cards, first, pieces, comment)
    && Holds(header, i, cards)
    && ChainEndsAt(header, i + |pieces|)
    && pieces != []
    && (comment.Some? ==> StartsInk(comment.value) && EndsInk(comment.value) && EndsInk(pieces[|pieces| - 1]))
  }

  lemma {:induction false} ReadRest(header: seq<string>, i: nat, cards: seq<string>, first: string,
                                    pieces: seq<string>, comment: Option<string>, k: nat, acc: string)
    requires ReadableChain(header, i, cards, first, pieces, comment) && k < |pieces|
    ensures ContinueText(header, i + k, acc + pieces[k] + MarkAt(pieces, comment, k), CommentOn(pieces, comment, k))
         == Entry(Text(acc + Flatten(pieces[k..]) + (if comment.Some? then "" else "&")),
                  if comment.Some? then comment.value else "")
    decreases |pieces| - k
  {
    if k == |pieces| - 1 {
      ReadEnd(header, i, cards, first, pieces, comment, acc);
    } else {
      hide *;
      FlattenFrom(pieces, k);
      Assoc(acc, pieces[k], Flatten(pieces[k + 1..]));
      ReadStep(header, i, cards, first, pieces, comment, k, acc + pieces[k]);
      ReadRest(header, i, cards, first, pieces, comment, k + 1, acc + pieces[k]);
    }
  }

  // One card of a chain and on to the next.
  lemma ReadStep(header: seq<string>, i: nat, cards: seq<string>, first: string, pieces: seq<string>,
                 comment: Option<string>, k: nat, text: string)
    requires ReadableChain(header, i, cards, first, pieces, comment) && k + 1 < |pieces|
    ensures ContinueText(header, i + k, text + MarkAt(pieces, comment, k), CommentOn(pieces, comment, k))
         == ContinueText(header, i + (k + 1), text + pieces[k + 1] + MarkAt(pieces, comment, k + 1),
                         CommentOn(pieces, comment, k + 1))
  {
    hide *;
    ReadNext(header, i, cards, first, pieces, comment, k + 1);
    OpenMark(pieces, comment, k);
    ContinueStep(header, i + k, text, pieces[k + 1] + MarkAt(pieces, comment, k + 1));
    Assoc(text, pieces[k + 1], MarkAt(pieces, comment, k + 1));
  }

  // The last card of a chain.
  lemma ReadEnd(header: seq<string>, i: nat, cards: seq<string>, first: string, pieces: seq<string>,
                comment: Option<string>, acc: string)
    requires ReadableChain(header, i, cards, first, pieces, comment) && pieces != []
    ensures var k := |pieces| - 1;
            ContinueText(header, i + k, acc + pieces[k] + MarkAt(pieces, comment, k), CommentOn(pieces, comment, k))
            == Entry(Text(acc + Flatten(pieces[k..]) + (if comment.Some? then "" else "&")),
                     if comment.Some? then comment.value else "")
  {
    var k := |pieces| - 1;
    assert pieces[k..] == [pieces[k]];
    FlattenOne(pieces[k]);
    hide Flatten;
    var end := if comment.Some? then "" else "&";
    ReadLast(header, i + k, acc + pieces[k] + end, if comment.Some? then comment.value else "");
  }

  lemma FlattenFrom(pieces: seq<string>, k: nat)
    requires k < |pieces|
    ensures Flatten(pieces[k..]) == pieces[k] + Flatten(pieces[k + 1..])
  {
    assert pieces[k..][1..] == pieces[k + 1..] && pieces[k..][0] == pieces[k];
  }

  lemma OpenMark(pieces: seq<string>, comment: Option<string>, k: nat)
    requires k + 1 < |pieces|
    ensures MarkAt(pieces, comment, k) == "&" && CommentOn(pieces, comment, k) == ""
  {
  }

  lemma FlattenOne(piece: string)
    ensures Flatten([piece]) == piece
  {
    assert [piece][1..] == [];
    assert piece + "" == piece;
  }

  lemma ReadLast(header: seq<string>, i: nat, s: string, comment: string)
    requires ChainEndsAt(header, i + 1)
    ensures ContinueText(header, i, s, comment) == Entry(Text(s), comment)
  {
  }

  lemma ContinueStep(header: seq<string>, i: nat, s: string, next: string)
    requires i + 1 < |header| && IsContinue(header[i + 1])
    requires Quoted(ContinueField(header[i + 1]).raw) && ExtractString(ContinueField(header[i + 1]).raw) == next
    ensures ContinueText(header, i, s + "&", "")
         == ContinueText(header, i + 1, s + next, ContinueField(header[i + 1]).comment)
  {
    hide IsContinue, Quoted, ExtractString, ContinueField;
    assert (s + "&")[..|s + "&"| - 1] == s;
    assert EndsWithAmp(s + "&");
  }

  lemma ReadNext(header: seq<string>, i: nat, cards: seq<string>, first: string, pieces: seq<string>,
                 comment: Option<string>, k: nat)
    requires ReadableChain(header, i, cards, first, pieces, comment) && 0 < k < |pieces|
    ensures i + k < |header| && IsContinue(header[i + k])
    ensures Quoted(ContinueField(header[i + k]).raw)
    ensures ExtractString(ContinueField(header[i + k]).raw) == pieces[k] + MarkAt(pieces, comment, k)
    ensures ContinueField(header[i + k]).comment == CommentOn(pieces, comment, k)
  {
    var mark, c := MarkAt(pieces, comment, k), CommentOn(pieces, comment, k);
    TrimmedLine(first, pieces, comment, k);
    LineAt(first, pieces, comment, k);
    assert TrimEnd(header[i + k]) == TrimEnd(cards[k]);
    hide QuotedField, CommentTail, CommentGap, ContinueField, ExtractString, TrimEnd;
    ReadContinueLine(header[i + k], pieces[k], mark, c);
    TrimMarked(pieces[k], mark);
  }

  // A printed chain is read back whole: the text of all its pieces, or that
  // text and a stray `&` when no card ended the string.
  lemma ReadChain(header: seq<string>, i: nat, cards: seq<string>, keyPart: string, pieces: seq<string>,
                  comment: Option<string>)
    requires ReadableChain(header, i, cards, keyPart + "= ", pieces, comment)
    requires '=' !in keyPart
    ensures ReadCard(header, i)
         == Some(Entry(Text(Flatten(pieces) + (if comment.Some? then "" else "&")),
                       if comment.Some? then comment.value else ""))
  {
    ReadFirstOf(header, i, cards, keyPart, pieces, comment);
    assert pieces[0..] == pieces;
    hide ReadableChain, ContinueText, ReadCard, Flatten;
    ReadRest(header, i, cards, keyPart + "= ", pieces, comment, 0, "");
    assert "" + pieces[0] == pieces[0];
    assert "" + Flatten(pieces) == Flatten(pieces);
  }

  lemma ReadFirstOf(header: seq<string>, i: nat, cards: seq<string>, keyPart: string, pieces: seq<string>,
                    comment: Option<string>)
    requires ReadableChain(header, i, cards, keyPart + "= ", pieces, comment)
    requires '=' !in keyPart
    ensures ReadCard(header, i)
         == Some(ContinueText(header, i, pieces[0] + MarkAt(pieces, comment, 0), CommentOn(pieces, comment, 0)))
  {
    hide ReadableChain, QuotedField, ContinueText, ReadCard, TrimEnd, MarkAt, CommentOn;
    FirstText(header, i, cards, keyPart + "= ", pieces, comment);
    var c := CommentOn(pieces, comment, 0);
    ReadFirst(header, i, keyPart, pieces[0], MarkAt(pieces, comment, 0), CommentGap(c), c);
    TrimMarked(pieces[0], MarkAt(pieces, comment, 0));
  }

  lemma FirstText(header: seq<string>, i: nat, cards: seq<string>, first: string, pieces: seq<string>,
                  comment: Option<string>)
    requires ReadableChain(header, i, cards, first, pieces, comment)
    ensures i < |header| && pieces != []
    ensures var mark, c := MarkAt(pieces, comment, 0), CommentOn(pieces, comment, 0);
      && TrimEnd(header[i]) == first + QuotedField(pieces[0], mark, CommentGap(c) + CommentTail(c))
      && (mark == "&" || (mark == "" && EndsInk(pieces[0])))
      && StartsInk(c) && EndsInk(c)
  {
    hide QuotedField, TrimEnd;
    TrimmedLine(first, pieces, comment, 0);
    LineAt(first, pieces, comment, 0);
    assert TrimEnd(header[i + 0]) == TrimEnd(cards[0]);
  }

  lemma ReadFirst(header: seq<string>, i: nat, keyPart: string, piece: string, mark: string, gap: string, c: string)
    requires i < |header| && '=' !in keyPart
    requires QUOTE !in mark && Blank(gap) && StartsInk(c) && EndsInk(c)
    requires TrimEnd(header[i]) == keyPart + "= " + QuotedField(piece, mark, gap + CommentTail(c))
    ensures ReadCard(header, i) == Some(ContinueText(header, i, TrimEnd(piece + mark), c))
  {
    var field := QuotedField(piece, mark, gap + CommentTail(c));
    SplitQuoted(" ", piece, mark, gap, c);
    ExtractQuoted(piece, mark);
    hide QuotedField, TrimEnd, ExtractString, SplitValueComment;
    ReadKeyed(header, i, keyPart, field);
  }

  lemma ReadKeyed(header: seq<string>, i: nat, keyPart: string, field: string)
    requires i < |header| && '=' !in keyPart
    requires TrimEnd(header[i]) == keyPart + "= " + field
    ensures ReadCard(header, i) == Some(ParseValue(header, i, " " + field))
  {
    var card := TrimEnd(header[i]);
    assert card == keyPart + ['='] + (" " + field);
    FindIn(keyPart, '=', " " + field);
    assert card[|keyPart| + 1..] == " " + field;
  }

  // ===== a value that fits one card =====

  lemma ReadSingle(header: seq<string>, i: nat, keyPart: string, value: string, mark: string, gap: string, c: string)
    requires i < |header| && '=' !in keyPart
    requires Blank(mark) && Blank(gap) && StartsInk(c) && EndsInk(c) && EndsInk(value)
    requires TrimEnd(header[i]) == keyPart + "= " + QuotedField(value, mark, gap + CommentTail(c))
    requires ChainEndsAt(header, i + 1)
    ensures ReadCard(header, i) == Some(Entry(Text(value), c))
  {
    hide QuotedField, ContinueText, ReadCard;
    ReadFirst(header, i, keyPart, value, mark, gap, c);
    TrimEndDrops(value, mark);
    ReadLast(header, i, value, c);
  }
}
