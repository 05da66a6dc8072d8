// The builders behind `header[key] = "text"`: one card when the text fits,
// otherwise a CONTINUE chain; the same for HIERARCH keys.
module StringCardBuilders {
  import opened FitsBytes
  import opened CardText
  import opened StringCards

  const COMMENT_COL: nat := 31

  // ===== cutting the escaped text without splitting a quote pair =====

  // No pair of quotes lies across position q.
  predicate CutsNoPair(e: string, q: nat)
    requires q <= |e|
  {
    q == 0 || q == |e| || !(e[q - 1] == QUOTE && e[q] == QUOTE)
  }

  lemma {:induction false} BoundaryCut(v: string, q: nat) returns (piece: string, rest: string)
    requires q <= |Escape(v)| && CutsNoPair(Escape(v), q)
    ensures v == piece + rest && |Escape(piece)| == q
  {
    if q == 0 {
      piece, rest := "", v;
    } else {
      var n := |EscapeChar(v[0])|;
      assert Escape(v) == EscapeChar(v[0]) + Escape(v[1..]);
      assert q >= n;
      assert CutsNoPair(Escape(v[1..]), q - n);
      var piece1, rest1 := BoundaryCut(v[1..], q - n);
      piece, rest := [v[0]] + piece1, rest1;
      assert piece[1..] == piece1;
      assert v == [v[0]] + v[1..];
    }
  }

  lemma FirstPair(v: string) returns (piece: string, rest: string)
    requires |Escape(v)| >= 2 && Escape(v)[0] == QUOTE && Escape(v)[1] == QUOTE
    ensures v != [] && v[0] == QUOTE
    ensures v == piece + rest && |Escape(piece)| == 2
  {
    piece, rest := [v[0]], v[1..];
    assert piece[1..] == [];
  }

  // The back-off loop: give up bytes until no pair is split.
  method BackOff(bytes: string, pos: nat, want: nat) returns (take: nat)
    requires pos + want <= |bytes|
    ensures take <= want
    ensures take == 0 || pos + take == |bytes| || !(bytes[pos + take - 1] == QUOTE && bytes[pos + take] == QUOTE)
    ensures take < want ==> pos + take + 1 < |bytes| && bytes[pos + take] == QUOTE && bytes[pos + take + 1] == QUOTE
    ensures pos + want == |bytes| ==> take == want
  {
    take := want;
    while take > 0 && pos + take < |bytes|
      invariant take <= want
      invariant pos + want == |bytes| ==> take == want
      invariant take < want ==> pos + take + 1 < |bytes| && bytes[pos + take] == QUOTE && bytes[pos + take + 1] == QUOTE
    {
      if bytes[pos + take - 1] == QUOTE && bytes[pos + take] == QUOTE {
        take := take - 1;
      } else {
        break;
      }
    }
  }

  lemma TakenPiece(bytes: string, pos: nat, want: nat, took: nat, rest: string)
    returns (piece: string, rest': string)
    requires 1 <= want && pos + want <= |bytes| && bytes[pos..] == Escape(rest)
    requires took <= want
    requires took == 0 || pos + took == |bytes| || !(bytes[pos + took - 1] == QUOTE && bytes[pos + took] == QUOTE)
    requires took < want ==> pos + took + 1 < |bytes| && bytes[pos + took] == QUOTE && bytes[pos + took + 1] == QUOTE
    ensures rest == piece + rest' && piece != []
    ensures |Escape(piece)| == if took == 0 then 2 else took
    ensures took == 0 ==> rest[0] == QUOTE
  {
    var e := Escape(rest);
    hide Escape;
    if took == 0 {
      assert e[0] == bytes[pos] && e[1] == bytes[pos + 1];
      piece, rest' := FirstPair(rest);
    } else {
      assert e[took - 1] == bytes[pos + took - 1];
      assert pos + took < |bytes| ==> e[took] == bytes[pos + took];
      piece, rest' := BoundaryCut(rest, took);
    }
    EscapeNothing();
  }

  lemma EscapeNothing()
    ensures Escape("") == ""
  {
  }

  lemma QuotedStart(bytes: string, pos: nat, want: nat, rest: string)
    requires 1 <= want && pos + want <= |bytes| && bytes[pos..] == Escape(rest)
    ensures rest != []
    ensures rest[0] == QUOTE ==> pos + 1 < |bytes| && bytes[pos] == QUOTE && bytes[pos + 1] == QUOTE
  {
    var e := Escape(rest);
    assert e[0] == bytes[pos];
    if rest[0] == QUOTE {
      assert e[1] == bytes[pos + 1];
    }
  }

  lemma SliceCut(bytes: string, pos: nat, take: nat, rest: string, piece: string, rest': string)
    requires pos <= |bytes| && bytes[pos..] == Escape(rest)
    requires rest == piece + rest' && |Escape(piece)| == take
    ensures pos + take <= |bytes|
    ensures bytes[pos..pos + take] == Escape(piece) && bytes[pos + take..] == Escape(rest')
  {
    EscapeConcat(piece, rest');
    hide Escape;
    assert bytes[pos..pos + take] == bytes[pos..][..take];
    assert bytes[pos + take..] == bytes[pos..][take..];
  }

  // Take up to `want` bytes from pos, backing off so that no pair is split; a
  // run of pairs that starts at pos gives up its first pair only.
  method TakePiece(bytes: string, pos: nat, want: nat, ghost rest: string)
    returns (take: nat, ghost piece: string, ghost rest': string)
    requires 1 <= want && pos + want <= |bytes| && bytes[pos..] == Escape(rest)
    ensures 1 <= take && pos + take <= |bytes|
    ensures rest != [] && (take <= want || (want == 1 && take == 2))
    ensures take > want ==> rest[0] == QUOTE
    ensures rest[0] == QUOTE && want == 1 < |bytes| - pos ==> take == 2
    ensures pos + want == |bytes| || QUOTE !in bytes ==> take == want
    ensures rest == piece + rest' && piece != []
    ensures bytes[pos..pos + take] == Escape(piece) && bytes[pos + take..] == Escape(rest')
  {
    hide Escape;
    QuotedStart(bytes, pos, want, rest);
    take := BackOff(bytes, pos, want);
    piece, rest' := TakenPiece(bytes, pos, want, take, rest);
    if take == 0 {
      take := 2;
    }
    SliceCut(bytes, pos, take, rest, piece, rest');
  }

  // ===== growing a chain card by card =====

  lemma {:induction false} FlattenSnoc(pieces: seq<string>, p: string)
    ensures Flatten(pieces + [p]) == Flatten(pieces) + p
  {
    if pieces == [] {
      FlattenOne(p);
      assert [] + [p] == [p];
    } else {
      FlattenSnoc(pieces[1..], p);
      assert (pieces + [p])[1..] == pieces[1..] + [p];
      Assoc(pieces[0], Flatten(pieces[1..]), p);
    }
  }

  lemma PrintedField(lead: string, piece: string, mark: string, after: string)
    ensures lead + "'" + Escape(piece) + mark + "'" + after == lead + QuotedField(piece, mark, after)
    ensures |QuotedField(piece, mark, after)| == |Escape(piece)| + |mark| + |after| + 2
  {
    var e := Escape(piece);
    hide Escape;
    Assoc(lead + "'" + e + mark, "'", after);
    Assoc(lead + "'" + e, mark, "'" + after);
    Assoc(lead + "'", e, mark + ("'" + after));
    Assoc(lead, "'", e + (mark + ("'" + after)));
  }

  lemma AppendOpen(cards: seq<string>, first: string, pieces: seq<string>, piece: string)
    requires IsChain(cards, first, pieces, None)
    requires |OpenLine(first, |pieces|, piece)| <= CARD_SIZE
    ensures IsChain(cards + [PadToCard(OpenLine(first, |pieces|, piece))], first, pieces + [piece], None)
  {
    hide OpenLine, PadToCard;
    var n := |pieces|;
    var all, printed := pieces + [piece], cards + [PadToCard(OpenLine(first, n, piece))];
    forall k | 0 <= k < |all|
      ensures |Line(first, all, None, k)| <= CARD_SIZE && printed[k] == PadToCard(Line(first, all, None, k))
    {
      if k < n {
        assert Line(first, all, None, k) == Line(first, pieces, None, k);
        assert printed[k] == cards[k];
      }
    }
  }

  lemma AppendLast(cards: seq<string>, first: string, pieces: seq<string>, piece: string, comment: string)
    requires IsChain(cards, first, pieces, None)
    requires |LastLine(first, |pieces|, piece, comment)| <= CARD_SIZE
    ensures IsChain(cards + [PadToCard(LastLine(first, |pieces|, piece, comment))], first, pieces + [piece],
                    Some(comment))
  {
    hide OpenLine, LastLine, PadToCard;
    var n := |pieces|;
    var all, printed := pieces + [piece], cards + [PadToCard(LastLine(first, n, piece, comment))];
    forall k | 0 <= k < |all|
      ensures |Line(first, all, Some(comment), k)| <= CARD_SIZE
        && printed[k] == PadToCard(Line(first, all, Some(comment), k))
    {
      if k < n {
        assert Line(first, all, Some(comment), k) == Line(first, pieces, None, k);
        assert printed[k] == cards[k];
      }
    }
  }

  // `'{inner}&'` and `'{inner}'` or `'{inner}' / {comment}` as they are printed.
  method OpenCard(first: string, k: nat, inner: string, ghost piece: string) returns (line: string)
    requires inner == Escape(piece)
    ensures line == OpenLine(first, k, piece) == Lead(first, k) + "'" + inner + "&'"
    ensures |line| == |Lead(first, k)| + |inner| + 3
  {
    hide Escape;
    line := Lead(first, k) + "'" + inner + "&" + "'" + "";
    PrintedField(Lead(first, k), piece, "&", "");
    assert line == Lead(first, k) + "'" + inner + "&'";
  }

  method LastCard(first: string, k: nat, inner: string, comment: string, ghost piece: string) returns (line: string)
    requires inner == Escape(piece)
    ensures line == LastLine(first, k, piece, comment)
    ensures line == Lead(first, k) + "'" + inner + "'" + if comment == "" then "" else " / " + comment
    ensures |line| == |Lead(first, k)| + |inner| + 2 + (if comment == "" then 0 else |comment| + 3)
  {
    hide Escape;
    var after := CommentGap(comment) + CommentTail(comment);
    line := Lead(first, k) + "'" + inner + "" + "'" + after;
    PrintedField(Lead(first, k), piece, "", after);
    assert after == if comment == "" then "" else " / " + comment;
  }

  predicate EndsQuote(v: string) {
    v != [] && v[|v| - 1] == QUOTE
  }

  function LastPayload(comment: string): (n: nat)
    requires |comment| < 65
  {
    if comment == "" then 68 else 65 - |comment|
  }

  lemma SuffixEndsQuote(before: string, rest: string)
    requires rest != []
    ensures EndsQuote(before + rest) == EndsQuote(rest)
  {
    assert (before + rest)[|before + rest| - 1] == rest[|rest| - 1];
  }

  lemma EndQuoteNeedsTwo(v: string)
    requires EndsQuote(v)
    ensures |Escape(v)| >= 2 && Escape(v)[|Escape(v)| - 1] == QUOTE
  {
    EscapeConcat(v[..|v| - 1], [QUOTE]);
    assert v == v[..|v| - 1] + [QUOTE];
    OneQuote();
    hide Escape;
  }

  lemma OneQuote()
    ensures Escape([QUOTE]) == [QUOTE, QUOTE]
  {
    assert [QUOTE][1..] == [];
    assert Escape([QUOTE]) == EscapeChar(QUOTE) + Escape([]);
  }

  // What is printed once a value has been cut into pieces.
  ghost predicate Printed(cards: seq<string>, first: string, value: string, comment: Option<string>) {
    exists pieces :: pieces != [] && Flatten(pieces) == value && IsChain(cards, first, pieces, comment)
                     && (comment.Some? && EndsInk(value) ==> EndsInk(pieces[|pieces| - 1]))
  }

  // ===== the standard builder =====

  // card_string: a string value on a single card.  A comment starts at column
  // 32 when the value is short enough; what does not fit in 80 columns is cut.
  function CardString(key: string, value: string, comment: string): (text: string) {
    var head := PadTo(key, 8) + "= " + "'" + PadTo(Escape(value), 8) + "'";
    PadToCard(
      if comment == "" then head
      else if |head| <= COMMENT_COL then head + Spaces(COMMENT_COL - |head|) + "/ " + comment
      else head + " / " + comment)
  }

  // The comments of short strings line up: behind a mark in column 32.
  lemma CommentColumn(key: string, value: string, comment: string)
    requires |key| <= 8 && |Escape(value)| <= 18 && comment != ""
    ensures CardString(key, value, comment)[10] == QUOTE
    ensures CardString(key, value, comment)[11 + Max(8, |Escape(value)|)] == QUOTE
    ensures CardString(key, value, comment)[31..33] == "/ "
    ensures CardString(key, value, comment)[33..] == PadTo(comment, 47)[..47]
  {
    hide Escape;
    var head := PadTo(key, 8) + "= " + "'" + PadTo(Escape(value), 8) + "'";
    var card := CardString(key, value, comment);
    var body := head + Spaces(31 - |head|) + "/ " + comment;
    assert |head| == 12 + Max(8, |Escape(value)|);
    assert body[31..33] == "/ " && body[33..] == comment;
    assert card == PadToCard(body);
    assert card[33..] == PadTo(comment, 47)[..47];
  }

  function FirstLead(key: string): (text: string) {
    PadTo(key, 8) + "= "
  }

  // A comment of the full 64 characters leaves one column for the last card,
  // too little for a pair of quotes at the end of the value.
  predicate LastCardFits(value: string, comment: string) {
    |comment| < 64 || !EndsQuote(value)
  }

  ghost predicate Built(cards: seq<string>, key: string, value: string, comment: string)
    requires |comment| < 65
  {
    if |Escape(value)| <= LastPayload(comment) then cards == [CardString(key, value, comment)]
    else Printed(cards, FirstLead(key), value, if LastCardFits(value, comment) then Some(comment) else None)
  }

  // The two kinds of card, as they are printed.
  function PlainOpen(first: string, k: nat, text: string): (card: string) {
    PadToCard(Lead(first, k) + "'" + text + "&'")
  }

  function PlainLast(first: string, k: nat, text: string, comment: string): (card: string) {
    PadToCard(Lead(first, k) + "'" + text + "'" + if comment == "" then "" else " / " + comment)
  }

  // How many open cards a text without quotes takes, 67 characters on each
  // until what is left fits the last card.
  function OpenCards(text: string, last: nat): (n: nat) {
    if |text| <= last then 0 else DivCeil(|text| - last, 67)
  }

  function OpenText(text: string, last: nat, k: nat): (piece: string)
    requires 67 * k + last < |text|
  {
    text[67 * k..Min(67 * k + 67, |text| - last)]
  }

  function PlainOpens(first: string, text: string, last: nat, n: nat): (cards: seq<string>)
    requires n > 0 ==> 67 * (n - 1) + last < |text|
    ensures |cards| == n
  {
    seq(n, k requires 0 <= k < n => PlainOpen(first, k, OpenText(text, last, k)))
  }

  function PlainChain(first: string, text: string, comment: string): (cards: seq<string>)
    requires |comment| < 65
  {
    var last := LastPayload(comment);
    var n := OpenCards(text, last);
    PlainOpens(first, text, last, n) + [PlainLast(first, n, text[Max(0, |text| - last)..], comment)]
  }

  predicate PlainSoFar(cards: seq<string>, first: string, text: string, comment: string, pos: nat, isLast: bool)
    requires |comment| < 65
  {
    var n, last := |cards|, LastPayload(comment);
    if isLast then cards == PlainChain(first, text, comment)
    else (n > 0 ==> 67 * (n - 1) + last < |text|) && cards == PlainOpens(first, text, last, n)
         && pos == Min(67 * n, Max(0, |text| - last))
  }

  lemma NothingPlain(first: string, text: string, comment: string)
    requires |comment| < 65
    ensures PlainSoFar([], first, text, comment, 0, false)
  {
  }

  lemma PlainStep(cards: seq<string>, first: string, bytes: string, start: nat, comment: string, pos: nat,
                  card: string, take: nat, isLast: bool)
    requires |comment| < 65 && start <= pos < |bytes| && pos + take <= |bytes|
    requires PlainSoFar(cards, first, bytes[start..], comment, pos - start, false)
    requires isLast <==> |bytes| - pos <= LastPayload(comment)
    requires isLast ==> pos + take == |bytes|
    requires !isLast ==> take == Min(|bytes| - pos - LastPayload(comment), 67)
    requires card == if isLast then PlainLast(first, |cards|, bytes[pos..], comment)
                     else PlainOpen(first, |cards|, bytes[pos..pos + take])
    ensures PlainSoFar(cards + [card], first, bytes[start..], comment, pos + take - start, isLast)
  {
    hide PlainLast, PlainOpen;
    var text, n, last := bytes[start..], |cards|, LastPayload(comment);
    if isLast {
      assert n == OpenCards(text, last);
      assert bytes[pos..] == text[Max(0, |text| - last)..];
    } else {
      assert bytes[pos..pos + take] == OpenText(text, last, n);
      assert cards + [card] == PlainOpens(first, text, last, n + 1);
    }
  }

  lemma PlainEnds(cards: seq<string>, first: string, bytes: string, start: nat, value: string, comment: string,
                  isLast: bool)
    requires |comment| < 65 && start < |bytes| && bytes[start..] == Escape(value)
    requires isLast <==> LastCardFits(value, comment)
    requires QUOTE !in bytes ==> PlainSoFar(cards, first, bytes[start..], comment, |bytes| - start, isLast)
    ensures QUOTE !in bytes ==> cards == PlainChain(first, bytes[start..], comment)
  {
    if EndsQuote(value) {
      EndQuoteNeedsTwo(value);
      assert bytes[|bytes| - 1] == Escape(value)[|Escape(value)| - 1];
    }
  }

  lemma EscapePlain(v: string)
    ensures QUOTE !in v ==> Escape(v) == v
  {
    if QUOTE !in v {
      NoQuotesToEscape(v);
    }
  }

  method BuildStringValueCards(key: string, value: string, comment: string) returns (r: Result<seq<string>>)
    requires |key| <= 8
    ensures r.Err? <==> |comment| >= 65
    ensures r.Ok? ==> Built(r.value, key, value, comment)
    ensures r.Ok? && QUOTE !in value && |value| > LastPayload(comment) ==>
      r.value == PlainChain(FirstLead(key), value, comment)
  {
    if |comment| >= 65 {
      return Err("comment is too long to fit in a FITS card alongside a string value");
    }
    hide Escape, PadTo, EndsQuote, EndsInk, Printed, PadToCard, PlainChain;
    var bytes := Escape(value);
    EscapePlain(value);
    var lastPayload := LastPayload(comment);
    if |bytes| <= lastPayload {
      return Ok([CardString(key, value, comment)]);
    }
    assert bytes[0..] == bytes;
    var cards := PrintChain(FirstLead(key), bytes, 0, comment, value);
    return Ok(cards);
  }

  // The loop: one card after another until nothing is left.
  method PrintChain(first: string, bytes: string, start: nat, comment: string, ghost value: string)
    returns (cards: seq<string>)
    requires |comment| < 65 && |first| == 10
    requires start < |bytes| && bytes[start..] == Escape(value)
    ensures Printed(cards, first, value, if LastCardFits(value, comment) then Some(comment) else None)
    ensures QUOTE !in bytes ==> cards == PlainChain(first, bytes[start..], comment)
  {
    hide Escape, EndsQuote, EndsInk, Midway, Printed, OpenLine, LastLine, PadToCard, PlainSoFar, PlainChain;
    var pos, isLast;
    cards, pos, isLast := [], start, false;
    ghost var pieces, rest := [], value;
    StartMidway(first, value, bytes, start);
    NothingPlain(first, bytes[start..], comment);
    while pos < |bytes|
      invariant |Lead(first, |cards|)| == 10
      invariant if isLast then pos == |bytes| && Printed(cards, first, value, Some(comment))
                else Midway(cards, first, pieces, value, rest, bytes, pos)
      invariant start <= pos <= |bytes| && (pieces == [] ==> pos == start)
      invariant pos == |bytes| ==> (isLast <==> LastCardFits(value, comment))
      invariant QUOTE !in bytes ==> PlainSoFar(cards, first, bytes[start..], comment, pos - start, isLast)
    {
      var card, take;
      ghost var before, at := cards, pos;
      card, take, isLast, pieces, rest := NextCard(cards, first, pieces, value, rest, bytes, pos, comment);
      if QUOTE !in bytes {
        PlainStep(before, first, bytes, start, comment, at, card, take, isLast);
      }
      cards := cards + [card];
      pos := pos + take;
    }
    if !isLast {
      MidwayEnds(cards, first, pieces, value, rest, bytes);
    }
    PlainEnds(cards, first, bytes, start, value, comment, isLast);
  }

  // One round of the loop: the last card when the rest fits it, else an open one.
  method NextCard(cards: seq<string>, first: string, ghost pieces: seq<string>, ghost value: string,
                  ghost rest: string, bytes: string, pos: nat, comment: string)
    returns (card: string, take: nat, isLast: bool, ghost pieces': seq<string>, ghost rest': string)
    requires Midway(cards, first, pieces, value, rest, bytes, pos) && pos < |bytes|
    requires |comment| < 65 && |Lead(first, |cards|)| == 10
    ensures 1 <= take <= |bytes| - pos && pieces' != []
    ensures if isLast then Printed(cards + [card], first, value, Some(comment))
            else Midway(cards + [card], first, pieces', value, rest', bytes, pos + take)
    ensures isLast ==> pos + take == |bytes| && LastCardFits(value, comment)
    ensures !isLast && LastCardFits(value, comment) ==> pos + take < |bytes|
    ensures isLast <==> |bytes| - pos <= LastPayload(comment)
    ensures !isLast && QUOTE !in bytes ==> take == Min(|bytes| - pos - LastPayload(comment), 67)
    ensures card == if isLast then PlainLast(first, |cards|, bytes[pos..], comment)
                    else PlainOpen(first, |cards|, bytes[pos..pos + take])
  {
    hide Escape, EndsQuote, EndsInk, Midway, Printed, OpenLine, LastLine, PadToCard;
    var remaining := |bytes| - pos;
    var line;
    MidwayRest(cards, first, pieces, value, rest, bytes, pos);
    LastOrMore(value, comment, Flatten(pieces), rest);
    isLast := remaining <= LastPayload(comment);
    if isLast {
      take := remaining;
      line := LastCard(first, |cards|, bytes[pos..pos + take], comment, rest);
      StepLast(cards, first, pieces, value, rest, bytes, pos, comment);
      pieces', rest' := pieces + [rest], "";
    } else {
      ghost var piece;
      take, piece, rest' := TakePiece(bytes, pos, Min(remaining - LastPayload(comment), 67), rest);
      NothingLeft(rest, piece, rest');
      line := OpenCard(first, |cards|, bytes[pos..pos + take], piece);
      StepOpen(cards, first, pieces, value, rest, bytes, pos, piece, rest');
      pieces' := pieces + [piece];
    }
    card := PadToCard(line);
  }

  // Part of the value is printed on open cards; `rest` is still to come.
  ghost predicate Midway(cards: seq<string>, first: string, pieces: seq<string>, value: string, rest: string,
                         bytes: string, pos: nat) {
    && pos <= |bytes| && bytes[pos..] == Escape(rest)
    && value == Flatten(pieces) + rest
    && IsChain(cards, first, pieces, None)
  }

  lemma StartMidway(first: string, value: string, bytes: string, start: nat)
    requires start <= |bytes| && bytes[start..] == Escape(value)
    ensures Midway([], first, [], value, value, bytes, start)
  {
    hide Escape;
    assert Flatten([]) + value == value;
  }

  lemma MidwayRest(cards: seq<string>, first: string, pieces: seq<string>, value: string, rest: string, bytes: string,
                   pos: nat)
    requires Midway(cards, first, pieces, value, rest, bytes, pos) && pos < |bytes|
    ensures bytes[pos..] == Escape(rest) && rest != [] && value == Flatten(pieces) + rest
    ensures |cards| == |pieces|
    ensures bytes[pos..|bytes|] == bytes[pos..]
  {
    EscapeNothing();
  }

  lemma StepOpen(cards: seq<string>, first: string, pieces: seq<string>, value: string, rest: string, bytes: string,
                 pos: nat, piece: string, rest': string)
    requires Midway(cards, first, pieces, value, rest, bytes, pos)
    requires rest == piece + rest' && pos + |Escape(piece)| <= |bytes|
    requires bytes[pos + |Escape(piece)|..] == Escape(rest')
    requires |OpenLine(first, |pieces|, piece)| <= CARD_SIZE
    ensures Midway(cards + [PadToCard(OpenLine(first, |pieces|, piece))], first, pieces + [piece],
                   value, rest', bytes, pos + |Escape(piece)|)
  {
    hide Escape, IsChain, OpenLine, PadToCard;
    AppendOpen(cards, first, pieces, piece);
    FlattenSnoc(pieces, piece);
    Assoc(Flatten(pieces), piece, rest');
  }

  lemma StepLast(cards: seq<string>, first: string, pieces: seq<string>, value: string, rest: string, bytes: string,
                 pos: nat, comment: string)
    requires Midway(cards, first, pieces, value, rest, bytes, pos)
    requires EndsInk(value) == EndsInk(rest)
    requires |LastLine(first, |pieces|, rest, comment)| <= CARD_SIZE
    ensures Printed(cards + [PadToCard(LastLine(first, |pieces|, rest, comment))], first, value, Some(comment))
  {
    hide Escape, IsChain, LastLine, PadToCard, EndsInk;
    AppendLast(cards, first, pieces, rest, comment);
    FlattenSnoc(pieces, rest);
    assert (pieces + [rest])[|pieces + [rest]| - 1] == rest;
  }

  lemma MidwayEnds(cards: seq<string>, first: string, pieces: seq<string>, value: string, rest: string, bytes: string)
    requires Midway(cards, first, pieces, value, rest, bytes, |bytes|) && pieces != []
    ensures Printed(cards, first, value, None)
  {
    hide IsChain;
    NoBytesNoText(rest);
    assert Flatten(pieces) + "" == Flatten(pieces);
  }

  lemma NoBytesNoText(v: string)
    requires Escape(v) == ""
    ensures v == ""
  {
  }

  // What is left of a value ends as the value does, and a final quote still
  // needs its two bytes.
  lemma LastOrMore(value: string, comment: string, done: string, rest: string)
    requires |comment| < 65 && value == done + rest && rest != []
    ensures EndsInk(value) == EndsInk(rest)
    ensures EndsQuote(value) == EndsQuote(rest)
    ensures EndsQuote(rest) ==> |Escape(rest)| >= 2
  {
    SuffixEndsQuote(done, rest);
    if EndsQuote(rest) { EndQuoteNeedsTwo(rest); }
    assert value[|value| - 1] == rest[|rest| - 1];
  }

  // If a forced first pair uses everything up, the value ended in a quote.
  lemma NothingLeft(rest: string, piece: string, rest': string)
    requires rest == piece + rest' && piece != []
    ensures Escape(rest') == "" && |Escape(piece)| == 2 && rest[0] == QUOTE ==> EndsQuote(rest)
  {
    if Escape(rest') == "" && |Escape(piece)| == 2 && rest[0] == QUOTE {
      NoBytesNoText(rest');
      assert rest == piece;
      assert Escape(piece) == EscapeChar(QUOTE) + Escape(piece[1..]);
      NoBytesNoText(piece[1..]);
    }
  }

  // No chain of 80-column cards carries as long a text on fewer cards.
  lemma FewestCards(cards: seq<string>, first: string, pieces: seq<string>, comment: string)
    requires |first| == 10 && |comment| < 65 && pieces != [] && IsChain(cards, first, pieces, Some(comment))
    ensures |PlainChain(first, Flatten(pieces), comment)| <= |cards|
  {
    hide IsChain, Line, PlainOpens, PlainLast;
    var n, last := |pieces| - 1, LastPayload(comment);
    forall k | 0 <= k <= n ensures |pieces[k]| <= if k == n then last else 67 {
      LineHolds(cards, first, pieces, comment, k);
    }
    assert pieces == pieces[..n] + [pieces[n]];
    FlattenSnoc(pieces[..n], pieces[n]);
    FlattenFits(pieces[..n]);
    ChainLength(cards, first, pieces, comment);
  }

  lemma ChainLength(cards: seq<string>, first: string, pieces: seq<string>, comment: string)
    requires IsChain(cards, first, pieces, Some(comment))
    ensures |cards| == |pieces|
  {
  }

  lemma LineHolds(cards: seq<string>, first: string, pieces: seq<string>, comment: string, k: nat)
    requires |first| == 10 && |comment| < 65 && IsChain(cards, first, pieces, Some(comment)) && k < |pieces|
    ensures |pieces[k]| <= if k == |pieces| - 1 then LastPayload(comment) else 67
  {
    var after := CommentGap(comment) + CommentTail(comment);
    PrintedField(Lead(first, k), pieces[k], "&", "");
    PrintedField(Lead(first, k), pieces[k], "", after);
    hide QuotedField, Escape;
    assert |Line(first, pieces, Some(comment), k)| <= CARD_SIZE;
  }

  lemma {:induction false} FlattenFits(pieces: seq<string>)
    requires forall k :: 0 <= k < |pieces| ==> |pieces[k]| <= 67
    ensures |Flatten(pieces)| <= 67 * |pieces|
  {
    if pieces != [] {
      FlattenFits(pieces[1..]);
    }
  }
}
