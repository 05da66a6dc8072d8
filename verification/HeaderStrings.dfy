// Setting a string under a key: from the user's spelling of the key to what
// the header answers afterwards.
module HeaderStrings {
  import opened FitsBytes
  import opened CardText
  import opened StringCards
  import opened StringCardBuilders
  import opened StringRoundTrip
  import opened HierarchCards
  import opened HeaderKeys
  import opened HeaderEdit

  // A key as it is stored: trimmed, its words one blank apart, without `=`.
  predicate Stored(key: string) {
    StorageKey(key) == key && key != "" && '=' !in key && UserKey(LookupKey(key)) && UserKey(key)
  }

  // What stands before the `= ` on a card with this key.
  function KeyPart(key: string): (text: string) {
    if IsHierarch(key) then HierarchKey(key) else PadTo(key, 8)
  }

  lemma KeyFound(key: string, field: string)
    requires Stored(key) && field != "" && EndsInk(field)
    ensures FindKey(KeyPart(key) + "= " + field) == Some(LookupKey(key))
    ensures '=' !in KeyPart(key)
  {
    StorageKeyLooksUp(key);
    NoEqualsInPart(key);
    FirstEquals(KeyPart(key), field);
    hide LookupKey, Trim, KeyColumns, LongKey, HierarchKey, PadTo, TrimEnd, UserKey, StorageKey;
    if IsHierarch(key) {
      LongKeyFound(key, field);
    } else {
      ShortKeyFound(key, field);
      NotReserved(key);
    }
  }

  lemma NotReserved(key: string)
    requires UserKey(key)
    ensures !Reserved(key) && key != HIERARCH
  {
  }

  lemma NoEqualsInPart(key: string)
    requires '=' !in key
    ensures '=' !in KeyPart(key)
  {
  }

  lemma FirstEquals(part: string, field: string)
    requires '=' !in part && field != "" && EndsInk(field)
    ensures var card := part + "= " + field; TrimEnd(card) == card && card != "" && Find(card, '=') == |part| < |card|
  {
    var card := part + "= " + field;
    assert EndsInk(card);
    assert card == part + ['='] + (" " + field);
    FindIn(part, '=', " " + field);
  }

  lemma ShortKeyFound(key: string, field: string)
    requires !IsHierarch(key) && Trim(key) == key
    ensures KeyColumns(PadTo(key, 8) + "= " + field) == key
  {
    var card := PadTo(key, 8) + "= " + field;
    assert card[..8] == PadTo(key, 8) == "" + key + Spaces(8 - |key|);
    TrimIsInk(key);
    hide Trim;
    TrimOf("", key, Spaces(8 - |key|));
  }

  lemma LongKeyFound(key: string, field: string)
    requires IsHierarch(key) && Trim(key) == key && '=' !in key && field != "" && EndsInk(field)
    ensures var card := HierarchKey(key) + "= " + field;
      KeyColumns(card) == HIERARCH && LongKey(card) == Some(key)
  {
    var part := HierarchKey(key);
    var card := part + "= " + field;
    assert '=' !in part;
    FirstEquals(part, field);
    TrimIsInk(key);
    hide Trim, Find;
    HierarchColumns(key, card);
    assert card[8..|part|] == " " + key + " ";
    TrimOf(" ", key, " ");
  }

  lemma HierarchColumns(key: string, card: string)
    requires HierarchKey(key) <= card
    ensures KeyColumns(card) == HIERARCH
  {
    assert card[..8] == HIERARCH && PlainKey(HIERARCH);
    hide Trim;
    PlainLooksUp(HIERARCH);
  }

  // ===== what the builders print is one chain =====

  // A field marked as going on is seen as such.
  lemma MarkedField(blanks: string, piece: string)
    requires Blank(blanks)
    ensures AmpField(blanks + QuotedField(piece, "&", ""))
  {
    var raw := "'" + (Escape(piece) + ("&" + "'"));
    SplitMarked(blanks, piece);
    ExtractQuoted(piece, "&");
    hide Escape, QuotedField, SplitValueComment, Quoted;
    assert raw[1..|raw| - 1] == Escape(piece) + "&";
  }

  lemma SplitMarked(blanks: string, piece: string)
    requires Blank(blanks)
    ensures SplitValueComment(blanks + QuotedField(piece, "&", "")).raw == "'" + (Escape(piece) + ("&" + "'"))
  {
    assert CommentTail("") == "" && "" + "" == "";
    hide Escape, QuotedField, SplitValueComment;
    SplitQuoted(blanks, piece, "&", "", "");
  }

  // Line k as a card in the header.
  lemma LineCard(key: string, cards: seq<string>, pieces: seq<string>, end: Option<string>, k: nat)
    requires IsChain(cards, KeyPart(key) + "= ", pieces, end) && k < |pieces| == |cards|
    requires end.Some? ==> StartsInk(end.value) && EndsInk(end.value)
    ensures TrimEnd(cards[k])
         == Lead(KeyPart(key) + "= ", k) + QuotedField(pieces[k], MarkAt(pieces, end, k),
              CommentGap(CommentOn(pieces, end, k)) + CommentTail(CommentOn(pieces, end, k)))
  {
    hide QuotedField, TrimEnd, PadToCard, KeyPart, MarkAt, CommentOn;
    TrimmedLine(KeyPart(key) + "= ", pieces, end, k);
    LineAt(KeyPart(key) + "= ", pieces, end, k);
  }

  lemma FieldInk(piece: string, mark: string, comment: string)
    requires StartsInk(comment) && EndsInk(comment)
    ensures var f := QuotedField(piece, mark, CommentGap(comment) + CommentTail(comment)); f != "" && EndsInk(f)
  {
    hide Escape;
    FieldEndsInk("", piece, mark, CommentGap(comment) + CommentTail(comment));
    var f := QuotedField(piece, mark, CommentGap(comment) + CommentTail(comment));
    assert "" + f == f;
  }

  lemma FirstIsKeyed(key: string, cards: seq<string>, pieces: seq<string>, end: Option<string>)
    requires Stored(key) && IsChain(cards, KeyPart(key) + "= ", pieces, end) && pieces != []
    requires end.Some? ==> StartsInk(end.value) && EndsInk(end.value)
    ensures cards != [] && FindKey(cards[0]) == Some(LookupKey(key))
  {
    LineCard(key, cards, pieces, end, 0);
    assert StartsInk(CommentOn(pieces, end, 0)) && EndsInk(CommentOn(pieces, end, 0));
    hide QuotedField, TrimEnd, KeyPart, MarkAt, CommentOn, FindKey, Stored, LookupKey, StartsInk, EndsInk;
    FieldInk(pieces[0], MarkAt(pieces, end, 0), CommentOn(pieces, end, 0));
    KeyFound(key,
             QuotedField(pieces[0], MarkAt(pieces, end, 0),
                         CommentGap(CommentOn(pieces, end, 0)) + CommentTail(CommentOn(pieces, end, 0))));
    TrimmedSame(cards[0]);
  }

  lemma OpenIsAmp(key: string, cards: seq<string>, pieces: seq<string>, end: Option<string>, k: nat)
    requires Stored(key) && IsChain(cards, KeyPart(key) + "= ", pieces, end) && k + 1 < |pieces| == |cards|
    requires end.Some? ==> StartsInk(end.value) && EndsInk(end.value)
    ensures AmpCard(cards[k])
  {
    OpenLineCard(key, cards, pieces, end, k);
    NoContinue(key);
    var field := QuotedField(pieces[k], "&", "");
    hide *;
    if k == 0 {
      StoredHasNoEquals(key);
      NoEqualsInPart(key);
      MarkedBlank(pieces[k], " ");
      KeyedAmp(KeyPart(key), field, cards[0]);
    } else {
      MarkedBlank(pieces[k], "  ");
      ContinueAmp(field, cards[k]);
    }
  }

  lemma MarkedBlank(piece: string, blanks: string)
    requires blanks == " " || blanks == "  "
    ensures AmpField(blanks + QuotedField(piece, "&", ""))
  {
    assert Blank(blanks);
    hide AmpField, QuotedField;
    MarkedField(blanks, piece);
  }

  lemma StoredHasNoEquals(key: string)
    requires Stored(key)
    ensures '=' !in key
  {
  }

  lemma OpenLineCard(key: string, cards: seq<string>, pieces: seq<string>, end: Option<string>, k: nat)
    requires IsChain(cards, KeyPart(key) + "= ", pieces, end) && k + 1 < |pieces| == |cards|
    requires end.Some? ==> StartsInk(end.value) && EndsInk(end.value)
    ensures TrimEnd(cards[k])
         == (if k == 0 then KeyPart(key) + "= " else "CONTINUE  ") + QuotedField(pieces[k], "&", "")
  {
    LineCard(key, cards, pieces, end, k);
    assert CommentGap("") + CommentTail("") == "";
    hide QuotedField, TrimEnd, KeyPart, IsChain;
  }

  lemma NoContinue(key: string)
    requires Stored(key)
    ensures |KeyPart(key)| >= 8 && KeyPart(key)[..8] != "CONTINUE"
  {
    if IsHierarch(key) {
      assert KeyPart(key)[..8] == HIERARCH;
    } else {
      ShortPart(key);
    }
  }

  lemma ShortPart(key: string)
    requires |key| <= 8 && key != "CONTINUE"
    ensures |PadTo(key, 8)| == 8 && PadTo(key, 8)[..8] != "CONTINUE"
  {
    if |key| < 8 {
      assert PadTo(key, 8)[7] == ' ';
    }
  }

  lemma ContinueAmp(field: string, card: string)
    requires TrimEnd(card) == "CONTINUE  " + field && AmpField("  " + field)
    ensures AmpCard(card)
  {
    hide AmpField, TrimEnd;
    assert TrimEnd(card)[8..] == "  " + field;
    assert TrimEnd(card)[..8] == "CONTINUE";
  }

  lemma KeyedAmp(part: string, field: string, card: string)
    requires '=' !in part && |part| >= 8 && part[..8] != "CONTINUE"
    requires TrimEnd(card) == part + "= " + field && AmpField(" " + field)
    ensures AmpCard(card)
  {
    hide AmpField, TrimEnd, Find;
    KeyedSplit(part, field);
    NotContinued(part, field);
  }

  lemma KeyedSplit(part: string, field: string)
    requires '=' !in part
    ensures var t := part + "= " + field; Find(t, '=') == |part| < |t| && t[|part| + 1..] == " " + field
  {
    var t := part + "= " + field;
    assert t == part + ['='] + (" " + field);
    hide Find;
    FindIn(part, '=', " " + field);
  }

  lemma NotContinued(part: string, field: string)
    requires |part| >= 8 && part[..8] != "CONTINUE"
    ensures !StartsWith(part + "= " + field, "CONTINUE")
  {
    var t := part + "= " + field;
    assert t[..8] == part[..8];
  }

  lemma RestContinues(key: string, cards: seq<string>, pieces: seq<string>, end: Option<string>, k: nat)
    requires IsChain(cards, KeyPart(key) + "= ", pieces, end) && 0 < k < |pieces| == |cards|
    requires end.Some? ==> StartsInk(end.value) && EndsInk(end.value)
    ensures IsContinue(cards[k])
  {
    LineCard(key, cards, pieces, end, k);
    var field := QuotedField(pieces[k], MarkAt(pieces, end, k),
                             CommentGap(CommentOn(pieces, end, k)) + CommentTail(CommentOn(pieces, end, k)));
    assert TrimEnd(cards[k]) == "CONTINUE  " + field;
    hide *;
    LeadContinues(cards[k], field);
  }

  lemma LeadContinues(card: string, field: string)
    requires TrimEnd(card) == "CONTINUE  " + field
    ensures IsContinue(card)
  {
    hide TrimEnd;
    assert TrimEnd(card)[..8] == "CONTINUE";
  }

  // The cards of a string are one chain that goes by its key.
  lemma LinesAreChain(key: string, cards: seq<string>, pieces: seq<string>, end: Option<string>)
    requires Stored(key) && IsChain(cards, KeyPart(key) + "= ", pieces, end) && pieces != []
    requires end.Some? ==> StartsInk(end.value) && EndsInk(end.value)
    ensures ChainFor(cards, LookupKey(key))
  {
    assert |cards| == |pieces| && UserKey(LookupKey(key));
    FirstIsKeyed(key, cards, pieces, end);
    hide IsChain, Stored, KeyPart, FindKey, LookupKey, IsContinue, AmpCard, UserKey, StartsInk, EndsInk;
    forall k | 0 <= k < |cards|
      ensures k > 0 ==> IsContinue(cards[k])
      ensures k + 1 < |cards| ==> AmpCard(cards[k])
    {
      if k > 0 { RestContinues(key, cards, pieces, end, k); }
      if k + 1 < |cards| { OpenIsAmp(key, cards, pieces, end, k); }
    }
  }

  lemma SingleIsChain(key: string, value: string, fill: string, gap: string, comment: string, card: string)
    requires Stored(key) && StartsInk(comment) && EndsInk(comment)
    requires TrimEnd(card) == KeyPart(key) + "= " + QuotedField(value, fill, gap + CommentTail(comment))
    requires comment == "" ==> gap == ""
    ensures ChainFor([card], LookupKey(key))
  {
    var field := QuotedField(value, fill, gap + CommentTail(comment));
    hide Escape, KeyPart, FindKey, LookupKey, TrimEnd, UserKey;
    FieldEndsInk("", value, fill, gap + CommentTail(comment));
    assert "" + field == field;
    KeyFound(key, field);
    TrimmedSame(card);
  }

  // What a header answers for a key after a string was set under it.
  function Answer(key: string, value: string, comment: string): (r: Entry)
    requires |comment| < 65 || IsHierarch(key)
  {
    if !IsHierarch(key) then
      if LastCardFits(value, comment) then Entry(Text(value), ShownComment(value, comment))
        else Entry(Text(value + "&"), "")
    else if |HierarchSingle(key, value, comment)| <= CARD_SIZE || TailFits(key, value, comment)
      then Entry(Text(value), comment)
    else Entry(Text(value + "&"), "")
  }

  // The printed cards of a string value, under either kind of key.
  ghost predicate Printout(cards: seq<string>, key: string, value: string, comment: string) {
    if IsHierarch(key) then |key| <= 64 && FirstCardFits(key, value) && HierarchBuilt(cards, key, value, comment)
    else |comment| < 65 && Built(cards, key, value, comment)
  }

  lemma PrintoutIsChain(key: string, value: string, comment: string, cards: seq<string>)
    requires Stored(key) && EndsInk(value) && StartsInk(comment) && EndsInk(comment)
    requires Printout(cards, key, value, comment)
    ensures ChainFor(cards, LookupKey(key))
  {
    if IsHierarch(key) {
      HierarchIsChain(key, value, comment, cards);
    } else {
      StandardIsChain(key, value, comment, cards);
    }
  }

  lemma PrintedIsChain(key: string, value: string, end: Option<string>, cards: seq<string>)
    requires Stored(key) && Printed(cards, KeyPart(key) + "= ", value, end)
    requires end.Some? ==> StartsInk(end.value) && EndsInk(end.value)
    ensures ChainFor(cards, LookupKey(key))
  {
    hide IsChain, Stored, KeyPart, LookupKey, StartsInk, EndsInk, ChainFor, Flatten;
    var pieces :| pieces != [] && Flatten(pieces) == value && IsChain(cards, KeyPart(key) + "= ", pieces, end)
                  && (end.Some? && EndsInk(value) ==> EndsInk(pieces[|pieces| - 1]));
    LinesAreChain(key, cards, pieces, end);
  }

  lemma StandardIsChain(key: string, value: string, comment: string, cards: seq<string>)
    requires Stored(key) && !IsHierarch(key) && StartsInk(comment) && EndsInk(comment)
    requires |comment| < 65 && Built(cards, key, value, comment)
    ensures ChainFor(cards, LookupKey(key))
  {
    if |Escape(value)| <= LastPayload(comment) {
      hide Escape, QuotedField, CardString, TrimEnd, PadTo, Stored, LookupKey, StartsInk, EndsInk, ChainFor;
      CardStringShows(key, value, comment);
      GapWithComment(value, comment);
      SingleIsChain(key, value, ValueFill(value), StringGap(value, comment), ShownComment(value, comment), cards[0]);
      assert cards == [cards[0]];
    } else {
      hide Escape, Printed, Stored, LookupKey, StartsInk, EndsInk, ChainFor, PadTo;
      PrintedIsChain(key, value, if LastCardFits(value, comment) then Some(comment) else None, cards);
    }
  }

  lemma GapWithComment(value: string, comment: string)
    requires |comment| < 65 && StartsInk(comment)
    ensures ShownComment(value, comment) == "" ==> StringGap(value, comment) == ""
  {
    if |comment| > 47 {
      assert comment[..47][0] != ' ';
      KeepsFirst(comment[..47]);
    }
  }

  lemma {:induction false} KeepsFirst(s: string)
    requires s != "" && s[0] != ' '
    ensures TrimEnd(s) != ""
  {
    if !EndsInk(s) {
      KeepsFirst(s[..|s| - 1]);
    }
  }

  lemma HierarchIsChain(key: string, value: string, comment: string, cards: seq<string>)
    requires Stored(key) && IsHierarch(key) && EndsInk(value) && StartsInk(comment) && EndsInk(comment)
    requires FirstCardFits(key, value) && HierarchBuilt(cards, key, value, comment)
    ensures ChainFor(cards, LookupKey(key))
  {
    if |HierarchSingle(key, value, comment)| <= CARD_SIZE {
      hide Escape, QuotedField, TrimEnd, PadTo, Stored, LookupKey, StartsInk, EndsInk, ChainFor, PadToCard, HierarchKey;
      SingleLine(HierarchLead(key), value, CommentGap(comment), comment);
      TrimPadded(HierarchSingle(key, value, comment));
      TailEndsInk(HierarchLead(key), value, ValueFill(value), CommentGap(comment), comment);
      SingleIsChain(key, value, ValueFill(value), CommentGap(comment), comment, cards[0]);
      assert cards == [cards[0]];
    } else {
      hide Escape, Printed, Stored, LookupKey, StartsInk, EndsInk, ChainFor, HierarchKey;
      PrintedIsChain(key, value, if TailFits(key, value, comment) then Some(comment) else None, cards);
    }
  }

  // ===== set, then look up =====

  lemma PrintoutReads(key: string, value: string, comment: string, cards: seq<string>, header: seq<string>, i: nat)
    requires Stored(key) && EndsInk(value) && StartsInk(comment) && EndsInk(comment)
    requires Printout(cards, key, value, comment)
    requires Holds(header, i, cards) && ChainEndsAt(header, i + |cards|)
    ensures i < |header| && ReadCard(header, i) == Some(Answer(key, value, comment))
  {
    hide Built, HierarchBuilt, Holds, ReadCard, StartsInk, EndsInk, LastCardFits, TailFits, HierarchSingle;
    hide ShownComment, StorageKey, LookupKey, UserKey, FirstCardFits;
    if IsHierarch(key) {
      HierarchReads(key, value, comment, cards, header, i);
    } else {
      BuiltReads(key, value, comment, cards, header, i);
    }
  }

  // Setting a string answers with it: the value and the comment when the last
  // card had room for both; every other key answers as before, and the header
  // stays well formed.
  lemma SetStringThenLookup(cards: seq<string>, key: string, value: string, comment: string, new_: seq<string>)
    requires WellFormed(cards) && Stored(key) && EndsInk(value) && StartsInk(comment) && EndsInk(comment)
    requires Printout(new_, key, value, comment)
    ensures var r := SetCards(cards, LookupKey(key), new_);
      && WellFormed(r)
      && Lookup(r, LookupKey(key)) == Some(Answer(key, value, comment))
      && forall other :: other != LookupKey(key) && UserKey(other) ==> Lookup(r, other) == Lookup(cards, other)
  {
    hide *;
    var lookup := LookupKey(key);
    PrintoutIsChain(key, value, comment, new_);
    SetKeepsWellFormed(cards, lookup, new_);
    SetThenFind(cards, lookup, new_);
    PrintoutReads(key, value, comment, new_, SetCards(cards, lookup, new_), SetRange(cards, lookup).0);
    forall other | other != lookup && UserKey(other)
      ensures Lookup(SetCards(cards, lookup, new_), other) == Lookup(cards, other)
    {
      SetKeepsOtherLookups(cards, lookup, new_, other);
    }
  }

  // existing_storage_keyword gives up at the first blank card.
  function ExistingSpelling(cards: seq<string>, lookup: string): (r: Option<string>) {
    if cards == [] || TrimEnd(cards[0]) == "" then None
    else if EditKey(cards[0]) == Some(lookup) then Some(StorageKey(KeywordOf(cards[0]).value))
    else ExistingSpelling(cards[1..], lookup)
  }

  method FindSpelling(cards: seq<string>, lookup: string) returns (spelling: Option<string>)
    ensures spelling == ExistingSpelling(cards, lookup)
  {
    hide KeywordOf, StorageKey, LookupKey, Reserved;
    assert cards[0..] == cards;
    for i := 0 to |cards|
      invariant ExistingSpelling(cards[i..], lookup) == ExistingSpelling(cards, lookup)
    {
      assert cards[i..][1..] == cards[i + 1..];
      BlankHasNoKeyword(cards[i]);
      var kw := KeywordOf(cards[i]);
      if kw.None? {
        return None;
      }
      if !Reserved(kw.value) && LookupKey(kw.value) == lookup {
        return Some(StorageKey(kw.value));
      }
    }
    spelling := None;
  }

  lemma BlankHasNoKeyword(card: string)
    ensures KeywordOf(card).None? <==> TrimEnd(card) == ""
  {
  }

  // So an existing spelling is kept exactly when no blank card comes before.
  lemma {:induction false} SpellingKeptIff(cards: seq<string>, lookup: string)
    ensures ExistingSpelling(cards, lookup).Some?
       <==> KeyAt(cards, lookup) < |cards| && forall k :: 0 <= k < KeyAt(cards, lookup) ==> TrimEnd(cards[k]) != ""
    ensures ExistingSpelling(cards, lookup).Some? ==>
      KeywordOf(cards[KeyAt(cards, lookup)]).Some?
      && ExistingSpelling(cards, lookup).value == StorageKey(KeywordOf(cards[KeyAt(cards, lookup)]).value)
  {
    if cards != [] {
      BlankHasNoKeyword(cards[0]);
      hide KeywordOf, StorageKey, LookupKey, TrimEnd, Reserved;
      if EditKey(cards[0]) != Some(lookup) {
        SpellingKeptIff(cards[1..], lookup);
        if TrimEnd(cards[0]) != "" {
          forall k | 0 <= k < KeyAt(cards, lookup)
            ensures TrimEnd(cards[k]) == if k == 0 then TrimEnd(cards[0]) else TrimEnd(cards[1..][k - 1])
          {
          }
        }
      }
    }
  }

  // ===== the user's key =====

  // validate_keyword
  predicate KeyChar(c: char, hierarch: bool) {
    || 'A' <= c <= 'Z' || 'a' <= c <= 'z' || '0' <= c <= '9' || c == '-' || c == '_'
    || (hierarch && (c == ' ' || c == '.' || c == '+'))
  }

  predicate ValidKey(key: string) {
    && key != "" && UpperCase(key) != HIERARCH
    && forall i :: 0 <= i < |key| ==> KeyChar(key[i], IsHierarch(key))
  }

  lemma KeyCharIs(c: char, hierarch: bool)
    ensures KeyChar(c, hierarch) <==>
      'A' <= c <= 'Z' || 'a' <= c <= 'z' || '0' <= c <= '9' || c in "-_" || (hierarch && c in " .+")
  {
  }

  lemma HierarchWord(key: string)
    ensures UpperCase(key) == HIERARCH <==> SameLetters(key, "HIERARCH")
  {
    UpperTwice(HIERARCH);
    SameWhenUpper(key, HIERARCH);
    assert UpperCase(HIERARCH) == HIERARCH;
  }

  // The keys a user may set: letters, digits, `-` and `_`, and in a long key
  // blanks, periods and plus signs too; neither nothing nor the word HIERARCH.
  method ValidateKeyword(key: string) returns (ok: bool)
    ensures ok <==>
      && key != "" && !SameLetters(key, "HIERARCH")
      && forall i :: 0 <= i < |key| ==>
           var c := key[i];
           || 'A' <= c <= 'Z' || 'a' <= c <= 'z' || '0' <= c <= '9' || c in "-_"
           || ((|key| > 8 || ' ' in key) && c in " .+")
    ensures ok <==> ValidKey(key)
  {
    hide SameLetters, KeyChar, UpperCase;
    HierarchWord(key);
    var hierarch := IsHierarch(key);
    forall i | 0 <= i < |key|
      ensures var c := key[i];
        KeyChar(c, hierarch) <==>
          || 'A' <= c <= 'Z' || 'a' <= c <= 'z' || '0' <= c <= '9' || c in "-_"
          || ((|key| > 8 || ' ' in key) && c in " .+")
    {
      KeyCharIs(key[i], hierarch);
    }
    if key == "" || UpperCase(key) == HIERARCH {
      return false;
    }
    for i := 0 to |key|
      invariant forall j :: 0 <= j < i ==> KeyChar(key[j], hierarch)
    {
      if !KeyChar(key[i], hierarch) {
        return false;
      }
    }
    ok := true;
  }

  lemma {:induction false} WordChars(s: string, c: char)
    requires c !in s && c != ' '
    ensures forall k :: 0 <= k < |Words(s)| ==> c !in Words(s)[k]
  {
    if s != "" {
      if s[0] == ' ' {
        WordChars(s[1..], c);
      } else {
        WordChars(s[Find(s, ' ')..], c);
      }
    }
  }

  lemma {:induction false} JoinChars(words: seq<string>, c: char)
    requires c != ' ' && forall k :: 0 <= k < |words| ==> c !in words[k]
    ensures c !in Join(words)
  {
    if |words| > 1 {
      JoinChars(words[1..], c);
    }
  }

  lemma TrimChars(s: string, c: char)
    requires c !in s
    ensures c !in Trim(s)
  {
    TrimStartChars(s, c);
    TrimEndCuts(TrimStart(s));
  }

  lemma {:induction false} TrimStartChars(s: string, c: char)
    requires c !in s
    ensures c !in TrimStart(s)
  {
    if !StartsInk(s) {
      TrimStartChars(s[1..], c);
    }
  }

  lemma StorageChars(key: string)
    requires '=' !in key
    ensures '=' !in StorageKey(key)
  {
    TrimChars(key, '=');
    var t := Trim(key);
    if IsHierarch(t) {
      WordChars(t, '=');
      JoinChars(Words(t), '=');
    }
  }

  lemma LookupIsUpper(key: string)
    ensures LookupKey(key) == UpperCase(StorageKey(key))
  {
    UpperTwice(Trim(key));
  }

  // Both spellings of a key have an `=` in them or neither.
  lemma EqualsInUpper(s: string)
    ensures '=' in UpperCase(s) <==> '=' in s
  {
    if '=' in s {
      var i :| 0 <= i < |s| && s[i] == '=';
      assert UpperCase(s)[i] == '=';
    }
  }

  lemma StorageTwice(key: string)
    ensures StorageKey(StorageKey(key)) == StorageKey(key)
  {
    var t := Trim(key);
    TrimIsInk(key);
    UpperTwice(t);
    if IsHierarch(t) {
      CollapsedKey(t);
    } else {
      UpperInk(t);
      TrimInk(UpperCase(t));
    }
  }

  // Any spelling of a user's key is stored in a form that is found again.
  lemma SpellingIsStored(key: string, spelling: string)
    requires LookupKey(spelling) == LookupKey(key) && UserKey(LookupKey(key)) && '=' !in key
    ensures Stored(StorageKey(spelling)) && LookupKey(StorageKey(spelling)) == LookupKey(key)
  {
    StorageChars(key);
    LookupIsUpper(key);
    LookupIsUpper(spelling);
    EqualsInUpper(StorageKey(key));
    EqualsInUpper(StorageKey(spelling));
    StorageTwice(spelling);
    StorageKeyLooksUp(spelling);
    hide LookupKey;
    StoredIsUserKey(spelling);
  }

  lemma StoredIsUserKey(key: string)
    requires UserKey(LookupKey(key))
    ensures UserKey(StorageKey(key)) && StorageKey(key) != ""
  {
    LookupIsUpper(key);
    UpperTwice(Trim(key));
    StorageKeyLooksUp(key);
    hide LookupKey, StorageKey;
    ReservedIsUpper(StorageKey(key));
  }

  lemma ReservedIsUpper(key: string)
    ensures !UserKey(key) ==> UpperCase(key) == key
  {
  }

  // ===== comments that are kept =====

  lemma JoinedInk(a: string, b: string)
    requires StartsInk(a) && EndsInk(a) && StartsInk(b) && EndsInk(b)
    ensures StartsInk(JoinComments(a, b)) && EndsInk(JoinComments(a, b))
  {
  }

  lemma SplitInk(valuePart: string)
    ensures var c := SplitValueComment(valuePart).comment; StartsInk(c) && EndsInk(c)
  {
    var at := CommentAt(valuePart, false);
    hide CommentAt, Trim;
    if at < |valuePart| {
      TrimIsInk(valuePart[at + 1..]);
    }
  }

  lemma {:induction false} ContinueInk(cards: seq<string>, i: nat, s: string, comment: string)
    requires StartsInk(comment) && EndsInk(comment)
    ensures var c := ContinueText(cards, i, s, comment).comment; StartsInk(c) && EndsInk(c)
    decreases |cards| - i
  {
    hide IsContinue, ContinueField, Quoted, ExtractString, JoinComments, StartsInk, EndsInk;
    hide SplitValueComment, EndsWithAmp;
    if EndsWithAmp(s) && i + 1 < |cards| && IsContinue(cards[i + 1]) && Quoted(ContinueField(cards[i + 1]).raw) {
      var f := ContinueField(cards[i + 1]);
      ContinueFieldInk(cards[i + 1]);
      JoinedInk(comment, f.comment);
      SomeText(s);
      ContinueInk(cards, i + 1, s[..|s| - 1] + ExtractString(f.raw), JoinComments(comment, f.comment));
    }
  }

  lemma ContinueFieldInk(card: string)
    ensures var c := ContinueField(card).comment; StartsInk(c) && EndsInk(c)
  {
    hide TrimEnd, SplitValueComment, StartsInk, EndsInk;
    var t := TrimEnd(card);
    SplitInk(if |t| > 8 then t[8..] else "");
  }

  // A comment is read without blanks around it, so it can be printed again.
  lemma LookupInk(cards: seq<string>, key: string)
    ensures Lookup(cards, key).Some? ==>
      StartsInk(Lookup(cards, key).value.comment) && EndsInk(Lookup(cards, key).value.comment)
  {
    var i := ValueAt(cards, key);
    hide ValueAt, TrimEnd, SplitValueComment, StartsInk, EndsInk, Quoted, ExtractString, ContinueText, Find;
    if i < |cards| {
      var card := TrimEnd(cards[i]);
      var eq := Find(card, '=');
      if eq < |card| {
        var f := SplitValueComment(card[eq + 1..]);
        SplitInk(card[eq + 1..]);
        if Quoted(f.raw) {
          ContinueInk(cards, i, ExtractString(f.raw), f.comment);
        }
      }
    }
  }

  // ===== a first card that is cut =====

  // The quotes of a first card that was cut no longer close, so the CONTINUE
  // card behind it goes on from nothing.
  lemma CutCardEndsNothing(key: string, card: string)
    requires |key| == 64 && '=' !in key && TrimEnd(card) == TrimEnd(PadToCard(OpenLine(HierarchLead(key), 0, [QUOTE])))
    ensures !AmpCard(card)
  {
    var field := [QUOTE, QUOTE, QUOTE, '&'];
    CutLine(key, field);
    KeyHasNoEquals(key);
    hide OpenLine, PadToCard, TrimEnd, HierarchKey;
    KeyedSplit(HierarchKey(key), field);
    SplitCutField(" " + field);
    NotAContinue(key, field);
  }

  lemma NotAContinue(key: string, field: string)
    ensures !StartsWith(HierarchKey(key) + "= " + field, "CONTINUE")
  {
    assert HierarchKey(key)[..8] == HIERARCH;
    NotContinued(HierarchKey(key), field);
  }

  lemma CutStringOrphans(cards: seq<string>, lookup: string, key: string, value: string, comment: string,
                         new_: seq<string>)
    requires WellFormed(cards) && IsHierarch(key) && |key| == 64 && '=' !in key
    requires HierarchBuilt(new_, key, value, comment) && !FirstCardFits(key, value)
    ensures !WellFormed(SetCards(cards, lookup, new_))
  {
    SetReplaces(cards, lookup);
    LongHierarch(key, value, comment);
    CutCardEndsNothing(key, new_[0]);
    assert IsContinue(new_[1]);
    var (lo, hi) := SetRange(cards, lookup);
    assert lo <= hi <= |cards|;
    hide *;
    TrimmedSame(new_[0]);
    TrimmedSame(new_[1]);
    SetIsSplice(cards, lookup, new_);
    SplicedOrphan(cards, lo, hi, TrimmedAll(new_));
    OrphanIsMalformed(SetCards(cards, lookup, new_));
  }

  lemma SetIsSplice(cards: seq<string>, key: string, new_: seq<string>)
    requires SetRange(cards, key).0 <= SetRange(cards, key).1 <= |cards|
    ensures SetCards(cards, key, new_)
         == Spliced(cards, SetRange(cards, key).0, SetRange(cards, key).1, TrimmedAll(new_))
  {
    hide SetRange, Spliced, TrimmedAll;
  }

  lemma SplicedOrphan(cards: seq<string>, lo: nat, hi: nat, new_: seq<string>)
    requires lo <= hi <= |cards| && |new_| > 1 && !AmpCard(new_[0]) && IsContinue(new_[1])
    ensures !NoOrphans(Spliced(cards, lo, hi, new_))
  {
    hide AmpCard, IsContinue, Spliced;
    SplicedAt(cards, lo, hi, new_, lo);
    SplicedAt(cards, lo, hi, new_, lo + 1);
    var r := Spliced(cards, lo, hi, new_);
    assert IsContinue(r[lo + 1]) && !AmpCard(r[lo]);
  }

  lemma OrphanIsMalformed(cards: seq<string>)
    requires !NoOrphans(cards)
    ensures !WellFormed(cards)
  {
  }

  lemma LongHierarch(key: string, value: string, comment: string)
    requires |key| == 64
    ensures |HierarchSingle(key, value, comment)| > CARD_SIZE
  {
    hide Escape;
  }

  // When the builders refuse a string.
  predicate Refused(key: string, value: string, comment: string) {
    if IsHierarch(key) then
      |HierarchSingle(key, value, comment)| > CARD_SIZE && (value == "" || |key| >= 65 || |comment| >= 65)
    else |comment| >= 65
  }

  function CommentOr(entry: Option<Entry>): (text: string) {
    match entry
    case Some(e) => e.comment
    case None => ""
  }

  lemma CommentIs(entry: Option<Entry>)
    ensures match entry
      case Some(e) => CommentOr(entry) == e.comment
      case None => CommentOr(entry) == ""
  {
  }

  function SpellingOr(existing: Option<string>, key: string): (text: string) {
    match existing
    case Some(spelling) => spelling
    case None => StorageKey(key)
  }

  // apply_setitem for a string value.  A key no user may set is refused.  The
  // comment kept is the one that was there, the spelling of a known key too.
  method SetString(list: CardList, key: string, value: string, explicitComment: Option<string>)
    returns (ok: bool, spelling: string, comment: string)
    requires WellFormed(list.cards) && (ValidKey(key) ==> UserKey(LookupKey(key))) && EndsInk(value)
    requires explicitComment.Some? ==> StartsInk(explicitComment.value) && EndsInk(explicitComment.value)
    modifies list
    ensures ValidKey(key) ==>
      comment == if explicitComment.Some? then explicitComment.value
                 else CommentOr(Lookup(old(list.cards), LookupKey(key)))
    ensures ValidKey(key) && explicitComment.None? ==>
      match Lookup(old(list.cards), LookupKey(key))
      case Some(entry) => comment == entry.comment
      case None => comment == ""
    ensures ValidKey(key) ==> spelling == SpellingOr(ExistingSpelling(old(list.cards), LookupKey(key)), key)
    ensures ValidKey(key) ==>
      match ExistingSpelling(old(list.cards), LookupKey(key))
      case Some(existing) => spelling == existing
      case None => spelling == StorageKey(key)
    ensures ValidKey(key) ==> LookupKey(spelling) == LookupKey(key)
    ensures ok <==> ValidKey(key) && !Refused(spelling, value, comment)
    ensures !ok ==> list.cards == old(list.cards)
    ensures ok ==> (WellFormed(list.cards) <==> FirstCardFits(spelling, value))
    ensures ok && FirstCardFits(spelling, value) ==>
      && (|comment| < 65 || IsHierarch(spelling))
      && Lookup(list.cards, LookupKey(key)) == Some(Answer(spelling, value, comment))
      && forall other :: other != LookupKey(key) && UserKey(other) ==>
        Lookup(list.cards, other) == Lookup(old(list.cards), other)
  {
    hide *;
    var valid := ValidateKeyword(key);
    if !valid {
      return false, "", "";
    }
    var lookup := LookupKey(key);
    ghost var before := list.cards;
    if explicitComment.Some? {
      comment := explicitComment.value;
    } else {
      comment := ExistingComment(list.cards, lookup);
    }
    var existing := FindSpelling(list.cards, lookup);
    spelling := if existing.Some? then existing.value else StorageKey(key);
    SpellingIs(existing, key);
    CommentIs(Lookup(list.cards, lookup));
    ValidHasNoEquals(key);
    SpellingFound(list.cards, key);
    var new_;
    ok, new_ := BuildString(spelling, value, comment);
    if ok {
      list.SetCardForKey(lookup, new_);
      StringIsSet(before, lookup, spelling, value, comment, new_);
    }
  }

  lemma SpellingIs(existing: Option<string>, key: string)
    ensures SpellingOr(existing, key) == if existing.Some? then existing.value else StorageKey(key)
  {
  }

  lemma StringIsSet(cards: seq<string>, lookup: string, key: string, value: string, comment: string, new_: seq<string>)
    requires WellFormed(cards) && Stored(key) && LookupKey(key) == lookup
    requires EndsInk(value) && StartsInk(comment) && EndsInk(comment)
    requires BuiltAs(new_, key, value, comment)
    ensures var r := SetCards(cards, lookup, new_);
      && (WellFormed(r) <==> FirstCardFits(key, value))
      && (FirstCardFits(key, value) ==>
           && (|comment| < 65 || IsHierarch(key))
           && Lookup(r, lookup) == Some(Answer(key, value, comment))
           && forall other :: other != lookup && UserKey(other) ==> Lookup(r, other) == Lookup(cards, other))
  {
    hide WellFormed, Stored, LookupKey, HierarchBuilt, Built, SetCards, Lookup, Answer, UserKey, EndsInk, StartsInk;
    if FirstCardFits(key, value) {
      SetStringThenLookup(cards, key, value, comment, new_);
    } else {
      StoredHasNoEquals(key);
      LongIsHierarch(key);
      CutStringOrphans(cards, lookup, key, value, comment, new_);
    }
  }

  lemma LongIsHierarch(key: string)
    ensures |key| > 8 ==> IsHierarch(key)
  {
  }

  // What the builders return for a string they take.
  ghost predicate BuiltAs(cards: seq<string>, key: string, value: string, comment: string) {
    if IsHierarch(key) then |key| <= 64 && HierarchBuilt(cards, key, value, comment)
    else |key| <= 8 && |comment| < 65 && Built(cards, key, value, comment)
  }

  lemma ValidHasNoEquals(key: string)
    requires ValidKey(key)
    ensures '=' !in key
  {
  }

  lemma SpellingFound(cards: seq<string>, key: string)
    requires UserKey(LookupKey(key)) && '=' !in key
    ensures var e := ExistingSpelling(cards, LookupKey(key));
      var spelling := if e.Some? then e.value else StorageKey(key);
      Stored(spelling) && LookupKey(spelling) == LookupKey(key)
  {
    SpellingKeptIff(cards, LookupKey(key));
    KeyAtFirst(cards, LookupKey(key));
    var e, i := ExistingSpelling(cards, LookupKey(key)), KeyAt(cards, LookupKey(key));
    hide LookupKey, StorageKey, KeywordOf, Stored, KeyAt, ExistingSpelling, UserKey;
    if e.Some? {
      SpellingIsStored(key, KeywordOf(cards[i]).value);
    } else {
      SpellingIsStored(key, key);
    }
  }

  method ExistingComment(cards: seq<string>, lookup: string) returns (comment: string)
    ensures comment == CommentOr(Lookup(cards, lookup))
    ensures StartsInk(comment) && EndsInk(comment)
  {
    LookupInk(cards, lookup);
    hide ReadCard, ParseValue, ValueAt, FindKey;
    var found := FindCardForKey(cards, lookup);
    if found.None? {
      return "";
    }
    var (i, valuePart) := found.value;
    var entry := ParseValueWithContinue(cards, i, valuePart);
    comment := entry.comment;
  }

  // build_card_from_value for a string.
  method BuildString(key: string, value: string, comment: string) returns (ok: bool, cards: seq<string>)
    requires Stored(key)
    ensures ok <==> !Refused(key, value, comment)
    ensures ok ==> BuiltAs(cards, key, value, comment)
  {
    hide Stored, HierarchBuilt, Built, HierarchSingle;
    if IsHierarch(key) {
      var r := BuildHierarchStringCards(key, value, comment);
      HierarchKeyShort(key, value, comment);
      return r.Ok?, if r.Ok? then r.value else [];
    } else {
      var r := BuildStringValueCards(key, value, comment);
      return r.Ok?, if r.Ok? then r.value else [];
    }
  }

  lemma HierarchKeyShort(key: string, value: string, comment: string)
    ensures |HierarchSingle(key, value, comment)| <= CARD_SIZE ==> |key| <= 64
  {
    hide Escape;
  }

  // ===== the one key that breaks a header =====

  // CONTINUE is not refused as a key.  The card it prints goes before END and
  // is an orphan, unless the value before it happens to end in `&` -- and then
  // it is taken for the rest of that value.
  lemma ContinueAsKey(cards: seq<string>, card: string)
    requires WellFormed(cards) && KeyAt(cards, "CONTINUE") == |cards| && IsContinue(card)
    ensures NoOrphans(SetCards(cards, "CONTINUE", [card])) <==> |cards| > 1 && AmpCard(cards[|cards| - 2])
  {
    hide *;
    WellFormedParts(cards);
    SetBeforeEnd(cards, "CONTINUE", [card]);
    OneTrimmed(card);
    TrimmedSame(card);
    KeylessCards(cards[|cards| - 1]);
    SqueezedInto(cards, TrimEnd(card));
  }

  // A CONTINUE card squeezed in before the last card of a list.
  lemma SqueezedInto(cards: seq<string>, card: string)
    requires cards != [] && NoOrphans(cards) && IsContinue(card) && !IsContinue(cards[|cards| - 1])
    ensures NoOrphans(cards[..|cards| - 1] + [card] + [cards[|cards| - 1]])
       <==> |cards| > 1 && AmpCard(cards[|cards| - 2])
  {
    hide *;
    var before, end := cards[..|cards| - 1], cards[|cards| - 1];
    assert before + [end] == cards;
    Squeezed(before, card, end);
  }

  lemma WellFormedParts(cards: seq<string>)
    requires WellFormed(cards)
    ensures NoOrphans(cards) && EndsWithEnd(cards) && cards != [] && IsEnd(cards[|cards| - 1])
  {
  }

  lemma OneTrimmed(card: string)
    ensures TrimmedAll([card]) == [TrimEnd(card)]
  {
  }

  lemma SetBeforeEnd(cards: seq<string>, key: string, new_: seq<string>)
    requires EndsWithEnd(cards) && KeyAt(cards, key) == |cards|
    ensures SetCards(cards, key, new_) == cards[..|cards| - 1] + TrimmedAll(new_) + [cards[|cards| - 1]]
  {
    EndPositionIsLast(cards);
    hide IsEnd, KeyAt, EndPosition, TrimmedAll;
    assert cards[|cards| - 1..] == [cards[|cards| - 1]];
  }

  // A CONTINUE card before the last one.
  lemma Squeezed(before: seq<string>, card: string, end: string)
    requires NoOrphans(before + [end]) && IsContinue(card) && !IsContinue(end)
    ensures NoOrphans(before + [card] + [end]) <==> before != [] && AmpCard(before[|before| - 1])
  {
    hide IsContinue, AmpCard;
    var r, n := before + [card] + [end], |before|;
    assert r[n] == card && r[n + 1] == end;
    if before != [] {
      assert r[n - 1] == before[n - 1];
    }
    forall i | 0 <= i < n && IsContinue(r[i])
      ensures i > 0 && AmpCard(r[i - 1])
    {
      assert (before + [end])[i] == r[i];
      assert (before + [end])[i - 1] == r[i - 1];
    }
  }

  lemma ContinueCardPrints(value: string, comment: string)
    ensures IsContinue(CardString("CONTINUE", value, comment))
  {
    var card := CardString("CONTINUE", value, comment);
    hide Escape;
    assert PadTo("CONTINUE", 8) == "CONTINUE";
    assert card[..8] == "CONTINUE" && card[8] == '=';
    TrimEndCuts(card);
    KeepsEnough(card);
  }

  // So a string set under the key CONTINUE, in one card, leaves an orphan
  // unless the value before END ends in `&`.
  lemma ContinueKeySet(cards: seq<string>, value: string, comment: string)
    requires WellFormed(cards) && KeyAt(cards, "CONTINUE") == |cards|
    ensures NoOrphans(SetCards(cards, "CONTINUE", [CardString("CONTINUE", value, comment)]))
       <==> |cards| > 1 && AmpCard(cards[|cards| - 2])
  {
    hide *;
    ContinueCardPrints(value, comment);
    ContinueAsKey(cards, CardString("CONTINUE", value, comment));
  }

  lemma KeepsEnough(card: string)
    requires |card| > 8 && card[8] == '='
    ensures |TrimEnd(card)| >= 9
  {
    InkStays(card, 9);
  }
}
