// What a reader makes of a card, told by the card's text alone: numbers and
// words with their comments, chains with a comment on each card, and the key
// a card answers to.
module CardReadings {
  import opened FitsBytes
  import opened CardText
  import opened CardNumbers
  import opened StringCards
  import opened StringCardBuilders
  import opened HeaderKeys
  import opened HeaderEdit

  // ----- values without quotes -----

  lemma {:induction false} SkipBare(t: string, rest: string)
    requires QUOTE !in t && '/' !in t
    ensures CommentAt(t + rest, false) == |t| + CommentAt(rest, false)
  {
    if t == [] {
      assert t + rest == rest;
    } else {
      SkipBare(t[1..], rest);
      assert (t + rest)[1..] == t[1..] + rest;
    }
  }

  // A value field: blanks, a word, blanks, the comment.
  function BareField(before: string, raw: string, gap: string, comment: string): (field: string) {
    before + (raw + (gap + CommentTail(comment)))
  }

  predicate BareWord(raw: string) {
    QUOTE !in raw && '/' !in raw && StartsInk(raw) && EndsInk(raw)
  }

  lemma SplitBare(before: string, raw: string, gap: string, comment: string)
    requires Blank(before) && Blank(gap) && BareWord(raw) && StartsInk(comment) && EndsInk(comment)
    ensures SplitValueComment(BareField(before, raw, gap, comment)) == Field(raw, comment)
  {
    var tail := CommentTail(comment);
    assert CommentAt(tail, false) == 0;
    hide CommentAt, SplitValueComment, CommentTail;
    SkipBlank(before, raw + (gap + tail));
    SkipBare(raw, gap + tail);
    SkipBlank(gap, tail);
    SplitAtComment(before, raw, gap, comment);
  }

  // A card with a bare word reads as that word and its comment; one with no
  // value at all keeps its comment too.
  lemma BareCardReads(header: seq<string>, i: nat, keyPart: string, before: string, raw: string, gap: string,
                      comment: string)
    requires i < |header| && '=' !in keyPart && Blank(before) && Blank(gap)
    requires BareWord(raw) && StartsInk(comment) && EndsInk(comment)
    requires TrimEnd(header[i]) == keyPart + ("=" + BareField(before, raw, gap, comment))
    ensures ReadCard(header, i) == Some(Entry(if raw == "" then Undefined else Bare(raw), comment))
  {
    hide *;
    SplitBare(before, raw, gap, comment);
    ReadsField(header, i, keyPart, BareField(before, raw, gap, comment));
    ParsesBare(header, i, BareField(before, raw, gap, comment), raw, comment);
  }

  lemma ReadsField(header: seq<string>, i: nat, keyPart: string, field: string)
    requires i < |header| && '=' !in keyPart && TrimEnd(header[i]) == keyPart + ("=" + field)
    ensures ReadCard(header, i) == Some(ParseValue(header, i, field))
  {
    hide TrimEnd, ParseValue;
    KeyThenField(keyPart, field);
  }

  lemma ParsesBare(header: seq<string>, i: nat, field: string, raw: string, comment: string)
    requires SplitValueComment(field) == Field(raw, comment) && BareWord(raw)
    ensures ParseValue(header, i, field) == Entry(if raw == "" then Undefined else Bare(raw), comment)
  {
    hide SplitValueComment;
    if raw != "" {
      assert raw[0] in raw;
    }
  }

  lemma KeyThenField(keyPart: string, field: string)
    requires '=' !in keyPart
    ensures var card := keyPart + ("=" + field);
      Find(card, '=') == |keyPart| < |card| && card[|keyPart| + 1..] == field
  {
    var card := keyPart + ("=" + field);
    FindIn(keyPart, '=', "=" + field);
    assert card[|keyPart|] == '=';
    assert Find("=" + field, '=') == 0;
  }

  // ----- integer cards -----

  // The whole of an integer card whose comment fits.
  lemma IntCardText(key: string, value: int, comment: string)
    requires IsKey(key) && FitsI64(value) && |comment| <= 47 && EndsInk(comment)
    ensures CardIntTrimmed(key, value, comment)
         == PadTo(key, 8) + ("=" + BareField(" " + IntGap(value), IntText(value), if comment == "" then "" else " ",
                                             comment))
  {
    IntTextFits(value);
    hide IntText, TrimEnd;
    var tail := if comment == "" then "" else " / " + comment;
    var line := IntField(key, value) + tail;
    assert |line| <= 80 && EndsInk(line);
    TrimPadded(line);
    StaysTrimmed(line);
    assert " / " + comment == " " + ("/ " + comment);
    IntLine(PadTo(key, 8), IntGap(value), IntText(value), tail);
  }

  lemma StaysTrimmed(s: string)
    requires EndsInk(s)
    ensures TrimEnd(s) == s
  {
  }

  lemma IntLine(key: string, gap: string, text: string, tail: string)
    ensures key + "= " + (gap + text) + tail == key + ("=" + ((" " + gap) + (text + tail)))
  {
  }

  lemma BareNumber(value: int)
    ensures BareWord(IntText(value)) && IntText(value) != ""
  {
    hide Decimal;
  }

  // An integer card reads as its number and its comment.
  lemma IntCardValue(header: seq<string>, i: nat, key: string, value: int, comment: string)
    requires i < |header| && IsKey(key) && '=' !in key && FitsI64(value)
    requires |comment| <= 47 && StartsInk(comment) && EndsInk(comment)
    requires TrimEnd(header[i]) == CardIntTrimmed(key, value, comment)
    ensures ReadCard(header, i) == Some(Entry(Bare(IntText(value)), comment))
  {
    IntCardText(key, value, comment);
    BareNumber(value);
    BlankGap(value);
    assert '=' !in PadTo(key, 8);
    hide IntText, TrimEnd, CardIntTrimmed, ReadCard, BareField, BareWord, PadTo;
    BareCardReads(header, i, PadTo(key, 8), " " + IntGap(value), IntText(value), if comment == "" then "" else " ",
                  comment);
  }

  // ----- keys in any letter case -----

  // Two short words are one key when they have the same letters.
  lemma SameKeyIff(a: string, b: string)
    requires IsKey(a) && IsKey(b)
    ensures LookupKey(a) == LookupKey(b) <==> SameLetters(a, b)
  {
    TrimInk(a);
    TrimInk(b);
    SameWhenUpper(a, b);
  }

  // The key of a card with this keyword in its first eight columns.
  lemma CardKeyIs(card: string, key: string)
    requires IsKey(key) && UserKey(key) && |card| >= 9 && card[..8] == PadTo(key, 8) && card[8] == '='
    ensures FindKey(card) == Some(LookupKey(key))
  {
    KeyField(key);
    InkStays(card, 9);
    TrimEndCuts(card);
    hide TrimEnd, Trim, LookupKey;
    var c := TrimEnd(card);
    assert c[..8] == card[..8] && c[8] == card[8];
    EqualsIsThere(c);
  }

  lemma EqualsIsThere(c: string)
    requires |c| >= 9 && c[8] == '='
    ensures Find(c, '=') < |c|
  {
    FindAtMost(c, 8);
  }

  lemma {:induction false} FindAtMost(s: string, i: nat)
    requires i < |s| && s[i] == '='
    ensures Find(s, '=') <= i
  {
    if i > 0 && s[0] != '=' {
      FindAtMost(s[1..], i - 1);
    }
  }

  lemma {:induction false} FirstValue(cards: seq<string>, key: string, i: nat)
    requires i < |cards| && FindKey(cards[i]) == Some(key)
    requires forall j :: 0 <= j < i ==> FindKey(cards[j]) != Some(key)
    ensures ValueAt(cards, key) == i
  {
    hide FindKey;
    if i > 0 {
      FirstValue(cards[1..], key, i - 1);
    }
  }

  // So a look-up of an integer card, in any spelling of its key, gives the
  // number and the comment.
  lemma IntCardLookup(cards: seq<string>, i: nat, key: string, value: int, comment: string, asked: string)
    requires i < |cards| && IsKey(key) && UserKey(key) && '=' !in key && FitsI64(value)
    requires |comment| <= 47 && StartsInk(comment) && EndsInk(comment)
    requires cards[i] == CardIntTrimmed(key, value, comment)
    requires forall j :: 0 <= j < i ==> FindKey(cards[j]) != Some(LookupKey(key))
    requires IsKey(asked) && SameLetters(asked, key)
    ensures Lookup(cards, LookupKey(asked)) == Some(Entry(Bare(IntText(value)), comment))
  {
    hide LookupKey, FindKey, ReadCard, TrimEnd, IntText, CardIntTrimmed, SameLetters, UserKey;
    SameKeyIff(asked, key);
    IntCardText(key, value, comment);
    IntCardTrims(key, value, comment);
    CardKeyIs(cards[i], key);
    FirstValue(cards, LookupKey(key), i);
    IntCardValue(cards, i, key, value, comment);
  }

  lemma IntCardTrims(key: string, value: int, comment: string)
    ensures TrimEnd(CardIntTrimmed(key, value, comment)) == CardIntTrimmed(key, value, comment)
  {
    hide CardInt;
  }

  // ----- two cards, two comments -----

  // A chain of two cards, each with a comment, reads as one value and both
  // comments.
  lemma TwoCommentsRead(header: seq<string>, i: nat, keyPart: string, first: string, a: string, second: string,
                        b: string)
    requires i + 1 < |header| && '=' !in keyPart && StartsInk(a) && EndsInk(a) && StartsInk(b) && EndsInk(b)
    requires EndsInk(second) && !EndsWithAmp(first + second)
    requires TrimEnd(header[i]) == keyPart + ("=" + (" " + QuotedField(first, "&", " " + CommentTail(a))))
    requires TrimEnd(header[i + 1]) == "CONTINUE" + ("  " + QuotedField(second, "", " " + CommentTail(b)))
    ensures ReadCard(header, i)
         == Some(Entry(Text(first + second), if a != "" && b != "" then a + " " + b else a + b))
  {
    var f1 := " " + QuotedField(first, "&", " " + CommentTail(a));
    var f2 := "  " + QuotedField(second, "", " " + CommentTail(b));
    BlanksOnly();
    hide *;
    ReadsField(header, i, keyPart, f1);
    QuotedReads(" ", first, "&", " ", a);
    QuotedReads("  ", second, "", " ", b);
    TrimmedTexts(first, second);
    ContinueCard(header[i + 1], f2);
    TwoPieces(header, i, f1, f2, first, second);
  }

  lemma BlanksOnly()
    ensures Blank(" ") && Blank("  ") && QUOTE !in "&" && QUOTE !in ""
  {
  }

  lemma QuotedReads(before: string, v: string, mark: string, gap: string, comment: string)
    requires Blank(before) && Blank(gap) && QUOTE !in mark && StartsInk(comment) && EndsInk(comment)
    ensures var f := SplitValueComment(before + QuotedField(v, mark, gap + CommentTail(comment)));
      f.comment == comment && f.raw != "" && Quoted(f.raw) && ExtractString(f.raw) == TrimEnd(v + mark)
  {
    hide SplitValueComment, QuotedField, Escape, ExtractString, TrimEnd, CommentTail;
    SplitQuoted(before, v, mark, gap, comment);
    ExtractQuoted(v, mark);
  }

  // A string that does not end in `&` is read off its card alone, whatever
  // card comes next.
  lemma QuotedCardReads(header: seq<string>, i: nat, keyPart: string, value: string, mark: string, gap: string,
                        comment: string)
    requires i < |header| && '=' !in keyPart && Blank(mark) && Blank(gap) && StartsInk(comment) && EndsInk(comment)
    requires EndsInk(value) && !EndsWithAmp(value)
    requires TrimEnd(header[i]) == keyPart + ("=" + (" " + QuotedField(value, mark, gap + CommentTail(comment))))
    ensures ReadCard(header, i) == Some(Entry(Text(value), comment))
  {
    var field := " " + QuotedField(value, mark, gap + CommentTail(comment));
    TrimEndDrops(value, mark);
    StaysTrimmed(value);
    BlanksOnly();
    NoQuoteInBlanks(mark);
    hide QuotedField, TrimEnd, CommentTail, Blank, StartsInk, EndsInk, EndsWithAmp;
    ReadsField(header, i, keyPart, field);
    QuotedReads(" ", value, mark, gap, comment);
    WholeString(header, i, field, value);
  }

  lemma NoQuoteInBlanks(s: string)
    requires Blank(s)
    ensures QUOTE !in s
  {
  }

  lemma WholeString(header: seq<string>, i: nat, field: string, value: string)
    requires var f := SplitValueComment(field); f.raw != "" && Quoted(f.raw) && ExtractString(f.raw) == value
    requires !EndsWithAmp(value)
    ensures ParseValue(header, i, field) == Entry(Text(value), SplitValueComment(field).comment)
  {
    hide SplitValueComment, ExtractString, Quoted;
  }

  lemma TrimmedTexts(first: string, second: string)
    requires EndsInk(second)
    ensures TrimEnd(first + "&") == first + "&" && TrimEnd(second + "") == second
    ensures EndsWithAmp(first + "&") && (first + "&")[..|first + "&"| - 1] == first
  {
    assert second + "" == second;
  }

  lemma ContinueCard(card: string, rest: string)
    requires TrimEnd(card) == "CONTINUE" + rest && rest != ""
    ensures IsContinue(card) && ContinueField(card) == SplitValueComment(rest)
  {
    hide TrimEnd, SplitValueComment;
    assert ("CONTINUE" + rest)[8..] == rest;
  }

  lemma TwoPieces(header: seq<string>, i: nat, f1: string, f2: string, first: string, second: string)
    requires i + 1 < |header| && IsContinue(header[i + 1]) && ContinueField(header[i + 1]) == SplitValueComment(f2)
    requires var raw1, raw2 := SplitValueComment(f1).raw, SplitValueComment(f2).raw;
      && raw1 != "" && Quoted(raw1) && Quoted(raw2)
      && ExtractString(raw1) == first + "&" && ExtractString(raw2) == second
    requires EndsWithAmp(first + "&") && (first + "&")[..|first + "&"| - 1] == first && !EndsWithAmp(first + second)
    ensures var a, b := SplitValueComment(f1).comment, SplitValueComment(f2).comment;
      ParseValue(header, i, f1) == Entry(Text(first + second), if a != "" && b != "" then a + " " + b else a + b)
  {
    hide SplitValueComment, IsContinue, ContinueField, ExtractString, Quoted, EndsWithAmp;
    var a, b := SplitValueComment(f1).comment, SplitValueComment(f2).comment;
    assert a + "" == a && "" + b == b;
    var s := first + "&";
    assert s[..|s| - 1] + second == first + second;
    assert ContinueText(header, i + 1, first + second, JoinComments(a, b))
      == Entry(Text(first + second), JoinComments(a, b));
    assert ContinueText(header, i, s, a) == ContinueText(header, i + 1, first + second, JoinComments(a, b));
  }

  // ----- keys as they are stored -----

  // A short key is stored in capitals; a long one as it was spelt.
  lemma StoredForm(key: string)
    ensures IsKey(key) ==>
      SameLetters(StorageKey(key), key) && forall i :: 0 <= i < |key| ==> !('a' <= StorageKey(key)[i] <= 'z')
  {
    if IsKey(key) {
      TrimInk(key);
    }
  }

  lemma LongStoredForm(words: seq<string>)
    requires AllWords(words) && words != [] && IsHierarch(Join(words))
    ensures StorageKey(Join(words)) == Join(words)
  {
    JoinInk(words);
    TrimInk(Join(words));
    JoinedWords(words);
    hide Words, Join;
  }

  // Commentary and END answer no key, whatever stands behind them.
  lemma CommentaryHasNoKey(card: string, kw: string)
    requires kw == "COMMENT" || kw == "HISTORY" || kw == "END" || kw == "" || kw == "CONTINUE"
    requires |card| >= 9 && card[..8] == PadTo(kw, 8) && card[8] != ' '
    ensures FindKey(card) == None && EditKey(card) == None
  {
    TrimOf("", kw, Spaces(8 - |kw|));
    assert PadTo(kw, 8) == "" + kw + Spaces(8 - |kw|);
    InkStays(card, 9);
    TrimEndCuts(card);
    hide TrimEnd, Trim, LookupKey;
    assert TrimEnd(card)[..8] == card[..8];
  }

  // ----- numbers as keywords -----

  // A card without its `=` in column 9 says nothing.
  lemma CardWithoutEquals(card: string, rest: seq<string>, key: string)
    requires |card| < 9 || card[8] != '='
    ensures KeywordValue([card] + rest, key) == KeywordValue(rest, key)
  {
    assert ([card] + rest)[1..] == rest;
  }

  // Quotes and slashes stuck to a number do not hide it.
  lemma MarkedNumberReads(card: string, key: string, gap: string, value: int, marks: string, rest: string)
    requires IsKey(key) && FitsI64(value) && Blank(gap) && (rest == "" || rest[0] == ' ')
    requires forall i :: 0 <= i < |marks| ==> marks[i] == QUOTE || marks[i] == '/'
    requires |card| >= 9 && card[..8] == PadTo(key, 8) && card[8] == '='
    requires card[9..] == gap + ((IntText(value) + marks) + rest)
    ensures ReadKeyword(card, key) == Hit(Some(value))
  {
    KeyField(key);
    IntTextReads(value);
    DropMarks(IntText(value), marks);
    var word := IntText(value) + marks;
    hide IntText, Trim, FirstWord, TrimMarks, ParseInt, PadTo;
    forall i | 0 <= i < |word| ensures word[i] != ' ' {
      assert word[i] == if i < |IntText(value)| then IntText(value)[i] else marks[i - |IntText(value)|];
    }
    WordBehindBlanks(gap, word, rest);
  }

  lemma {:induction false} DropMarks(word: string, marks: string)
    requires word != "" && IsDigit(word[|word| - 1])
    requires forall i :: 0 <= i < |marks| ==> marks[i] == QUOTE || marks[i] == '/'
    ensures TrimMarks(word + marks) == word
  {
    if marks == "" {
      assert word + marks == word;
    } else {
      assert (word + marks)[..|word + marks| - 1] == word + marks[..|marks| - 1];
      DropMarks(word, marks[..|marks| - 1]);
    }
  }

  lemma PlusReads(n: nat)
    requires FitsI64(n)
    ensures ParseInt("+" + Decimal(n)) == Some(n)
  {
    DecimalReads(n);
    hide Decimal, DigitsValue;
    assert ("+" + Decimal(n))[1..] == Decimal(n);
  }

  lemma {:induction false} NotDigits(s: string, i: nat)
    requires i < |s| && !IsDigit(s[i])
    ensures DigitsValue(s) == None
  {
    if i < |s| - 1 {
      NotDigits(s[..|s| - 1], i);
    }
  }

  // The first card under a key with a word decides: one that is no number
  // hides the numbers on later cards.
  lemma WordDecides(cards: seq<string>, k: nat, key: string, gap: string, word: string, rest: string)
    requires k < |cards|
    requires forall j :: 0 <= j < k ==> |cards[j]| < 9 || Trim(cards[j][..8]) != key || cards[j][8] != '='
    requires IsKey(key) && Blank(gap) && (rest == "" || rest[0] == ' ')
    requires word != "" && 'A' <= word[0] <= 'Z' && forall i :: 0 <= i < |word| ==> word[i] != ' '
    requires |cards[k]| >= 9 && cards[k][..8] == PadTo(key, 8) && cards[k][8] == '='
    requires cards[k][9..] == gap + (word + rest)
    ensures KeywordValue(cards, key) == None
  {
    KeyField(key);
    WordBehindBlanks(gap, word, rest);
    MarksKeepFront(word);
    var w := TrimMarks(word);
    NotDigits(w, 0);
    hide FirstWord, TrimMarks, Trim, DigitsValue, PadTo;
    FirstHit(cards, key, k);
  }

  lemma {:induction false} MarksKeepFront(word: string)
    requires word != "" && 'A' <= word[0] <= 'Z'
    ensures TrimMarks(word) != "" && TrimMarks(word)[0] == word[0]
  {
    if word[|word| - 1] in {QUOTE, ' ', '/'} {
      MarksKeepFront(word[..|word| - 1]);
    }
  }

  // ----- columns of the fixed format -----

  // The closing quote comes at column 20 or later, and the slash of the
  // comment at column 32 when there is room.
  lemma StringColumns(key: string, value: string, comment: string)
    requires |key| <= 8 && |Escape(value)| <= 18 && comment != ""
    ensures var card := CardString(key, value, comment);
      && card[8] == '=' && card[9] == ' ' && card[10] == QUOTE
      && card[11 + Max(8, |Escape(value)|)] == QUOTE
      && card[31] == '/' && card[32] == ' ' && card[33] == comment[0]
      && forall k :: 12 + Max(8, |Escape(value)|) <= k < 31 ==> card[k] == ' '
  {
    hide Escape;
  }

  // A number ends in column 30, and the slash of the comment follows at 32.
  lemma NumberColumns(key: string, value: int, comment: string)
    requires |key| <= 8 && FitsI64(value) && comment != ""
    ensures var card := CardInt(key, value, comment);
      && card[8] == '=' && IsDigit(card[29]) && card[30] == ' ' && card[31] == '/' && card[33] == comment[0]
      && forall k :: 9 <= k < 30 - |IntText(value)| ==> card[k] == ' '
  {
    IntTextFits(value);
    hide Decimal, IntText;
  }
}
