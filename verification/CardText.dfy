// Header text: padding, trimming, quote escaping and the split of a card's
// value field.  FITS restricts header text to the printable ASCII characters,
// so the only white space to trim is the blank.
module CardText {
  import opened FitsBytes

  const QUOTE: char := '\''

  datatype Result<T> = Ok(value: T) | Err(message: string)

  // ----- blanks -----

  function Spaces(n: nat): (s: string)
    ensures |s| == n
    ensures forall i :: 0 <= i < n ==> s[i] == ' '
  {
    seq(n, _ => ' ')
  }

  predicate Blank(s: string) {
    forall i :: 0 <= i < |s| ==> s[i] == ' '
  }

  predicate EndsInk(s: string) {
    s == [] || s[|s| - 1] != ' '
  }

  predicate StartsInk(s: string) {
    s == [] || s[0] != ' '
  }

  function TrimEnd(s: string): (t: string)
    ensures |t| <= |s| && EndsInk(t)
  {
    if EndsInk(s) then s else TrimEnd(s[..|s| - 1])
  }

  function TrimStart(s: string): (t: string)
    ensures |t| <= |s| && StartsInk(t)
  {
    if StartsInk(s) then s else TrimStart(s[1..])
  }

  function Trim(s: string): (text: string) {
    TrimEnd(TrimStart(s))
  }

  lemma {:induction false} TrimEndDrops(s: string, blanks: string)
    requires Blank(blanks)
    ensures TrimEnd(s + blanks) == TrimEnd(s)
  {
    if blanks == [] {
      assert s + blanks == s;
    } else {
      var n := |blanks| - 1;
      assert (s + blanks)[..|s| + n] == s + blanks[..n];
      TrimEndDrops(s, blanks[..n]);
    }
  }

  lemma {:induction false} TrimStartDrops(blanks: string, s: string)
    requires Blank(blanks)
    ensures TrimStart(blanks + s) == TrimStart(s)
  {
    if blanks == [] {
      assert blanks + s == s;
    } else {
      assert (blanks + s)[1..] == blanks[1..] + s;
      TrimStartDrops(blanks[1..], s);
    }
  }

  lemma TrimOf(before: string, s: string, after: string)
    requires Blank(before) && Blank(after) && StartsInk(s) && EndsInk(s)
    ensures Trim(before + s + after) == s
  {
    assert before + s + after == before + (s + after);
    TrimStartDrops(before, s + after);
    if s == [] {
      assert s + after == after + [];
      TrimStartDrops(after, []);
    } else {
      TrimEndDrops(s, after);
    }
  }

  lemma {:induction false} TrimEndCuts(s: string)
    ensures TrimEnd(s) <= s && Blank(s[|TrimEnd(s)|..])
  {
    if !EndsInk(s) {
      TrimEndCuts(s[..|s| - 1]);
      var t := TrimEnd(s);
      assert s[|t|..] == s[..|s| - 1][|t|..] + [' '];
    }
  }

  // Trimming stops at ink.
  lemma {:induction false} InkStays(s: string, n: nat)
    requires 0 < n <= |s| && s[n - 1] != ' '
    ensures |TrimEnd(s)| >= n
  {
    if !EndsInk(s) {
      InkStays(s[..|s| - 1], n);
    }
  }

  // `format!("{:<n}", s)`
  function PadTo(s: string, n: nat): (t: string)
    ensures |t| == Max(|s|, n) && s <= t
  {
    if |s| < n then s + Spaces(n - |s|) else s
  }

  // What a card occupies on disk: 80 columns, blank-filled or cut.
  function PadToCard(s: string): (t: string)
    ensures |t| == CARD_SIZE
  {
    if |s| < CARD_SIZE then s + Spaces(CARD_SIZE - |s|) else s[..CARD_SIZE]
  }

  lemma TrimPadded(s: string)
    requires |s| <= CARD_SIZE
    ensures TrimEnd(PadToCard(s)) == TrimEnd(s)
  {
    if |s| < CARD_SIZE {
      TrimEndDrops(s, Spaces(CARD_SIZE - |s|));
    } else {
      assert PadToCard(s) == s;
    }
  }

  lemma {:induction false} PadTrimmed(s: string)
    requires |s| <= CARD_SIZE
    ensures PadToCard(TrimEnd(s)) == PadToCard(s)
  {
    if !EndsInk(s) {
      var t := s[..|s| - 1];
      PadTrimmed(t);
      assert PadToCard(t) == PadToCard(s);
    }
  }

  // ----- case -----

  function UpperChar(c: char): (r: char) {
    if 'a' <= c <= 'z' then (c as int - 32) as char else c
  }

  function UpperCase(s: string): (t: string)
    ensures |t| == |s|
    ensures forall i :: 0 <= i < |s| ==> t[i] == UpperChar(s[i])
  {
    seq(|s|, i requires 0 <= i < |s| => UpperChar(s[i]))
  }

  // The same letters, capital or small.
  predicate SameLetters(a: string, b: string) {
    |a| == |b| && forall i :: 0 <= i < |a| ==> SameLetter(a[i], b[i])
  }

  predicate SameLetter(c: char, d: char) {
    c == d || ('a' <= c <= 'z' && c as int - 32 == d as int) || ('a' <= d <= 'z' && d as int - 32 == c as int)
  }

  lemma SameWhenUpper(a: string, b: string)
    ensures UpperCase(a) == UpperCase(b) <==> SameLetters(a, b)
  {
    var ua, ub := UpperCase(a), UpperCase(b);
    if ua == ub {
      forall i | 0 <= i < |a| ensures SameLetter(a[i], b[i]) {
        assert ua[i] == ub[i];
      }
    }
    if SameLetters(a, b) {
      forall i | 0 <= i < |a| ensures ua[i] == ub[i] {
        assert SameLetter(a[i], b[i]);
      }
    }
  }

  predicate StartsWith(s: string, prefix: string) {
    prefix <= s
  }

  predicate EndsWithAmp(s: string) {
    s != [] && s[|s| - 1] == '&'
  }

  // The position of the first c in s, or |s|.
  function Find(s: string, c: char): (i: nat)
    ensures i <= |s| && c !in s[..i] && (i < |s| ==> s[i] == c)
  {
    if s == [] || s[0] == c then 0 else 1 + Find(s[1..], c)
  }

  lemma {:induction false} FindIn(a: string, c: char, b: string)
    requires c !in a
    ensures Find(a + [c] + b, c) == |a|
  {
    if a != [] {
      assert (a + [c] + b)[1..] == a[1..] + [c] + b;
      FindIn(a[1..], c, b);
    }
  }

  // A word ends at the first blank behind it.
  lemma {:induction false} WordEnds(word: string, rest: string)
    requires forall i :: 0 <= i < |word| ==> word[i] != ' '
    requires rest == [] || rest[0] == ' '
    ensures Find(word + rest, ' ') == |word|
  {
    if word == [] {
      assert word + rest == rest;
    } else {
      assert (word + rest)[1..] == word[1..] + rest;
      WordEnds(word[1..], rest);
    }
  }

  // Cards as they are kept in memory: without their trailing blanks.
  function TrimmedAll(cards: seq<string>): (t: seq<string>)
    ensures |t| == |cards|
    ensures forall k :: 0 <= k < |cards| ==> t[k] == TrimEnd(cards[k])
  {
    seq(|cards|, k requires 0 <= k < |cards| => TrimEnd(cards[k]))
  }

  // ----- quote escaping -----

  // value.replace("'", "''")
  function Escape(v: string): (e: string)
    ensures |e| >= |v|
  {
    if v == [] then [] else EscapeChar(v[0]) + Escape(v[1..])
  }

  function EscapeChar(c: char): (e: string)
    ensures 1 <= |e| <= 2
  {
    if c == QUOTE then [QUOTE, QUOTE] else [c]
  }

  lemma {:induction false} NoQuotesToEscape(value: string)
    requires QUOTE !in value
    ensures Escape(value) == value
  {
    if value != [] {
      NoQuotesToEscape(value[1..]);
      assert value == [value[0]] + value[1..];
    }
  }

  // inner.replace("''", "'")
  function Unescape(e: string): (text: string) {
    if |e| >= 2 && e[0] == QUOTE && e[1] == QUOTE then [QUOTE] + Unescape(e[2..])
    else if e == [] then []
    else [e[0]] + Unescape(e[1..])
  }

  lemma {:induction false} EscapeConcat(a: string, b: string)
    ensures Escape(a + b) == Escape(a) + Escape(b)
  {
    hide EscapeChar;
    if a == [] {
      assert a + b == b;
    } else {
      EscapeConcat(a[1..], b);
      assert (a + b)[1..] == a[1..] + b && (a + b)[0] == a[0];
      assert Escape(a + b) == EscapeChar(a[0]) + (Escape(a[1..]) + Escape(b));
    }
  }

  lemma {:induction false} UnescapeEscape(v: string, t: string)
    requires QUOTE !in t
    ensures Unescape(Escape(v) + t) == v + t
  {
    hide EscapeChar, Unescape;
    if v == [] {
      assert Escape(v) + t == t && v + t == t;
      UnescapePlain(t);
    } else {
      UnescapeEscape(v[1..], t);
      assert Escape(v) + t == EscapeChar(v[0]) + (Escape(v[1..]) + t);
      UnescapeFirst(v[0], Escape(v[1..]) + t);
      assert v + t == [v[0]] + (v[1..] + t);
    }
  }

  lemma UnescapeFirst(c: char, rest: string)
    ensures Unescape(EscapeChar(c) + rest) == [c] + Unescape(rest)
  {
    var e := EscapeChar(c) + rest;
    assert e[|EscapeChar(c)|..] == rest;
  }

  lemma {:induction false} UnescapePlain(t: string)
    requires QUOTE !in t
    ensures Unescape(t) == t
  {
    if t != [] {
      UnescapePlain(t[1..]);
      assert t == [t[0]] + t[1..];
    }
  }

  // ----- the value field of a card -----

  // The offset of the `/` that starts the comment, or |s|: a `/` between
  // quotes does not count.
  function CommentAt(s: string, inString: bool): (i: nat)
    ensures i <= |s|
  {
    if s == [] then 0
    else if s[0] == QUOTE then 1 + CommentAt(s[1..], !inString)
    else if s[0] == '/' && !inString then 0
    else 1 + CommentAt(s[1..], inString)
  }

  datatype Field = Field(raw: string, comment: string)

  // split_value_comment
  function SplitValueComment(s: string): (r: Field) {
    var i := CommentAt(s, false);
    Field(Trim(s[..i]), if i < |s| then Trim(s[i + 1..]) else "")
  }

  lemma {:induction false} SkipEscaped(v: string, rest: string)
    ensures CommentAt(Escape(v) + rest, true) == |Escape(v)| + CommentAt(rest, true)
  {
    if v == [] {
      assert Escape(v) + rest == rest;
    } else {
      SkipEscaped(v[1..], rest);
      SkipEscapedChar(v[0], Escape(v[1..]) + rest);
      assert Escape(v) + rest == EscapeChar(v[0]) + (Escape(v[1..]) + rest);
    }
  }

  lemma SkipEscapedChar(c: char, rest: string)
    ensures CommentAt(EscapeChar(c) + rest, true) == |EscapeChar(c)| + CommentAt(rest, true)
  {
    var s := EscapeChar(c) + rest;
    if c == QUOTE {
      assert s[1..][1..] == rest;
    } else {
      assert s[1..] == rest;
    }
  }

  lemma {:induction false} SkipPlain(t: string, rest: string)
    requires QUOTE !in t
    ensures CommentAt(t + rest, true) == |t| + CommentAt(rest, true)
  {
    if t == [] {
      assert t + rest == rest;
    } else {
      SkipPlain(t[1..], rest);
      assert (t + rest)[1..] == t[1..] + rest;
    }
  }

  lemma {:induction false} SkipBlank(t: string, rest: string)
    requires Blank(t)
    ensures CommentAt(t + rest, false) == |t| + CommentAt(rest, false)
  {
    if t == [] {
      assert t + rest == rest;
    } else {
      SkipBlank(t[1..], rest);
      assert (t + rest)[1..] == t[1..] + rest;
    }
  }

  predicate Quoted(raw: string) {
    |raw| >= 2 && raw[0] == QUOTE && raw[|raw| - 1] == QUOTE
  }

  // extract_fits_string
  function ExtractString(raw: string): (text: string)
    requires Quoted(raw)
  {
    TrimEnd(Unescape(raw[1..|raw| - 1]))
  }

  lemma QuoteToggles(rest: string, inString: bool)
    ensures CommentAt("'" + rest, inString) == 1 + CommentAt(rest, !inString)
  {
    assert ("'" + rest)[1..] == rest;
  }

  // A quoted payload, a mark before the closing quote, and what follows it.
  function QuotedField(v: string, mark: string, after: string): (text: string) {
    "'" + (Escape(v) + (mark + ("'" + after)))
  }

  function CommentTail(comment: string): (text: string) {
    if comment == "" then "" else "/ " + comment
  }

  lemma CommentAfterQuoted(before: string, v: string, mark: string, gap: string, tail: string)
    requires Blank(before) && Blank(gap) && QUOTE !in mark
    requires tail == [] || tail[0] == '/'
    ensures CommentAt(before + QuotedField(v, mark, gap + tail), false)
         == |before| + |Escape(v)| + |mark| + |gap| + 2
  {
    assert CommentAt(tail, false) == 0;
    hide Escape, CommentAt;
    SkipBlank(before, QuotedField(v, mark, gap + tail));
    QuoteToggles(Escape(v) + (mark + ("'" + (gap + tail))), false);
    SkipEscaped(v, mark + ("'" + (gap + tail)));
    SkipPlain(mark, "'" + (gap + tail));
    QuoteToggles(gap + tail, true);
    SkipBlank(gap, tail);
  }

  lemma Assoc(a: string, b: string, c: string)
    ensures (a + b) + c == a + (b + c)
  {
  }

  lemma FieldIsBody(v: string, mark: string, after: string)
    ensures QuotedField(v, mark, after) == ("'" + (Escape(v) + (mark + "'"))) + after
  {
    var e := Escape(v);
    hide Escape;
    Assoc(mark, "'", after);
    Assoc(e, mark + "'", after);
    Assoc("'", e + (mark + "'"), after);
  }

  lemma SplitAtComment(before: string, body: string, gap: string, comment: string)
    requires Blank(before) && Blank(gap) && StartsInk(body) && EndsInk(body)
    requires StartsInk(comment) && EndsInk(comment)
    requires CommentAt(before + (body + (gap + CommentTail(comment))), false) == |before| + |body| + |gap|
    ensures SplitValueComment(before + (body + (gap + CommentTail(comment)))) == Field(body, comment)
  {
    var head, tail := before + body + gap, CommentTail(comment);
    hide *;
    AssocFour(before, body, gap, tail);
    TrimOf(before, body, gap);
    CommentBehindMark(comment);
    SplitAt(head, tail);
  }

  lemma AssocFour(a: string, b: string, c: string, d: string)
    ensures (a + b + c) + d == a + (b + (c + d))
  {
    Assoc(b, c, d);
    Assoc(a, b + c, d);
    Assoc(a, b, c);
  }

  lemma CommentBehindMark(comment: string)
    requires StartsInk(comment) && EndsInk(comment)
    ensures CommentTail(comment) == "" <==> comment == ""
    ensures comment != "" ==> Trim(CommentTail(comment)[1..]) == comment
  {
    if comment != "" {
      assert CommentTail(comment)[1..] == " " + comment + "";
      TrimOf(" ", comment, "");
    }
  }

  lemma SplitAt(head: string, tail: string)
    requires CommentAt(head + tail, false) == |head|
    ensures SplitValueComment(head + tail) == Field(Trim(head), if tail == "" then "" else Trim(tail[1..]))
  {
    hide CommentAt, Trim;
    assert (head + tail)[..|head|] == head;
    if tail != "" {
      assert (head + tail)[|head| + 1..] == tail[1..];
    }
  }

  // A quoted payload inside a value field comes back whole: the quotes that
  // close it are found, whatever the payload and the comment contain.
  lemma SplitQuoted(before: string, v: string, mark: string, gap: string, comment: string)
    requires Blank(before) && Blank(gap) && QUOTE !in mark
    requires StartsInk(comment) && EndsInk(comment)
    ensures SplitValueComment(before + QuotedField(v, mark, gap + CommentTail(comment)))
         == Field("'" + (Escape(v) + (mark + "'")), comment)
  {
    CommentAfterQuoted(before, v, mark, gap, CommentTail(comment));
    FieldIsBody(v, mark, gap + CommentTail(comment));
    hide Escape, CommentAt, SplitValueComment, QuotedField;
    SplitAtComment(before, "'" + (Escape(v) + (mark + "'")), gap, comment);
  }

  lemma ExtractQuoted(v: string, mark: string)
    requires QUOTE !in mark
    ensures Quoted("'" + (Escape(v) + (mark + "'")))
    ensures ExtractString("'" + (Escape(v) + (mark + "'"))) == TrimEnd(v + mark)
  {
    var raw := "'" + (Escape(v) + (mark + "'"));
    hide Escape, Unescape, TrimEnd;
    assert raw[1..|raw| - 1] == Escape(v) + mark;
    UnescapeEscape(v, mark);
  }
}
