// Keywords: the form a key is looked up by, the form it is stored in, and
// what key a card answers to.
module HeaderKeys {
  import opened FitsBytes
  import opened CardText

  // ===== words =====

  // `split_whitespace()`
  function Words(s: string): (words: seq<string>) {
    if s == "" then []
    else if s[0] == ' ' then Words(s[1..])
    else [s[..Find(s, ' ')]] + Words(s[Find(s, ' ')..])
  }

  // `join(" ")`
  function Join(words: seq<string>): (text: string) {
    if words == [] then ""
    else if |words| == 1 then words[0]
    else words[0] + (" " + Join(words[1..]))
  }

  predicate IsWord(w: string) {
    w != "" && forall i :: 0 <= i < |w| ==> w[i] != ' '
  }

  predicate AllWords(words: seq<string>) {
    forall k :: 0 <= k < |words| ==> IsWord(words[k])
  }

  lemma {:induction false} WordsAreWords(s: string)
    ensures AllWords(Words(s))
  {
    if s != "" {
      if s[0] == ' ' {
        WordsAreWords(s[1..]);
      } else {
        WordsAreWords(s[Find(s, ' ')..]);
        var w := s[..Find(s, ' ')];
        assert forall i :: 0 <= i < |w| ==> w[i] in w;
      }
    }
  }

  lemma WordFirst(w: string, rest: string)
    requires IsWord(w) && (rest == "" || rest[0] == ' ')
    ensures Words(w + rest) == [w] + Words(rest)
  {
    WordEnds(w, rest);
    assert (w + rest)[..|w|] == w && (w + rest)[|w|..] == rest;
  }

  lemma {:induction false} JoinedWords(words: seq<string>)
    requires AllWords(words)
    ensures Words(Join(words)) == words
  {
    hide Words;
    if words == [] {
      NoWords();
    } else if |words| == 1 {
      WordFirst(words[0], "");
      NoWords();
      assert words[0] + "" == words[0];
    } else {
      JoinedWords(words[1..]);
      WordFirst(words[0], " " + Join(words[1..]));
      SkipGap(Join(words[1..]));
    }
  }

  lemma NoWords()
    ensures Words("") == []
  {
  }

  lemma SkipGap(s: string)
    ensures Words(" " + s) == Words(s)
  {
    assert (" " + s)[1..] == s;
  }

  lemma {:induction false} JoinInk(words: seq<string>)
    requires AllWords(words) && words != []
    ensures Join(words) != "" && Join(words)[0] != ' ' && Join(words)[|Join(words)| - 1] != ' '
  {
    if |words| > 1 {
      JoinInk(words[1..]);
    }
  }

  // ===== keys =====

  predicate IsHierarch(key: string) {
    |key| > 8 || ' ' in key
  }

  function Collapse(s: string): (text: string) {
    Join(Words(s))
  }

  // normalize_keyword
  function LookupKey(key: string): (text: string) {
    var t := Trim(key);
    UpperCase(if IsHierarch(t) then Collapse(t) else t)
  }

  // storage_keyword
  function StorageKey(key: string): (text: string) {
    var t := Trim(key);
    if IsHierarch(t) then Collapse(t) else UpperCase(t)
  }

  lemma TrimInk(s: string)
    requires s == "" || (s[0] != ' ' && s[|s| - 1] != ' ')
    ensures Trim(s) == s
  {
  }

  lemma {:induction false} TrimStartInk(s: string)
    ensures StartsInk(TrimStart(s))
      && (s != "" && s[|s| - 1] != ' ' ==> TrimStart(s) != "" && TrimStart(s)[|TrimStart(s)| - 1] != ' ')
  {
    if !StartsInk(s) {
      TrimStartInk(s[1..]);
    }
  }

  lemma TrimIsInk(s: string)
    ensures StartsInk(Trim(s)) && EndsInk(Trim(s))
  {
    TrimStartInk(s);
    TrimEndCuts(TrimStart(s));
  }

  lemma UpperKeepsBlanks(s: string, i: nat)
    requires i < |s|
    ensures (UpperCase(s)[i] == ' ') == (s[i] == ' ')
    ensures UpperChar(UpperChar(s[i])) == UpperChar(s[i])
  {
  }

  lemma UpperTwice(s: string)
    ensures UpperCase(UpperCase(s)) == UpperCase(s)
    ensures (' ' in UpperCase(s)) == (' ' in s)
    ensures IsHierarch(UpperCase(s)) == IsHierarch(s)
  {
    forall i | 0 <= i < |s|
      ensures (UpperCase(s)[i] == ' ') == (s[i] == ' ')
      ensures UpperChar(UpperChar(s[i])) == UpperChar(s[i])
    {
      UpperKeepsBlanks(s, i);
    }
    if ' ' in s {
      var i :| 0 <= i < |s| && s[i] == ' ';
      assert UpperCase(s)[i] in UpperCase(s);
    }
    if ' ' in UpperCase(s) {
      var i :| 0 <= i < |s| && UpperCase(s)[i] == ' ';
      assert s[i] in s;
    }
  }

  // Two words stay two words.
  lemma {:induction false} CollapseKeepsGaps(t: string)
    requires t != "" && StartsInk(t) && EndsInk(t)
    ensures Words(t) != []
    ensures ' ' in t ==> |Words(t)| > 1
    ensures ' ' !in t ==> Words(t) == [t]
  {
    var i := Find(t, ' ');
    if ' ' in t {
      InkHasWords(t[i..]);
    } else {
      assert i == |t| && t[..i] == t && t[i..] == "";
      assert Words("") == [];
    }
  }

  lemma {:induction false} InkHasWords(s: string)
    requires s != "" && EndsInk(s)
    ensures Words(s) != []
  {
    if s[0] == ' ' {
      InkHasWords(s[1..]);
    }
  }

  lemma JoinHasGap(words: seq<string>)
    requires |words| > 1
    ensures ' ' in Join(words)
  {
    var s := words[0] + (" " + Join(words[1..]));
    assert s[|words[0]|] == ' ';
  }

  lemma CollapsedKey(t: string)
    requires StartsInk(t) && EndsInk(t) && IsHierarch(t)
    ensures Trim(Collapse(t)) == Collapse(t) && IsHierarch(Collapse(t)) && Collapse(Collapse(t)) == Collapse(t)
  {
    CollapseKeepsGaps(t);
    WordsAreWords(t);
    var words := Words(t);
    hide Words;
    JoinInk(words);
    TrimInk(Join(words));
    JoinedWords(words);
    if |words| > 1 {
      JoinHasGap(words);
    }
  }

  // A key is found again by the spelling it is stored in.
  lemma StorageKeyLooksUp(key: string)
    ensures LookupKey(StorageKey(key)) == LookupKey(key)
    ensures StorageKey(key) == Trim(StorageKey(key))
    ensures IsHierarch(StorageKey(key)) == IsHierarch(Trim(key))
  {
    var t := Trim(key);
    TrimIsInk(key);
    UpperTwice(t);
    if IsHierarch(t) {
      CollapsedKey(t);
    } else {
      UpperInk(t);
      TrimInk(UpperCase(t));
    }
  }

  lemma UpperInk(t: string)
    requires StartsInk(t) && EndsInk(t)
    ensures UpperCase(t) == "" || (UpperCase(t)[0] != ' ' && UpperCase(t)[|t| - 1] != ' ')
  {
    if t != "" {
      UpperKeepsBlanks(t, 0);
      UpperKeepsBlanks(t, |t| - 1);
    }
  }

  // ===== the key of a card =====

  // Keywords that name no value.
  predicate Reserved(kw: string) {
    kw == "END" || kw == "COMMENT" || kw == "HISTORY" || kw == "" || kw == "CONTINUE"
  }

  // Columns 1 to 8 without the blanks around them.
  function KeyColumns(card: string): (text: string) {
    Trim(if |card| >= 8 then card[..8] else card)
  }

  const HIERARCH := "HIERARCH"

  // The long key of a HIERARCH card: what stands before the first `=`.
  function LongKey(card: string): (r: Option<string>) {
    var eq := Find(card, '=');
    if eq == |card| then None else Some(if eq >= 8 then Trim(card[8..eq]) else "")
  }

  // keyword_of
  function KeywordOf(card: string): (r: Option<string>) {
    var c := TrimEnd(card);
    if c == "" then None
    else if KeyColumns(c) == HIERARCH then
      match LongKey(c)
      case Some(kw) => Some(if kw != "" then kw else HIERARCH)
      case None => Some(HIERARCH)
    else Some(KeyColumns(c))
  }

  // The key under which set_card_for_key and delete_card_for_key know a card.
  function EditKey(card: string): (r: Option<string>) {
    match KeywordOf(card)
    case None => None
    case Some(kw) => if Reserved(kw) then None else Some(LookupKey(kw))
  }

  // The key under which find_card_for_key knows a card that has a value.
  function FindKey(card: string): (r: Option<string>) {
    var c := TrimEnd(card);
    var kw := KeyColumns(c);
    if c == "" || Reserved(kw) || Find(c, '=') == |c| then None
    else if kw == HIERARCH then Some(LookupKey(LongKey(c).value))
    else Some(LookupKey(kw))
  }

  // A key a user can set or delete: not one of the reserved words, nor the
  // bare prefix of the long ones.
  predicate UserKey(key: string) {
    !Reserved(key) && key != HIERARCH
  }

  // A standard keyword in capitals is its own lookup form.
  predicate PlainKey(kw: string) {
    |kw| <= 8 && forall i :: 0 <= i < |kw| ==> kw[i] != ' ' && !('a' <= kw[i] <= 'z')
  }

  lemma PlainLooksUp(kw: string)
    requires PlainKey(kw)
    ensures LookupKey(kw) == kw && Trim(kw) == kw && !IsHierarch(kw)
  {
    TrimInk(kw);
    assert UpperCase(kw) == kw;
  }

  lemma UpperWord(kw: string)
    requires Reserved(kw) || kw == HIERARCH
    ensures LookupKey(kw) == kw
  {
    assert PlainKey(kw);
    hide LookupKey;
    PlainLooksUp(kw);
  }

  // Both agree on the cards that have a value.
  lemma KeysAgree(card: string, key: string)
    requires UserKey(key)
    ensures FindKey(card) == Some(key) <==> EditKey(card) == Some(key) && Find(TrimEnd(card), '=') < |TrimEnd(card)|
  {
    var c := TrimEnd(card);
    var kw := KeyColumns(c);
    hide LookupKey, TrimEnd, KeyColumns;
    UpperWord("");
    UpperWord(HIERARCH);
    if c != "" && kw == HIERARCH && LongKey(c).Some? && Reserved(LongKey(c).value) {
      UpperWord(LongKey(c).value);
    }
  }

  // They part on a HIERARCH card without a keyword: the editor takes it for
  // one named HIERARCH, the reader for one without a name.
  lemma NamelessHierarch(value: string)
    requires value != "" && EndsInk(value)
    ensures var card := "HIERARCH= " + value;
            EditKey(card) == Some("HIERARCH") && FindKey(card) == Some("")
  {
    NamelessCard(value);
    UpperWord(HIERARCH);
    UpperWord("");
    hide LookupKey, Find, TrimEnd, KeyColumns, LongKey;
  }

  lemma NamelessCard(value: string)
    requires value != "" && EndsInk(value)
    ensures var card := "HIERARCH= " + value;
            && card != "" && TrimEnd(card) == card && KeyColumns(card) == HIERARCH
            && Find(card, '=') < |card| && LongKey(card) == Some("")
  {
    var card := "HIERARCH= " + value;
    assert EndsInk(card);
    assert card == HIERARCH + ['='] + (" " + value) && card[..8] == HIERARCH;
    TrimInk(HIERARCH);
    FindIn(HIERARCH, '=', " " + value);
    hide Find;
  }
}
