// The card list edited in place: a value set, replaced or deleted together
// with its CONTINUE chain.
module HeaderEdit {
  import opened FitsBytes
  import opened CardText
  import opened StringCards
  import opened HeaderKeys

  // ===== chains =====

  // card_value_ends_with_amp: looks at the printed string, not at its text.
  predicate AmpCard(card: string) {
    var t := TrimEnd(card);
    var eq := Find(t, '=');
    if StartsWith(t, "CONTINUE") then AmpField(t[8..])
    else eq < |t| && AmpField(t[eq + 1..])
  }

  predicate AmpField(valuePart: string) {
    var raw := SplitValueComment(valuePart).raw;
    Quoted(raw) && EndsWithAmp(raw[1..|raw| - 1])
  }

  function ChainFrom(cards: seq<string>, end: nat): (e: nat)
    requires 0 < end <= |cards|
    ensures end <= e <= |cards|
    decreases |cards| - end
  {
    if end < |cards| && AmpCard(cards[end - 1]) && IsContinue(cards[end]) then ChainFrom(cards, end + 1) else end
  }

  // find_chain_end
  method FindChainEnd(cards: seq<string>, start: nat) returns (end: nat)
    requires start < |cards|
    ensures end == ChainFrom(cards, start + 1)
  {
    hide AmpCard, IsContinue;
    end := start + 1;
    while end < |cards| && AmpCard(cards[end - 1])
      invariant start < end <= |cards| && ChainFrom(cards, end) == ChainFrom(cards, start + 1)
    {
      if !IsContinue(cards[end]) {
        break;
      }
      end := end + 1;
    }
  }

  // ===== finding a key =====

  // The first card that goes by `key`, or |cards|.
  function KeyAt(cards: seq<string>, key: string): (i: nat)
    ensures i <= |cards|
  {
    if cards == [] || EditKey(cards[0]) == Some(key) then 0 else 1 + KeyAt(cards[1..], key)
  }

  // The first card with a value that goes by `key`, or |cards|.
  function ValueAt(cards: seq<string>, key: string): (i: nat)
    ensures i <= |cards|
  {
    if cards == [] || FindKey(cards[0]) == Some(key) then 0 else 1 + ValueAt(cards[1..], key)
  }

  // find_card_for_key: the card and what follows its `=`.
  method FindCardForKey(cards: seq<string>, key: string) returns (found: Option<(nat, string)>)
    ensures found.None? <==> ValueAt(cards, key) == |cards|
    ensures found.Some? ==>
      var (i, valuePart) := found.value;
      && i == ValueAt(cards, key) < |cards|
      && ReadCard(cards, i) == Some(ParseValue(cards, i, valuePart))
  {
    hide FindKey, ParseValue;
    assert cards[0..] == cards;
    for i := 0 to |cards|
      invariant ValueAt(cards, key) == i + ValueAt(cards[i..], key)
    {
      assert cards[i..][1..] == cards[i + 1..];
      if FindKey(cards[i]) == Some(key) {
        var card := TrimEnd(cards[i]);
        HasValue(cards[i]);
        return Some((i, card[Find(card, '=') + 1..]));
      }
    }
    found := None;
  }

  lemma HasValue(card: string)
    requires FindKey(card).Some?
    ensures Find(TrimEnd(card), '=') < |TrimEnd(card)|
  {
  }

  // What a user reads under a key.
  function Lookup(cards: seq<string>, key: string): (r: Option<Entry>) {
    var i := ValueAt(cards, key);
    if i == |cards| then None else ReadCard(cards, i)
  }

  predicate IsEnd(card: string) {
    TrimEnd(card) == "END"
  }

  // The first END card, or |cards|.
  function EndPosition(cards: seq<string>): (e: nat)
    ensures e <= |cards|
  {
    if cards == [] || IsEnd(cards[0]) then 0 else 1 + EndPosition(cards[1..])
  }

  function Spliced(cards: seq<string>, lo: nat, hi: nat, new_: seq<string>): (r: seq<string>)
    requires lo <= hi <= |cards|
    ensures |r| == |cards| - (hi - lo) + |new_|
  {
    cards[..lo] + new_ + cards[hi..]
  }

  // Card i of a spliced list: from before, from the new cards, or from after.
  lemma SplicedAt(cards: seq<string>, lo: nat, hi: nat, new_: seq<string>, i: nat)
    requires lo <= hi <= |cards| && i < |Spliced(cards, lo, hi, new_)|
    ensures Spliced(cards, lo, hi, new_)[i]
         == if i < lo then cards[i] else if i < lo + |new_| then new_[i - lo] else cards[i - |new_| - lo + hi]
  {
  }

  // Where a set writes: over the chain of an existing card, else before END.
  function SetRange(cards: seq<string>, key: string): (r: (nat, nat)) {
    var i := KeyAt(cards, key);
    if i < |cards| then (i, ChainFrom(cards, i + 1)) else (EndPosition(cards), EndPosition(cards))
  }

  function SetCards(cards: seq<string>, key: string, new_: seq<string>): (r: seq<string>) {
    var (lo, hi) := SetRange(cards, key);
    Spliced(cards, lo, hi, TrimmedAll(new_))
  }

  function DeleteCards(cards: seq<string>, key: string): (r: seq<string>) {
    var i := KeyAt(cards, key);
    if i < |cards| then Spliced(cards, i, ChainFrom(cards, i + 1), []) else cards
  }

  class CardList {
    var cards: seq<string>

    constructor (cards: seq<string>)
      ensures this.cards == cards
    {
      this.cards := cards;
    }

    // set_card_for_key
    method SetCardForKey(key: string, new_: seq<string>)
      modifies this
      ensures cards == SetCards(old(cards), key, new_)
    {
      hide EditKey, IsEnd, AmpCard, IsContinue;
      var start := FindEditKey(cards, key);
      if start < |cards| {
        var end := FindChainEnd(cards, start);
        cards := Spliced(cards, start, end, TrimmedAll(new_));
      } else {
        var end := FindEnd(cards);
        cards := Spliced(cards, end, end, TrimmedAll(new_));
      }
    }

    // delete_card_for_key
    method DeleteCardForKey(key: string) returns (removed: bool)
      modifies this
      ensures cards == DeleteCards(old(cards), key)
      ensures removed <==> KeyAt(old(cards), key) < |old(cards)|
    {
      hide EditKey, AmpCard, IsContinue;
      var start := FindEditKey(cards, key);
      removed := start < |cards|;
      if removed {
        var end := FindChainEnd(cards, start);
        cards := Spliced(cards, start, end, []);
      }
    }
  }

  // The search loop both edits begin with.
  method FindEditKey(cards: seq<string>, key: string) returns (start: nat)
    ensures start == KeyAt(cards, key)
  {
    hide EditKey;
    start := 0;
    assert cards[0..] == cards;
    while start < |cards|
      invariant start <= |cards| && KeyAt(cards, key) == start + KeyAt(cards[start..], key)
    {
      assert cards[start..][1..] == cards[start + 1..];
      if EditKey(cards[start]) == Some(key) {
        return;
      }
      start := start + 1;
    }
  }

  method FindEnd(cards: seq<string>) returns (end: nat)
    ensures end == EndPosition(cards)
  {
    hide IsEnd;
    end := 0;
    assert cards[0..] == cards;
    while end < |cards|
      invariant end <= |cards| && EndPosition(cards) == end + EndPosition(cards[end..])
    {
      assert cards[end..][1..] == cards[end + 1..];
      if IsEnd(cards[end]) {
        return;
      }
      end := end + 1;
    }
  }

  // ===== well-formed headers =====

  // Each CONTINUE card goes on from the card before it.
  predicate NoOrphans(cards: seq<string>) {
    forall i :: 0 <= i < |cards| && IsContinue(cards[i]) ==> i > 0 && AmpCard(cards[i - 1])
  }

  predicate UniqueKeys(cards: seq<string>) {
    forall i, j :: 0 <= i < j < |cards| && EditKey(cards[i]).Some? ==> EditKey(cards[i]) != EditKey(cards[j])
  }

  predicate EndsWithEnd(cards: seq<string>) {
    cards != [] && IsEnd(cards[|cards| - 1]) && forall i :: 0 <= i < |cards| - 1 ==> !IsEnd(cards[i])
  }

  predicate WellFormed(cards: seq<string>) {
    NoOrphans(cards) && UniqueKeys(cards) && EndsWithEnd(cards)
  }

  // The cards of one value: a card that goes by `key`, and its chain.
  predicate ChainFor(cards: seq<string>, key: string) {
    && cards != [] && FindKey(cards[0]) == Some(key) && UserKey(key)
    && (forall k :: 0 < k < |cards| ==> IsContinue(cards[k]))
    && (forall k :: 0 <= k < |cards| - 1 ==> AmpCard(cards[k]))
  }

  lemma TrimTwice(card: string)
    ensures TrimEnd(TrimEnd(card)) == TrimEnd(card)
  {
  }

  lemma TrimmedSame(card: string)
    ensures IsContinue(TrimEnd(card)) == IsContinue(card) && AmpCard(TrimEnd(card)) == AmpCard(card)
    ensures EditKey(TrimEnd(card)) == EditKey(card) && FindKey(TrimEnd(card)) == FindKey(card)
    ensures IsEnd(TrimEnd(card)) == IsEnd(card)
  {
    TrimTwice(card);
    hide TrimEnd, KeyColumns, LookupKey, AmpField;
  }

  // CONTINUE and END cards go by no key.
  lemma KeylessCards(card: string)
    ensures IsContinue(card) || IsEnd(card) ==> EditKey(card) == None
    ensures IsEnd(card) ==> !IsContinue(card)
  {
    var c := TrimEnd(card);
    hide TrimEnd, LookupKey;
    if IsContinue(card) {
      assert c[..8] == "CONTINUE";
      assert PlainKey("CONTINUE");
      PlainLooksUp("CONTINUE");
    } else if IsEnd(card) {
      assert PlainKey("END");
      PlainLooksUp("END");
    }
  }

  lemma {:induction false} KeyAtFirst(cards: seq<string>, key: string)
    ensures forall k :: 0 <= k < KeyAt(cards, key) ==> EditKey(cards[k]) != Some(key)
    ensures KeyAt(cards, key) < |cards| ==> EditKey(cards[KeyAt(cards, key)]) == Some(key)
  {
    hide EditKey;
    if cards != [] && EditKey(cards[0]) != Some(key) {
      KeyAtFirst(cards[1..], key);
      forall k | 0 <= k < KeyAt(cards, key)
        ensures EditKey(cards[k]) != Some(key)
      {
        if k > 0 { assert cards[k] == cards[1..][k - 1]; }
      }
    }
  }

  lemma {:induction false} EndPositionIsLast(cards: seq<string>)
    requires EndsWithEnd(cards)
    ensures EndPosition(cards) == |cards| - 1
  {
    hide IsEnd;
    if |cards| > 1 {
      assert !IsEnd(cards[0]);
      EndPositionIsLast(cards[1..]);
    }
  }

  // A chain ends at a card that does not go on from it.
  lemma {:induction false} ChainStops(cards: seq<string>, end: nat)
    requires 0 < end <= |cards|
    ensures var e := ChainFrom(cards, end);
      && (forall k :: end <= k < e ==> IsContinue(cards[k]))
      && (e < |cards| ==> !AmpCard(cards[e - 1]) || !IsContinue(cards[e]))
    decreases |cards| - end
  {
    hide AmpCard, IsContinue;
    if end < |cards| && AmpCard(cards[end - 1]) && IsContinue(cards[end]) {
      ChainStops(cards, end + 1);
    }
  }

  // What a set replaces: nothing but the one chain that goes by the key.
  predicate Replaces(cards: seq<string>, key: string, lo: nat, hi: nat) {
    && lo <= hi < |cards|
    && !IsContinue(cards[lo]) && !IsContinue(cards[hi])
    && (forall k :: 0 <= k < |cards| && !(lo <= k < hi) ==> EditKey(cards[k]) != Some(key))
    && (forall k :: lo < k < hi ==> IsContinue(cards[k]))
    && (lo < hi ==> EditKey(cards[lo]) == Some(key))
  }

  lemma SetReplaces(cards: seq<string>, key: string)
    requires WellFormed(cards)
    ensures var (lo, hi) := SetRange(cards, key); Replaces(cards, key, lo, hi)
    ensures KeyAt(cards, key) < |cards| <==> SetRange(cards, key).0 < SetRange(cards, key).1
  {
    var i, last := KeyAt(cards, key), |cards| - 1;
    KeyAtFirst(cards, key);
    EndPositionIsLast(cards);
    KeylessCards(cards[last]);
    hide EditKey, AmpCard, IsContinue, IsEnd;
    if i < |cards| {
      KeylessCards(cards[i]);
      ChainStops(cards, i + 1);
      var e := ChainFrom(cards, i + 1);
      assert i < last && !IsContinue(cards[last]);
      assert !IsContinue(cards[e]);
      forall k | 0 <= k < |cards| && !(i <= k < e)
        ensures EditKey(cards[k]) != Some(key)
      {
        if k > i { assert EditKey(cards[i]) != EditKey(cards[k]); }
      }
    }
  }

  // A chain that may take the place of one that goes by `key`: or none at all.
  predicate Fills(new_: seq<string>, key: string) {
    new_ == [] || ChainFor(new_, key)
  }

  lemma ChainKeys(new_: seq<string>, key: string, k: nat)
    requires ChainFor(new_, key) && k < |new_|
    ensures EditKey(new_[k]) == if k == 0 then Some(key) else None
    ensures !IsEnd(new_[k]) && (IsContinue(new_[k]) <==> k > 0)
    ensures k + 1 < |new_| ==> AmpCard(new_[k])
  {
    KeylessCards(new_[k]);
    KeysAgree(new_[0], key);
    hide EditKey, FindKey, IsContinue, IsEnd, AmpCard, UserKey;
  }

  lemma SplicedNoOrphans(cards: seq<string>, key: string, lo: nat, hi: nat, new_: seq<string>)
    requires NoOrphans(cards) && Replaces(cards, key, lo, hi) && Fills(new_, key)
    ensures NoOrphans(Spliced(cards, lo, hi, new_))
  {
    var r, n := Spliced(cards, lo, hi, new_), |new_|;
    hide EditKey, FindKey, IsContinue, AmpCard, UserKey, Spliced;
    forall i | 0 <= i < |r| && IsContinue(r[i])
      ensures i > 0 && AmpCard(r[i - 1])
    {
      SplicedAt(cards, lo, hi, new_, i);
      if lo <= i < lo + n {
        ChainKeys(new_, key, i - lo);
        ChainKeys(new_, key, i - lo - 1);
      }
      SplicedAt(cards, lo, hi, new_, i - 1);
    }
  }

  // The key of a spliced card.
  lemma SplicedKey(cards: seq<string>, key: string, lo: nat, hi: nat, new_: seq<string>, i: nat)
    requires Replaces(cards, key, lo, hi) && Fills(new_, key) && i < |Spliced(cards, lo, hi, new_)|
    ensures EditKey(Spliced(cards, lo, hi, new_)[i])
         == if i < lo then EditKey(cards[i]) else if i == lo && new_ != [] then Some(key)
            else if i < lo + |new_| then None else EditKey(cards[i - |new_| - lo + hi])
  {
    hide EditKey, FindKey, IsContinue, AmpCard, UserKey, Spliced;
    SplicedAt(cards, lo, hi, new_, i);
    if lo <= i < lo + |new_| {
      ChainKeys(new_, key, i - lo);
    }
  }

  lemma SplicedUniqueKeys(cards: seq<string>, key: string, lo: nat, hi: nat, new_: seq<string>)
    requires UniqueKeys(cards) && Replaces(cards, key, lo, hi) && Fills(new_, key)
    ensures UniqueKeys(Spliced(cards, lo, hi, new_))
  {
    var r, n := Spliced(cards, lo, hi, new_), |new_|;
    hide EditKey, FindKey, IsContinue, AmpCard, UserKey, Spliced;
    forall i, j | 0 <= i < j < |r| && EditKey(r[i]).Some?
      ensures EditKey(r[i]) != EditKey(r[j])
    {
      SplicedKey(cards, key, lo, hi, new_, i);
      SplicedKey(cards, key, lo, hi, new_, j);
    }
  }

  lemma SplicedEnds(cards: seq<string>, key: string, lo: nat, hi: nat, new_: seq<string>)
    requires EndsWithEnd(cards) && Replaces(cards, key, lo, hi) && Fills(new_, key)
    ensures EndsWithEnd(Spliced(cards, lo, hi, new_))
  {
    assert lo <= hi < |cards| && IsEnd(cards[|cards| - 1]);
    hide *;
    var r := Spliced(cards, lo, hi, new_);
    SplicedLast(cards, lo, hi, new_);
    forall i | 0 <= i < |r| - 1
      ensures !IsEnd(r[i])
    {
      NoEndInside(cards, key, lo, hi, new_, i);
    }
    EndsOnce(r);
  }

  lemma SplicedLast(cards: seq<string>, lo: nat, hi: nat, new_: seq<string>)
    requires lo <= hi < |cards|
    ensures var r := Spliced(cards, lo, hi, new_); |r| > 0 && r[|r| - 1] == cards[|cards| - 1]
  {
    SplicedAt(cards, lo, hi, new_, |Spliced(cards, lo, hi, new_)| - 1);
  }

  lemma EndsOnce(cards: seq<string>)
    requires cards != [] && IsEnd(cards[|cards| - 1])
    requires forall i :: 0 <= i < |cards| - 1 ==> !IsEnd(cards[i])
    ensures EndsWithEnd(cards)
  {
  }

  lemma NoEndInside(cards: seq<string>, key: string, lo: nat, hi: nat, new_: seq<string>, i: nat)
    requires EndsWithEnd(cards) && Replaces(cards, key, lo, hi) && Fills(new_, key)
    requires i < |Spliced(cards, lo, hi, new_)| - 1
    ensures !IsEnd(Spliced(cards, lo, hi, new_)[i])
  {
    hide EditKey, FindKey, IsContinue, AmpCard, UserKey, IsEnd, Spliced;
    SplicedAt(cards, lo, hi, new_, i);
    if lo <= i < lo + |new_| {
      ChainKeys(new_, key, i - lo);
    }
  }

  lemma SpliceKeepsWellFormed(cards: seq<string>, key: string, lo: nat, hi: nat, new_: seq<string>)
    requires WellFormed(cards) && Replaces(cards, key, lo, hi) && Fills(new_, key)
    ensures WellFormed(Spliced(cards, lo, hi, new_))
  {
    hide NoOrphans, UniqueKeys, EndsWithEnd, Replaces, Fills, Spliced;
    SplicedNoOrphans(cards, key, lo, hi, new_);
    SplicedUniqueKeys(cards, key, lo, hi, new_);
    SplicedEnds(cards, key, lo, hi, new_);
  }

  lemma TrimmedChain(new_: seq<string>, key: string)
    requires ChainFor(new_, key)
    ensures ChainFor(TrimmedAll(new_), key)
  {
    hide FindKey, IsContinue, AmpCard, UserKey;
    forall k | 0 <= k < |new_|
      ensures IsContinue(TrimEnd(new_[k])) == IsContinue(new_[k]) && AmpCard(TrimEnd(new_[k])) == AmpCard(new_[k])
      ensures FindKey(TrimEnd(new_[k])) == FindKey(new_[k])
    {
      TrimmedSame(new_[k]);
    }
  }

  // A set keeps a header well formed: no CONTINUE card is ever orphaned.
  lemma SetKeepsWellFormed(cards: seq<string>, key: string, new_: seq<string>)
    requires WellFormed(cards) && ChainFor(new_, key)
    ensures WellFormed(SetCards(cards, key, new_))
  {
    hide WellFormed, ChainFor, Replaces, Spliced, SetRange;
    SetReplaces(cards, key);
    TrimmedChain(new_, key);
    var (lo, hi) := SetRange(cards, key);
    SpliceKeepsWellFormed(cards, key, lo, hi, TrimmedAll(new_));
  }

  // So does a delete.
  lemma DeleteKeepsWellFormed(cards: seq<string>, key: string)
    requires WellFormed(cards)
    ensures WellFormed(DeleteCards(cards, key))
  {
    hide WellFormed, Replaces, Spliced;
    SetReplaces(cards, key);
    if KeyAt(cards, key) < |cards| {
      var (lo, hi) := SetRange(cards, key);
      SpliceKeepsWellFormed(cards, key, lo, hi, []);
    }
  }

  // ===== what a user reads before and after =====

  lemma {:induction false} ValueAtFirst(cards: seq<string>, key: string)
    ensures forall k :: 0 <= k < ValueAt(cards, key) ==> FindKey(cards[k]) != Some(key)
    ensures ValueAt(cards, key) < |cards| ==> FindKey(cards[ValueAt(cards, key)]) == Some(key)
  {
    hide FindKey;
    if cards != [] && FindKey(cards[0]) != Some(key) {
      ValueAtFirst(cards[1..], key);
      forall k | 0 <= k < ValueAt(cards, key)
        ensures FindKey(cards[k]) != Some(key)
      {
        if k > 0 { assert cards[k] == cards[1..][k - 1]; }
      }
    }
  }

  // Keys are unique, so the card that has the key is the one that is found.
  lemma FoundAt(cards: seq<string>, key: string, i: nat)
    requires UniqueKeys(cards) && UserKey(key) && i < |cards| && FindKey(cards[i]) == Some(key)
    ensures ValueAt(cards, key) == i
    ensures Lookup(cards, key) == ReadCard(cards, i)
  {
    ValueAtFirst(cards, key);
    var k := ValueAt(cards, key);
    assert k <= i;
    KeysAgree(cards[i], key);
    KeysAgree(cards[k], key);
    hide FindKey, EditKey, UserKey;
  }

  lemma NotFound(cards: seq<string>, key: string)
    requires forall i :: 0 <= i < |cards| ==> FindKey(cards[i]) != Some(key)
    ensures Lookup(cards, key) == None
  {
    hide FindKey;
    ValueAtFirst(cards, key);
  }

  // The n cards from i on are those from j on in another list, and no chain
  // runs on behind them.
  predicate SameRun(a: seq<string>, i: nat, b: seq<string>, j: nat, n: nat) {
    && n > 0 && i + n <= |a| && j + n <= |b|
    && a[i..i + n] == b[j..j + n]
    && ChainEndsAt(a, i + n) && ChainEndsAt(b, j + n)
  }

  lemma SameRunSteps(a: seq<string>, i: nat, b: seq<string>, j: nat, n: nat)
    requires SameRun(a, i, b, j, n)
    ensures a[i] == b[j]
    ensures n > 1 ==> a[i + 1] == b[j + 1] && SameRun(a, i + 1, b, j + 1, n - 1)
    ensures n == 1 ==> (i + 1 >= |a| || !IsContinue(a[i + 1])) && (j + 1 >= |b| || !IsContinue(b[j + 1]))
  {
    hide IsContinue;
    var x, y := a[i..i + n], b[j..j + n];
    assert x[0] == a[i] && y[0] == b[j];
    if n > 1 {
      assert x[1] == a[i + 1] && y[1] == b[j + 1];
      assert a[i + 1..i + n] == x[1..] && b[j + 1..j + n] == y[1..];
    }
  }

  lemma {:induction false} TextIsLocal(a: seq<string>, i: nat, b: seq<string>, j: nat, n: nat, s: string,
                                       comment: string)
    requires SameRun(a, i, b, j, n)
    ensures ContinueText(a, i, s, comment) == ContinueText(b, j, s, comment)
    decreases n
  {
    SameRunSteps(a, i, b, j, n);
    hide SameRun, IsContinue, ContinueField, Quoted, ExtractString, JoinComments, EndsWithAmp;
    if n > 1 && EndsWithAmp(s) && IsContinue(a[i + 1]) && Quoted(ContinueField(a[i + 1]).raw) {
      var f := ContinueField(a[i + 1]);
      SomeText(s);
      TextIsLocal(a, i + 1, b, j + 1, n - 1, s[..|s| - 1] + ExtractString(f.raw), JoinComments(comment, f.comment));
    }
  }

  lemma SomeText(s: string)
    requires EndsWithAmp(s)
    ensures |s| > 0
  {
  }

  lemma ParseIsLocal(a: seq<string>, i: nat, b: seq<string>, j: nat, n: nat, part: string)
    requires SameRun(a, i, b, j, n) && i < |a| && j < |b|
    ensures ParseValue(a, i, part) == ParseValue(b, j, part)
  {
    hide SameRun, ContinueText, SplitValueComment, Quoted, ExtractString;
    var f := SplitValueComment(part);
    TextIsLocal(a, i, b, j, n, if Quoted(f.raw) then ExtractString(f.raw) else "", f.comment);
  }

  // A value is read from its own cards alone.
  lemma ReadIsLocal(a: seq<string>, i: nat, b: seq<string>, j: nat, n: nat)
    requires SameRun(a, i, b, j, n)
    ensures i < |a| && j < |b| && ReadCard(a, i) == ReadCard(b, j)
  {
    SameRunSteps(a, i, b, j, n);
    hide SameRun, ParseValue, TrimEnd, Find, IsContinue;
    forall part: string
      ensures ParseValue(a, i, part) == ParseValue(b, j, part)
    {
      ParseIsLocal(a, i, b, j, n, part);
    }
  }

  // Where card i of the old list lies in the new one.
  function MovedTo(lo: nat, hi: nat, n: nat, i: nat): (r: nat)
    requires lo <= hi && (i < lo || i >= hi)
  {
    if i < lo then i else i - hi + lo + n
  }

  lemma OutsideRun(cards: seq<string>, key: string, lo: nat, hi: nat, new_: seq<string>, i: nat)
    requires Replaces(cards, key, lo, hi) && Fills(new_, key) && i < |cards| && (i < lo || i >= hi)
    ensures SameRun(cards, i, Spliced(cards, lo, hi, new_), MovedTo(lo, hi, |new_|, i),
                    if i < lo then lo - i else |cards| - i)
  {
    if i < lo {
      hide Spliced;
      RunBefore(cards, key, lo, hi, new_, i);
    } else {
      RunAfter(cards, lo, hi, new_, i);
    }
  }

  lemma RunBefore(cards: seq<string>, key: string, lo: nat, hi: nat, new_: seq<string>, i: nat)
    requires Replaces(cards, key, lo, hi) && Fills(new_, key) && i < lo
    ensures SameRun(cards, i, Spliced(cards, lo, hi, new_), i, lo - i)
  {
    hide EditKey, FindKey, IsContinue, AmpCard, UserKey;
    var r := Spliced(cards, lo, hi, new_);
    if lo < |r| {
      SplicedAt(cards, lo, hi, new_, lo);
    }
    if new_ != [] {
      ChainKeys(new_, key, 0);
    }
    assert r[i..i + (lo - i)] == cards[i..i + (lo - i)];
  }

  lemma RunAfter(cards: seq<string>, lo: nat, hi: nat, new_: seq<string>, i: nat)
    requires lo <= hi <= i < |cards|
    ensures SameRun(cards, i, Spliced(cards, lo, hi, new_), i - hi + lo + |new_|, |cards| - i)
  {
    hide IsContinue;
    var r, j, n := Spliced(cards, lo, hi, new_), i - hi + lo + |new_|, |cards| - i;
    assert j + n == |r|;
    assert r[j..j + n] == cards[i..i + n];
  }

  lemma OutsideReads(cards: seq<string>, key: string, lo: nat, hi: nat, new_: seq<string>, i: nat)
    requires Replaces(cards, key, lo, hi) && Fills(new_, key) && i < |cards| && (i < lo || i >= hi)
    ensures var r, j := Spliced(cards, lo, hi, new_), MovedTo(lo, hi, |new_|, i);
      j < |r| && r[j] == cards[i] && ReadCard(r, j) == ReadCard(cards, i)
  {
    OutsideRun(cards, key, lo, hi, new_, i);
    var r, j, n := Spliced(cards, lo, hi, new_), MovedTo(lo, hi, |new_|, i), if i < lo then lo - i else |cards| - i;
    hide *;
    SameRunSteps(cards, i, r, j, n);
    ReadIsLocal(cards, i, r, j, n);
  }

  // A card that has another key is not in the range that is replaced.
  lemma OtherIsOutside(cards: seq<string>, key: string, lo: nat, hi: nat, other: string, i: nat)
    requires Replaces(cards, key, lo, hi) && i < |cards| && other != key && UserKey(other)
      && FindKey(cards[i]) == Some(other)
    ensures i < lo || i >= hi
  {
    KeysAgree(cards[i], other);
    KeylessCards(cards[i]);
    hide EditKey, FindKey, IsContinue, UserKey;
  }

  lemma OtherWasThere(cards: seq<string>, key: string, lo: nat, hi: nat, new_: seq<string>, other: string, j: nat)
    requires Replaces(cards, key, lo, hi) && Fills(new_, key) && other != key && UserKey(other)
    requires j < |Spliced(cards, lo, hi, new_)| && FindKey(Spliced(cards, lo, hi, new_)[j]) == Some(other)
    ensures exists i :: 0 <= i < |cards| && FindKey(cards[i]) == Some(other)
  {
    KeysAgree(Spliced(cards, lo, hi, new_)[j], other);
    hide EditKey, FindKey, IsContinue, AmpCard, UserKey, Spliced;
    SplicedAt(cards, lo, hi, new_, j);
    if lo <= j < lo + |new_| {
      ChainKeys(new_, key, j - lo);
      assert false;
    }
  }

  lemma SpliceKeepsOthers(cards: seq<string>, key: string, lo: nat, hi: nat, new_: seq<string>, other: string)
    requires WellFormed(cards) && Replaces(cards, key, lo, hi) && Fills(new_, key)
    requires other != key && UserKey(other)
    ensures Lookup(Spliced(cards, lo, hi, new_), other) == Lookup(cards, other)
  {
    SpliceKeepsWellFormed(cards, key, lo, hi, new_);
    ValueAtFirst(cards, other);
    var r, i := Spliced(cards, lo, hi, new_), ValueAt(cards, other);
    hide EditKey, FindKey, IsContinue, AmpCard, UserKey, Spliced, ReadCard, Replaces, Fills, NoOrphans;
    hide UniqueKeys, EndsWithEnd;
    if i < |cards| {
      OtherIsOutside(cards, key, lo, hi, other, i);
      OutsideReads(cards, key, lo, hi, new_, i);
      FoundAt(r, other, MovedTo(lo, hi, |new_|, i));
    } else {
      forall j | 0 <= j < |r|
        ensures FindKey(r[j]) != Some(other)
      {
        if FindKey(r[j]) == Some(other) {
          OtherWasThere(cards, key, lo, hi, new_, other, j);
        }
      }
      NotFound(r, other);
    }
  }

  // After a set the key is found where its cards were put, all of them and
  // nothing behind them belonging to its value.
  // A set writes over the card that had the key and its chain, or right before
  // END; the cards before and behind stay as they are.
  lemma SetInPlace(cards: seq<string>, key: string, new_: seq<string>) returns (lo: nat, hi: nat)
    requires WellFormed(cards)
    ensures lo <= hi < |cards| && SetCards(cards, key, new_) == cards[..lo] + TrimmedAll(new_) + cards[hi..]
    ensures lo < hi ==> EditKey(cards[lo]) == Some(key) && forall k :: lo < k < hi ==> IsContinue(cards[k])
    ensures !IsContinue(cards[hi]) && forall k :: 0 <= k < lo ==> EditKey(cards[k]) != Some(key)
    ensures lo == hi ==> hi == |cards| - 1 && forall k :: 0 <= k < |cards| ==> EditKey(cards[k]) != Some(key)
  {
    SetReplaces(cards, key);
    EndPositionIsLast(cards);
    var (a, b) := SetRange(cards, key);
    hide WellFormed, EditKey, IsContinue, TrimmedAll, ChainFrom, EndPosition, KeyAt;
    lo, hi := a, b;
  }

  lemma SetThenFind(cards: seq<string>, key: string, new_: seq<string>)
    requires WellFormed(cards) && ChainFor(new_, key)
    ensures var r, p := SetCards(cards, key, new_), SetRange(cards, key).0;
      && Holds(r, p, new_) && ChainEndsAt(r, p + |new_|)
      && ValueAt(r, key) == p < |r| && Lookup(r, key) == ReadCard(r, p)
  {
    SetReplaces(cards, key);
    SetKeepsWellFormed(cards, key, new_);
    TrimmedChain(new_, key);
    var (lo, hi) := SetRange(cards, key);
    SplicedHolds(cards, key, lo, hi, new_);
    hide SetRange, Replaces, ReadCard, FindKey, ValueAt, UserKey, NoOrphans, EndsWithEnd, UniqueKeys, Spliced;
    hide Lookup, IsContinue, Holds;
    FoundAt(SetCards(cards, key, new_), key, lo);
  }

  lemma SplicedHolds(cards: seq<string>, key: string, lo: nat, hi: nat, new_: seq<string>)
    requires Replaces(cards, key, lo, hi) && new_ != []
    ensures var r := Spliced(cards, lo, hi, TrimmedAll(new_));
      lo < |r| && r[lo] == TrimmedAll(new_)[0] && Holds(r, lo, new_) && ChainEndsAt(r, lo + |new_|)
  {
    assert lo <= hi < |cards| && !IsContinue(cards[hi]);
    hide Replaces, EditKey, IsContinue, TrimEnd, Spliced;
    SplicedAt(cards, lo, hi, TrimmedAll(new_), lo);
    SplicedAt(cards, lo, hi, TrimmedAll(new_), lo + |new_|);
    NewCardsHeld(cards, lo, hi, new_);
  }

  lemma NewCardsHeld(cards: seq<string>, lo: nat, hi: nat, new_: seq<string>)
    requires lo <= hi < |cards|
    ensures Holds(Spliced(cards, lo, hi, TrimmedAll(new_)), lo, new_)
  {
    hide TrimEnd, Spliced;
    var r := Spliced(cards, lo, hi, TrimmedAll(new_));
    forall k | 0 <= k < |new_|
      ensures TrimEnd(r[lo + k]) == TrimEnd(new_[k])
    {
      SplicedAt(cards, lo, hi, TrimmedAll(new_), lo + k);
      TrimTwice(new_[k]);
    }
  }

  // A set leaves what is read under every other key as it was.
  lemma SetKeepsOtherLookups(cards: seq<string>, key: string, new_: seq<string>, other: string)
    requires WellFormed(cards) && ChainFor(new_, key) && other != key && UserKey(other)
    ensures Lookup(SetCards(cards, key, new_), other) == Lookup(cards, other)
  {
    SetReplaces(cards, key);
    TrimmedChain(new_, key);
    var (lo, hi) := SetRange(cards, key);
    hide WellFormed, ChainFor, Replaces, Spliced, SetRange, Lookup, UserKey;
    SpliceKeepsOthers(cards, key, lo, hi, TrimmedAll(new_), other);
  }

  lemma DeleteIsSplice(cards: seq<string>, key: string)
    requires WellFormed(cards)
    ensures var (lo, hi) := SetRange(cards, key);
      Replaces(cards, key, lo, hi) && DeleteCards(cards, key) == Spliced(cards, lo, hi, [])
  {
    SetReplaces(cards, key);
    var (lo, hi) := SetRange(cards, key);
    hide Replaces, WellFormed, KeyAt, EndPosition, Spliced, ChainFrom;
    NothingSpliced(cards, lo);
  }

  lemma NothingSpliced(cards: seq<string>, at: nat)
    ensures at <= |cards| ==> Spliced(cards, at, at, []) == cards
  {
    if at <= |cards| {
      assert cards[..at] + [] + cards[at..] == cards;
    }
  }

  lemma GoneFrom(cards: seq<string>, key: string)
    requires UserKey(key) && forall i :: 0 <= i < |cards| ==> EditKey(cards[i]) != Some(key)
    ensures Lookup(cards, key) == None && KeyAt(cards, key) == |cards|
  {
    hide EditKey, FindKey, UserKey, Lookup, KeyAt;
    forall i | 0 <= i < |cards|
      ensures FindKey(cards[i]) != Some(key)
    {
      KeysAgree(cards[i], key);
    }
    NotFound(cards, key);
    KeyAtFirst(cards, key);
  }

  // A delete makes its key absent...
  lemma DeleteThenLookup(cards: seq<string>, key: string)
    requires WellFormed(cards) && UserKey(key)
    ensures Lookup(DeleteCards(cards, key), key) == None
    ensures KeyAt(DeleteCards(cards, key), key) == |DeleteCards(cards, key)|
  {
    hide *;
    DeleteIsSplice(cards, key);
    var (lo, hi) := SetRange(cards, key);
    var r := DeleteCards(cards, key);
    forall i | 0 <= i < |r|
      ensures EditKey(r[i]) != Some(key)
    {
      KeyIsGone(cards, key, lo, hi, i);
    }
    GoneFrom(r, key);
  }

  lemma KeyIsGone(cards: seq<string>, key: string, lo: nat, hi: nat, i: nat)
    requires Replaces(cards, key, lo, hi) && i < |Spliced(cards, lo, hi, [])|
    ensures EditKey(Spliced(cards, lo, hi, [])[i]) != Some(key)
  {
    hide EditKey, IsContinue, Spliced;
    SplicedAt(cards, lo, hi, [], i);
  }

  // ...and leaves what is read under every other key as it was.
  lemma DeleteKeepsOtherLookups(cards: seq<string>, key: string, other: string)
    requires WellFormed(cards) && other != key && UserKey(other)
    ensures Lookup(DeleteCards(cards, key), other) == Lookup(cards, other)
  {
    SetReplaces(cards, key);
    hide WellFormed, Replaces, Spliced, Lookup, UserKey;
    if KeyAt(cards, key) < |cards| {
      var (lo, hi) := SetRange(cards, key);
      SpliceKeepsOthers(cards, key, lo, hi, [], other);
    }
  }
}
