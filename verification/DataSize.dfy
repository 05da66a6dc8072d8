// How many bytes of data a header declares, and that the cards of a newly
// created image declare what was set aside for it.
module DataSize {
  import opened FitsBytes
  import opened CardText
  import opened CardNumbers

  // saturating_mul and saturating_add on u64.
  function SatMul(a: nat, b: nat): (n: nat) {
    Min(a * b, U64_MAX)
  }

  function SatAdd(a: nat, b: nat): (n: nat) {
    Min(a + b, U64_MAX)
  }

  // `as u64` of an i64.
  function AsU64(v: int): (n: nat) {
    if v < 0 then Max(0, v + U64_MAX + 1) else v
  }

  function ValueOr(v: Option<int>, other: int): (r: int) {
    match v
    case Some(n) => n
    case None => other
  }

  function AxisKey(n: nat): (text: string) {
    "NAXIS" + Decimal(n)
  }

  // The product of the first n axes; an axis without a card is skipped.
  function AxesProduct(cards: seq<string>, n: nat): (r: nat) {
    if n == 0 then 1
    else match KeywordValue(cards, AxisKey(n))
      case Some(dim) => SatMul(AxesProduct(cards, n - 1), AsU64(dim))
      case None => AxesProduct(cards, n - 1)
  }

  // PCOUNT and GCOUNT, ignored unless positive.
  function PositiveOr(v: int, other: nat): (n: nat) {
    if v > 0 then v else other
  }

  function Magnitude(v: int): (n: nat) {
    if v < 0 then -v else v
  }

  // The bytes of data the cards declare, before padding.  A negative NAXIS is
  // cast to a huge unsigned one.
  function DeclaredSize(cards: seq<string>): (n: nat) {
    var bitpix := ValueOr(KeywordValue(cards, "BITPIX"), 0);
    var naxis := AsU64(ValueOr(KeywordValue(cards, "NAXIS"), 0));
    if bitpix == 0 || naxis == 0 then 0
    else
      var pcount := PositiveOr(ValueOr(KeywordValue(cards, "PCOUNT"), 0), 0);
      var gcount := PositiveOr(ValueOr(KeywordValue(cards, "GCOUNT"), 1), 1);
      SatMul(SatMul(Magnitude(bitpix) / 8, gcount), SatAdd(AxesProduct(cards, naxis), pcount))
  }

  // calculate_data_size
  method CalculateDataSize(cards: seq<string>) returns (padded: nat)
    ensures padded == RoundUpToBlock(DeclaredSize(cards))
  {
    hide KeywordValue, RoundUpToBlock, SatMul, SatAdd, AxisKey;
    NothingPadded();
    var bitpix := ReadOr(cards, "BITPIX", 0);
    var axes := ReadOr(cards, "NAXIS", 0);
    var naxis := AsU64(axes);
    if bitpix == 0 || naxis == 0 {
      return 0;
    }
    var pcount := ReadOr(cards, "PCOUNT", 0);
    var gcount := ReadOr(cards, "GCOUNT", 1);
    var product := 1;
    for n := 0 to naxis
      invariant product == AxesProduct(cards, n)
    {
      var dim := ParseKeyword(cards, AxisKey(n + 1));
      if dim.Some? {
        product := SatMul(product, AsU64(dim.value));
      }
    }
    var raw := SatMul(SatMul(Magnitude(bitpix) / 8, PositiveOr(gcount, 1)), SatAdd(product, PositiveOr(pcount, 0)));
    padded := RoundUpToBlock(raw);
  }

  lemma NothingPadded()
    ensures RoundUpToBlock(0) == 0
  {
  }

  method ReadOr(cards: seq<string>, key: string, other: int) returns (v: int)
    ensures v == ValueOr(KeywordValue(cards, key), other)
  {
    var read := ParseKeyword(cards, key);
    v := ValueOr(read, other);
  }

  // ===== validation =====

  // The keyword of the first card that is not blank.
  function FirstKey(cards: seq<string>): (key: string) {
    if cards == [] then ""
    else if Trim(cards[0]) == "" then FirstKey(cards[1..])
    else if |cards[0]| >= 8 then Trim(cards[0][..8])
    else Trim(cards[0])
  }

  // What every open asks of a header: the right first keyword, BITPIX, and as
  // many axes as NAXIS says.
  predicate HeaderValid(cards: seq<string>, primary: bool) {
    && FirstKey(cards) == (if primary then "SIMPLE" else "XTENSION")
    && KeywordValue(cards, "BITPIX").Some?
    && KeywordValue(cards, "NAXIS").Some?
    && var naxis := KeywordValue(cards, "NAXIS").value;
       0 <= naxis <= 999 && forall n :: 1 <= n <= naxis ==> KeywordValue(cards, AxisKey(n)).Some?
  }

  // The first eight columns of the first card that is not blank.
  predicate OpensAt(cards: seq<string>, k: nat, word: string) {
    && k < |cards| && Trim(cards[k]) != "" && (forall j :: 0 <= j < k ==> Trim(cards[j]) == "")
    && Trim(if |cards[k]| < 8 then cards[k] else cards[k][..8]) == word
  }

  ghost predicate OpensWith(cards: seq<string>, word: string) {
    exists k: nat :: OpensAt(cards, k, word)
  }

  lemma {:induction false} FirstKeyOpens(cards: seq<string>, word: string)
    requires word != ""
    ensures FirstKey(cards) == word <==> OpensWith(cards, word)
  {
    hide Trim;
    if cards != [] {
      if Trim(cards[0]) != "" {
        assert FirstKey(cards) == word <==> OpensAt(cards, 0, word);
      } else {
        FirstKeyOpens(cards[1..], word);
        if OpensWith(cards[1..], word) {
          var k: nat :| OpensAt(cards[1..], k, word);
          assert OpensAt(cards, k + 1, word);
        }
        if OpensWith(cards, word) {
          var k: nat :| OpensAt(cards, k, word);
          assert OpensAt(cards[1..], k - 1, word);
        }
      }
    }
  }

  method FindFirstKey(cards: seq<string>) returns (key: string)
    ensures key == FirstKey(cards)
  {
    hide Trim;
    assert cards[0..] == cards;
    for k := 0 to |cards|
      invariant FirstKey(cards[k..]) == FirstKey(cards)
    {
      assert cards[k..][1..] == cards[k + 1..];
      var card := cards[k];
      if Trim(card) != "" {
        return if |card| >= 8 then Trim(card[..8]) else Trim(card);
      }
    }
    key := "";
  }

  // validate_header
  method ValidateHeader(cards: seq<string>, primary: bool) returns (valid: bool)
    ensures valid <==> HeaderValid(cards, primary)
    ensures valid <==>
      && OpensWith(cards, if primary then "SIMPLE" else "XTENSION")
      && KeywordValue(cards, "BITPIX").Some?
      && match KeywordValue(cards, "NAXIS")
         case None => false
         case Some(naxis) =>
           0 <= naxis < 1000 && forall n :: 1 <= n <= naxis ==> KeywordValue(cards, AxisKey(n)).Some?
  {
    FirstKeyOpens(cards, if primary then "SIMPLE" else "XTENSION");
    hide KeywordValue, FirstKey, AxisKey, OpensWith;
    var key := FindFirstKey(cards);
    var bitpix := ParseKeyword(cards, "BITPIX");
    var axes := ParseKeyword(cards, "NAXIS");
    if key != (if primary then "SIMPLE" else "XTENSION") || bitpix.None? || axes.None? {
      return false;
    }
    if !(0 <= axes.value <= 999) {
      return false;
    }
    for n := 0 to axes.value
      invariant forall m :: 1 <= m <= n ==> KeywordValue(cards, AxisKey(m)).Some?
    {
      var axis := ParseKeyword(cards, AxisKey(n + 1));
      if axis.None? {
        return false;
      }
    }
    valid := true;
  }

  // ===== the cards of a new image =====

  // What create_image_hdu multiplies up, axis by axis in FITS order.
  function SatProduct(dims: seq<nat>, n: nat): (r: nat)
    requires n <= |dims|
  {
    if n == 0 then 1 else SatMul(SatProduct(dims, n - 1), dims[n - 1])
  }

  function AxisCard(dims: seq<nat>, n: nat): (text: string)
    requires 1 <= n <= |dims|
  {
    CardInt(AxisKey(n), dims[n - 1], "length of data axis " + Decimal(n))
  }

  function AxisCards(dims: seq<nat>): (cards: seq<string>)
    ensures |cards| == |dims|
    ensures forall k :: 0 <= k < |dims| ==> cards[k] == AxisCard(dims, k + 1)
  {
    seq(|dims|, k requires 0 <= k < |dims| => AxisCard(dims, k + 1))
  }

  // A primary image has no count cards, an extension has PCOUNT = 0 and
  // GCOUNT = 1.
  function CountCards(primary: bool): (cards: seq<string>) {
    if primary then []
      else [CardInt("PCOUNT", 0, "required keyword; must = 0"), CardInt("GCOUNT", 1, "required keyword; must = 1")]
  }

  // create_image_hdu's cards: SIMPLE or XTENSION first, the size cards, then
  // EXTEND, EXTNAME and the like.
  function ImageCards(first: string, bitpix: int, dims: seq<nat>, primary: bool,
                      rest: seq<string>): (cards: seq<string>) {
    [first, CardInt("BITPIX", bitpix, "number of bits per data pixel"), CardInt("NAXIS", |dims|, "number of data axes")]
    + (AxisCards(dims) + (CountCards(primary) + rest))
  }

  predicate SizeKey(key: string) {
    key == "BITPIX" || key == "PCOUNT" || key == "GCOUNT" || "NAXIS" <= key
  }

  // A card that says nothing about the size.
  predicate Silent(card: string) {
    |card| < 9 || !SizeKey(Trim(card[..8]))
  }

  lemma SilentPasses(card: string, key: string)
    requires Silent(card) && SizeKey(key)
    ensures ReadKeyword(card, key) == Pass
  {
  }

  // What integer cards the header of an image holds, in order.
  datatype SizeCard = SizeCard(key: string, value: int)

  function SizeCards(bitpix: int, dims: seq<nat>, primary: bool): (r: seq<SizeCard>) {
    [SizeCard("BITPIX", bitpix), SizeCard("NAXIS", |dims|)]
    + (seq(|dims|, k requires 0 <= k < |dims| => SizeCard(AxisKey(k + 1), dims[k]))
       + if primary then [] else [SizeCard("PCOUNT", 0), SizeCard("GCOUNT", 1)])
  }

  function Lookup(sizes: seq<SizeCard>, key: string): (r: Option<int>) {
    if sizes == [] then None
    else if sizes[0].key == key then Some(sizes[0].value)
    else Lookup(sizes[1..], key)
  }

  predicate ReadsAs(card: string, s: SizeCard, key: string) {
    ReadKeyword(card, key) == if key == s.key then Hit(Some(s.value)) else Pass
  }

  // Cards that read as the size cards, then silent ones.
  lemma {:induction false} LookupAgrees(cards: seq<string>, sizes: seq<SizeCard>, key: string)
    requires SizeKey(key) && |sizes| <= |cards|
    requires forall k :: 0 <= k < |sizes| ==> ReadsAs(cards[k], sizes[k], key)
    requires forall k :: |sizes| <= k < |cards| ==> Silent(cards[k])
    ensures KeywordValue(cards, key) == Lookup(sizes, key)
  {
    hide ReadKeyword, SizeKey, Silent;
    if sizes == [] {
      forall k | 0 <= k < |cards|
        ensures ReadKeyword(cards[k], key) == Pass
      {
        SilentPasses(cards[k], key);
      }
      NoHit(cards, key);
    } else if sizes[0].key != key {
      LookupAgrees(cards[1..], sizes[1..], key);
    }
  }

  lemma {:induction false} LookupFirst(sizes: seq<SizeCard>, key: string, k: nat)
    requires k < |sizes| && sizes[k].key == key
    requires forall j :: 0 <= j < k ==> sizes[j].key != key
    ensures Lookup(sizes, key) == Some(sizes[k].value)
  {
    if k > 0 {
      LookupFirst(sizes[1..], key, k - 1);
    }
  }

  lemma {:induction false} LookupNone(sizes: seq<SizeCard>, key: string)
    requires forall j :: 0 <= j < |sizes| ==> sizes[j].key != key
    ensures Lookup(sizes, key) == None
  {
    if sizes != [] {
      LookupNone(sizes[1..], key);
    }
  }

  lemma AxisKeys(m: nat, n: nat)
    ensures AxisKey(m) == AxisKey(n) ==> m == n
    ensures AxisKey(m) !in {"BITPIX", "NAXIS", "PCOUNT", "GCOUNT"} && SizeKey(AxisKey(m))
  {
    DecimalReads(m);
    DecimalReads(n);
    hide Decimal, DigitsValue;
    assert AxisKey(m)[5..] == Decimal(m) && AxisKey(n)[5..] == Decimal(n);
    assert AxisKey(m)[0] == 'N' && |AxisKey(m)| > 5;
  }

  lemma CountLookups(bitpix: int, dims: seq<nat>, primary: bool)
    ensures var sizes := SizeCards(bitpix, dims, primary);
      && Lookup(sizes, "BITPIX") == Some(bitpix)
      && Lookup(sizes, "NAXIS") == Some(|dims|)
      && Lookup(sizes, "PCOUNT") == (if primary then None else Some(0))
      && Lookup(sizes, "GCOUNT") == (if primary then None else Some(1))
  {
    var sizes := SizeCards(bitpix, dims, primary);
    forall k | 2 <= k < 2 + |dims|
      ensures sizes[k].key !in {"BITPIX", "NAXIS", "PCOUNT", "GCOUNT"}
    {
      AxisKeys(k - 1, 0);
    }
    hide AxisKey;
    LookupFirst(sizes, "BITPIX", 0);
    LookupFirst(sizes, "NAXIS", 1);
    if primary {
      LookupNone(sizes, "PCOUNT");
      LookupNone(sizes, "GCOUNT");
    } else {
      LookupFirst(sizes, "PCOUNT", 2 + |dims|);
      LookupFirst(sizes, "GCOUNT", 3 + |dims|);
    }
  }

  lemma AxisLookup(bitpix: int, dims: seq<nat>, primary: bool, n: nat)
    requires 1 <= n <= |dims|
    ensures Lookup(SizeCards(bitpix, dims, primary), AxisKey(n)) == Some(dims[n - 1])
  {
    var sizes := SizeCards(bitpix, dims, primary);
    forall k | 0 <= k < 1 + n
      ensures sizes[k].key != AxisKey(n)
    {
      AxisKeys(n, if k >= 2 then k - 1 else 0);
    }
    hide AxisKey;
    LookupFirst(sizes, AxisKey(n), 1 + n);
  }

  // The header of an image as it is kept in memory reads as its size cards.
  lemma ImageCardsRead(first: string, bitpix: int, dims: seq<nat>, primary: bool, rest: seq<string>,
                       kept: seq<string>, key: string)
    requires |dims| <= 999 && FitsI64(bitpix) && forall k :: 0 <= k < |dims| ==> FitsI64(dims[k])
    requires Silent(TrimEnd(first)) && forall k :: 0 <= k < |rest| ==> Silent(TrimEnd(rest[k]))
    requires |kept| == |ImageCards(first, bitpix, dims, primary, rest)|
    requires forall k :: 0 <= k < |kept| ==> kept[k] == TrimEnd(ImageCards(first, bitpix, dims, primary, rest)[k])
    requires SizeKey(key)
    ensures KeywordValue(kept, key) == Lookup(SizeCards(bitpix, dims, primary), key)
  {
    var cards, sizes := ImageCards(first, bitpix, dims, primary, rest), SizeCards(bitpix, dims, primary);
    CardCount(first, bitpix, dims, primary, rest);
    hide *;
    forall k | 0 <= k < |sizes|
      ensures ReadsAs(kept[1..][k], sizes[k], key)
    {
      SizeCardReads(first, bitpix, dims, primary, rest, k, key);
      assert kept[k + 1] == TrimEnd(cards[k + 1]);
    }
    forall k | |sizes| <= k < |kept[1..]|
      ensures Silent(kept[1..][k])
    {
      RestCardAt(first, bitpix, dims, primary, rest, k);
      assert kept[k + 1] == TrimEnd(cards[k + 1]);
    }
    LookupAgrees(kept[1..], sizes, key);
    assert kept[0] == TrimEnd(cards[0]);
    SilentPasses(kept[0], key);
    KeywordBehind(kept, key);
  }

  lemma CardCount(first: string, bitpix: int, dims: seq<nat>, primary: bool, rest: seq<string>)
    ensures |ImageCards(first, bitpix, dims, primary, rest)| == 1 + |SizeCards(bitpix, dims, primary)| + |rest|
    ensures ImageCards(first, bitpix, dims, primary, rest)[0] == first
  {
    hide CardInt, AxisKey, Decimal;
  }

  lemma RestCardAt(first: string, bitpix: int, dims: seq<nat>, primary: bool, rest: seq<string>, k: nat)
    requires |SizeCards(bitpix, dims, primary)| <= k < |SizeCards(bitpix, dims, primary)| + |rest|
    ensures k + 1 < |ImageCards(first, bitpix, dims, primary, rest)|
    ensures ImageCards(first, bitpix, dims, primary, rest)[k + 1] == rest[k - |SizeCards(bitpix, dims, primary)|]
  {
    hide CardInt, AxisKey, Decimal;
  }

  lemma KeywordBehind(cards: seq<string>, key: string)
    requires cards != [] && ReadKeyword(cards[0], key) == Pass
    ensures KeywordValue(cards, key) == KeywordValue(cards[1..], key)
  {
    hide ReadKeyword;
  }

  lemma SizeCardAt(first: string, bitpix: int, dims: seq<nat>, primary: bool, rest: seq<string>, k: nat)
    returns (comment: string)
    requires k < |SizeCards(bitpix, dims, primary)|
    ensures k + 1 < |ImageCards(first, bitpix, dims, primary, rest)|
    ensures var s := SizeCards(bitpix, dims, primary)[k];
      && ImageCards(first, bitpix, dims, primary, rest)[k + 1] == CardInt(s.key, s.value, comment)
      && (s.key in {"BITPIX", "NAXIS", "PCOUNT", "GCOUNT"} || (1 <= k - 1 <= |dims| && s.key == AxisKey(k - 1)))
      && (s.value in {bitpix, |dims|, 0, 1} || (1 <= k - 1 <= |dims| && s.value == dims[k - 2]))
  {
    hide CardInt, IntText, AxisKey, Decimal;
    comment := if k == 0 then "number of bits per data pixel" else if k == 1 then "number of data axes"
      else if k < 2 + |dims| then "length of data axis " + Decimal(k - 1)
      else if k == 2 + |dims| then "required keyword; must = 0" else "required keyword; must = 1";
  }

  lemma SizeCardReads(first: string, bitpix: int, dims: seq<nat>, primary: bool, rest: seq<string>, k: nat, key: string)
    requires |dims| <= 999 && FitsI64(bitpix) && forall k :: 0 <= k < |dims| ==> FitsI64(dims[k])
    requires k < |SizeCards(bitpix, dims, primary)|
    ensures k + 1 < |ImageCards(first, bitpix, dims, primary, rest)|
    ensures ReadsAs(TrimEnd(ImageCards(first, bitpix, dims, primary, rest)[k + 1]),
                    SizeCards(bitpix, dims, primary)[k], key)
  {
    var comment := SizeCardAt(first, bitpix, dims, primary, rest, k);
    var s := SizeCards(bitpix, dims, primary)[k];
    hide SizeCards, ImageCards, ReadKeyword, CardInt, TrimEnd, IntText, AxisKey, Decimal;
    ShortKey(s.key, k - 1);
    IntCardReads(s.key, s.value, comment, key);
  }

  lemma ShortKey(key: string, n: int)
    requires key in {"BITPIX", "NAXIS", "PCOUNT", "GCOUNT"} || (1 <= n <= 999 && key == AxisKey(n))
    ensures IsKey(key)
  {
    if key !in {"BITPIX", "NAXIS", "PCOUNT", "GCOUNT"} {
      ShortNumbers(n);
    }
  }

  lemma ShortNumbers(n: nat)
    requires n <= 999
    ensures |Decimal(n)| <= 3 && IsKey(AxisKey(n))
  {
    assert |Decimal(n / 10 / 10)| == 1;
    assert |Decimal(n / 10)| <= 2;
    assert |Decimal(n)| <= 3;
  }

  lemma {:induction false} ProductsAgree(kept: seq<string>, dims: seq<nat>, n: nat)
    requires n <= |dims|
    requires forall k :: 1 <= k <= |dims| ==> KeywordValue(kept, AxisKey(k)) == Some(dims[k - 1])
    ensures AxesProduct(kept, n) == SatProduct(dims, n)
  {
    hide KeywordValue, AxisKey, SatMul;
    if n > 0 {
      ProductsAgree(kept, dims, n - 1);
      assert KeywordValue(kept, AxisKey(n)) == Some(dims[n - 1]);
    }
  }

  lemma SatExact(bytes: nat, product: nat)
    requires bytes * product <= U64_MAX && product <= U64_MAX && bytes <= U64_MAX
    ensures SatMul(SatMul(bytes, 1), SatAdd(product, 0)) == bytes * product
  {
  }

  // The bytes create_image_hdu sets aside for an image.
  function AllottedSize(bitpix: int, dims: seq<nat>): (n: nat) {
    if dims == [] then 0 else Magnitude(bitpix) / 8 * SatProduct(dims, |dims|)
  }

  // The cards of a new image declare exactly the size set aside for it.
  lemma ImageSizeAgrees(first: string, bitpix: int, dims: seq<nat>, primary: bool, rest: seq<string>, kept: seq<string>)
    requires |dims| <= 999 && FitsI64(bitpix) && forall k :: 0 <= k < |dims| ==> FitsI64(dims[k])
    requires Silent(TrimEnd(first)) && forall k :: 0 <= k < |rest| ==> Silent(TrimEnd(rest[k]))
    requires |kept| == |ImageCards(first, bitpix, dims, primary, rest)|
    requires forall k :: 0 <= k < |kept| ==> kept[k] == TrimEnd(ImageCards(first, bitpix, dims, primary, rest)[k])
    requires bitpix != 0 && Magnitude(bitpix) / 8 <= U64_MAX && AllottedSize(bitpix, dims) <= U64_MAX
    ensures DeclaredSize(kept) == AllottedSize(bitpix, dims)
  {
    hide Silent, TrimEnd, ImageCards, AxisKey, KeywordValue, IntText, SizeCards, Lookup, SatMul, SatAdd, AxesProduct;
    CountLookups(bitpix, dims, primary);
    SizeKeys();
    ImageCardsRead(first, bitpix, dims, primary, rest, kept, "BITPIX");
    ImageCardsRead(first, bitpix, dims, primary, rest, kept, "NAXIS");
    ImageCardsRead(first, bitpix, dims, primary, rest, kept, "PCOUNT");
    ImageCardsRead(first, bitpix, dims, primary, rest, kept, "GCOUNT");
    forall n | 1 <= n <= |dims|
      ensures KeywordValue(kept, AxisKey(n)) == Some(dims[n - 1])
    {
      AxisKeys(n, n);
      ImageCardsRead(first, bitpix, dims, primary, rest, kept, AxisKey(n));
      AxisLookup(bitpix, dims, primary, n);
    }
    ProductsAgree(kept, dims, |dims|);
    if dims != [] {
      ProductFits(dims, |dims|);
      SatExact(Magnitude(bitpix) / 8, SatProduct(dims, |dims|));
    }
  }

  lemma SizeKeys()
    ensures SizeKey("BITPIX") && SizeKey("NAXIS") && SizeKey("PCOUNT") && SizeKey("GCOUNT")
  {
  }

  lemma ProductFits(dims: seq<nat>, n: nat)
    requires n <= |dims|
    ensures SatProduct(dims, n) <= U64_MAX
  {
  }

  // ... and every open accepts them.
  lemma ImageHeaderIsValid(first: string, bitpix: int, dims: seq<nat>, primary: bool, rest: seq<string>,
                           kept: seq<string>)
    requires |dims| <= 999 && FitsI64(bitpix) && forall k :: 0 <= k < |dims| ==> FitsI64(dims[k])
    requires Silent(TrimEnd(first)) && forall k :: 0 <= k < |rest| ==> Silent(TrimEnd(rest[k]))
    requires |kept| == |ImageCards(first, bitpix, dims, primary, rest)|
    requires forall k :: 0 <= k < |kept| ==> kept[k] == TrimEnd(ImageCards(first, bitpix, dims, primary, rest)[k])
    requires FirstKey(kept) == if primary then "SIMPLE" else "XTENSION"
    ensures HeaderValid(kept, primary)
  {
    hide Silent, TrimEnd, ImageCards, AxisKey, KeywordValue, IntText, SizeCards, Lookup, FirstKey;
    CountLookups(bitpix, dims, primary);
    SizeKeys();
    ImageCardsRead(first, bitpix, dims, primary, rest, kept, "BITPIX");
    ImageCardsRead(first, bitpix, dims, primary, rest, kept, "NAXIS");
    forall n | 1 <= n <= |dims|
      ensures KeywordValue(kept, AxisKey(n)) == Some(dims[n - 1])
    {
      AxisKeys(n, n);
      ImageCardsRead(first, bitpix, dims, primary, rest, kept, AxisKey(n));
      AxisLookup(bitpix, dims, primary, n);
    }
  }
}
