// An image that has grown declares what it holds, so that its file still
// reopens as it is.
module ExtendReopens {
  import opened FitsBytes
  import opened CardText
  import opened CardNumbers
  import opened SliceMath
  import opened ImageData
  import opened HeaderBlocks
  import opened LayoutModel
  import opened FileRuns
  import opened DataSize
  import opened DeclaredSizes
  import opened Reparse
  import opened ImageExtend
  import SpareBlocks

  // ----- what a header says about an image -----

  // The header of an image of this shape, slowest axis first: FITS numbers the
  // axes from the fastest.
  predicate ReadsAsShape(cards: seq<string>, shape: seq<nat>, bpp: nat) {
    && 1 <= |shape| <= 999 && bpp > 0
    && KeywordValue(cards, "BITPIX").Some? && Magnitude(KeywordValue(cards, "BITPIX").value) / 8 == bpp
    && KeywordValue(cards, "NAXIS") == Some(|shape|)
    && KeywordValue(cards, "PCOUNT") in {None, Some(0)} && KeywordValue(cards, "GCOUNT") in {None, Some(1)}
    && forall k :: 1 <= k <= |shape| ==> KeywordValue(cards, AxisKey(k)) == Some(shape[|shape| - k])
  }

  lemma {:induction false} VolumeFront(a: nat, s: seq<nat>)
    ensures Volume([a] + s) == a * Volume(s)
  {
    if s == [] {
      assert [a] + s == [a] && [a][..0] == [];
    } else {
      var m := |s| - 1;
      assert ([a] + s)[..m + 1] == [a] + s[..m] && ([a] + s)[m + 1] == s[m];
      VolumeFront(a, s[..m]);
      Regroup(a, Volume(s[..m]), s[m]);
    }
  }

  lemma Regroup(a: nat, b: nat, c: nat)
    ensures (a * b) * c == a * (b * c)
  {
  }

  // The product saturates only when the true one does.
  lemma {:induction false} AxesMultiply(cards: seq<string>, shape: seq<nat>, k: nat)
    requires k <= |shape|
    requires forall j :: 1 <= j <= |shape| ==> KeywordValue(cards, AxisKey(j)) == Some(shape[|shape| - j])
    ensures AxesProduct(cards, k) == Min(Volume(shape[|shape| - k..]), U64_MAX)
  {
    hide KeywordValue, AxisKey, Volume, SatMul;
    if k == 0 {
      assert shape[|shape|..] == [];
      NothingMultiplied();
    } else {
      AxesMultiply(cards, shape, k - 1);
      var d, tail := shape[|shape| - k], shape[|shape| - (k - 1)..];
      assert shape[|shape| - k..] == [d] + tail;
      VolumeFront(d, tail);
      assert KeywordValue(cards, AxisKey(k)) == Some(d);
      SaturatesLate(Volume(tail), d);
      Commutes(d, Volume(tail));
    }
  }

  lemma Commutes(a: nat, b: nat)
    ensures a * b == b * a
  {
  }

  lemma NothingMultiplied()
    ensures Volume([]) == 1
  {
  }

  // So a header of an image declares its bytes.
  lemma ShapeDeclares(cards: seq<string>, shape: seq<nat>, bpp: nat)
    requires ReadsAsShape(cards, shape, bpp) && ImageBytes(shape, bpp) <= U64_MAX
    ensures DeclaredSize(cards) == ImageBytes(shape, bpp)
  {
    hide KeywordValue, AxisKey, Volume, SatMul, SatAdd;
    AxesMultiply(cards, shape, |shape|);
    assert shape[0..] == shape;
    VolumeFits(Volume(shape), bpp);
    OneGroup(bpp, Volume(shape));
  }

  lemma VolumeFits(v: nat, bpp: nat)
    requires bpp > 0 && v * bpp <= U64_MAX
    ensures v <= U64_MAX && (v > 0 ==> bpp <= U64_MAX)
  {
    MulMonotone(bpp, 1, v);
    if v > 0 {
      MulMonotone(v, 1, bpp);
    }
  }

  lemma OneGroup(bpp: nat, v: nat)
    requires v <= U64_MAX && v * bpp <= U64_MAX && (v > 0 ==> bpp <= U64_MAX)
    ensures SatMul(SatMul(bpp, 1), SatAdd(v, 0)) == v * bpp
  {
    if v > 0 {
      assert SatMul(bpp, 1) == bpp;
    }
    Commutes(bpp, v);
  }

  // ----- the header of an extend -----

  predicate AxisThere(cards: seq<string>, n: nat) {
    FirstNaming(cards, n) < |cards|
  }

  lemma AxisKeyIs(n: nat)
    requires 1 <= n <= 999
    ensures IsKey(AxisKey(n)) && AxisKey(n)[0] == 'N'
    ensures PrintableText(AxisKey(n)) && PrintableText("length of data axis " + Decimal(n))
    ensures AxisKey(n) != "SIMPLE" && AxisKey(n) != "XTENSION"
  {
    DataSize.ShortKey(AxisKey(n), n);
    hide IsKey;
  }

  lemma NamedCard(card: string, n: nat, key: string)
    requires NamesAxis(card, n) && key != AxisKey(n)
    ensures ReadKeyword(card, key) == Pass
  {
    hide Trim;
  }

  lemma UnnamedCard(card: string, n: nat)
    requires !NamesAxis(card, n)
    ensures ReadKeyword(card, AxisKey(n)) == Pass
  {
    hide Trim;
  }

  // The renewed card reads as the new length, every other keyword as before.
  lemma RenewedReads(cards: seq<string>, n: nat, length: nat, key: string)
    requires 1 <= n <= 999 && AxisThere(cards, n) && FitsI64(length)
    ensures var new_ := NewCards(cards, LengthCardOf(cards, n, length));
      KeywordValue(new_, key) == if key == AxisKey(n) then Some(length) else KeywordValue(cards, key)
  {
    AxisKeyIs(n);
    var comment := "length of data axis " + Decimal(n);
    var k, card := FirstNaming(cards, n), CardIntTrimmed(AxisKey(n), length, comment);
    IntCardReads(AxisKey(n), length, comment, key);
    hide ReadKeyword, CardIntTrimmed, AxisKey, Decimal, NamesAxis, FirstNaming;
    if key == AxisKey(n) {
      forall j | 0 <= j < k ensures ReadKeyword(cards[j], key) == Pass {
        UnnamedCard(cards[j], n);
      }
      FirstHit(cards[k := card], key, k);
    } else {
      NamedCard(cards[k], n, key);
      SameReads(cards, k, card, key);
    }
  }

  lemma {:induction false} FirstKeyStays(cards: seq<string>, k: nat, card: string, key: string)
    requires k < |cards| && |cards[k]| >= 8 && Trim(cards[k][..8]) == key && FirstKey(cards) != key
    requires Trim(cards[k]) != ""
    ensures FirstKey(cards[k := card]) == FirstKey(cards)
  {
    hide Trim;
    if k > 0 && Trim(cards[0]) == "" {
      assert cards[k := card][1..] == cards[1..][k - 1 := card];
      FirstKeyStays(cards[1..], k - 1, card, key);
    }
  }

  lemma InkedCard(card: string)
    requires |card| >= 8 && Trim(card[..8]) != ""
    ensures Trim(card) != ""
  {
    TrimmedIsBlank(card);
    TrimmedIsBlank(card[..8]);
    hide Trim;
  }

  lemma TrimmedIsBlank(s: string)
    ensures Trim(s) == "" <==> Blank(s)
  {
    if Blank(s) {
      TrimOf(s, "", "");
      assert s + "" + "" == s;
    }
    if Trim(s) == "" {
      BlankWhenTrimmed(s);
    }
  }

  lemma {:induction false} BlankWhenTrimmed(s: string)
    requires Trim(s) == ""
    ensures Blank(s)
  {
    if s != [] && s[0] == ' ' {
      BlankWhenTrimmed(s[1..]);
      assert forall i :: 0 < i < |s| ==> s[i] == s[1..][i - 1];
    } else if s != [] {
      InkStays(s, 1);
    }
  }

  // The new header is as well formed, as valid, and of the new shape.
  lemma RenewedShape(cards: seq<string>, shape: seq<nat>, p: Piece)
    requires Rows(shape, p) && ReadsAsShape(cards, shape, p.bpp) && AxisThere(cards, |shape|)
    requires FitsI64(GrownShape(shape, p)[0])
    ensures ReadsAsShape(NewCards(cards, AxisUpdate(cards, shape, p)), GrownShape(shape, p), p.bpp)
  {
    var n, length := |shape|, GrownShape(shape, p)[0];
    var new_ := NewCards(cards, LengthCardOf(cards, n, length));
    OtherNames(n);
    RenewedReads(cards, n, length, "BITPIX");
    RenewedReads(cards, n, length, "NAXIS");
    RenewedReads(cards, n, length, "PCOUNT");
    RenewedReads(cards, n, length, "GCOUNT");
    hide KeywordValue, LengthCardOf, NewCards, AxisThere, AxisKey;
    forall k | 1 <= k <= n ensures KeywordValue(new_, AxisKey(k)) == Some(GrownShape(shape, p)[n - k]) {
      RenewedReads(cards, n, length, AxisKey(k));
      AxisKeys(k, n);
    }
  }

  lemma OtherNames(n: nat)
    ensures AxisKey(n) !in {"BITPIX", "NAXIS", "PCOUNT", "GCOUNT"}
  {
    AxisKeys(n, n);
  }

  lemma RenewedValid(cards: seq<string>, shape: seq<nat>, p: Piece, primary: bool)
    requires Rows(shape, p) && ReadsAsShape(cards, shape, p.bpp) && AxisThere(cards, |shape|)
    requires FitsI64(GrownShape(shape, p)[0]) && HeaderValid(cards, primary)
    ensures HeaderValid(NewCards(cards, AxisUpdate(cards, shape, p)), primary)
  {
    RenewedShape(cards, shape, p);
    AxisKeyIs(|shape|);
    var k := FirstNaming(cards, |shape|);
    hide KeywordValue, AxisKey, Trim, FirstKey, CardIntTrimmed, FirstNaming;
    assert NamesAxis(cards[k], |shape|);
    InkedCard(cards[k]);
    FirstKeyStays(cards, k, AxisUpdate(cards, shape, p).card, AxisKey(|shape|));
  }

  lemma RenewedWellFormed(cards: seq<string>, n: nat, length: nat)
    requires 1 <= n <= 999 && AxisThere(cards, n) && FitsI64(length) && WellFormedCards(cards)
    ensures WellFormedCards(NewCards(cards, LengthCardOf(cards, n, length)))
  {
    AxisKeyIs(n);
    SpareBlocks.IntCardLater(AxisKey(n), length, "length of data axis " + Decimal(n));
    hide CardIntTrimmed, AxisKey, Decimal, PrintableText, EndsInk, Trim, WellFormedCards, FirstNaming;
    CardReplaced(cards, FirstNaming(cards, n), LengthCardOf(cards, n, length).card);
  }

  lemma CardReplaced(cards: seq<string>, k: nat, card: string)
    requires WellFormedCards(cards) && k < |cards| && |cards[k]| >= 8
    requires PrintableText(card) && EndsInk(card) && |card| <= CARD_SIZE && card != END_CARD
    ensures WellFormedCards(cards[k := card])
  {
    hide PrintableText, EndsInk;
  }

  // ----- the file -----

  // An image that an extend has grown, in a file whose headers fill their
  // blocks, is declared by its header and read back by the next open.
  lemma ExtendReopens(s: FileState, i: nat, shape: seq<nat>, p: Piece, s': FileState, lenient: bool)
    requires Consistent(s) && i < |s.hdus| == |s.cards| == |s.sizes| && AllPlain(s) && NoSpareBlocks(s)
    requires Rows(shape, p) && GrownShape(shape, p) != shape && s.sizes[i] == ImageBytes(shape, p.bpp)
    requires ReadsAsShape(s.cards[i], shape, p.bpp) && AxisThere(s.cards[i], |shape|)
    requires FitsI64(GrownShape(shape, p)[0]) && ImageBytes(GrownShape(shape, p), p.bpp) <= U64_MAX
    requires FirstCardStandsOut(NewCards(s.cards[i], AxisUpdate(s.cards[i], shape, p)))
    requires Extended(s, i, AxisUpdate(s.cards[i], shape, p), shape, p, s')
    ensures Consistent(s') && |s'.cards| == |s'.hdus| && i < |s'.cards| && i < |s'.sizes|
    ensures DeclaredSize(s'.cards[i]) == s'.sizes[i] == ImageBytes(GrownShape(shape, p), p.bpp)
    ensures ParseFrom(s'.disk, 0, lenient) == Parsed(s'.hdus, s'.cards)
  {
    var axis := AxisUpdate(s.cards[i], shape, p);
    var cards := NewCards(s.cards[i], axis);
    assert |cards| == |s.cards[i]|;
    hide *;
    SameBlockCount(s, i, cards);
    ExtendConsistentIff(s, i, axis, shape, p, s');
    RenewedPlain(s, i, shape, p);
    ExtendedParts(s, i, axis, shape, p, s');
    ExtendedRecords(s, i, axis, shape, p, s');
    ShapeDeclares(cards, GrownShape(shape, p), p.bpp);
    StillPlain(s, s', i, cards, ImageBytes(GrownShape(shape, p), p.bpp));
    ReopenIff(s', lenient);
  }

  lemma SameBlockCount(s: FileState, i: nat, cards: seq<string>)
    requires i < |s.hdus| == |s.cards| && NoSpareBlocks(s) && |cards| == |s.cards[i]|
    ensures BlocksFor(cards) == s.hdus[i].blocks
  {
  }

  lemma RenewedPlain(s: FileState, i: nat, shape: seq<nat>, p: Piece)
    requires i < |s.hdus| == |s.cards| && AllPlain(s) && Rows(shape, p) && ReadsAsShape(s.cards[i], shape, p.bpp)
    requires AxisThere(s.cards[i], |shape|) && FitsI64(GrownShape(shape, p)[0])
    ensures var cards := NewCards(s.cards[i], AxisUpdate(s.cards[i], shape, p));
      && WellFormedCards(cards) && HeaderValid(cards, i == 0) && ReadsAsShape(cards, GrownShape(shape, p), p.bpp)
  {
    assert Plain(s, i);
    RenewedIs(s.cards[i], shape, p);
    hide WellFormedCards, HeaderValid, DeclaredSize, RoundUpToBlock, AxisThere, NewCards, AxisUpdate, KeywordValue;
    hide LengthCardOf;
    RenewedShape(s.cards[i], shape, p);
    RenewedValid(s.cards[i], shape, p, i == 0);
    RenewedWellFormed(s.cards[i], |shape|, GrownShape(shape, p)[0]);
  }

  lemma RenewedIs(cards: seq<string>, shape: seq<nat>, p: Piece)
    requires Rows(shape, p)
    ensures |GrownShape(shape, p)| == |shape| > 0
    ensures AxisUpdate(cards, shape, p) == LengthCardOf(cards, |shape|, GrownShape(shape, p)[0])
  {
    hide LengthCardOf;
  }

  lemma ExtendedRecords(s: FileState, i: nat, axis: LengthCard, shape: seq<nat>, p: Piece, s': FileState)
    requires Consistent(s) && i < |s.hdus| && Extended(s, i, axis, shape, p, s') && GrownShape(shape, p) != shape
    requires s.sizes[i] == ImageBytes(shape, p.bpp)
    ensures |s'.hdus| == |s.hdus| && forall j :: 0 <= j < |s.hdus| ==> s'.hdus[j].blocks == s.hdus[j].blocks
  {
    HduAt(s, i);
    ExtendLeavesOthers(s, i, axis, shape, p, s');
    hide Extended, ImageBytes, GrownShape, ValidLayout, EndOf, RoundUpToBlock, HeaderOnDisk;
    forall j | 0 <= j < |s.hdus| ensures s'.hdus[j].blocks == s.hdus[j].blocks {
      if j != i {
        SameBlocksOf(s.disk, s.hdus, s'.disk, s'.hdus, i, j);
      }
    }
  }

  lemma SameBlocksOf(disk: seq<byte>, hdus: seq<Extent>, disk': seq<byte>, hdus': seq<Extent>, i: nat, j: nat)
    requires ValidLayout(|disk|, hdus) && ValidLayout(|disk'|, hdus') && KeepsOthers(disk, hdus, disk', hdus', i)
    requires j < |hdus| && j != i
    ensures j < |hdus'| && hdus'[j].blocks == hdus[j].blocks
  {
    assert WellPlaced(hdus[j]) && WellPlaced(hdus'[j]);
    assert SameHdu(disk, hdus, disk', hdus', j);
  }

  lemma StillPlain(s: FileState, s': FileState, i: nat, cards: seq<string>, size: nat)
    requires i < |s.hdus| == |s.cards| == |s.sizes| && AllPlain(s) && NoSpareBlocks(s) && |cards| == |s.cards[i]|
    requires |s'.hdus| == |s.hdus| && s'.cards == s.cards[i := cards] && s'.sizes == s.sizes[i := size]
    requires forall j :: 0 <= j < |s.hdus| ==> s'.hdus[j].blocks == s.hdus[j].blocks
    requires WellFormedCards(cards) && HeaderValid(cards, i == 0) && DeclaredSize(cards) == size
    ensures |s'.hdus| == |s'.cards| && AllPlain(s') && NoSpareBlocks(s')
  {
    SameBlockCount(s, i, cards);
    hide WellFormedCards, HeaderValid, DeclaredSize, RoundUpToBlock, BlocksFor;
    forall j | 0 <= j < |s'.hdus| ensures Plain(s', j) && s'.hdus[j].blocks == BlocksFor(s'.cards[j]) {
      if j != i {
        assert Plain(s, j);
      }
    }
  }
}
