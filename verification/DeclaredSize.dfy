// The bytes of data any header declares, as one exact number, and where the
// parse of a file looks for the next header.
module DeclaredSizes {
  import opened FitsBytes
  import opened CardNumbers
  import opened SliceMath
  import opened LayoutModel
  import opened HeaderBlocks
  import opened DataSize
  import opened Reparse

  // What the size cards of a header read as.
  datatype SizeWords = SizeWords(bitpix: int, dims: seq<int>, pcount: Option<int>, gcount: Option<int>)

  predicate ReadsAsSize(cards: seq<string>, s: SizeWords) {
    && KeywordValue(cards, "BITPIX") == Some(s.bitpix) && KeywordValue(cards, "NAXIS") == Some(|s.dims|)
    && KeywordValue(cards, "PCOUNT") == s.pcount && KeywordValue(cards, "GCOUNT") == s.gcount
    && (forall k :: 0 <= k < |s.dims| ==> s.dims[k] >= -0x8000_0000_0000_0000)
    && forall k :: 1 <= k <= |s.dims| ==> KeywordValue(cards, AxisKey(k)) == Some(s.dims[k - 1])
  }

  // A negative length is read as the unsigned number with its bits.
  function AxisLengths(dims: seq<int>): (lengths: seq<nat>)
    requires forall k :: 0 <= k < |dims| ==> dims[k] >= -0x8000_0000_0000_0000
  {
    seq(|dims|, k requires 0 <= k < |dims| && dims[k] >= -0x8000_0000_0000_0000 =>
      if dims[k] < 0 then dims[k] + 0x1_0000_0000_0000_0000 else dims[k])
  }

  // |BITPIX| / 8 bytes for each of GCOUNT groups of PCOUNT parameters and the
  // product of the axes; a count that is missing or not positive is left out.
  function TrueSize(s: SizeWords): (n: nat)
    requires forall k :: 0 <= k < |s.dims| ==> s.dims[k] >= -0x8000_0000_0000_0000
  {
    var bytes := (if s.bitpix < 0 then -s.bitpix else s.bitpix) / 8;
    var groups: nat := if s.gcount.Some? && s.gcount.value > 0 then s.gcount.value else 1;
    var heap: nat := if s.pcount.Some? && s.pcount.value > 0 then s.pcount.value else 0;
    if |s.dims| == 0 then 0 else bytes * groups * (heap + Product(AxisLengths(s.dims)))
  }

  lemma SaturatesLate(v: nat, d: nat)
    ensures SatMul(Min(v, U64_MAX), d) == Min(v * d, U64_MAX)
  {
    if d > 0 && v > U64_MAX {
      MulMonotone(d, 1, v);
      MulMonotone(d, 1, U64_MAX);
    }
  }

  lemma SaturatesBoth(x: nat, y: nat)
    ensures SatMul(Min(x, U64_MAX), Min(y, U64_MAX)) == Min(x * y, U64_MAX)
  {
    SaturatesLate(x, Min(y, U64_MAX));
    Flip(x, Min(y, U64_MAX));
    Flip(x, y);
    SaturatesLate(y, x);
  }

  lemma Flip(a: nat, b: nat)
    ensures a * b == b * a && SatMul(a, b) == SatMul(b, a)
  {
  }

  lemma {:induction false} AxesSaturate(cards: seq<string>, s: SizeWords, k: nat)
    requires ReadsAsSize(cards, s) && k <= |s.dims|
    ensures AxesProduct(cards, k) == Min(Product(AxisLengths(s.dims)[..k]), U64_MAX)
  {
    hide KeywordValue, AxisKey, SatMul, Product;
    var lengths := AxisLengths(s.dims);
    if k == 0 {
      assert lengths[..0] == [];
      NoAxes();
    } else {
      AxesSaturate(cards, s, k - 1);
      assert lengths[..k] == lengths[..k - 1] + [lengths[k - 1]];
      ProductSnoc(lengths[..k - 1], lengths[k - 1]);
      SaturatesLate(Product(lengths[..k - 1]), lengths[k - 1]);
      assert KeywordValue(cards, AxisKey(k)) == Some(s.dims[k - 1]);
    }
  }

  lemma NoAxes()
    ensures Product([]) == 1
  {
  }

  // Any header declares its true size, or the largest u64 when that does not
  // fit.
  lemma DeclaredIsTrueSize(cards: seq<string>, s: SizeWords)
    requires ReadsAsSize(cards, s) && |s.dims| <= 999
    ensures DeclaredSize(cards) == Min(TrueSize(s), U64_MAX)
  {
    DeclaredParts(cards, s);
    hide KeywordValue, AxisKey, Product, SatMul, SatAdd, DeclaredSize, AxesProduct, AxisLengths, ReadsAsSize;
    var bytes, lengths := (if s.bitpix < 0 then -s.bitpix else s.bitpix) / 8, AxisLengths(s.dims);
    var groups: nat := if s.gcount.Some? && s.gcount.value > 0 then s.gcount.value else 1;
    var heap: nat := if s.pcount.Some? && s.pcount.value > 0 then s.pcount.value else 0;
    AllLengths(s.dims);
    if |s.dims| > 0 {
      AxesSaturate(cards, s, |s.dims|);
      Saturated(bytes, groups, Product(lengths), heap);
      Nothing(groups, heap + Product(lengths));
    }
  }

  lemma AllLengths(dims: seq<int>)
    requires forall k :: 0 <= k < |dims| ==> dims[k] >= -0x8000_0000_0000_0000
    ensures AxisLengths(dims)[..|dims|] == AxisLengths(dims)
  {
  }

  lemma DeclaredParts(cards: seq<string>, s: SizeWords)
    requires ReadsAsSize(cards, s) && |s.dims| <= 999
    ensures var bytes := (if s.bitpix < 0 then -s.bitpix else s.bitpix) / 8;
      var groups: nat := if s.gcount.Some? && s.gcount.value > 0 then s.gcount.value else 1;
      var heap: nat := if s.pcount.Some? && s.pcount.value > 0 then s.pcount.value else 0;
      DeclaredSize(cards) == if s.bitpix == 0 || |s.dims| == 0 then 0
                             else SatMul(SatMul(bytes, groups), SatAdd(AxesProduct(cards, |s.dims|), heap))
  {
    hide KeywordValue, AxisKey, SatMul, SatAdd, AxesProduct;
  }

  lemma Nothing(groups: nat, rest: nat)
    ensures 0 * groups * rest == 0
  {
  }

  lemma Saturated(bytes: nat, groups: nat, product: nat, heap: nat)
    ensures SatMul(SatMul(bytes, groups), SatAdd(Min(product, U64_MAX), heap))
         == Min(bytes * groups * (heap + product), U64_MAX)
  {
    assert SatAdd(Min(product, U64_MAX), heap) == Min(heap + product, U64_MAX);
    assert SatMul(bytes, groups) == Min(bytes * groups, U64_MAX);
    SaturatesBoth(bytes * groups, heap + product);
  }

  // ----- where the next header is looked for -----

  lemma PaddedIs(n: nat)
    ensures n <= RoundUpToBlock(n) < n + 2880 && RoundUpToBlock(n) % 2880 == 0
  {
  }

  lemma {:induction false} ParsedStarts(disk: seq<byte>, offset: nat, lenient: bool, hdus: seq<Extent>,
                                        cards: seq<seq<string>>, j: nat)
    requires ParseFrom(disk, offset, lenient) == Parsed(hdus, cards) && j < |hdus|
    ensures |hdus| == |cards| && (j == 0 ==> hdus[0].header == offset)
    ensures hdus[j].data == hdus[j].header + 2880 * BlocksFor(cards[j])
    ensures j + 1 < |hdus| ==> hdus[j + 1].header == hdus[j].data + RoundUpToBlock(DeclaredSize(cards[j]))
    decreases |disk| - offset
  {
    hide ReadHeaderFrom, HeaderValid, DeclaredSize, RoundUpToBlock, BlocksFor;
    ParsedBlocks(disk, offset, lenient);
    var read := ReadHeaderFrom(disk, offset, [], lenient).cards;
    if NextOffset(offset, read) < |disk| {
      var rest := ParseFrom(disk, NextOffset(offset, read), lenient);
      assert hdus == [ExtentOf(offset, read)] + rest.hdus && cards == [read] + rest.cards;
      if j > 0 {
        ParsedStarts(disk, NextOffset(offset, read), lenient, rest.hdus, rest.cards, j - 1);
      } else if |rest.hdus| > 0 {
        ParsedStarts(disk, NextOffset(offset, read), lenient, rest.hdus, rest.cards, 0);
      }
    }
  }

  // In every parsed file the header behind an HDU starts in the first block
  // behind all its data, heap and groups included.
  lemma NextHeaderBehindData(disk: seq<byte>, lenient: bool, hdus: seq<Extent>, cards: seq<seq<string>>, j: nat,
                             s: SizeWords)
    requires ParseFrom(disk, 0, lenient) == Parsed(hdus, cards) && |hdus| == |cards| && j + 1 < |hdus|
    requires ReadsAsSize(cards[j], s) && |s.dims| <= 999 && TrueSize(s) <= U64_MAX
    ensures hdus[j].data + TrueSize(s) <= hdus[j + 1].header < hdus[j].data + TrueSize(s) + 2880
  {
    hide ParseFrom, KeywordValue, AxisKey, TrueSize, RoundUpToBlock, DeclaredSize;
    ParsedStarts(disk, 0, lenient, hdus, cards, j);
    DeclaredIsTrueSize(cards[j], s);
    PaddedIs(TrueSize(s));
  }
}
