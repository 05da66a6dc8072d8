// Reading and writing a strided N-dimensional slice of an image, strip by
// strip.
module ImageSlices {
  import opened FitsBytes
  import opened SliceMath
  import opened StripLayout
  import opened FileStorage
  import opened Byteswap

  // Byte k of the selection, counted from the start of the data section.
  function SelectedByte(shape: seq<nat>, slices: seq<AxisSlice>, bpp: nat, k: nat): (n: nat)
    requires |shape| == |slices| && bpp > 0 && k < PixelCount(slices) * bpp
  {
    QuotientBelow(k, PixelCount(slices), bpp);
    SourcePixel(shape, slices, k / bpp) * bpp + k % bpp
  }

  // `raw` holds the selected pixels of the file, in row-major order.
  predicate Gathered(file: seq<byte>, dataOffset: nat, shape: seq<nat>, slices: seq<AxisSlice>, bpp: nat,
                     raw: seq<byte>)
    requires |shape| == |slices| && bpp > 0
  {
    && |raw| == PixelCount(slices) * bpp
    && forall k :: 0 <= k < |raw| ==>
         dataOffset + SelectedByte(shape, slices, bpp, k) < |file|
           && raw[k] == file[dataOffset + SelectedByte(shape, slices, bpp, k)]
  }

  lemma ByteInStrip(t: nat, strip: nat, bpp: nat, j: nat)
    requires bpp > 0 && j < strip * bpp
    ensures (t * (strip * bpp) + j) / bpp == t * strip + j / bpp
    ensures (t * (strip * bpp) + j) % bpp == j % bpp
    ensures j / bpp < strip
  {
    DivideAdvance(t, strip, bpp, j);
    QuotientBelow(j, strip, bpp);
  }

  // The bytes of strip t follow one another in the file.
  lemma StripBytes(shape: seq<nat>, slices: seq<AxisSlice>, bpp: nat, outer: nat, t: nat, pixel: nat, j: nat)
    requires StripFrom(shape, slices, outer) && bpp > 0
    requires t < PixelCount(slices[..outer]) && j < StripPixels(slices, outer) * bpp
    requires t * StripPixels(slices, outer) < PixelCount(slices)
    requires pixel == SourcePixel(shape, slices, t * StripPixels(slices, outer))
    ensures t * (StripPixels(slices, outer) * bpp) + j < PixelCount(slices) * bpp
    ensures SelectedByte(shape, slices, bpp, t * (StripPixels(slices, outer) * bpp) + j) == pixel * bpp + j
  {
    hide *;
    StripShape(shape, slices, outer, t, j);
    var strip := StripPixels(slices, outer);
    var k, n := t * (strip * bpp) + j, t * strip + j / bpp;
    ByteInStrip(t, strip, bpp, j);
    StripIsContiguous(shape, slices, outer, t, j / bpp);
    assert SourcePixel(shape, slices, n) == pixel + j / bpp;
    StripByte(shape, slices, bpp, k, n, pixel, j);
  }

  lemma StripByte(shape: seq<nat>, slices: seq<AxisSlice>, bpp: nat, k: nat, n: nat, pixel: nat, j: nat)
    requires |shape| == |slices| && bpp > 0 && n < PixelCount(slices)
    requires k / bpp == n && k % bpp == j % bpp && SourcePixel(shape, slices, n) == pixel + j / bpp
    ensures k < PixelCount(slices) * bpp
    ensures SelectedByte(shape, slices, bpp, k) == pixel * bpp + j
  {
    hide *;
    BytesOfPixels(n, PixelCount(slices), bpp, k);
    SelectedByteIs(shape, slices, bpp, k, n, j % bpp);
    AlongRow(pixel, j, bpp);
  }

  lemma SelectedByteIs(shape: seq<nat>, slices: seq<AxisSlice>, bpp: nat, k: nat, n: nat, r: nat)
    requires |shape| == |slices| && bpp > 0 && k < PixelCount(slices) * bpp
    requires k / bpp == n && k % bpp == r && n < PixelCount(slices)
    ensures SelectedByte(shape, slices, bpp, k) == SourcePixel(shape, slices, n) * bpp + r
  {
  }

  lemma BytesOfPixels(n: nat, total: nat, bpp: nat, k: nat)
    requires bpp > 0 && n < total && k / bpp == n
    ensures k < total * bpp
  {
    assert k == (k / bpp) * bpp + k % bpp;
    MulMonotone(total, n, bpp);
  }

  lemma TotalBytes(slices: seq<AxisSlice>, outer: nat, bpp: nat, t: nat)
    requires outer <= |slices|
    ensures PixelCount(slices) * bpp == PixelCount(slices[..outer]) * (StripPixels(slices, outer) * bpp)
    ensures t < PixelCount(slices[..outer]) ==>
      t * (StripPixels(slices, outer) * bpp) + StripPixels(slices, outer) * bpp <= PixelCount(slices) * bpp
  {
    hide *;
    StripsCoverSelection(slices, outer);
    BlocksFit(PixelCount(slices[..outer]), StripPixels(slices, outer), bpp, t, PixelCount(slices));
  }

  lemma BlocksFit(a: nat, b: nat, c: nat, t: nat, ab: nat)
    requires ab == a * b
    ensures ab * c == a * (b * c)
    ensures t < a ==> t * (b * c) + b * c <= ab * c
  {
    assert (a * b) * c == a * (b * c);
    MulMonotone(a, t, b * c);
  }

  // Where the bytes of the selection lie in the file.
  function Positions(dataOffset: nat, shape: seq<nat>, slices: seq<AxisSlice>, bpp: nat): (at: seq<nat>)
    requires |shape| == |slices| && bpp > 0
    ensures |at| == PixelCount(slices) * bpp
    ensures forall k :: 0 <= k < |at| ==> at[k] == dataOffset + SelectedByte(shape, slices, bpp, k)
  {
    seq(PixelCount(slices) * bpp,
        k requires 0 <= k < PixelCount(slices) * bpp => dataOffset + SelectedByte(shape, slices, bpp, k))
  }

  // Strip t of the selection lies at consecutive positions.
  lemma StripRun(dataOffset: nat, shape: seq<nat>, slices: seq<AxisSlice>, bpp: nat, outer: nat, t: nat, pixel: nat,
                 offset: nat, stripBytes: nat)
    requires StripFrom(shape, slices, outer) && bpp > 0
    requires t < PixelCount(slices[..outer]) && t * StripPixels(slices, outer) < PixelCount(slices)
    requires pixel == SourcePixel(shape, slices, t * StripPixels(slices, outer))
    requires stripBytes == StripPixels(slices, outer) * bpp && offset == t * stripBytes
    ensures |shape| == |slices| && offset + stripBytes <= PixelCount(slices) * bpp
    ensures forall k :: offset <= k < offset + stripBytes ==>
      Positions(dataOffset, shape, slices, bpp)[k] == dataOffset + pixel * bpp + (k - offset)
  {
    hide SourcePixel, PixelCount, StripPixels, StripFrom, SelectedByte;
    StripShape(shape, slices, outer, t, 0);
    TotalBytes(slices, outer, bpp, t);
    var at := Positions(dataOffset, shape, slices, bpp);
    forall k | offset <= k < offset + stripBytes
      ensures at[k] == dataOffset + pixel * bpp + (k - offset)
    {
      StripBytes(shape, slices, bpp, outer, t, pixel, k - offset);
    }
  }

  // What one strip adds to the bytes read so far.
  lemma NextStripGathered(file: seq<byte>, dataOffset: nat, shape: seq<nat>, slices: seq<AxisSlice>, bpp: nat,
                          outer: nat, t: nat, pixel: nat, strip: seq<byte>, offset: nat)
    requires StripFrom(shape, slices, outer) && bpp > 0
    requires t < PixelCount(slices[..outer]) && t * StripPixels(slices, outer) < PixelCount(slices)
    requires pixel == SourcePixel(shape, slices, t * StripPixels(slices, outer))
    requires |strip| == StripPixels(slices, outer) * bpp && offset == t * |strip|
    requires dataOffset + pixel * bpp + |strip| <= |file|
    requires strip == file[dataOffset + pixel * bpp..dataOffset + pixel * bpp + |strip|]
    ensures offset + |strip| <= PixelCount(slices) * bpp
    ensures forall k :: offset <= k < offset + |strip| ==>
      dataOffset + SelectedByte(shape, slices, bpp, k) < |file|
      && strip[k - offset] == file[dataOffset + SelectedByte(shape, slices, bpp, k)]
  {
    StripRun(dataOffset, shape, slices, bpp, outer, t, pixel, offset, |strip|);
    hide *;
    var at := Positions(dataOffset, shape, slices, bpp);
    RunOfFile(file, strip, dataOffset + pixel * bpp, at, offset);
    forall k | offset <= k < offset + |strip|
      ensures dataOffset + SelectedByte(shape, slices, bpp, k) < |file|
      ensures strip[k - offset] == file[dataOffset + SelectedByte(shape, slices, bpp, k)]
    {
      assert at[k] == dataOffset + SelectedByte(shape, slices, bpp, k);
    }
  }

  lemma RunOfFile(file: seq<byte>, strip: seq<byte>, start: nat, at: seq<nat>, offset: nat)
    requires start + |strip| <= |file| && strip == file[start..start + |strip|] && offset + |strip| <= |at|
    requires forall k :: offset <= k < offset + |strip| ==> at[k] == start + (k - offset)
    ensures forall k :: offset <= k < offset + |strip| ==> at[k] < |file| && strip[k - offset] == file[at[k]]
  {
  }

  // ===== reading =====

  // Where the next strip starts, for the odometer reading idx at step t.
  method NextStrip(shape: seq<nat>, slices: seq<AxisSlice>, strides: seq<nat>, outer: nat, idx: seq<nat>, inner: nat,
                   ghost t: nat) returns (pixel: nat)
    requires ValidSlices(shape, slices) && IsStrides(strides, shape) && StripFrom(shape, slices, outer)
    requires |idx| == outer && InCounts(slices[..outer], idx) && t == Rank(slices[..outer], idx)
    requires inner == StrideSum(shape[outer..], slices[outer..], Zeros(|shape| - outer))
    requires PixelCount(slices) > 0
    ensures t < PixelCount(slices[..outer]) && t * StripPixels(slices, outer) < PixelCount(slices)
    ensures pixel == SourcePixel(shape, slices, t * StripPixels(slices, outer))
  {
    StripsPositive(slices, outer);
    hide SourcePixel, PixelCount, StripPixels, StrideSum, Rank;
    StripStart(shape, slices, outer, idx, t);
    RankInside(slices[..outer], idx);
    pixel := StripSource(shape, slices, strides, idx, inner);
  }

  lemma StripsPositive(slices: seq<AxisSlice>, outer: nat)
    requires outer <= |slices| && PixelCount(slices) > 0
    ensures PixelCount(slices[..outer]) > 0 && StripPixels(slices, outer) > 0
  {
    hide PixelCount, StripPixels;
    StripsCoverSelection(slices, outer);
    FactorsPositive(PixelCount(slices[..outer]), StripPixels(slices, outer));
  }

  lemma FactorsPositive(a: nat, b: nat)
    requires a * b > 0
    ensures a > 0 && b > 0
  {
  }

  // One strip, read straight into its place in the output.
  method GatherStrip(f: Storage, dataOffset: nat, shape: seq<nat>, slices: seq<AxisSlice>, bpp: nat, ghost outer: nat,
                     ghost t: nat, pixel: nat, buffer: array<byte>, offset: nat, stripBytes: nat)
    returns (ok: bool)
    requires StripFrom(shape, slices, outer) && bpp > 0
    requires t < PixelCount(slices[..outer]) && t * StripPixels(slices, outer) < PixelCount(slices)
    requires pixel == SourcePixel(shape, slices, t * StripPixels(slices, outer))
    requires stripBytes == StripPixels(slices, outer) * bpp && offset == t * stripBytes
    requires GatheredUpTo(f.bytes, dataOffset, shape, slices, bpp, buffer[..], offset)
    modifies buffer
    ensures ok ==> GatheredUpTo(f.bytes, dataOffset, shape, slices, bpp, buffer[..], offset + stripBytes)
    ensures !f.mayFail && dataOffset + pixel * bpp + stripBytes <= |f.bytes| ==> ok
  {
    hide SourcePixel, PixelCount, StripPixels, StripFrom, SelectedByte;
    StripShape(shape, slices, outer, t, 0);
    var data;
    ok, data := f.Read(dataOffset + pixel * bpp, stripBytes);
    if !ok {
      return;
    }
    NextStripGathered(f.bytes, dataOffset, shape, slices, bpp, outer, t, pixel, data, offset);
    ghost var before := buffer[..];
    forall j | 0 <= j < stripBytes {
      buffer[offset + j] := data[j];
    }
    GatheredMore(f.bytes, dataOffset, shape, slices, bpp, before, buffer[..], offset, data);
  }

  lemma GatheredMore(file: seq<byte>, dataOffset: nat, shape: seq<nat>, slices: seq<AxisSlice>, bpp: nat,
                     before: seq<byte>, after: seq<byte>, offset: nat, data: seq<byte>)
    requires |shape| == |slices| && bpp > 0
    requires GatheredUpTo(file, dataOffset, shape, slices, bpp, before, offset)
    requires |after| == |before| && offset + |data| <= |after|
    requires forall k :: 0 <= k < offset ==> after[k] == before[k]
    requires forall k :: offset <= k < offset + |data| ==> after[k] == data[k - offset]
    requires forall k :: offset <= k < offset + |data| ==>
      dataOffset + SelectedByte(shape, slices, bpp, k) < |file|
      && data[k - offset] == file[dataOffset + SelectedByte(shape, slices, bpp, k)]
    ensures GatheredUpTo(file, dataOffset, shape, slices, bpp, after, offset + |data|)
  {
    hide SelectedByte, PixelCount;
  }

  // The strip loop of read_image_slice.
  // The strip the odometer shows, read into its place.
  method GatherNext(f: Storage, dataOffset: nat, shape: seq<nat>, slices: seq<AxisSlice>, bpp: nat, strides: seq<nat>,
                    outer: nat, idx: seq<nat>, inner: nat, ghost t: nat, buffer: array<byte>, offset: nat,
                    stripBytes: nat)
    returns (ok: bool)
    requires ValidSlices(shape, slices) && IsStrides(strides, shape) && StripFrom(shape, slices, outer) && bpp > 0
    requires |idx| == outer && InCounts(slices[..outer], idx) && t == Rank(slices[..outer], idx)
    requires inner == StrideSum(shape[outer..], slices[outer..], Zeros(|shape| - outer))
    requires PixelCount(slices) > 0 && stripBytes == StripPixels(slices, outer) * bpp && offset == t * stripBytes
    requires GatheredUpTo(f.bytes, dataOffset, shape, slices, bpp, buffer[..], offset)
    modifies buffer
    ensures ok ==> GatheredUpTo(f.bytes, dataOffset, shape, slices, bpp, buffer[..], offset + stripBytes)
    ensures !f.mayFail && dataOffset + Volume(shape) * bpp <= |f.bytes| ==> ok
  {
    hide *;
    StripShape(shape, slices, outer, t, 0);
    var pixel := NextStrip(shape, slices, strides, outer, idx, inner, t);
    StripsPositive(slices, outer);
    StripInFile(shape, slices, bpp, outer, t, pixel);
    ok := GatherStrip(f, dataOffset, shape, slices, bpp, outer, t, pixel, buffer, offset, stripBytes);
  }

  method GatherStrips(f: Storage, dataOffset: nat, shape: seq<nat>, slices: seq<AxisSlice>, bpp: nat)
    returns (ok: bool, buffer: array<byte>)
    requires ValidSlices(shape, slices) && bpp > 0 && PixelCount(slices) > 0
    ensures fresh(buffer)
    ensures ok ==> Gathered(f.bytes, dataOffset, shape, slices, bpp, buffer[..])
    ensures !f.mayFail && dataOffset + Volume(shape) * bpp <= |f.bytes| ==> ok
  {
    hide SourcePixel, PixelCount, StripPixels, StripFrom, StrideSum, Rank, Volume, InCounts, IsStrides;
    hide ValidSlices, GatheredUpTo;
    SameRank(shape, slices);
    var strides := RowMajorStrides(shape);
    var outer, stripPixels := ComputeReadStripLayout(shape, slices);
    StripShape(shape, slices, outer, 0, 0);
    var stripBytes := stripPixels * bpp;
    var outerCount := PixelCount(slices[..outer]);
    var inner := InnerStart(shape, slices, strides, outer);
    TotalBytes(slices, outer, bpp, 0);
    buffer := new byte[PixelCount(slices) * bpp](_ => 0);
    var idx := new nat[outer](_ => 0);
    StripsPositive(slices, outer);
    FirstIndex(slices, outer, idx[..]);
    NothingGathered(f.bytes, dataOffset, shape, slices, bpp, buffer[..]);
    var offset := 0;
    for t := 0 to outerCount
      invariant offset == t * stripBytes
      invariant t < outerCount ==> InCounts(slices[..outer], idx[..]) && Rank(slices[..outer], idx[..]) == t
      invariant GatheredUpTo(f.bytes, dataOffset, shape, slices, bpp, buffer[..], offset)
    {
      ok := GatherNext(f, dataOffset, shape, slices, bpp, strides, outer, idx[..], inner, t, buffer, offset,
                       stripBytes);
      if !ok {
        return;
      }
      NextOffset(t, stripBytes);
      offset := offset + stripBytes;
      AdvanceOdometer(idx, slices[..outer]);
    }
    AllGathered(f.bytes, dataOffset, shape, slices, bpp, buffer[..], offset);
    ok := true;
  }

  lemma SameRank(shape: seq<nat>, slices: seq<AxisSlice>)
    requires ValidSlices(shape, slices)
    ensures |shape| == |slices|
  {
  }

  lemma NextOffset(t: nat, stripBytes: nat)
    ensures t * stripBytes + stripBytes == (t + 1) * stripBytes
  {
  }

  lemma NothingGathered(file: seq<byte>, dataOffset: nat, shape: seq<nat>, slices: seq<AxisSlice>, bpp: nat,
                        raw: seq<byte>)
    requires |shape| == |slices| && bpp > 0 && |raw| == PixelCount(slices) * bpp
    ensures GatheredUpTo(file, dataOffset, shape, slices, bpp, raw, 0)
  {
  }

  lemma AllGathered(file: seq<byte>, dataOffset: nat, shape: seq<nat>, slices: seq<AxisSlice>, bpp: nat,
                    raw: seq<byte>, n: nat)
    requires |shape| == |slices| && bpp > 0 && n == PixelCount(slices) * bpp
    requires GatheredUpTo(file, dataOffset, shape, slices, bpp, raw, n)
    ensures Gathered(file, dataOffset, shape, slices, bpp, raw)
  {
    hide SelectedByte, PixelCount;
  }

  // The first `upTo` bytes of the selection are in place.
  predicate GatheredUpTo(file: seq<byte>, dataOffset: nat, shape: seq<nat>, slices: seq<AxisSlice>, bpp: nat,
                         raw: seq<byte>, upTo: nat)
    requires |shape| == |slices| && bpp > 0
  {
    && upTo <= |raw| == PixelCount(slices) * bpp
    && forall k :: 0 <= k < upTo ==>
         dataOffset + SelectedByte(shape, slices, bpp, k) < |file|
           && raw[k] == file[dataOffset + SelectedByte(shape, slices, bpp, k)]
  }

  lemma FirstIndex(slices: seq<AxisSlice>, outer: nat, idx: seq<nat>)
    requires outer <= |slices| && |idx| == outer && PixelCount(slices[..outer]) > 0
    requires forall k :: 0 <= k < outer ==> idx[k] == 0
    ensures InCounts(slices[..outer], idx) && Rank(slices[..outer], idx) == 0
  {
    var s := slices[..outer];
    assert s[..|s|] == s;
    ZeroRank(s, idx);
  }

  lemma {:induction false} ZeroRank(s: seq<AxisSlice>, idx: seq<nat>)
    requires |idx| == |s| && PixelCount(s) > 0
    requires forall k :: 0 <= k < |idx| ==> idx[k] == 0
    ensures InCounts(s, idx) && Rank(s, idx) == 0
  {
    if s != [] {
      var m := |s| - 1;
      FactorsPositive(PixelCount(s[..m]), s[m].count);
      ZeroRank(s[..m], idx[..m]);
      forall k | 0 <= k < |idx|
        ensures idx[k] < s[k].count
      {
        if k < m { assert s[..m][k] == s[k] && idx[..m][k] == idx[k]; }
      }
    }
  }

  // A strip of a valid slice ends inside the data section.
  lemma StripInFile(shape: seq<nat>, slices: seq<AxisSlice>, bpp: nat, outer: nat, t: nat, pixel: nat)
    requires ValidSlices(shape, slices) && StripFrom(shape, slices, outer) && bpp > 0
    requires t < PixelCount(slices[..outer]) && StripPixels(slices, outer) > 0
    requires t * StripPixels(slices, outer) < PixelCount(slices)
    requires pixel == SourcePixel(shape, slices, t * StripPixels(slices, outer))
    ensures pixel * bpp + StripPixels(slices, outer) * bpp <= Volume(shape) * bpp
  {
    hide SourcePixel, PixelCount, StripPixels, StripFrom, Volume;
    StripShape(shape, slices, outer, t, 0);
    var strip := StripPixels(slices, outer);
    StripIsContiguous(shape, slices, outer, t, strip - 1);
    SourcePixelInside(shape, slices, t * strip + (strip - 1));
    assert (pixel + strip) * bpp == pixel * bpp + strip * bpp;
    MulMonotone(Volume(shape), pixel + strip, bpp);
  }

  // read_image_slice: the selected pixels in native byte order.
  method ReadImageSlice(f: Storage, dataOffset: nat, shape: seq<nat>, slices: seq<AxisSlice>, bpp: nat,
                        littleEndian: bool)
    returns (ok: bool, out: seq<byte>)
    requires ValidSlices(shape, slices) && bpp > 0
    ensures ok ==> Gathered(f.bytes, dataOffset, shape, slices, bpp, Native(out, bpp, littleEndian))
    ensures ok ==> NativePixels(f.bytes, dataOffset, shape, slices, bpp, littleEndian, out)
    ensures !f.mayFail && dataOffset + Volume(shape) * bpp <= |f.bytes| ==> ok
  {
    if PixelCount(slices) == 0 {
      return true, [];
    }
    ok, out := ReadPixels(f, dataOffset, shape, slices, bpp, littleEndian);
    if ok {
      hide Gathered, PixelCount, Volume, ValidSlices, Native, NativePixels;
      SameRank(shape, slices);
      GatheredPixels(f.bytes, dataOffset, shape, slices, bpp, littleEndian, out);
    }
  }

  method ReadPixels(f: Storage, dataOffset: nat, shape: seq<nat>, slices: seq<AxisSlice>, bpp: nat, littleEndian: bool)
    returns (ok: bool, out: seq<byte>)
    requires ValidSlices(shape, slices) && bpp > 0 && PixelCount(slices) > 0
    ensures ok ==> Gathered(f.bytes, dataOffset, shape, slices, bpp, Native(out, bpp, littleEndian))
    ensures !f.mayFail && dataOffset + Volume(shape) * bpp <= |f.bytes| ==> ok
  {
    hide Gathered, PixelCount, Swapped, Volume, ValidSlices;
    SameRank(shape, slices);
    var buffer;
    ok, buffer := GatherStrips(f, dataOffset, shape, slices, bpp);
    if !ok {
      return false, [];
    }
    SwapInvolution(buffer[..], SwapUnit(bpp));
    if bpp > 1 && littleEndian {
      ByteswapInPlace(buffer, bpp);
    }
    out := buffer[..];
  }

  // Big-endian bytes of the file as native bytes of an array, and back.
  function Native(s: seq<byte>, bpp: nat, littleEndian: bool): (bytes: seq<byte>) {
    if bpp > 1 && littleEndian then Swapped(s, SwapUnit(bpp)) else s
  }

  // Which byte of a pixel in the file byte k of the native pixel is: FITS is
  // big-endian, and the halves of a complex number stay in order.
  function FileByte(bpp: nat, littleEndian: bool, k: nat): (b: nat)
    requires k < bpp
    ensures b < bpp
  {
    if !littleEndian then k else if bpp == 16 then (if k < 8 then 7 - k else 23 - k) else bpp - 1 - k
  }

  // `out` is the selected pixels of the file in native order, byte by byte.
  predicate NativePixels(file: seq<byte>, dataOffset: nat, shape: seq<nat>, slices: seq<AxisSlice>, bpp: nat,
                       littleEndian: bool, out: seq<byte>)
    requires |shape| == |slices| && bpp > 0
  {
    && |out| == PixelCount(slices) * bpp
    && forall j: nat, k: nat :: j < PixelCount(slices) && k < bpp ==>
         NativePixelByte(file, dataOffset, shape, slices, bpp, littleEndian, out, j, k)
  }

  predicate NativePixelByte(file: seq<byte>, dataOffset: nat, shape: seq<nat>, slices: seq<AxisSlice>, bpp: nat,
                          littleEndian: bool, out: seq<byte>, j: nat, k: nat)
    requires |shape| == |slices| && j < PixelCount(slices) && k < bpp
  {
    SameByte(file, dataOffset + ByteOf(SourcePixel(shape, slices, j), bpp, FileByte(bpp, littleEndian, k)), out,
             ByteOf(j, bpp, k))
  }

  predicate SameByte(file: seq<byte>, p: nat, out: seq<byte>, i: nat) {
    i < |out| && p < |file| && out[i] == file[p]
  }

  lemma NativeByte(s: seq<byte>, bpp: nat, littleEndian: bool, j: nat, k: nat)
    requires k < bpp && j * bpp + bpp <= |s|
    ensures |Native(s, bpp, littleEndian)| == |s|
    ensures Native(s, bpp, littleEndian)[j * bpp + k] == s[j * bpp + FileByte(bpp, littleEndian, k)]
  {
    hide Swapped;
    if bpp == 16 {
      ComplexByte(s, littleEndian, j, k);
    } else {
      SwappedAt(s, bpp, j, k);
    }
  }

  lemma ComplexByte(s: seq<byte>, littleEndian: bool, j: nat, k: nat)
    requires k < 16 && 16 * j + 16 <= |s|
    ensures |Native(s, 16, littleEndian)| == |s|
    ensures Native(s, 16, littleEndian)[16 * j + k] == s[16 * j + FileByte(16, littleEndian, k)]
  {
    hide Swapped;
    if k < 8 {
      SwappedAt(s, 8, 2 * j, k);
    } else {
      SwappedAt(s, 8, 2 * j + 1, k - 8);
    }
  }

  lemma FileByteTwice(bpp: nat, littleEndian: bool, k: nat)
    requires k < bpp
    ensures FileByte(bpp, littleEndian, FileByte(bpp, littleEndian, k)) == k
  {
  }

  lemma GatheredPixels(file: seq<byte>, dataOffset: nat, shape: seq<nat>, slices: seq<AxisSlice>, bpp: nat,
                       littleEndian: bool, out: seq<byte>)
    requires |shape| == |slices| && bpp > 0
    requires Gathered(file, dataOffset, shape, slices, bpp, Native(out, bpp, littleEndian))
    ensures NativePixels(file, dataOffset, shape, slices, bpp, littleEndian, out)
  {
    hide PixelCount, Swapped, SourcePixel, FileByte, NativePixelByte;
    var raw := Native(out, bpp, littleEndian);
    assert |raw| == |out|;
    hide Native;
    forall j: nat, k: nat | j < PixelCount(slices) && k < bpp
      ensures NativePixelByte(file, dataOffset, shape, slices, bpp, littleEndian, out, j, k)
    {
      GatheredPixel(file, dataOffset, shape, slices, bpp, littleEndian, out, j, k);
    }
  }

  lemma GatheredPixel(file: seq<byte>, dataOffset: nat, shape: seq<nat>, slices: seq<AxisSlice>, bpp: nat,
                      littleEndian: bool, out: seq<byte>, j: nat, k: nat)
    requires |shape| == |slices| && j < PixelCount(slices) && k < bpp
    requires Gathered(file, dataOffset, shape, slices, bpp, Native(out, bpp, littleEndian))
    requires |Native(out, bpp, littleEndian)| == |out|
    ensures NativePixelByte(file, dataOffset, shape, slices, bpp, littleEndian, out, j, k)
  {
    hide PixelCount, Swapped, SourcePixel, FileByte, Native, SelectedByte;
    var b := FileByte(bpp, littleEndian, k);
    MulMonotone(PixelCount(slices), j, bpp);
    NativeByte(out, bpp, littleEndian, j, b);
    FileByteTwice(bpp, littleEndian, k);
    QuotientUnique(j * bpp + b, j, bpp, b);
    SelectedByteIs(shape, slices, bpp, j * bpp + b, j, b);
  }

  // ===== writing =====

  // The right-hand side in file byte order: one pixel for all of the
  // selection, or the bytes of an array of its shape.
  datatype Rhs = Scalar(pixel: seq<byte>) | Pixels(bytes: seq<byte>)

  predicate FitsSelection(rhs: Rhs, slices: seq<AxisSlice>, bpp: nat) {
    match rhs
    case Scalar(pixel) => |pixel| == bpp
    case Pixels(bytes) => |bytes| == PixelCount(slices) * bpp
  }

  // The bytes to store, in the order of the selection.
  function RhsBytes(rhs: Rhs, slices: seq<AxisSlice>, bpp: nat): (b: seq<byte>)
    requires bpp > 0 && FitsSelection(rhs, slices, bpp)
    ensures |b| == PixelCount(slices) * bpp
  {
    match rhs
    case Scalar(pixel) => seq(PixelCount(slices) * bpp, k requires 0 <= k => pixel[k % bpp])
    case Pixels(bytes) => bytes
  }

  predicate Increasing(at: seq<nat>) {
    forall i, j :: 0 <= i < j < |at| ==> at[i] < at[j]
  }

  // Exactly the first n positions have been given their values: every other
  // byte is what it was.
  ghost predicate StoredUpTo(before: seq<byte>, after: seq<byte>, at: seq<nat>, values: seq<byte>, n: nat)
    requires n <= |at| == |values|
  {
    && |after| == |before|
    && (forall k :: 0 <= k < n ==> at[k] < |after| && after[at[k]] == values[k])
    && (forall p :: 0 <= p < |before| && p !in at[..n] ==> after[p] == before[p])
  }

  lemma StoreRun(before: seq<byte>, file: seq<byte>, at: seq<nat>, values: seq<byte>, n: nat, start: nat,
                 run: seq<byte>)
    requires |at| == |values| && n + |run| <= |at| && Increasing(at)
    requires StoredUpTo(before, file, at, values, n)
    requires start + |run| <= |file|
    requires forall k :: n <= k < n + |run| ==> at[k] == start + (k - n) && values[k] == run[k - n]
    ensures StoredUpTo(before, Overwrite(file, start, run), at, values, n + |run|)
  {
    var after := Overwrite(file, start, run);
    forall k | 0 <= k < n + |run|
      ensures at[k] < |after| && after[at[k]] == values[k]
    {
      if k < n && |run| > 0 {
        assert at[k] < at[n] == start;
      }
    }
    forall p | 0 <= p < |before| && p !in at[..n + |run|]
      ensures after[p] == before[p]
    {
      forall k | 0 <= k < n
        ensures at[k] != p
      {
        assert at[..n + |run|][k] == at[k];
      }
      assert p !in at[..n];
      RunCovers(at, n, start, |run|, p);
    }
  }

  lemma RunCovers(at: seq<nat>, n: nat, start: nat, length: nat, p: nat)
    requires n + length <= |at|
    requires forall k :: n <= k < n + length ==> at[k] == start + (k - n)
    ensures start <= p < start + length ==> p in at[..n + length]
  {
    if start <= p < start + length {
      assert at[..n + length][n + (p - start)] == p;
    }
  }

  lemma SelectedByteIncreases(shape: seq<nat>, slices: seq<AxisSlice>, bpp: nat, k: nat, k': nat)
    requires ValidSlices(shape, slices) && bpp > 0 && k < k' < PixelCount(slices) * bpp
    ensures SelectedByte(shape, slices, bpp, k) < SelectedByte(shape, slices, bpp, k')
  {
    QuotientBelow(k, PixelCount(slices), bpp);
    QuotientBelow(k', PixelCount(slices), bpp);
    hide SourcePixel, PixelCount, ValidSlices;
    SameRank(shape, slices);
    QuotientOrder(k, k', bpp);
    if k / bpp < k' / bpp {
      SourcePixelIncreases(shape, slices, k / bpp, k' / bpp);
      HigherRow(SourcePixel(shape, slices, k / bpp), SourcePixel(shape, slices, k' / bpp), bpp, k % bpp, k' % bpp);
    }
  }

  lemma PositionsIncrease(dataOffset: nat, shape: seq<nat>, slices: seq<AxisSlice>, bpp: nat)
    requires ValidSlices(shape, slices) && bpp > 0
    ensures |shape| == |slices| && Increasing(Positions(dataOffset, shape, slices, bpp))
  {
    hide PixelCount, SelectedByte;
    var at := Positions(dataOffset, shape, slices, bpp);
    forall i, j | 0 <= i < j < |at|
      ensures at[i] < at[j]
    {
      SelectedByteIncreases(shape, slices, bpp, i, j);
    }
  }

  // The strip that goes to step t: the same one every time for a scalar.
  method StripOf(rhs: Rhs, slices: seq<AxisSlice>, bpp: nat, scalarStrip: seq<byte>, ghost outer: nat, ghost t: nat,
                 offset: nat, stripBytes: nat) returns (strip: seq<byte>)
    requires bpp > 0 && FitsSelection(rhs, slices, bpp) && outer <= |slices|
    requires stripBytes == StripPixels(slices, outer) * bpp && offset == t * stripBytes
    requires offset + stripBytes <= PixelCount(slices) * bpp
    requires rhs.Scalar? ==> |scalarStrip| == stripBytes && forall j :: 0 <= j < stripBytes ==>
      scalarStrip[j] == rhs.pixel[j % bpp]
    ensures |strip| == stripBytes
    ensures forall k :: offset <= k < offset + stripBytes ==> RhsBytes(rhs, slices, bpp)[k] == strip[k - offset]
  {
    hide PixelCount, StripPixels;
    match rhs
    case Pixels(bytes) =>
      strip := bytes[offset..offset + stripBytes];
    case Scalar(pixel) =>
      strip := scalarStrip;
      forall k | offset <= k < offset + stripBytes
        ensures RhsBytes(rhs, slices, bpp)[k] == strip[k - offset]
      {
        ByteInStrip(t, StripPixels(slices, outer), bpp, k - offset);
        assert k == t * stripBytes + (k - offset);
      }
  }

  // The strip of one scalar, repeated.
  method RepeatPixel(pixel: seq<byte>, stripPixels: nat) returns (strip: seq<byte>)
    requires |pixel| > 0
    ensures |strip| == stripPixels * |pixel|
    ensures forall j :: 0 <= j < |strip| ==> strip[j] == pixel[j % |pixel|]
  {
    strip := [];
    for i := 0 to stripPixels
      invariant |strip| == i * |pixel|
      invariant forall j :: 0 <= j < |strip| ==> strip[j] == pixel[j % |pixel|]
    {
      forall j | |strip| <= j < |strip| + |pixel|
        ensures j % |pixel| == j - |strip|
      {
        QuotientUnique(j, i, |pixel|, j - |strip|);
      }
      NextOffset(i, |pixel|);
      strip := strip + pixel;
    }
  }

  // The slice holds the right-hand side, and nothing else in the file changed.
  ghost predicate SliceStored(before: seq<byte>, after: seq<byte>, dataOffset: nat, shape: seq<nat>,
                              slices: seq<AxisSlice>, bpp: nat, rhs: Rhs)
    requires |shape| == |slices| && bpp > 0 && FitsSelection(rhs, slices, bpp)
  {
    StoredUpTo(before, after, Positions(dataOffset, shape, slices, bpp), RhsBytes(rhs, slices, bpp),
               PixelCount(slices) * bpp)
  }

  method StoreStrip(f: Storage, dataOffset: nat, shape: seq<nat>, slices: seq<AxisSlice>, bpp: nat, rhs: Rhs,
                    scalarStrip: seq<byte>, ghost before: seq<byte>, ghost outer: nat, ghost t: nat, pixel: nat,
                    offset: nat, stripBytes: nat)
    returns (ok: bool)
    requires ValidSlices(shape, slices) && StripFrom(shape, slices, outer) && bpp > 0 && FitsSelection(rhs, slices, bpp)
    requires t < PixelCount(slices[..outer]) && t * StripPixels(slices, outer) < PixelCount(slices)
    requires pixel == SourcePixel(shape, slices, t * StripPixels(slices, outer))
    requires stripBytes == StripPixels(slices, outer) * bpp && offset == t * stripBytes <= PixelCount(slices) * bpp
    requires dataOffset + pixel * bpp + stripBytes <= |f.bytes|
    requires rhs.Scalar? ==> |scalarStrip| == stripBytes && forall j :: 0 <= j < stripBytes ==>
      scalarStrip[j] == rhs.pixel[j % bpp]
    requires StoredUpTo(before, f.bytes, Positions(dataOffset, shape, slices, bpp), RhsBytes(rhs, slices, bpp), offset)
    modifies f
    ensures ok ==> offset + stripBytes <= PixelCount(slices) * bpp
                   && StoredUpTo(before, f.bytes, Positions(dataOffset, shape, slices, bpp),
                                 RhsBytes(rhs, slices, bpp), offset + stripBytes)
    ensures !f.mayFail ==> ok
  {
    hide SourcePixel, PixelCount, StripPixels, StripFrom, SelectedByte, Positions, RhsBytes, StoredUpTo, FitsSelection;
    StripShape(shape, slices, outer, t, 0);
    StripRun(dataOffset, shape, slices, bpp, outer, t, pixel, offset, stripBytes);
    PositionsIncrease(dataOffset, shape, slices, bpp);
    var strip := StripOf(rhs, slices, bpp, scalarStrip, outer, t, offset, stripBytes);
    StoreRun(before, f.bytes, Positions(dataOffset, shape, slices, bpp), RhsBytes(rhs, slices, bpp), offset,
             dataOffset + pixel * bpp, strip);
    ok := f.Write(dataOffset + pixel * bpp, strip);
  }

  // The strip loop of write_image_slice.
  method StoreStrips(f: Storage, dataOffset: nat, shape: seq<nat>, slices: seq<AxisSlice>, bpp: nat, rhs: Rhs)
    returns (ok: bool)
    requires ValidSlices(shape, slices) && bpp > 0 && FitsSelection(rhs, slices, bpp) && PixelCount(slices) > 0
    requires dataOffset + Volume(shape) * bpp <= |f.bytes|
    modifies f
    ensures |shape| == |slices|
    ensures ok ==>
      StoredUpTo(old(f.bytes), f.bytes, Positions(dataOffset, shape, slices, bpp), RhsBytes(rhs, slices, bpp),
                              PixelCount(slices) * bpp)
    ensures !f.mayFail ==> ok
  {
    hide *;
    ghost var before := f.bytes;
    SameRank(shape, slices);
    NothingStored(before, Positions(dataOffset, shape, slices, bpp), RhsBytes(rhs, slices, bpp));
    var strides := RowMajorStrides(shape);
    var outer, stripPixels := ComputeReadStripLayout(shape, slices);
    StripShape(shape, slices, outer, 0, 0);
    var stripBytes := stripPixels * bpp;
    var inner := InnerStart(shape, slices, strides, outer);
    var scalarStrip := ScalarStrip(rhs, slices, bpp, stripPixels);
    TotalBytes(slices, outer, bpp, 0);
    StripsPositive(slices, outer);
    var idx := new nat[outer](_ => 0);
    FirstIndex(slices, outer, idx[..]);
    var offset := 0;
    for t := 0 to PixelCount(slices[..outer])
      invariant |f.bytes| == |before| && offset == t * stripBytes
      invariant t < PixelCount(slices[..outer]) ==>
        InCounts(slices[..outer], idx[..]) && Rank(slices[..outer], idx[..]) == t
      invariant offset <= PixelCount(slices) * bpp
      invariant StoredUpTo(before, f.bytes, Positions(dataOffset, shape, slices, bpp), RhsBytes(rhs, slices, bpp),
                           offset)
    {
      var pixel := NextStrip(shape, slices, strides, outer, idx[..], inner, t);
      StripInFile(shape, slices, bpp, outer, t, pixel);
      ok := StoreStrip(f, dataOffset, shape, slices, bpp, rhs, scalarStrip, before, outer, t, pixel, offset,
                       stripBytes);
      if !ok {
        return;
      }
      NextOffset(t, stripBytes);
      offset := offset + stripBytes;
      StoredKeepsLength(before, f.bytes, Positions(dataOffset, shape, slices, bpp), RhsBytes(rhs, slices, bpp), offset);
      AdvanceOdometer(idx, slices[..outer]);
    }
    ok := f.Flush();
  }

  method ScalarStrip(rhs: Rhs, slices: seq<AxisSlice>, bpp: nat, stripPixels: nat) returns (strip: seq<byte>)
    requires bpp > 0 && FitsSelection(rhs, slices, bpp)
    ensures rhs.Scalar? ==> |strip| == stripPixels * bpp && forall j :: 0 <= j < |strip| ==>
      strip[j] == rhs.pixel[j % bpp]
  {
    strip := [];
    if rhs.Scalar? {
      strip := RepeatPixel(rhs.pixel, stripPixels);
    }
  }

  // write_image_slice, once its right-hand side is in file byte order.
  method WriteImageSlice(f: Storage, dataOffset: nat, shape: seq<nat>, slices: seq<AxisSlice>, bpp: nat, rhs: Rhs)
    returns (ok: bool)
    requires ValidSlices(shape, slices) && bpp > 0 && FitsSelection(rhs, slices, bpp)
    requires dataOffset + Volume(shape) * bpp <= |f.bytes|
    modifies f
    ensures ok ==> SliceStored(old(f.bytes), f.bytes, dataOffset, shape, slices, bpp, rhs)
    ensures ok ==> RhsPixels(f.bytes, dataOffset, shape, slices, bpp, rhs)
    ensures !f.mayFail ==> ok
  {
    ok := StoreSlice(f, dataOffset, shape, slices, bpp, rhs);
    if ok {
      hide PixelCount, ValidSlices, Volume, SliceStored, FitsSelection, RhsPixels;
      SameRank(shape, slices);
      StoredRhs(old(f.bytes), f.bytes, dataOffset, shape, slices, bpp, rhs);
    }
  }

  // Every selected pixel of the file is the right-hand side's, byte by byte.
  predicate RhsPixels(file: seq<byte>, dataOffset: nat, shape: seq<nat>, slices: seq<AxisSlice>, bpp: nat, rhs: Rhs)
    requires |shape| == |slices|
  {
    forall j: nat, k: nat :: j < PixelCount(slices) && k < bpp ==>
      RhsPixelByte(file, dataOffset, shape, slices, bpp, rhs, j, k)
  }

  predicate RhsPixelByte(file: seq<byte>, dataOffset: nat, shape: seq<nat>, slices: seq<AxisSlice>, bpp: nat, rhs: Rhs,
                         j: nat, k: nat)
    requires |shape| == |slices| && j < PixelCount(slices)
  {
    HoldsByte(file, dataOffset + ByteOf(SourcePixel(shape, slices, j), bpp, k), rhs, ByteOf(j, bpp, k), k)
  }

  // Byte p of the file is byte k of the one pixel, or byte i of the array.
  predicate HoldsByte(file: seq<byte>, p: nat, rhs: Rhs, i: nat, k: nat) {
    && p < |file|
    && match rhs
       case Scalar(pixel) => k < |pixel| && file[p] == pixel[k]
       case Pixels(bytes) => i < |bytes| && file[p] == bytes[i]
  }

  lemma StoredRhs(before: seq<byte>, after: seq<byte>, dataOffset: nat, shape: seq<nat>, slices: seq<AxisSlice>,
                  bpp: nat, rhs: Rhs)
    requires |shape| == |slices| && bpp > 0 && FitsSelection(rhs, slices, bpp)
    requires SliceStored(before, after, dataOffset, shape, slices, bpp, rhs)
    ensures RhsPixels(after, dataOffset, shape, slices, bpp, rhs)
  {
    hide PixelCount, SliceStored, RhsPixelByte, FitsSelection, SourcePixel;
    forall j: nat, k: nat | j < PixelCount(slices) && k < bpp
      ensures RhsPixelByte(after, dataOffset, shape, slices, bpp, rhs, j, k)
    {
      StoredRhsByte(before, after, dataOffset, shape, slices, bpp, rhs, j, k);
    }
  }

  lemma StoredRhsByte(before: seq<byte>, after: seq<byte>, dataOffset: nat, shape: seq<nat>, slices: seq<AxisSlice>,
                      bpp: nat, rhs: Rhs, j: nat, k: nat)
    requires |shape| == |slices| && j < PixelCount(slices) && k < bpp && FitsSelection(rhs, slices, bpp)
    requires SliceStored(before, after, dataOffset, shape, slices, bpp, rhs)
    ensures RhsPixelByte(after, dataOffset, shape, slices, bpp, rhs, j, k)
  {
    hide PixelCount, SourcePixel, SelectedByte, RhsBytes, FitsSelection;
    var i := j * bpp + k;
    MulMonotone(PixelCount(slices), j, bpp);
    QuotientUnique(i, j, bpp, k);
    SelectedByteIs(shape, slices, bpp, i, j, k);
    var at, values := Positions(dataOffset, shape, slices, bpp), RhsBytes(rhs, slices, bpp);
    assert after[at[i]] == values[i];
    RhsByteIs(rhs, slices, bpp, i, k);
  }

  lemma RhsByteIs(rhs: Rhs, slices: seq<AxisSlice>, bpp: nat, i: nat, k: nat)
    requires bpp > 0 && FitsSelection(rhs, slices, bpp) && i < PixelCount(slices) * bpp && i % bpp == k
    ensures match rhs
      case Scalar(pixel) => k < |pixel| && RhsBytes(rhs, slices, bpp)[i] == pixel[k]
      case Pixels(bytes) => i < |bytes| && RhsBytes(rhs, slices, bpp)[i] == bytes[i]
  {
    hide PixelCount;
  }

  method StoreSlice(f: Storage, dataOffset: nat, shape: seq<nat>, slices: seq<AxisSlice>, bpp: nat, rhs: Rhs)
    returns (ok: bool)
    requires ValidSlices(shape, slices) && bpp > 0 && FitsSelection(rhs, slices, bpp)
    requires dataOffset + Volume(shape) * bpp <= |f.bytes|
    modifies f
    ensures ok ==> SliceStored(old(f.bytes), f.bytes, dataOffset, shape, slices, bpp, rhs)
    ensures !f.mayFail ==> ok
  {
    if PixelCount(slices) == 0 {
      NothingStored(f.bytes, Positions(dataOffset, shape, slices, bpp), RhsBytes(rhs, slices, bpp));
      return true;
    }
    hide PixelCount, ValidSlices, Volume, Positions, RhsBytes, StoredUpTo, FitsSelection;
    ok := StoreStrips(f, dataOffset, shape, slices, bpp, rhs);
  }

  lemma NothingStored(before: seq<byte>, at: seq<nat>, values: seq<byte>)
    requires |at| == |values|
    ensures StoredUpTo(before, before, at, values, 0)
  {
  }

  lemma StoredKeepsLength(before: seq<byte>, after: seq<byte>, at: seq<nat>, values: seq<byte>, n: nat)
    requires n <= |at| == |values| && StoredUpTo(before, after, at, values, n)
    ensures |after| == |before|
  {
  }

  // ===== what the two loops are for =====

  // Reading a slice after writing it returns what was written, and the bytes
  // outside the selection are those of the file before.
  lemma ReadAfterWrite(before: seq<byte>, after: seq<byte>, dataOffset: nat, shape: seq<nat>, slices: seq<AxisSlice>,
                       bpp: nat, rhs: Rhs, littleEndian: bool, out: seq<byte>)
    requires ValidSlices(shape, slices) && bpp > 0 && FitsSelection(rhs, slices, bpp)
    requires SliceStored(before, after, dataOffset, shape, slices, bpp, rhs)
    requires Gathered(after, dataOffset, shape, slices, bpp, Native(out, bpp, littleEndian))
    ensures out == Native(RhsBytes(rhs, slices, bpp), bpp, littleEndian)
    ensures forall p :: 0 <= p < |before| && p !in Positions(dataOffset, shape, slices, bpp) ==> after[p] == before[p]
  {
    hide SelectedByte, PixelCount, Swapped, ValidSlices;
    SameRank(shape, slices);
    var at, values := Positions(dataOffset, shape, slices, bpp), RhsBytes(rhs, slices, bpp);
    assert at[..|at|] == at;
    var raw := Native(out, bpp, littleEndian);
    forall k | 0 <= k < |values|
      ensures raw[k] == values[k]
    {
      assert after[at[k]] == values[k];
    }
    assert raw == values;
    SwapInvolution(out, SwapUnit(bpp));
  }
}
