// write_image_data: an array stored at a corner of an image, strip by strip,
// each strip byte-swapped in bounded pieces.
module ImageData {
  import opened FitsBytes
  import opened SliceMath
  import opened StripLayout
  import opened FileStorage
  import opened Byteswap
  import opened ImageSlices

  // The selection an array of shape `dims` fills when it is stored at `start`.
  function BlockAt(start: seq<nat>, dims: seq<nat>): (s: seq<AxisSlice>)
    requires |start| == |dims|
    ensures |s| == |dims|
    ensures forall k :: 0 <= k < |dims| ==> s[k] == AxisSlice(start[k], 1, dims[k])
  {
    seq(|dims|, k requires 0 <= k < |dims| => AxisSlice(start[k], 1, dims[k]))
  }

  predicate BlockFits(shape: seq<nat>, start: seq<nat>, dims: seq<nat>) {
    |shape| == |start| == |dims| && forall k :: 0 <= k < |shape| ==> start[k] + dims[k] <= shape[k]
  }

  lemma BlockIsValid(shape: seq<nat>, start: seq<nat>, dims: seq<nat>)
    requires BlockFits(shape, start, dims)
    ensures ValidSlices(shape, BlockAt(start, dims))
  {
  }

  // How many pixels a strip holds, and which strip an odometer shows, depend
  // on the counts alone.
  predicate SameCounts(a: seq<AxisSlice>, b: seq<AxisSlice>) {
    |a| == |b| && forall k :: 0 <= k < |a| ==> a[k].count == b[k].count
  }

  lemma {:induction false} CountsDecide(a: seq<AxisSlice>, b: seq<AxisSlice>, idx: seq<nat>, outer: nat)
    requires SameCounts(a, b) && |idx| == |a| && outer <= |a|
    ensures PixelCount(a) == PixelCount(b) && Rank(a, idx) == Rank(b, idx)
      && StripPixels(a, outer) == StripPixels(b, outer)
    decreases |a|
  {
    if a != [] {
      var m := |a| - 1;
      CountsDecide(a[..m], b[..m], idx[..m], if outer <= m then outer else m);
    }
  }

  // A whole array of this shape.
  function Whole(dims: seq<nat>): (r: seq<AxisSlice>) {
    BlockAt(Zeros(|dims|), dims)
  }

  // Its pixels are numbered as they lie.
  lemma {:induction false} WholeIsIdentity(dims: seq<nat>, n: nat)
    ensures PixelCount(Whole(dims)) == Volume(dims)
    ensures n < Volume(dims) ==> SourcePixel(dims, Whole(dims), n) == n
  {
    if dims != [] {
      var m := |dims| - 1;
      assert Whole(dims)[..m] == Whole(dims[..m]);
      WholeIsIdentity(dims[..m], 0);
      if n < Volume(dims) {
        CountPositive(Whole(dims), n);
        WholeIsIdentity(dims[..m], n / dims[m]);
        assert n == (n / dims[m]) * dims[m] + n % dims[m];
      }
    }
  }

  // compute_strip_layout
  method ComputeStripLayout(shape: seq<nat>, dims: seq<nat>, start: seq<nat>) returns (outer: nat, stripPixels: nat)
    requires |shape| == |dims| == |start|
    ensures StripFrom(shape, BlockAt(start, dims), outer)
    ensures stripPixels == StripPixels(BlockAt(start, dims), outer)
    ensures outer > 0 ==> !StripFrom(shape, BlockAt(start, dims), outer - 1)
  {
    ghost var slices := BlockAt(start, dims);
    stripPixels := 1;
    var axis := |shape|;
    while axis > 0
      invariant 0 <= axis <= |shape|
      invariant forall k :: axis <= k < |shape| ==> FullAxis(slices[k], shape[k])
      invariant stripPixels == StripPixels(slices, axis)
    {
      axis := axis - 1;
      StripGrows(slices, axis);
      stripPixels := stripPixels * dims[axis];
      if start[axis] != 0 || dims[axis] != shape[axis] {
        return axis, stripPixels;
      }
    }
    return 0, stripPixels;
  }

  // ----- where a strip goes and where it comes from -----

  // The sum of idx * stride over the axes.
  function IndexSum(shape: seq<nat>, idx: seq<nat>): (n: nat)
    requires |shape| == |idx|
  {
    if shape == [] then 0 else idx[0] * Product(shape[1..]) + IndexSum(shape[1..], idx[1..])
  }

  // Step 1 along every axis splits the position into the corner's and the
  // index's.
  lemma {:induction false} StrideSumSplits(shape: seq<nat>, start: seq<nat>, dims: seq<nat>, idx: seq<nat>)
    requires |shape| == |start| == |dims| == |idx|
    ensures StrideSum(shape, BlockAt(start, dims), idx)
         == StrideSum(shape, BlockAt(start, dims), Zeros(|shape|)) + IndexSum(shape, idx)
  {
    if shape != [] {
      assert BlockAt(start, dims)[1..] == BlockAt(start[1..], dims[1..]);
      assert Zeros(|shape|)[1..] == Zeros(|shape| - 1);
      StrideSumSplits(shape[1..], start[1..], dims[1..], idx[1..]);
      var p := Product(shape[1..]);
      assert (start[0] + idx[0]) * p == start[0] * p + idx[0] * p;
      assert (start[0] + 0 * 1) * p == start[0] * p;
    }
  }

  lemma {:induction false} ZeroIndexSum(shape: seq<nat>, idx: seq<nat>)
    requires |shape| == |idx| && forall k :: 0 <= k < |idx| ==> idx[k] == 0
    ensures IndexSum(shape, idx) == 0
  {
    if shape != [] {
      ZeroIndexSum(shape[1..], idx[1..]);
      assert 0 * Product(shape[1..]) == 0;
    }
  }

  // The sum over the outer axes only: the inner indices are zero.
  method OuterSum(shape: seq<nat>, strides: seq<nat>, idx: seq<nat>, base: nat) returns (pixel: nat)
    requires |idx| <= |shape| && IsStrides(strides, shape)
    ensures pixel == base + IndexSum(shape, idx + Zeros(|shape| - |idx|))
  {
    hide IndexSum, Product;
    pixel := base;
    ghost var full := idx + Zeros(|shape| - |idx|);
    assert shape[0..] == shape && full[0..] == full;
    for axis := 0 to |idx|
      invariant pixel + IndexSum(shape[axis..], full[axis..]) == base + IndexSum(shape, full)
    {
      IndexSumStep(shape, full, axis);
      pixel := pixel + idx[axis] * strides[axis];
    }
    ZeroIndexSum(shape[|idx|..], full[|idx|..]);
  }

  lemma IndexSumStep(shape: seq<nat>, idx: seq<nat>, k: nat)
    requires |shape| == |idx| && k < |shape|
    ensures IndexSum(shape[k..], idx[k..]) == idx[k] * Product(shape[k + 1..]) + IndexSum(shape[k + 1..], idx[k + 1..])
  {
    assert shape[k..][1..] == shape[k + 1..] && idx[k..][1..] == idx[k + 1..];
  }

  lemma {:induction false} WholeStartsAtZero(dims: seq<nat>)
    ensures StrideSum(dims, Whole(dims), Zeros(|dims|)) == 0
  {
    if dims != [] {
      assert Whole(dims)[1..] == Whole(dims[1..]);
      assert Zeros(|dims|)[1..] == Zeros(|dims| - 1);
      WholeStartsAtZero(dims[1..]);
      assert (0 + 0 * 1) * Product(dims[1..]) == 0;
    }
  }

  lemma BlockCounts(start: seq<nat>, dims: seq<nat>, outer: nat, idx: seq<nat>)
    requires |start| == |dims| && outer <= |dims| && |idx| == outer && InCounts(BlockAt(start, dims)[..outer], idx)
    ensures PixelCount(BlockAt(start, dims)) == PixelCount(Whole(dims))
    ensures StripPixels(BlockAt(start, dims), outer) == StripPixels(Whole(dims), outer)
    ensures InCounts(Whole(dims)[..outer], idx)
      && Rank(Whole(dims)[..outer], idx) == Rank(BlockAt(start, dims)[..outer], idx)
  {
    var block, whole := BlockAt(start, dims), Whole(dims);
    hide PixelCount, Rank, StripPixels;
    CountsDecide(block, whole, Zeros(|dims|), outer);
    CountsDecide(block[..outer], whole[..outer], idx, 0);
  }

  // The odometer shows strip t: which pixel of the image it goes to...
  lemma StripTarget(shape: seq<nat>, start: seq<nat>, dims: seq<nat>, outer: nat, idx: seq<nat>, t: nat)
    requires |shape| == |start| == |dims| && outer <= |shape| && StripPixels(BlockAt(start, dims), outer) > 0
    requires |idx| == outer && InCounts(BlockAt(start, dims)[..outer], idx)
      && t == Rank(BlockAt(start, dims)[..outer], idx)
    ensures t * StripPixels(BlockAt(start, dims), outer) < PixelCount(BlockAt(start, dims))
    ensures SourcePixel(shape, BlockAt(start, dims), t * StripPixels(BlockAt(start, dims), outer))
         == StrideSum(shape, BlockAt(start, dims), Zeros(|shape|)) + IndexSum(shape, idx + Zeros(|shape| - outer))
  {
    hide *;
    StripStart(shape, BlockAt(start, dims), outer, idx, t);
    StrideSumSplits(shape, start, dims, idx + Zeros(|shape| - outer));
  }

  // ...and which pixel of the array it comes from.
  lemma StripOrigin(start: seq<nat>, dims: seq<nat>, outer: nat, idx: seq<nat>, t: nat)
    requires |start| == |dims| && outer <= |dims| && StripPixels(BlockAt(start, dims), outer) > 0
    requires |idx| == outer && InCounts(BlockAt(start, dims)[..outer], idx)
      && t == Rank(BlockAt(start, dims)[..outer], idx)
    ensures t * StripPixels(BlockAt(start, dims), outer) == IndexSum(dims, idx + Zeros(|dims| - outer))
  {
    hide *;
    BlockCounts(start, dims, outer, idx);
    var whole := Whole(dims);
    WholeLength(dims);
    StripStart(dims, whole, outer, idx, t);
    WholeStrideSum(dims, idx + Zeros(|dims| - outer));
    WholeIsIdentity(dims, t * StripPixels(whole, outer));
  }

  lemma WholeLength(dims: seq<nat>)
    ensures |Whole(dims)| == |dims|
  {
  }

  lemma WholeStrideSum(dims: seq<nat>, idx: seq<nat>)
    requires |dims| == |idx|
    ensures StrideSum(dims, Whole(dims), idx) == IndexSum(dims, idx)
  {
    StrideSumSplits(dims, Zeros(|dims|), dims, idx);
    WholeStartsAtZero(dims);
  }

  // ----- one strip, in pieces -----

  lemma NativePieces(a: seq<byte>, b: seq<byte>, bpp: nat, littleEndian: bool, pixels: nat)
    requires |a| == pixels * bpp
    ensures Native(a + b, bpp, littleEndian) == Native(a, bpp, littleEndian) + Native(b, bpp, littleEndian)
  {
    if bpp == 16 {
      SwapPieces(a, b, 8, 2 * pixels);
    } else {
      SwapPieces(a, b, bpp, pixels);
    }
  }

  lemma NativeLength(s: seq<byte>, bpp: nat, littleEndian: bool)
    ensures |Native(s, bpp, littleEndian)| == |s|
    ensures Native([], bpp, littleEndian) == []
  {
  }

  lemma WriteBehind(file: seq<byte>, pos: nat, a: seq<byte>, b: seq<byte>)
    requires pos <= |file|
    ensures Overwrite(Overwrite(file, pos, a), pos + |a|, b) == Overwrite(file, pos, a + b)
  {
  }

  lemma WriteNothing(file: seq<byte>, pos: nat)
    requires pos <= |file|
    ensures Overwrite(file, pos, []) == file
  {
  }

  // One piece of a strip, copied to a scratch buffer and swapped there.
  method SwapPiece(src: seq<byte>, off: nat, n: nat, bpp: nat, littleEndian: bool) returns (piece: seq<byte>)
    requires off + n <= |src|
    ensures piece == Native(src[off..off + n], bpp, littleEndian)
  {
    var scratch := new byte[n](k requires 0 <= k < n => src[off + k]);
    assert scratch[..] == src[off..off + n];
    hide Swapped;
    if bpp > 1 && littleEndian {
      ByteswapInPlace(scratch, bpp);
    }
    piece := scratch[..];
  }

  lemma PieceWritten(before: seq<byte>, pos: nat, src: seq<byte>, off: nat, n: nat, pixels: nat, bpp: nat,
                     littleEndian: bool)
    requires pos <= |before| && off + n <= |src| && off == pixels * bpp
    ensures Overwrite(Overwrite(before, pos, Native(src[..off], bpp, littleEndian)), pos + off,
                      Native(src[off..off + n], bpp, littleEndian))
         == Overwrite(before, pos, Native(src[..off + n], bpp, littleEndian))
  {
    hide *;
    assert src[..off + n] == src[..off] + src[off..off + n];
    NativePieces(src[..off], src[off..off + n], bpp, littleEndian, pixels);
    NativeLength(src[..off], bpp, littleEndian);
    WriteBehind(before, pos, Native(src[..off], bpp, littleEndian), Native(src[off..off + n], bpp, littleEndian));
  }

  method WritePiece(f: Storage, ghost before: seq<byte>, pos: nat, src: seq<byte>, off: nat, n: nat,
                    ghost pixels: nat, bpp: nat, littleEndian: bool)
    returns (ok: bool)
    requires pos <= |before| && off + n <= |src| && off == pixels * bpp
    requires f.bytes == Overwrite(before, pos, Native(src[..off], bpp, littleEndian))
    modifies f
    ensures ok ==> f.bytes == Overwrite(before, pos, Native(src[..off + n], bpp, littleEndian))
    ensures !f.mayFail ==> ok
  {
    hide *;
    PieceWritten(before, pos, src, off, n, pixels, bpp, littleEndian);
    var piece := SwapPiece(src, off, n, bpp, littleEndian);
    ok := f.Write(pos + off, piece);
  }

  // The swapping loop of write_image_data: at most `chunkPixels` at a time.
  method WriteStrip(f: Storage, pos: nat, src: seq<byte>, bpp: nat, littleEndian: bool, chunkPixels: nat)
    returns (ok: bool)
    requires pos <= |f.bytes| && bpp > 0 && chunkPixels > 0
    requires |src| % bpp == 0
    modifies f
    ensures ok ==> f.bytes == Overwrite(old(f.bytes), pos, Native(src, bpp, littleEndian))
    ensures !f.mayFail ==> ok
  {
    hide *;
    ghost var before := f.bytes;
    NativeLength([], bpp, littleEndian);
    WriteNothing(before, pos);
    assert src[..0] == [];
    var off := 0;
    ghost var pixels := 0;
    ok := true;
    while off < |src|
      invariant ok && off == pixels * bpp <= |src|
      invariant f.bytes == Overwrite(before, pos, Native(src[..off], bpp, littleEndian))
    {
      WholePixelsLeft(|src|, pixels, bpp, chunkPixels);
      var n := if chunkPixels * bpp <= |src| - off then chunkPixels * bpp else |src| - off;
      ok := WritePiece(f, before, pos, src, off, n, pixels, bpp, littleEndian);
      if !ok { return; }
      off := off + n;
      pixels := off / bpp;
    }
    assert src[..|src|] == src;
  }

  lemma WholePixelsLeft(length: nat, pixels: nat, bpp: nat, chunkPixels: nat)
    requires bpp > 0 && chunkPixels > 0 && length % bpp == 0 && pixels * bpp < length
    ensures chunkPixels * bpp > 0
    ensures (pixels * bpp + chunkPixels * bpp) / bpp * bpp == pixels * bpp + chunkPixels * bpp
    ensures length / bpp * bpp == length
  {
    MulMonotone(chunkPixels, 1, bpp);
    assert pixels * bpp + chunkPixels * bpp == (pixels + chunkPixels) * bpp;
    QuotientUnique(pixels * bpp + chunkPixels * bpp, pixels + chunkPixels, bpp, 0);
  }

  // ----- all strips -----

  lemma NativeSlice(data: seq<byte>, p: nat, q: nat, bpp: nat, littleEndian: bool)
    requires p * bpp + q * bpp <= |data|
    ensures |Native(data, bpp, littleEndian)| == |data|
    ensures Native(data, bpp, littleEndian)[p * bpp..p * bpp + q * bpp]
         == Native(data[p * bpp..p * bpp + q * bpp], bpp, littleEndian)
  {
    hide *;
    var i, j := p * bpp, p * bpp + q * bpp;
    var a, b, c := data[..i], data[i..j], data[j..];
    assert data == a + (b + c);
    NativePieces(a, b + c, bpp, littleEndian, p);
    NativePieces(b, c, bpp, littleEndian, q);
    NativeLength(a, bpp, littleEndian);
    NativeLength(b, bpp, littleEndian);
    NativeLength(c, bpp, littleEndian);
  }

  // The array in file byte order, as the right-hand side of a slice write.
  function BlockRhs(data: seq<byte>, bpp: nat, littleEndian: bool): (r: Rhs) {
    Pixels(Native(data, bpp, littleEndian))
  }

  lemma BlockRhsFits(data: seq<byte>, start: seq<nat>, dims: seq<nat>, bpp: nat, littleEndian: bool)
    requires |start| == |dims| && bpp > 0 && |data| == Volume(dims) * bpp
    ensures PixelCount(BlockAt(start, dims)) == Volume(dims)
    ensures FitsSelection(BlockRhs(data, bpp, littleEndian), BlockAt(start, dims), bpp)
    ensures RhsBytes(BlockRhs(data, bpp, littleEndian), BlockAt(start, dims), bpp) == Native(data, bpp, littleEndian)
  {
    CountsDecide(BlockAt(start, dims), Whole(dims), Zeros(|dims|), 0);
    WholeIsIdentity(dims, 0);
    NativeLength(data, bpp, littleEndian);
    hide PixelCount, Volume, Native;
  }

  // One strip of the array written to its place.
  method StoreBlockStrip(f: Storage, dataOffset: nat, shape: seq<nat>, start: seq<nat>, dims: seq<nat>,
                         data: seq<byte>, bpp: nat, littleEndian: bool, chunkPixels: nat, ghost before: seq<byte>,
                         ghost outer: nat, ghost t: nat, target: nat, origin: nat, stripPixels: nat)
    returns (ok: bool)
    requires BlockFits(shape, start, dims) && StripFrom(shape, BlockAt(start, dims), outer) && bpp > 0
      && chunkPixels > 0
    requires |data| == Volume(dims) * bpp
    requires t < PixelCount(BlockAt(start, dims)[..outer]) && stripPixels == StripPixels(BlockAt(start, dims), outer)
    requires origin == t * stripPixels < PixelCount(BlockAt(start, dims))
    requires target == SourcePixel(shape, BlockAt(start, dims), origin)
    requires dataOffset + target * bpp + stripPixels * bpp <= |f.bytes|
    requires FitsSelection(BlockRhs(data, bpp, littleEndian), BlockAt(start, dims), bpp)
    requires origin * bpp <= PixelCount(BlockAt(start, dims)) * bpp
    requires StoredUpTo(before, f.bytes, Positions(dataOffset, shape, BlockAt(start, dims), bpp),
                        RhsBytes(BlockRhs(data, bpp, littleEndian), BlockAt(start, dims), bpp), origin * bpp)
    modifies f
    ensures ok ==> origin * bpp + stripPixels * bpp <= PixelCount(BlockAt(start, dims)) * bpp
                   && StoredUpTo(before, f.bytes, Positions(dataOffset, shape, BlockAt(start, dims), bpp),
                                 RhsBytes(BlockRhs(data, bpp, littleEndian), BlockAt(start, dims),
                                          bpp), origin * bpp + stripPixels * bpp)
    ensures !f.mayFail ==> ok
  {
    hide *;
    StripIsPiece(dataOffset, shape, start, dims, data, bpp, littleEndian, f.bytes, before, outer, t, target, origin,
                 stripPixels);
    var src := data[origin * bpp..origin * bpp + stripPixels * bpp];
    WholeStrip(stripPixels, bpp);
    ok := WriteStrip(f, dataOffset + target * bpp, src, bpp, littleEndian, chunkPixels);
  }

  lemma WholeStrip(stripPixels: nat, bpp: nat)
    requires bpp > 0
    ensures stripPixels * bpp % bpp == 0
  {
    QuotientUnique(stripPixels * bpp, stripPixels, bpp, 0);
  }

  lemma StripIsPiece(dataOffset: nat, shape: seq<nat>, start: seq<nat>, dims: seq<nat>, data: seq<byte>, bpp: nat,
                     littleEndian: bool, file: seq<byte>, before: seq<byte>, outer: nat, t: nat, target: nat,
                     origin: nat, stripPixels: nat)
    requires BlockFits(shape, start, dims) && StripFrom(shape, BlockAt(start, dims), outer) && bpp > 0
    requires |data| == Volume(dims) * bpp
    requires t < PixelCount(BlockAt(start, dims)[..outer]) && stripPixels == StripPixels(BlockAt(start, dims), outer)
    requires origin == t * stripPixels < PixelCount(BlockAt(start, dims))
    requires target == SourcePixel(shape, BlockAt(start, dims), origin)
    requires dataOffset + target * bpp + stripPixels * bpp <= |file|
    requires FitsSelection(BlockRhs(data, bpp, littleEndian), BlockAt(start, dims), bpp)
    requires origin * bpp <= PixelCount(BlockAt(start, dims)) * bpp
    requires StoredUpTo(before, file, Positions(dataOffset, shape, BlockAt(start, dims), bpp),
                        RhsBytes(BlockRhs(data, bpp, littleEndian), BlockAt(start, dims), bpp), origin * bpp)
    ensures origin * bpp + stripPixels * bpp <= |data|
    ensures origin * bpp + stripPixels * bpp <= PixelCount(BlockAt(start, dims)) * bpp
    ensures StoredUpTo(before,
                       Overwrite(file, dataOffset + target * bpp,
                                 Native(data[origin * bpp..origin * bpp + stripPixels * bpp], bpp, littleEndian)),
                       Positions(dataOffset, shape, BlockAt(start, dims), bpp),
                       RhsBytes(BlockRhs(data, bpp, littleEndian), BlockAt(start, dims),
                                bpp), origin * bpp + stripPixels * bpp)
  {
    hide *;
    StripShapes(shape, start, dims);
    BlockIsValid(shape, start, dims);
    BlockRhsFits(data, start, dims, bpp, littleEndian);
    NativeLength(data, bpp, littleEndian);
    StripOffset(t, stripPixels, bpp);
    var block := BlockAt(start, dims);
    StripShape(shape, block, outer, t, 0);
    RunIsStored(dataOffset, shape, block, bpp, before, file, outer, t, target, origin * bpp, stripPixels * bpp,
                Native(data, bpp, littleEndian));
    NativeSlice(data, origin, stripPixels, bpp, littleEndian);
  }

  // A run of values written where the strip lies.
  lemma RunIsStored(dataOffset: nat, shape: seq<nat>, slices: seq<AxisSlice>, bpp: nat, before: seq<byte>,
                    file: seq<byte>, outer: nat, t: nat, target: nat, offset: nat, stripBytes: nat, values: seq<byte>)
    requires ValidSlices(shape, slices) && StripFrom(shape, slices, outer) && bpp > 0
    requires |shape| == |slices| && outer <= |slices| && |values| == PixelCount(slices) * bpp
    requires t < PixelCount(slices[..outer]) && t * StripPixels(slices, outer) < PixelCount(slices)
    requires target == SourcePixel(shape, slices, t * StripPixels(slices, outer))
    requires stripBytes == StripPixels(slices, outer) * bpp && offset == t * stripBytes <= |values|
    requires dataOffset + target * bpp + stripBytes <= |file|
    requires StoredUpTo(before, file, Positions(dataOffset, shape, slices, bpp), values, offset)
    ensures offset + stripBytes <= |values|
    ensures StoredUpTo(before, Overwrite(file, dataOffset + target * bpp, values[offset..offset + stripBytes]),
                       Positions(dataOffset, shape, slices, bpp), values, offset + stripBytes)
  {
    hide *;
    StripRun(dataOffset, shape, slices, bpp, outer, t, target, offset, stripBytes);
    PositionsIncrease(dataOffset, shape, slices, bpp);
    PieceStored(before, file, Positions(dataOffset, shape, slices, bpp), values, offset, dataOffset + target * bpp,
                values[offset..offset + stripBytes]);
  }

  lemma StripOffset(t: nat, stripPixels: nat, bpp: nat)
    ensures (t * stripPixels) * bpp == t * (stripPixels * bpp)
  {
  }

  lemma PieceStored(before: seq<byte>, file: seq<byte>, at: seq<nat>, values: seq<byte>, n: nat, start: nat,
                    run: seq<byte>)
    requires |at| == |values| && n + |run| <= |at| && Increasing(at)
    requires StoredUpTo(before, file, at, values, n) && start + |run| <= |file|
    requires forall k :: n <= k < n + |run| ==> at[k] == start + (k - n)
    requires run == values[n..n + |run|]
    ensures StoredUpTo(before, Overwrite(file, start, run), at, values, n + |run|)
  {
    hide StoredUpTo, Overwrite, Increasing;
    StoreRun(before, file, at, values, n, start, run);
  }

  lemma StripShapes(shape: seq<nat>, start: seq<nat>, dims: seq<nat>)
    requires BlockFits(shape, start, dims)
    ensures |shape| == |start| == |dims|
  {
  }

  // The block holds the array in file byte order, and nothing else changed.
  ghost predicate BlockStored(before: seq<byte>, after: seq<byte>, dataOffset: nat, shape: seq<nat>, start: seq<nat>,
                              dims: seq<nat>, data: seq<byte>, bpp: nat, littleEndian: bool)
  {
    && BlockFits(shape, start, dims) && bpp > 0 && |data| == Volume(dims) * bpp
    && FitsSelection(BlockRhs(data, bpp, littleEndian), BlockAt(start, dims), bpp)
    && SliceStored(before, after, dataOffset, shape, BlockAt(start, dims), bpp, BlockRhs(data, bpp, littleEndian))
  }

  // The pixel the next strip goes to and the one it comes from, for the
  // odometer reading idx at step t.
  method BlockStrip(shape: seq<nat>, start: seq<nat>, dims: seq<nat>, strides: seq<nat>, srcStrides: seq<nat>,
                    base: nat, outer: nat, idx: seq<nat>, ghost t: nat) returns (target: nat, origin: nat)
    requires BlockFits(shape, start, dims) && IsStrides(strides, shape) && IsStrides(srcStrides, dims)
    requires base == StrideSum(shape, BlockAt(start, dims), Zeros(|shape|))
    requires outer <= |shape| && PixelCount(BlockAt(start, dims)) > 0
    requires |idx| == outer && InCounts(BlockAt(start, dims)[..outer], idx)
      && t == Rank(BlockAt(start, dims)[..outer], idx)
    ensures t < PixelCount(BlockAt(start, dims)[..outer])
    ensures origin == t * StripPixels(BlockAt(start, dims), outer) < PixelCount(BlockAt(start, dims))
    ensures target == SourcePixel(shape, BlockAt(start, dims), origin)
  {
    hide *;
    StripShapes(shape, start, dims);
    StripsPositive(BlockAt(start, dims), outer);
    StripTarget(shape, start, dims, outer, idx, t);
    StripOrigin(start, dims, outer, idx, t);
    RankInside(BlockAt(start, dims)[..outer], idx);
    target := OuterSum(shape, strides, idx, base);
    origin := OuterSum(dims, srcStrides, idx, 0);
  }

  // The strip loop of write_image_data.
  method StoreBlock(f: Storage, dataOffset: nat, shape: seq<nat>, start: seq<nat>, dims: seq<nat>, data: seq<byte>,
                    bpp: nat, littleEndian: bool, chunkPixels: nat)
    returns (ok: bool)
    requires BlockFits(shape, start, dims) && bpp > 0 && chunkPixels > 0 && |data| == Volume(dims) * bpp
    requires PixelCount(BlockAt(start, dims)) > 0
    requires dataOffset + Volume(shape) * bpp <= |f.bytes|
    modifies f
    ensures ok ==> BlockStored(old(f.bytes), f.bytes, dataOffset, shape, start, dims, data, bpp, littleEndian)
    ensures !f.mayFail ==> ok
  {
    hide *;
    ghost var before := f.bytes;
    StripShapes(shape, start, dims);
    ghost var block := BlockAt(start, dims);
    BlockIsValid(shape, start, dims);
    BlockRhsFits(data, start, dims, bpp, littleEndian);
    ghost var at, values := Positions(dataOffset, shape, block, bpp), RhsBytes(BlockRhs(data, bpp, littleEndian),
        block, bpp);
    NothingStored(before, at, values);
    var outer, stripPixels := ComputeStripLayout(shape, dims, start);
    StripShape(shape, block, outer, 0, 0);
    var strides := RowMajorStrides(shape);
    var srcStrides := RowMajorStrides(dims);
    var base := BasePixel(shape, start, dims, strides);
    StripsPositive(block, outer);
    TotalBytes(block, outer, bpp, 0);
    var outerCount := OuterCount(start, dims, outer);
    var idx := new nat[outer](_ => 0);
    FirstIndex(block, outer, idx[..]);
    for t := 0 to outerCount
      invariant |f.bytes| == |before| && t * (stripPixels * bpp) <= PixelCount(block) * bpp
      invariant t < outerCount ==> InCounts(block[..outer], idx[..]) && Rank(block[..outer], idx[..]) == t
      invariant StoredUpTo(before, f.bytes, at, values, t * (stripPixels * bpp))
    {
      var target, origin := BlockStrip(shape, start, dims, strides, srcStrides, base, outer, idx[..], t);
      StripInFile(shape, block, bpp, outer, t, target);
      StripOffset(t, stripPixels, bpp);
      ok := StoreBlockStrip(f, dataOffset, shape, start, dims, data, bpp, littleEndian, chunkPixels, before, outer, t,
                            target, origin, stripPixels);
      if !ok { return; }
      NextOffset(t, stripPixels * bpp);
      StoredKeepsLength(before, f.bytes, at, values, t * (stripPixels * bpp) + stripPixels * bpp);
      StepOdometer(idx, block[..outer], dims[..outer]);
    }
    BlockIsStored(before, f.bytes, dataOffset, shape, start, dims, data, bpp, littleEndian);
    ok := f.Flush();
  }

  // The odometer of write_image_data counts to the array's own dimensions.
  method StepOdometer(idx: array<nat>, ghost slices: seq<AxisSlice>, dims: seq<nat>)
    requires idx.Length == |slices| == |dims| && InCounts(slices, idx[..])
    requires forall k :: 0 <= k < |dims| ==> slices[k].count == dims[k]
    modifies idx
    ensures InCounts(slices, idx[..])
    ensures old(Rank(slices, idx[..])) + 1 < PixelCount(slices) ==>
      Rank(slices, idx[..]) == old(Rank(slices, idx[..])) + 1
  {
    hide PixelCount, Rank;
    var whole := Whole(dims);
    CountsDecide(slices, whole, idx[..], 0);
    AdvanceOdometer(idx, whole);
    CountsDecide(slices, whole, idx[..], 0);
  }

  lemma BlockIsStored(before: seq<byte>, after: seq<byte>, dataOffset: nat, shape: seq<nat>, start: seq<nat>,
                      dims: seq<nat>, data: seq<byte>, bpp: nat, littleEndian: bool)
    requires BlockFits(shape, start, dims) && bpp > 0 && |data| == Volume(dims) * bpp
    requires FitsSelection(BlockRhs(data, bpp, littleEndian), BlockAt(start, dims), bpp)
    requires StoredUpTo(before, after, Positions(dataOffset, shape, BlockAt(start, dims), bpp),
                        RhsBytes(BlockRhs(data, bpp, littleEndian), BlockAt(start, dims),
                                 bpp), PixelCount(BlockAt(start, dims)) * bpp)
    ensures BlockStored(before, after, dataOffset, shape, start, dims, data, bpp, littleEndian)
  {
    hide StoredUpTo, Positions, RhsBytes, PixelCount, BlockAt, Volume;
  }

  // base_pixel
  method BasePixel(shape: seq<nat>, start: seq<nat>, dims: seq<nat>, strides: seq<nat>) returns (base: nat)
    requires |shape| == |start| == |dims| && IsStrides(strides, shape)
    ensures base == StrideSum(shape, BlockAt(start, dims), Zeros(|shape|))
  {
    hide StrideSum, IsStrides;
    base := InnerStart(shape, BlockAt(start, dims), strides, 0);
    assert shape[0..] == shape && BlockAt(start, dims)[0..] == BlockAt(start, dims);
  }

  // outer_count
  method OuterCount(start: seq<nat>, dims: seq<nat>, outer: nat) returns (count: nat)
    requires |start| == |dims| && outer <= |dims|
    ensures count == PixelCount(BlockAt(start, dims)[..outer])
  {
    count := 1;
    ghost var block := BlockAt(start, dims);
    for k := 0 to outer
      invariant count == PixelCount(block[..k])
    {
      assert block[..k + 1][..k] == block[..k];
      count := count * dims[k];
    }
  }

  datatype WriteOutcome = Stored | Refused | Failed

  // What write_image_data checks before it touches the file.
  predicate Acceptable(shape: seq<nat>, start: seq<nat>, dims: seq<nat>, data: seq<byte>, bpp: nat) {
    BlockFits(shape, start, dims) && (Volume(dims) == 0 || |data| == Volume(dims) * bpp)
  }

  // write_image_data
  method WriteImageData(f: Storage, dataOffset: nat, shape: seq<nat>, start: seq<nat>, dims: seq<nat>,
                        data: seq<byte>, bpp: nat, littleEndian: bool, chunkPixels: nat)
    returns (outcome: WriteOutcome)
    requires bpp > 0 && chunkPixels > 0 && dataOffset + Volume(shape) * bpp <= |f.bytes|
    modifies f
    ensures outcome.Refused? <==> !Acceptable(shape, start, dims, data, bpp)
    ensures outcome.Refused? ==> f.bytes == old(f.bytes)
    ensures outcome.Stored? ==> if Volume(dims) == 0 then f.bytes == old(f.bytes)
                                else BlockStored(old(f.bytes), f.bytes, dataOffset, shape, start, dims, data, bpp,
                                                 littleEndian)
    ensures outcome.Stored? && Volume(dims) != 0 ==>
      |start| == |dims| == |shape|
      && NativePixels(f.bytes, dataOffset, shape, BlockAt(start, dims), bpp, littleEndian, data)
    ensures !f.mayFail ==> !outcome.Failed?
  {
    if |dims| != |shape| || |start| != |shape| {
      return Refused;
    }
    for k := 0 to |shape|
      invariant forall j :: 0 <= j < k ==> start[j] + dims[j] <= shape[j]
    {
      if start[k] + dims[k] > shape[k] {
        return Refused;
      }
    }
    hide Volume;
    if Volume(dims) == 0 {
      return Stored;
    }
    if |data| != Volume(dims) * bpp {
      return Refused;
    }
    BlockRhsFits(data, start, dims, bpp, littleEndian);
    var ok := StoreBlock(f, dataOffset, shape, start, dims, data, bpp, littleEndian, chunkPixels);
    outcome := if ok then Stored else Failed;
    if ok {
      StoredPixels(old(f.bytes), f.bytes, dataOffset, shape, start, dims, data, bpp, littleEndian);
    }
  }

  // What is stored reads back as the array, in its own byte order.
  lemma StoredPixels(before: seq<byte>, after: seq<byte>, dataOffset: nat, shape: seq<nat>, start: seq<nat>,
                     dims: seq<nat>, data: seq<byte>, bpp: nat, littleEndian: bool)
    requires BlockStored(before, after, dataOffset, shape, start, dims, data, bpp, littleEndian)
    ensures |start| == |dims| == |shape|
    ensures NativePixels(after, dataOffset, shape, BlockAt(start, dims), bpp, littleEndian, data)
  {
    hide SelectedByte, PixelCount, Volume, Native, NativePixels;
    BlockRhsFits(data, start, dims, bpp, littleEndian);
    NativeLength(data, bpp, littleEndian);
    var block := BlockAt(start, dims);
    var at, values := Positions(dataOffset, shape, block, bpp), Native(data, bpp, littleEndian);
    forall k | 0 <= k < |values|
      ensures dataOffset + SelectedByte(shape, block, bpp, k) < |after|
      ensures values[k] == after[dataOffset + SelectedByte(shape, block, bpp, k)]
    {
      assert after[at[k]] == values[k];
    }
    GatheredPixels(after, dataOffset, shape, block, bpp, littleEndian, data);
  }

  // A block write changes nothing before or behind the image's own bytes.
  lemma BlockStaysInside(before: seq<byte>, after: seq<byte>, dataOffset: nat, shape: seq<nat>, start: seq<nat>,
                         dims: seq<nat>, data: seq<byte>, bpp: nat, littleEndian: bool)
    requires BlockStored(before, after, dataOffset, shape, start, dims, data, bpp, littleEndian)
    ensures |after| == |before|
    ensures forall p :: 0 <= p < |before| && !(dataOffset <= p < dataOffset + Volume(shape) * bpp) ==>
      after[p] == before[p]
  {
    hide PixelCount, Volume, SelectedByte, RhsBytes;
    var block := BlockAt(start, dims);
    BlockIsValid(shape, start, dims);
    var at := Positions(dataOffset, shape, block, bpp);
    assert at[..|at|] == at;
    forall k | 0 <= k < |at|
      ensures dataOffset <= at[k] < dataOffset + Volume(shape) * bpp
    {
      SelectedByteInside(shape, block, bpp, k);
    }
  }

  lemma SelectedByteInside(shape: seq<nat>, slices: seq<AxisSlice>, bpp: nat, k: nat)
    requires ValidSlices(shape, slices) && bpp > 0 && k < PixelCount(slices) * bpp
    ensures SelectedByte(shape, slices, bpp, k) < Volume(shape) * bpp
  {
    QuotientBelow(k, PixelCount(slices), bpp);
    hide PixelCount, Volume, SourcePixel, ValidSlices;
    SameRank(shape, slices);
    SourcePixelInside(shape, slices, k / bpp);
    MulMonotone(Volume(shape), SourcePixel(shape, slices, k / bpp), bpp);
  }

  // ----- new rows at the slow end of an image -----

  // Where an append of `rows` rows starts, and the shapes it makes.
  function RowStart(shape: seq<nat>): (start: seq<nat>)
    requires shape != []
  {
    [shape[0]] + Zeros(|shape| - 1)
  }

  function WithRows(shape: seq<nat>, rows: nat): (r: seq<nat>)
    requires shape != []
  {
    shape[0 := rows]
  }

  lemma {:induction false} FirstNewPixel(shape: seq<nat>, rows: nat)
    requires shape != [] && PixelCount(BlockAt(RowStart(shape), WithRows(shape, rows))) > 0
    ensures SourcePixel(WithRows(shape, shape[0] + rows), BlockAt(RowStart(shape), WithRows(shape, rows)), 0)
         == Volume(shape)
    decreases |shape|
  {
    var m := |shape| - 1;
    var grown, block := WithRows(shape, shape[0] + rows), BlockAt(RowStart(shape), WithRows(shape, rows));
    CountPositive(block, 0);
    if m == 0 {
      assert shape[..0] == [] && Volume(shape[..0]) == 1;
      assert SourcePixel(grown[..m], block[..m], 0) == 0;
    } else {
      assert grown[..m] == WithRows(shape[..m], shape[0] + rows);
      assert block[..m] == BlockAt(RowStart(shape[..m]), WithRows(shape[..m], rows));
      FirstNewPixel(shape[..m], rows);
      assert block[m] == AxisSlice(0, 1, shape[m]);
      assert 0 / block[m].count == 0 && 0 % block[m].count == 0;
    }
  }

  // Growing the slow axis leaves the old pixels where they were and puts the
  // new ones right behind them.
  lemma NewPixelsFollow(shape: seq<nat>, rows: nat, n: nat)
    requires shape != [] && n < PixelCount(BlockAt(RowStart(shape), WithRows(shape, rows)))
    ensures SourcePixel(WithRows(shape, shape[0] + rows), BlockAt(RowStart(shape), WithRows(shape, rows)), n)
         == Volume(shape) + n
  {
    var grown, block := WithRows(shape, shape[0] + rows), BlockAt(RowStart(shape), WithRows(shape, rows));
    assert StripFrom(grown, block, 0);
    StripsCoverSelection(block, 0);
    assert block[..0] == [];
    assert PixelCount(block[..0]) == 1;
    hide *;
    FirstNewPixel(shape, rows);
    StripIsContiguous(grown, block, 0, 0, n);
  }

  // The bytes of the image after an append of rows: the old ones, then the
  // array's in file byte order.
  lemma RowsAppended(before: seq<byte>, after: seq<byte>, dataOffset: nat, shape: seq<nat>, rows: nat,
                     data: seq<byte>, bpp: nat, littleEndian: bool)
    requires shape != []
    requires BlockStored(before, after, dataOffset, WithRows(shape, shape[0] + rows), RowStart(shape),
                         WithRows(shape, rows), data, bpp, littleEndian)
    requires dataOffset + Volume(shape) * bpp + |data| <= |before|
    ensures |after| == |before|
    ensures after[dataOffset..dataOffset + Volume(shape) * bpp + |data|]
         == before[dataOffset..dataOffset + Volume(shape) * bpp] + Native(data, bpp, littleEndian)
  {
    hide *;
    BlockStoredAt(before, after, dataOffset, WithRows(shape, shape[0] + rows), RowStart(shape),
                  WithRows(shape, rows), data, bpp, littleEndian);
    NewBytesAt(dataOffset, shape, rows, bpp);
    RunRead(before, after,
            Positions(dataOffset, WithRows(shape, shape[0] + rows), BlockAt(RowStart(shape), WithRows(shape, rows)),
                      bpp),
            Native(data, bpp, littleEndian), dataOffset, Volume(shape) * bpp);
  }

  lemma BlockStoredAt(before: seq<byte>, after: seq<byte>, dataOffset: nat, shape: seq<nat>, start: seq<nat>,
                      dims: seq<nat>, data: seq<byte>, bpp: nat, littleEndian: bool)
    requires BlockStored(before, after, dataOffset, shape, start, dims, data, bpp, littleEndian)
    ensures |shape| == |start| == |dims| == |BlockAt(start, dims)| && bpp > 0
    ensures |Positions(dataOffset, shape, BlockAt(start, dims), bpp)| == |Native(data, bpp, littleEndian)| == |data|
    ensures StoredUpTo(before, after, Positions(dataOffset, shape, BlockAt(start, dims), bpp),
                       Native(data, bpp, littleEndian), |data|)
  {
    BlockRhsFits(data, start, dims, bpp, littleEndian);
    NativeLength(data, bpp, littleEndian);
    hide PixelCount, Volume, Native, RhsBytes, StoredUpTo, Positions;
  }

  lemma NewBytesAt(dataOffset: nat, shape: seq<nat>, rows: nat, bpp: nat)
    requires shape != [] && bpp > 0
    ensures var at := Positions(dataOffset, WithRows(shape, shape[0] + rows),
                                BlockAt(RowStart(shape), WithRows(shape, rows)), bpp);
      forall k :: 0 <= k < |at| ==> at[k] == dataOffset + Volume(shape) * bpp + k
  {
    var grown, block := WithRows(shape, shape[0] + rows), BlockAt(RowStart(shape), WithRows(shape, rows));
    var at := Positions(dataOffset, grown, block, bpp);
    hide PixelCount, Volume, SelectedByte;
    forall k | 0 <= k < |at|
      ensures at[k] == dataOffset + Volume(shape) * bpp + k
    {
      NewByteAt(shape, rows, bpp, k);
    }
  }

  lemma NewByteAt(shape: seq<nat>, rows: nat, bpp: nat, k: nat)
    requires shape != [] && bpp > 0 && k < PixelCount(BlockAt(RowStart(shape), WithRows(shape, rows))) * bpp
    ensures SelectedByte(WithRows(shape, shape[0] + rows), BlockAt(RowStart(shape), WithRows(shape, rows)), bpp, k)
         == Volume(shape) * bpp + k
  {
    var n := PixelCount(BlockAt(RowStart(shape), WithRows(shape, rows)));
    QuotientBelow(k, n, bpp);
    NewPixelsFollow(shape, rows, k / bpp);
    hide PixelCount, Volume, SourcePixel;
    AlongRow(Volume(shape), k, bpp);
  }

  lemma RunRead(before: seq<byte>, after: seq<byte>, at: seq<nat>, values: seq<byte>, lo: nat, had: nat)
    requires |at| == |values| && StoredUpTo(before, after, at, values, |at|)
    requires forall k :: 0 <= k < |at| ==> at[k] == lo + had + k
    requires lo + had + |values| <= |before|
    ensures |after| == |before| && after[lo..lo + had + |values|] == before[lo..lo + had] + values
  {
    assert at[..|at|] == at;
    forall p | lo <= p < lo + had
      ensures after[p] == before[p]
    {
      assert p !in at;
    }
    forall k | 0 <= k < |values|
      ensures after[lo + had + k] == values[k]
    {
      assert after[at[k]] == values[k];
    }
  }
}
