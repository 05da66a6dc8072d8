// ImageHDU::extend: new rows behind the old ones, the file grown to hold them.
module ImageExtend {
  import opened FitsBytes
  import opened SliceMath
  import opened ImageSlices
  import opened ImageData
  import opened FileStorage
  import opened HeaderBlocks
  import opened LayoutModel
  import opened FileMoves
  import opened FileRuns
  import opened SoundRuns
  import opened FitsFiles
  import opened CardText
  import opened CardNumbers
  import opened DataSize

  // The array to store, where in the image its corner goes, and how its bytes
  // lie in memory.
  datatype Piece = Piece(start: seq<nat>, dims: seq<nat>, data: seq<byte>, bpp: nat, littleEndian: bool)

  // The NAXISn card that an extend replaces, and what it says then.
  datatype LengthCard = LengthCard(index: nat, card: string)

  predicate NamesAxis(card: string, n: nat) {
    |card| >= 8 && Trim(card[..8]) == AxisKey(n)
  }

  // The first card for axis n; past the end when there is none.
  function FirstNaming(cards: seq<string>, n: nat): (k: nat)
    ensures k <= |cards| && (k < |cards| ==> NamesAxis(cards[k], n))
    ensures forall j :: 0 <= j < k ==> !NamesAxis(cards[j], n)
  {
    if cards == [] || NamesAxis(cards[0], n) then 0 else 1 + FirstNaming(cards[1..], n)
  }

  function LengthCardOf(cards: seq<string>, n: nat, length: nat): (axis: LengthCard) {
    LengthCard(FirstNaming(cards, n), CardIntTrimmed(AxisKey(n), length, "length of data axis " + Decimal(n)))
  }

  // The card of the slowest axis, which FITS numbers last.
  function AxisUpdate(cards: seq<string>, shape: seq<nat>, p: Piece): (axis: LengthCard)
    requires Rows(shape, p)
  {
    LengthCardOf(cards, |shape|, GrownShape(shape, p)[0])
  }

  method FindLengthCard(cards: seq<string>, n: nat) returns (k: nat)
    ensures k == FirstNaming(cards, n)
  {
    hide NamesAxis;
    assert cards[0..] == cards;
    k := 0;
    while k < |cards|
      invariant k <= |cards| && FirstNaming(cards, n) == k + FirstNaming(cards[k..], n)
    {
      assert cards[k..][1..] == cards[k + 1..];
      if NamesAxis(cards[k], n) {
        return;
      }
      k := k + 1;
    }
  }

  function ImageBytes(shape: seq<nat>, bpp: nat): (n: nat) {
    Volume(shape) * bpp
  }

  predicate Rows(shape: seq<nat>, p: Piece) {
    && shape != [] && |p.start| == |p.dims| == |shape|
    && forall k :: 1 <= k < |shape| ==> p.start[k] + p.dims[k] <= shape[k]
  }

  function GrownShape(shape: seq<nat>, p: Piece): (r: seq<nat>)
    requires Rows(shape, p)
  {
    WithRows(shape, Max(shape[0], p.start[0] + p.dims[0]))
  }

  // write_image_data's effect on the disk.
  ghost predicate Written(before: seq<byte>, after: seq<byte>, dataOffset: nat, shape: seq<nat>, p: Piece) {
    if Volume(p.dims) == 0 then after == before
    else BlockStored(before, after, dataOffset, shape, p.start, p.dims, p.data, p.bpp, p.littleEndian)
  }

  function NewCards(cards: seq<string>, axis: LengthCard): (r: seq<string>) {
    if axis.index < |cards| then cards[axis.index := axis.card] else cards
  }

  // The header of an extend goes right before the data, in as many blocks as
  // its cards need.
  function HeaderBeforeData(disk: seq<byte>, data: nat, cards: seq<string>): (bytes: seq<byte>)
    requires 2880 * BlocksFor(cards) <= data
  {
    HeaderFits(cards, BlocksFor(cards));
    HeaderWritten(disk, data - 2880 * BlocksFor(cards), cards, BlocksFor(cards))
  }

  // The image with room for the new rows, nothing written yet.
  function WithRoomForRows(s: FileState, i: nat, shape: seq<nat>, p: Piece): (r: FileState)
    requires Resizable(s, i) && Rows(shape, p)
  {
    DataResized(s, i, ImageBytes(GrownShape(shape, p), p.bpp))
  }

  // What an extend that succeeds leaves.
  ghost predicate Extended(s: FileState, i: nat, axis: LengthCard, shape: seq<nat>, p: Piece, s': FileState) {
    && Rows(shape, p) && Resizable(s, i) && i < |s.cards|
    && var shape' := GrownShape(shape, p);
      if shape' == shape then
        s' == s.(disk := s'.disk) && Written(s.disk, s'.disk, s.hdus[i].data, shape, p)
      else
        var cards := NewCards(s.cards[i], axis);
        var grown := WithRoomForRows(s, i, shape, p);
        && 2880 * BlocksFor(cards) <= s.hdus[i].data
        && s' == grown.(disk := s'.disk, cards := s.cards[i := cards])
        && Written(HeaderBeforeData(grown.disk, s.hdus[i].data, cards), s'.disk, s.hdus[i].data, shape', p)
  }

  lemma {:induction false} VolumeGrows(shape: seq<nat>, rows: nat)
    requires shape != [] && rows >= shape[0]
    ensures Volume(WithRows(shape, rows)) >= Volume(shape)
  {
    var m := |shape| - 1;
    if m > 0 {
      assert WithRows(shape, rows)[..m] == WithRows(shape[..m], rows);
      VolumeGrows(shape[..m], rows);
      MulMonotone(Volume(WithRows(shape, rows)[..m]), Volume(shape[..m]), shape[m]);
    } else {
      assert Volume(shape[..0]) == 1;
    }
  }

  // Making room: like the growing half of grow_or_shrink_data_extent, but a
  // resize of the file that fails does not taint.
  method GrowImage(f: FitsFile, i: nat, was: nat, now: nat) returns (ok: bool)
    requires now > was
    requires f.Valid() && !f.tainted && i < |f.layout| && f.layout[i].data + was <= |f.file.bytes|
    requires Movable(Extents(f.layout), f.layout[i].data + was, now - was)
    requires |f.file.bytes| == f.layout[i].data + was ==>
      MovedAll(Extents(f.layout), f.layout[i].data + was, now - was) == Extents(f.layout)
    modifies f`tainted, f.file, f.layout
    ensures ok ==> f.State() == old(f.State()).(disk := ResizedDisk(old(f.file.bytes), old(f.layout[i].data), was, now),
                                                hdus := ResizedHdus(old(Extents(f.layout)), i, was, now))
    ensures !ok && !f.tainted ==> f.State() == old(f.State())
    ensures !f.file.mayFail ==> ok
  {
    ghost var disk, hdus := f.file.bytes, Extents(f.layout);
    assert hdus[i] == f.layout[i].Value();
    var end, delta := f.layout[i].data + was, now - was;
    GrowCases(disk, hdus, i, was, now);
    hide ZerosInserted, MovedAll, Movable, ResizedDisk, ResizedHdus;
    if |f.file.bytes| > end {
      ok := f.InsertZeros(end, delta);
    } else {
      ok := ExtendFile(f.file, delta);
    }
  }

  method ExtendFile(file: Storage, delta: nat) returns (ok: bool)
    modifies file
    ensures file.bytes == if ok then ZerosInserted(old(file.bytes), old(|file.bytes|), delta) else old(file.bytes)
    ensures !file.mayFail ==> ok
  {
    ZeroedGap(file.bytes, |file.bytes|, delta);
    hide ZerosInserted, Resized;
    ok := file.SetLen(|file.bytes| + delta);
  }

  method MakeRoomForRows(f: FitsFile, i: nat, size: nat) returns (ok: bool)
    requires f.Valid() && !f.tainted && i < |f.layout| && Consistent(f.State()) && size >= f.sizes[i]
    modifies f`tainted, f.file, f.layout
    ensures ok ==>
      Resizable(old(f.State()), i) && f.State() == DataResized(old(f.State()), i, size).(sizes := old(f.sizes))
    ensures !ok && !f.tainted ==> f.State() == old(f.State())
    ensures !f.file.mayFail ==> ok
  {
    ghost var s := f.State();
    ConsistentIsSound(s);
    ResizeFacts(s, i, size);
    assert s.hdus[i] == f.layout[i].Value();
    PaddingGrows(f.sizes[i], size);
    SameExtent(s.disk, s.hdus, i, RoundUpToBlock(s.sizes[i]));
    hide Consistent, Sound, RoundUpToBlock, Movable, MovedAll, ResizedDisk, ResizedHdus;
    var was, now := RoundUpToBlock(f.sizes[i]), RoundUpToBlock(size);
    ok := true;
    if now > was {
      ok := GrowImage(f, i, was, now);
    }
  }

  lemma PaddingGrows(a: nat, b: nat)
    requires a <= b
    ensures RoundUpToBlock(a) <= RoundUpToBlock(b)
  {
  }

  // Where the header and the rows go once there is room.
  lemma RoomForRows(s: FileState, i: nat, cards: seq<string>, size: nat)
    requires Consistent(s) && i < |s.hdus| && |cards| == |s.cards[i]|
    ensures Resizable(s, i)
    ensures var grown := DataResized(s, i, size);
      && 2880 * BlocksFor(cards) <= s.hdus[i].data <= |grown.disk|
      && BlocksFor(cards) <= s.hdus[i].blocks
      && |grown.hdus| == |s.hdus| && grown.hdus[i] == s.hdus[i]
      && s.hdus[i].data + size <= |grown.disk|
  {
    ResizeStaysConsistent(s, i, size);
    HduAt(s, i);
    MoreBlocks(cards, s.hdus[i].blocks);
    var grown := DataResized(s, i, size);
    HduAt(grown, i);
    RoundsUp(size);
    hide Consistent, BlocksFor, HduBytes, RoundUpToBlock, DataResized, ValidLayout, KeepsOthers, ResizedHdu;
  }

  lemma RoundsUp(n: nat)
    ensures RoundUpToBlock(n) >= n
  {
  }

  // The file once the header is out and the cards are replaced.
  function HeaderOut(s: FileState, i: nat, cards: seq<string>, size: nat): (r: FileState)
    requires Resizable(s, i) && i < |s.cards| && 2880 * BlocksFor(cards) <= s.hdus[i].data
  {
    var grown := DataResized(s, i, size);
    grown.(disk := HeaderBeforeData(grown.disk, s.hdus[i].data, cards), cards := s.cards[i := cards])
  }

  lemma HeaderOutIs(s: FileState, i: nat, cards: seq<string>, size: nat)
    requires Resizable(s, i) && i < |s.cards| && 2880 * BlocksFor(cards) <= s.hdus[i].data
    ensures |cards| <= 36 * BlocksFor(cards)
    ensures var grown := DataResized(s, i, size);
      HeaderOut(s, i, cards, size)
           == grown.(disk := HeaderWritten(grown.disk, s.hdus[i].data - 2880 * BlocksFor(cards), cards,
                                           BlocksFor(cards)),
                                             cards := s.cards[i := cards])
  {
    HeaderFits(cards, BlocksFor(cards));
    hide DataResized, HeaderWritten, BlocksFor;
  }

  lemma RoomForHeader(s: FileState, i: nat, cards: seq<string>, size: nat)
    requires Consistent(s) && i < |s.hdus| && |cards| == |s.cards[i]|
    ensures Resizable(s, i) && i < |s.cards| && |cards| <= 36 * BlocksFor(cards)
    ensures var grown := DataResized(s, i, size);
      && 2880 * BlocksFor(cards) <= s.hdus[i].data
      && |grown.hdus| == |s.hdus| && grown.hdus[i] == s.hdus[i]
      && grown.sizes == s.sizes[i := size] && grown.cards == s.cards
      && HeaderOut(s, i, cards, size)
           == grown.(disk := HeaderWritten(grown.disk, s.hdus[i].data - 2880 * BlocksFor(cards), cards,
                                           BlocksFor(cards)),
                                             cards := s.cards[i := cards])
  {
    AlwaysResizable(s, i);
    hide Consistent, BlocksFor, DataResized, HeaderWritten, Resizable, EndOf, ValidLayout, HeaderOut, HeaderBeforeData;
    RoomForRows(s, i, cards, size);
    HeaderOutIs(s, i, cards, size);
    ResizedSizes(s, i, size);
  }

  method WriteRowsHeader(f: FitsFile, i: nat, cards: seq<string>, size: nat, ghost s: FileState) returns (ok: bool)
    requires f.Valid() && !f.tainted && i < |f.layout| && Consistent(s) && |s.hdus| == |f.layout|
      && |cards| == |s.cards[i]|
    requires Resizable(s, i)
    requires f.State() == DataResized(s, i, size).(sizes := s.sizes)
    modifies f`tainted, f`headers, f`sizes, f.file
    ensures f.Valid()
    ensures ok ==> 2880 * BlocksFor(cards) <= s.hdus[i].data && f.State() == HeaderOut(s, i, cards, size)
    ensures !ok ==> f.tainted
    ensures !f.file.mayFail ==> ok
  {
    hide Consistent, BlocksFor, DataResized, HeaderWritten, Resizable, EndOf, ValidLayout, HeaderOut, HeaderBeforeData;
    RoomForHeader(s, i, cards, size);
    assert Extents(f.layout)[i] == f.layout[i].Value();
    var blocks := BlocksFor(cards);
    ok := f.WriteHeader(f.layout[i].data - 2880 * blocks, cards, blocks);
    if ok {
      CommitRows(f, i, cards, size);
    }
  }

  // The cards in memory replaced, once the header is out.
  method CommitRows(f: FitsFile, i: nat, cards: seq<string>, size: nat)
    requires f.Valid() && i < |f.layout|
    modifies f`headers, f`sizes
    ensures f.Valid()
    ensures f.State() == old(f.State()).(cards := old(f.headers)[i := cards], sizes := old(f.sizes)[i := size])
  {
    f.headers := f.headers[i := cards];
    f.sizes := f.sizes[i := size];
  }

  lemma ResizedSizes(s: FileState, i: nat, size: nat)
    requires Resizable(s, i)
    ensures DataResized(s, i, size).sizes == s.sizes[i := size] && DataResized(s, i, size).cards == s.cards
  {
  }

  // The second half of extend: header, cards, pixels.
  method WriteRows(f: FitsFile, i: nat, axis: LengthCard, shape: seq<nat>, p: Piece, chunkPixels: nat,
                   ghost s: FileState)
    returns (ok: bool)
    requires f.Valid() && !f.tainted && i < |f.layout| && Consistent(s) && |s.hdus| == |f.layout| && chunkPixels > 0
      && p.bpp > 0
    requires Rows(shape, p) && |p.data| == ImageBytes(p.dims, p.bpp) && GrownShape(shape, p) != shape
    requires Resizable(s, i) && !s.tainted && s.cards == f.headers
    requires f.State() == DataResized(s, i, ImageBytes(GrownShape(shape, p), p.bpp)).(sizes := s.sizes)
    modifies f`tainted, f`headers, f`sizes, f.file
    ensures f.Valid()
    ensures ok ==> Extended(s, i, axis, shape, p, f.State())
    ensures !ok ==> f.tainted
    ensures !f.file.mayFail ==> ok
  {
    var shape' := GrownShape(shape, p);
    var size := ImageBytes(shape', p.bpp);
    var cards := NewCards(f.headers[i], axis);
    RoomForRows(s, i, cards, size);
    HeaderOutLength(s, i, cards, size);
    hide Consistent, BlocksFor, DataResized, HeaderBeforeData, Written, Volume, ImageBytes, ValidLayout;
    hide EndOf, Extended;
    ok := WriteRowsHeader(f, i, cards, size, s);
    if !ok { return; }
    assert f.layout[i].Value() == Extents(f.layout)[i];
    ok := WritePiece(f, f.layout[i].data, shape', p, chunkPixels);
    if ok {
      ExtendedIs(s, i, axis, shape, p, f.State());
    }
  }

  // The slowest axis's card found and renewed, then header, cards, pixels.
  method UpdateRows(f: FitsFile, i: nat, shape: seq<nat>, p: Piece, chunkPixels: nat, ghost s: FileState)
    returns (ok: bool)
    requires f.Valid() && !f.tainted && i < |f.layout| && Consistent(s) && |s.hdus| == |f.layout| && chunkPixels > 0
      && p.bpp > 0
    requires Rows(shape, p) && |p.data| == ImageBytes(p.dims, p.bpp) && GrownShape(shape, p) != shape
    requires Resizable(s, i) && !s.tainted && s.cards == f.headers
    requires f.State() == DataResized(s, i, ImageBytes(GrownShape(shape, p), p.bpp)).(sizes := s.sizes)
    modifies f`tainted, f`headers, f`sizes, f.file
    ensures f.Valid()
    ensures ok ==> Extended(s, i, AxisUpdate(s.cards[i], shape, p), shape, p, f.State())
    ensures !f.file.mayFail ==> (ok <==> FirstNaming(s.cards[i], |shape|) < |s.cards[i]|)
    ensures ok ==> FirstNaming(s.cards[i], |shape|) < |s.cards[i]|
  {
    hide Consistent, DataResized, Extended, Volume, ImageBytes, CardIntTrimmed, AxisKey, Resizable;
    var n := |shape|;
    var k := FindLengthCard(f.headers[i], n);
    if k == |f.headers[i]| {
      return false;
    }
    var card := CardIntTrimmed(AxisKey(n), GrownShape(shape, p)[0], "length of data axis " + Decimal(n));
    ok := WriteRows(f, i, LengthCard(k, card), shape, p, chunkPixels, s);
  }

  lemma HeaderOutLength(s: FileState, i: nat, cards: seq<string>, size: nat)
    requires Consistent(s) && i < |s.hdus| && |cards| == |s.cards[i]|
    ensures Resizable(s, i) && 2880 * BlocksFor(cards) <= s.hdus[i].data
    ensures |HeaderOut(s, i, cards, size).disk| == |DataResized(s, i, size).disk| >= s.hdus[i].data + size
  {
    RoomForRows(s, i, cards, size);
    HeaderFits(cards, BlocksFor(cards));
    hide Consistent, BlocksFor, DataResized, HeaderImage;
  }

  lemma ExtendedIs(s: FileState, i: nat, axis: LengthCard, shape: seq<nat>, p: Piece, s': FileState)
    requires Rows(shape, p) && Resizable(s, i) && i < |s.cards| && GrownShape(shape, p) != shape
    requires 2880 * BlocksFor(NewCards(s.cards[i], axis)) <= s.hdus[i].data
    requires var shape' := GrownShape(shape, p);
      var out := HeaderOut(s, i, NewCards(s.cards[i], axis), ImageBytes(shape', p.bpp));
      Written(out.disk, s'.disk, s.hdus[i].data, shape', p) && s' == out.(disk := s'.disk)
    ensures Extended(s, i, axis, shape, p, s')
  {
    hide BlocksFor, DataResized, HeaderBeforeData, Written, Volume, ImageBytes;
  }

  method WritePiece(f: FitsFile, dataOffset: nat, shape: seq<nat>, p: Piece, chunkPixels: nat) returns (ok: bool)
    requires f.Valid() && !f.tainted && chunkPixels > 0 && p.bpp > 0
    requires BlockFits(shape, p.start, p.dims) && |p.data| == ImageBytes(p.dims, p.bpp)
    requires dataOffset + ImageBytes(shape, p.bpp) <= |f.file.bytes|
    modifies f`tainted, f.file
    ensures ok ==>
      Written(old(f.file.bytes), f.file.bytes, dataOffset, shape, p)
        && f.State() == old(f.State()).(disk := f.file.bytes)
    ensures !ok ==> f.tainted
    ensures !f.file.mayFail ==> ok
  {
    hide Volume, BlockStored;
    var outcome := WriteImageData(f.file, dataOffset, shape, p.start, p.dims, p.data, p.bpp, p.littleEndian,
                                  chunkPixels);
    ok := outcome.Stored?;
    f.tainted := !ok;
  }

  // The shape checks: everything but the slow axis has to fit already.
  method CheckRows(shape: seq<nat>, p: Piece) returns (fits: bool)
    requires shape != []
    ensures fits <==> Rows(shape, p)
  {
    if |p.dims| != |shape| || |p.start| != |shape| {
      return false;
    }
    for k := 1 to |shape|
      invariant forall j :: 1 <= j < k ==> p.start[j] + p.dims[j] <= shape[j]
    {
      if p.start[k] + p.dims[k] > shape[k] {
        return false;
      }
    }
    fits := true;
  }

  // ImageHDU::extend
  method Extend(f: FitsFile, i: nat, shape: seq<nat>, p: Piece, chunkPixels: nat) returns (outcome: WriteOutcome)
    requires f.Valid() && !f.tainted && i < |f.layout| && Consistent(f.State()) && chunkPixels > 0 && p.bpp > 0
    requires shape != [] && f.sizes[i] == ImageBytes(shape, p.bpp) && |p.data| == ImageBytes(p.dims, p.bpp)
    modifies f`tainted, f`headers, f`sizes, f.file, f.layout
    ensures f.Valid()
    ensures outcome.Refused? <==> !Rows(shape, p)
    ensures outcome.Refused? ==> f.State() == old(f.State())
    ensures outcome.Stored? ==>
      Rows(shape, p) && Extended(old(f.State()), i, AxisUpdate(old(f.headers)[i], shape, p), shape, p, f.State())
    ensures !f.file.mayFail ==>
      (outcome.Failed? <==>
         && Rows(shape, p) && GrownShape(shape, p) != shape
         && FirstNaming(old(f.headers)[i], |shape|) == |old(f.headers)[i]|)
  {
    ghost var s := f.State();
    var fits := CheckRows(shape, p);
    if !fits {
      return Refused;
    }
    var shape' := GrownShape(shape, p);
    HduAt(s, i);
    AlwaysResizable(s, i);
    assert s.hdus[i] == f.layout[i].Value();
    RoundsUp(f.sizes[i]);
    ImageGrows(shape, p);
    hide Consistent, Volume, ImageBytes, Written, DataResized, ValidLayout, RoundUpToBlock, EndOf;
    hide HeaderOnDisk, Resizable, BlocksFor, Extended, LengthCardOf;
    if shape' == shape {
      outcome := WriteImageData(f.file, f.layout[i].data, shape, p.start, p.dims, p.data, p.bpp, p.littleEndian,
                                chunkPixels);
      InPlaceIs(s, i, AxisUpdate(f.headers[i], shape, p), shape, p, f.file.bytes);
      return;
    }
    var ok := MakeRoomForRows(f, i, ImageBytes(shape', p.bpp));
    if ok {
      ok := UpdateRows(f, i, shape, p, chunkPixels, s);
    }
    outcome := if ok then Stored else Failed;
  }

  lemma AlwaysResizable(s: FileState, i: nat)
    requires Consistent(s) && i < |s.hdus|
    ensures Resizable(s, i) && i < |s.cards|
  {
    HduAt(s, i);
  }

  lemma ImageGrows(shape: seq<nat>, p: Piece)
    requires Rows(shape, p)
    ensures ImageBytes(GrownShape(shape, p), p.bpp) >= ImageBytes(shape, p.bpp)
    ensures BlockFits(GrownShape(shape, p), p.start, p.dims)
  {
    VolumeGrows(shape, Max(shape[0], p.start[0] + p.dims[0]));
    MulMonotone(Volume(GrownShape(shape, p)), Volume(shape), p.bpp);
  }

  lemma InPlaceIs(s: FileState, i: nat, axis: LengthCard, shape: seq<nat>, p: Piece, after: seq<byte>)
    requires Rows(shape, p) && Resizable(s, i) && i < |s.cards| && GrownShape(shape, p) == shape
    ensures Written(s.disk, after, s.hdus[i].data, shape, p) ==> Extended(s, i, axis, shape, p, s.(disk := after))
  {
    hide Written;
  }

  // ===== what an extend keeps, and what it makes =====

  lemma WrittenInside(before: seq<byte>, after: seq<byte>, dataOffset: nat, shape: seq<nat>, p: Piece)
    requires Written(before, after, dataOffset, shape, p)
    ensures SameOutside(before, after, dataOffset, dataOffset + ImageBytes(shape, p.bpp))
  {
    if Volume(p.dims) != 0 {
      hide BlockStored, Volume, ImageBytes;
      BlockStaysInside(before, after, dataOffset, shape, p.start, p.dims, p.data, p.bpp, p.littleEndian);
    }
  }

  lemma HeaderBeforeDataInside(disk: seq<byte>, data: nat, cards: seq<string>)
    requires 2880 * BlocksFor(cards) <= data <= |disk|
    ensures SameOutside(disk, HeaderBeforeData(disk, data, cards), data - 2880 * BlocksFor(cards), data)
    ensures |cards| <= 36 * BlocksFor(cards)
    ensures HeaderBeforeData(disk, data, cards)[data - 2880 * BlocksFor(cards)..data]
         == HeaderImage(cards, BlocksFor(cards))
  {
    HeaderFits(cards, BlocksFor(cards));
    hide HeaderImage, BlocksFor;
  }

  lemma ExtendedParts(s: FileState, i: nat, axis: LengthCard, shape: seq<nat>, p: Piece, s': FileState)
    requires Extended(s, i, axis, shape, p, s') && GrownShape(shape, p) != shape
    ensures var cards, grown := NewCards(s.cards[i], axis), WithRoomForRows(s, i, shape, p);
      && s'.hdus == grown.hdus && s'.cards == s.cards[i := cards]
        && s'.sizes == s.sizes[i := ImageBytes(GrownShape(shape, p), p.bpp)]
      && 2880 * BlocksFor(cards) <= s.hdus[i].data
      && Written(HeaderBeforeData(grown.disk, s.hdus[i].data, cards), s'.disk, s.hdus[i].data, GrownShape(shape, p), p)
  {
    ResizedSizes(s, i, ImageBytes(GrownShape(shape, p), p.bpp));
    hide Written, Volume, ImageBytes, DataResized, BlocksFor, HeaderBeforeData, GrownShape, Resizable, NewCards;
  }

  lemma RoomParts(s: FileState, i: nat, axis: LengthCard, shape: seq<nat>, p: Piece)
    requires Consistent(s) && i < |s.hdus| && Resizable(s, i) && Rows(shape, p)
    ensures i < |s.cards|
    ensures var cards, grown := NewCards(s.cards[i], axis), WithRoomForRows(s, i, shape, p);
      && Consistent(grown) && ValidLayout(|grown.disk|, grown.hdus)
      && |grown.hdus| == |s.hdus| && grown.hdus[i] == s.hdus[i]
      && BlocksFor(cards) <= s.hdus[i].blocks
      && s.hdus[i].header + 2880 * s.hdus[i].blocks == s.hdus[i].data
      && s.hdus[i].data + ImageBytes(GrownShape(shape, p), p.bpp) <= EndOf(|grown.disk|, grown.hdus, i) <= |grown.disk|
  {
    var size := ImageBytes(GrownShape(shape, p), p.bpp);
    HduAt(s, i);
    RoomForRows(s, i, NewCards(s.cards[i], axis), size);
    ResizeStaysConsistent(s, i, size);
    RoundsUp(size);
    hide Consistent, Volume, ImageBytes, DataResized, BlocksFor, ResizeKeeps, ValidLayout, RoundUpToBlock, EndOf;
    HduAt(WithRoomForRows(s, i, shape, p), i);
  }

  lemma RoomKeeps(s: FileState, i: nat, shape: seq<nat>, p: Piece)
    requires Consistent(s) && i < |s.hdus| && Resizable(s, i) && Rows(shape, p)
    ensures var grown := WithRoomForRows(s, i, shape, p);
      && |grown.hdus| == |s.hdus|
      && KeepsOthers(s.disk, s.hdus, grown.disk, grown.hdus, i)
      && s.hdus[i].header <= EndOf(|s.disk|, s.hdus, i) <= |s.disk|
      && grown.hdus[i].header <= EndOf(|grown.disk|, grown.hdus, i) <= |grown.disk|
      && (RoundUpToBlock(ImageBytes(GrownShape(shape, p), p.bpp)) >= RoundUpToBlock(s.sizes[i]) ==>
          HduBytes(s.disk, s.hdus, i) <= HduBytes(grown.disk, grown.hdus, i))
  {
    ResizeStaysConsistent(s, i, ImageBytes(GrownShape(shape, p), p.bpp));
    hide Consistent, Volume, ImageBytes, DataResized, ValidLayout, RoundUpToBlock, EndOf, KeepsOthers, HduBytes;
  }

  // Whatever an extend does, the layout stays valid and every other HDU reads
  // as before, whether or not this one was the last.
  lemma ExtendLeavesOthers(s: FileState, i: nat, axis: LengthCard, shape: seq<nat>, p: Piece, s': FileState)
    requires Consistent(s) && i < |s.hdus| && Extended(s, i, axis, shape, p, s')
    requires s.sizes[i] == ImageBytes(shape, p.bpp)
    ensures ValidLayout(|s'.disk|, s'.hdus) && |s'.hdus| == |s.hdus| && s'.hdus[i] == s.hdus[i]
    ensures KeepsOthers(s.disk, s.hdus, s'.disk, s'.hdus, i)
  {
    HduAt(s, i);
    if GrownShape(shape, p) == shape {
      InPlaceLeavesOthers(s, i, shape, p, s'.disk);
    } else {
      ExtendedParts(s, i, axis, shape, p, s');
      RoomParts(s, i, axis, shape, p);
      RoomKeeps(s, i, shape, p);
      var grown := WithRoomForRows(s, i, shape, p);
      hide Consistent, WithRoomForRows, Volume, ImageBytes, BlocksFor, ValidLayout, KeepsOthers;
      hide HeaderBeforeData, Written, EndOf, HduBytes;
      RowsLeaveOthers(grown, i, NewCards(s.cards[i], axis), GrownShape(shape, p), p, s'.disk);
      KeepsOthersTransitive(s.disk, s.hdus, grown.disk, grown.hdus, s'.disk, grown.hdus, i);
    }
  }

  lemma InPlaceLeavesOthers(s: FileState, i: nat, shape: seq<nat>, p: Piece, after: seq<byte>)
    requires Consistent(s) && i < |s.hdus| && s.sizes[i] == ImageBytes(shape, p.bpp)
    requires Written(s.disk, after, s.hdus[i].data, shape, p)
    ensures |after| == |s.disk| && KeepsOthers(s.disk, s.hdus, after, s.hdus, i)
  {
    HduAt(s, i);
    RoundsUp(s.sizes[i]);
    hide Consistent, Volume, ImageBytes, ValidLayout, KeepsOthers, Written, RoundUpToBlock, EndOf;
    WrittenInside(s.disk, after, s.hdus[i].data, shape, p);
    ChangedInside(s.disk, s.hdus, i, after);
  }

  lemma RowsLeaveOthers(grown: FileState, i: nat, cards: seq<string>, shape: seq<nat>, p: Piece, after: seq<byte>)
    requires ValidLayout(|grown.disk|, grown.hdus) && i < |grown.hdus| && BlocksFor(cards) <= grown.hdus[i].blocks
    requires grown.hdus[i].header + 2880 * grown.hdus[i].blocks == grown.hdus[i].data
    requires grown.hdus[i].data + ImageBytes(shape, p.bpp) <= EndOf(|grown.disk|, grown.hdus, i) <= |grown.disk|
    requires Written(HeaderBeforeData(grown.disk, grown.hdus[i].data, cards), after, grown.hdus[i].data, shape, p)
    ensures |after| == |grown.disk| && KeepsOthers(grown.disk, grown.hdus, after, grown.hdus, i)
  {
    hide Volume, ImageBytes, ValidLayout, KeepsOthers, Written, EndOf, BlocksFor, HeaderBeforeData;
    HeaderBeforeDataInside(grown.disk, grown.hdus[i].data, cards);
    WrittenInside(HeaderBeforeData(grown.disk, grown.hdus[i].data, cards), after, grown.hdus[i].data, shape, p);
    ChangedInside(grown.disk, grown.hdus, i, after);
  }

  // The slow axis counts whole rows.
  lemma {:induction false} VolumeAdds(shape: seq<nat>, more: nat)
    requires shape != []
    ensures Volume(WithRows(shape, shape[0] + more)) == Volume(shape) + Volume(WithRows(shape, more))
  {
    var m := |shape| - 1;
    var all, new_ := WithRows(shape, shape[0] + more), WithRows(shape, more);
    if m > 0 {
      assert all[..m] == WithRows(shape[..m], shape[0] + more) && new_[..m] == WithRows(shape[..m], more);
      VolumeAdds(shape[..m], more);
      assert (Volume(shape[..m]) + Volume(new_[..m])) * shape[m]
           == Volume(shape[..m]) * shape[m] + Volume(new_[..m]) * shape[m];
    } else {
      assert Volume(shape[..0]) == 1 && all[..0] == [] && new_[..0] == [];
    }
  }

  // An array of whole rows, to go at the end of the slow axis: the default.
  predicate IsAppend(shape: seq<nat>, p: Piece) {
    && shape != [] && |p.dims| == |shape| && p.start == RowStart(shape) && p.dims == WithRows(shape, p.dims[0])
    && p.bpp > 0 && |p.data| == ImageBytes(p.dims, p.bpp)
  }

  lemma AppendShape(shape: seq<nat>, p: Piece)
    requires IsAppend(shape, p)
    ensures Rows(shape, p) && GrownShape(shape, p) == WithRows(shape, shape[0] + p.dims[0])
    ensures ImageBytes(GrownShape(shape, p), p.bpp) == ImageBytes(shape, p.bpp) + |p.data|
    ensures GrownShape(shape, p) == shape ==> |p.data| == 0
  {
    VolumeAdds(shape, p.dims[0]);
    assert GrownShape(shape, p) == WithRows(shape, shape[0] + p.dims[0]);
    SumTimes(Volume(shape), Volume(p.dims), p.bpp);
    hide Volume, ImageBytes;
    if p.dims[0] == 0 {
      assert shape == WithRows(shape, shape[0] + p.dims[0]);
      SumTimes(Volume(shape), 0, p.bpp);
    }
  }

  lemma SumTimes(a: nat, b: nat, c: nat)
    ensures (a + b) * c == a * c + b * c
    ensures 0 * c == 0
  {
  }

  lemma RowsBehindOld(before: seq<byte>, after: seq<byte>, d: nat, shape: seq<nat>, p: Piece, had: nat)
    requires IsAppend(shape, p) && Written(before, after, d, GrownShape(shape, p), p)
    requires had == ImageBytes(shape, p.bpp) && d + had + |p.data| <= |before|
    ensures |after| == |before|
    ensures after[d..d + had + |p.data|] == before[d..d + had] + Native(p.data, p.bpp, p.littleEndian)
  {
    AppendParts(shape, p);
    AppendShape(shape, p);
    WrittenCases(before, after, d, GrownShape(shape, p), p);
    hide *;
    if Volume(p.dims) == 0 {
      NoRows(before, d, had, p);
    } else {
      SomeRows(before, after, d, shape, p, had);
    }
  }

  lemma SomeRows(before: seq<byte>, after: seq<byte>, d: nat, shape: seq<nat>, p: Piece, had: nat)
    requires shape != [] && |p.dims| == |shape| && p.start == RowStart(shape) && p.dims == WithRows(shape, p.dims[0])
    requires BlockStored(before, after, d, WithRows(shape, shape[0] + p.dims[0]), p.start, p.dims, p.data, p.bpp,
                         p.littleEndian)
    requires had == ImageBytes(shape, p.bpp) && d + had + |p.data| <= |before|
    ensures |after| == |before|
    ensures after[d..d + had + |p.data|] == before[d..d + had] + Native(p.data, p.bpp, p.littleEndian)
  {
    hide Volume, BlockStored, Native, WithRows, RowStart;
    assert had == Volume(shape) * p.bpp;
    RowsAppended(before, after, d, shape, p.dims[0], p.data, p.bpp, p.littleEndian);
  }

  lemma NoRows(disk: seq<byte>, d: nat, had: nat, p: Piece)
    requires p.data == [] && d + had <= |disk|
    ensures disk[d..d + had] == disk[d..d + had] + Native(p.data, p.bpp, p.littleEndian)
  {
    NativeLength([], p.bpp, p.littleEndian);
  }

  lemma WrittenCases(before: seq<byte>, after: seq<byte>, d: nat, shape: seq<nat>, p: Piece)
    requires Written(before, after, d, shape, p)
    ensures Volume(p.dims) == 0 ==> after == before
    ensures Volume(p.dims) > 0 ==> BlockStored(before, after, d, shape, p.start, p.dims, p.data, p.bpp, p.littleEndian)
  {
  }

  lemma AppendParts(shape: seq<nat>, p: Piece)
    requires IsAppend(shape, p)
    ensures shape != [] && |p.dims| == |shape| && p.start == RowStart(shape) && p.dims == WithRows(shape, p.dims[0])
    ensures Volume(p.dims) == 0 ==> p.data == []
  {
  }

  predicate OldStays(before: seq<byte>, after: seq<byte>, d: nat, had: nat) {
    d + had <= |before| && d + had <= |after| && after[d..d + had] == before[d..d + had]
  }

  // The bytes at d: the old image, then the new rows.
  predicate OldThenNew(before: seq<byte>, after: seq<byte>, d: nat, had: nat, p: Piece) {
    && d + had <= |before| && d + had + |p.data| <= |after|
    && after[d..d + had + |p.data|] == before[d..d + had] + Native(p.data, p.bpp, p.littleEndian)
  }

  // An extend with the default start: the data section reads as the old image
  // followed by the new rows.
  lemma ExtendReadsOldThenNew(s: FileState, i: nat, axis: LengthCard, shape: seq<nat>, p: Piece, s': FileState)
    requires Consistent(s) && i < |s.hdus| && Extended(s, i, axis, shape, p, s') && IsAppend(shape, p)
    requires s.sizes[i] == ImageBytes(shape, p.bpp)
    ensures OldThenNew(s.disk, s'.disk, s.hdus[i].data, ImageBytes(shape, p.bpp), p)
  {
    AppendShape(shape, p);
    hide *;
    if GrownShape(shape, p) == shape {
      NoRowsAppended(s, i, axis, shape, p, s');
    } else {
      RowsAppendedBehind(s, i, axis, shape, p, s');
    }
  }

  lemma NoRowsAppended(s: FileState, i: nat, axis: LengthCard, shape: seq<nat>, p: Piece, s': FileState)
    requires Consistent(s) && i < |s.hdus| && Extended(s, i, axis, shape, p, s') && IsAppend(shape, p)
    requires s.sizes[i] == ImageBytes(shape, p.bpp) && Rows(shape, p) && GrownShape(shape, p) == shape
    ensures OldThenNew(s.disk, s'.disk, s.hdus[i].data, ImageBytes(shape, p.bpp), p)
  {
    HduAt(s, i);
    RoundsUp(s.sizes[i]);
    AppendShape(shape, p);
    hide Consistent, Volume, ImageBytes, Native, ValidLayout, RoundUpToBlock, EndOf, BlockStored, GrownShape;
    hide IsAppend, Rows, Written, HeaderOnDisk;
    RowsBehindOld(s.disk, s'.disk, s.hdus[i].data, shape, p, ImageBytes(shape, p.bpp));
  }

  lemma RowsAppendedBehind(s: FileState, i: nat, axis: LengthCard, shape: seq<nat>, p: Piece, s': FileState)
    requires Consistent(s) && i < |s.hdus| && Extended(s, i, axis, shape, p, s') && IsAppend(shape, p)
    requires s.sizes[i] == ImageBytes(shape, p.bpp) && Rows(shape, p) && GrownShape(shape, p) != shape
    ensures OldThenNew(s.disk, s'.disk, s.hdus[i].data, ImageBytes(shape, p.bpp), p)
  {
    AppendShape(shape, p);
    AlwaysResizable(s, i);
    ExtendedParts(s, i, axis, shape, p, s');
    RoomParts(s, i, axis, shape, p);
    hide *;
    OldRowsStay(s, i, shape, p);
    RowsOnGrownDisk(s.disk, WithRoomForRows(s, i, shape, p).disk, s'.disk, s.hdus[i].data,
                    NewCards(s.cards[i], axis), shape, p,
                    ImageBytes(shape, p.bpp));
  }

  lemma RowsOnGrownDisk(disk: seq<byte>, grown: seq<byte>, after: seq<byte>, d: nat, cards: seq<string>,
                        shape: seq<nat>, p: Piece, had: nat)
    requires IsAppend(shape, p) && Rows(shape, p) && 2880 * BlocksFor(cards) <= d && OldStays(disk, grown, d, had)
    requires Written(HeaderBeforeData(grown, d, cards), after, d, GrownShape(shape, p), p)
    requires had == ImageBytes(shape, p.bpp) && d + had + |p.data| <= |grown|
    ensures OldThenNew(disk, after, d, had, p)
  {
    hide ImageBytes, BlocksFor, HeaderBeforeData, Written, Native, GrownShape, IsAppend, Rows, SameOutside;
    HeaderBeforeDataInside(grown, d, cards);
    var before := HeaderBeforeData(grown, d, cards);
    SameLater(grown, before, d - 2880 * BlocksFor(cards), d, had);
    RowsBehindOld(before, after, d, shape, p, had);
  }

  lemma SameLater(before: seq<byte>, after: seq<byte>, lo: nat, hi: nat, n: nat)
    requires SameOutside(before, after, lo, hi) && hi + n <= |before|
    ensures |after| == |before| && after[hi..hi + n] == before[hi..hi + n]
  {
  }

  lemma OldRowsStay(s: FileState, i: nat, shape: seq<nat>, p: Piece)
    requires Consistent(s) && i < |s.hdus| && Resizable(s, i) && IsAppend(shape, p) && Rows(shape, p)
    requires s.sizes[i] == ImageBytes(shape, p.bpp)
    ensures OldStays(s.disk, WithRoomForRows(s, i, shape, p).disk, s.hdus[i].data, ImageBytes(shape, p.bpp))
  {
    HduAt(s, i);
    RoundsUp(s.sizes[i]);
    AppendShape(shape, p);
    PaddingGrows(s.sizes[i], ImageBytes(GrownShape(shape, p), p.bpp));
    RoomParts(s, i, LengthCard(0, []), shape, p);
    RoomKeeps(s, i, shape, p);
    hide WithRoomForRows, EndOf, HduBytes, ImageBytes, Consistent, ValidLayout, KeepsOthers, HeaderOnDisk;
    hide RoundUpToBlock, BlocksFor, IsAppend, Rows, Resizable;
    var grown := WithRoomForRows(s, i, shape, p);
    OldBytesStay(s.disk, s.hdus, grown.disk, grown.hdus, i, ImageBytes(shape, p.bpp));
  }

  lemma OldBytesStay(disk: seq<byte>, hdus: seq<Extent>, disk': seq<byte>, hdus': seq<Extent>, i: nat, had: nat)
    requires i < |hdus| == |hdus'| && hdus'[i] == hdus[i]
    requires hdus[i].header <= hdus[i].data && hdus[i].data + had <= EndOf(|disk|, hdus, i) <= |disk|
    requires hdus[i].header <= EndOf(|disk'|, hdus', i) <= |disk'|
    requires HduBytes(disk, hdus, i) <= HduBytes(disk', hdus', i)
    ensures hdus[i].data + had <= |disk'|
      && disk'[hdus[i].data..hdus[i].data + had] == disk[hdus[i].data..hdus[i].data + had]
  {
    var lo := hdus[i].data - hdus[i].header;
    var a, b := HduBytes(disk, hdus, i), HduBytes(disk', hdus', i);
    SliceOfSlice(disk, hdus[i].header, EndOf(|disk|, hdus, i), lo, lo + had);
    SliceOfSlice(disk', hdus[i].header, EndOf(|disk'|, hdus', i), lo, lo + had);
    assert |a| <= |b| && a[lo..lo + had] == b[lo..lo + had];
  }

  // ===== the header of an extend =====

  // SIMPLE or XTENSION: a first card that is not blank and is there once.
  predicate FirstCardStandsOut(cards: seq<string>) {
    && cards != [] && CardBytes(cards[0]) != BlankCard()
    && forall k :: 0 < k < |cards| ==> CardBytes(cards[k]) != CardBytes(cards[0])
  }

  // A header that lies too far back in its reserved blocks is not there.
  lemma MisplacedHeader(cards: seq<string>, need: nat, blocks: nat)
    requires FirstCardStandsOut(cards) && |cards| <= 36 * need && 0 < need < blocks
    ensures HeaderImage(cards, blocks)[2880 * (blocks - need)..] != HeaderImage(cards, need)
  {
    var k := 36 * (blocks - need);
    CardOnDisk(cards, blocks, k);
    CardOnDisk(cards, need, 0);
    hide HeaderImage, CardBytes, BlankCard;
    assert 80 * k == 2880 * (blocks - need);
    SuffixDiffers(HeaderImage(cards, blocks), 80 * k, HeaderImage(cards, need));
  }

  lemma SuffixDiffers(a: seq<byte>, p: nat, b: seq<byte>)
    requires p + 80 <= |a| && 80 <= |b| && a[p..p + 80] != b[0..80]
    ensures a[p..] != b
  {
    assert a[p..][0..80] == a[p..p + 80];
  }

  lemma HeaderPlaced(disk: seq<byte>, h: Extent, cards: seq<string>, need: nat)
    requires FirstCardStandsOut(cards) && |cards| <= 36 * need && 0 < need <= h.blocks
    requires h.data == h.header + 2880 * h.blocks <= |disk|
    requires disk[h.data - 2880 * need..h.data] == HeaderImage(cards, need)
    ensures HeaderOnDisk(disk, h, cards) <==> need == h.blocks
  {
    if need < h.blocks {
      MisplacedHeader(cards, need, h.blocks);
      hide HeaderImage, FirstCardStandsOut;
      assert disk[h.header..h.data][2880 * (h.blocks - need)..] == disk[h.data - 2880 * need..h.data];
    }
  }

  lemma NeededBlocks(cards: seq<string>)
    requires cards != []
    ensures BlocksFor(cards) > 0 && |cards| <= 36 * BlocksFor(cards)
  {
  }

  // The cards an extend puts in memory are those in the header blocks on disk
  // exactly when the HDU has no spare header blocks.
  lemma ExtendHeaderIff(s: FileState, i: nat, axis: LengthCard, shape: seq<nat>, p: Piece, s': FileState)
    requires Consistent(s) && i < |s.hdus| && Extended(s, i, axis, shape, p, s') && GrownShape(shape, p) != shape
    requires FirstCardStandsOut(NewCards(s.cards[i], axis))
    ensures HeaderOnDisk(s'.disk, s.hdus[i], NewCards(s.cards[i], axis))
       <==> BlocksFor(NewCards(s.cards[i], axis)) == s.hdus[i].blocks
  {
    var cards := NewCards(s.cards[i], axis);
    AlwaysResizable(s, i);
    ExtendedParts(s, i, axis, shape, p, s');
    RoomParts(s, i, axis, shape, p);
    assert FirstCardStandsOut(cards) ==> cards != [];
    hide *;
    NeededBlocks(cards);
    HeaderSliceWritten(WithRoomForRows(s, i, shape, p).disk, s'.disk, s.hdus[i].data, cards, GrownShape(shape, p), p);
    HeaderPlaced(s'.disk, s.hdus[i], cards, BlocksFor(cards));
  }

  // The bytes right before the data are the printed header.
  lemma HeaderSliceWritten(grown: seq<byte>, after: seq<byte>, d: nat, cards: seq<string>, shape: seq<nat>, p: Piece)
    requires 2880 * BlocksFor(cards) <= d <= |grown| && Written(HeaderBeforeData(grown, d, cards), after, d, shape, p)
    ensures |cards| <= 36 * BlocksFor(cards) && d <= |after|
    ensures after[d - 2880 * BlocksFor(cards)..d] == HeaderImage(cards, BlocksFor(cards))
  {
    hide *;
    HeaderBeforeDataInside(grown, d, cards);
    HeaderBeforeDataLength(grown, d, cards);
    WrittenInside(HeaderBeforeData(grown, d, cards), after, d, shape, p);
    SameBefore(HeaderBeforeData(grown, d, cards), after, d - 2880 * BlocksFor(cards), d, d + ImageBytes(shape, p.bpp));
  }

  lemma HeaderBeforeDataLength(grown: seq<byte>, d: nat, cards: seq<string>)
    requires 2880 * BlocksFor(cards) <= d <= |grown|
    ensures |HeaderBeforeData(grown, d, cards)| == |grown|
  {
    HeaderBeforeDataInside(grown, d, cards);
    hide HeaderBeforeData, BlocksFor;
  }

  lemma SameBefore(before: seq<byte>, after: seq<byte>, a: nat, lo: nat, hi: nat)
    requires SameOutside(before, after, lo, hi) && a <= lo <= |before|
    ensures |after| == |before| && after[a..lo] == before[a..lo]
  {
  }

  // So the file is consistent after an extend that grew the image exactly
  // when the HDU has no spare header blocks.
  lemma ExtendConsistentIff(s: FileState, i: nat, axis: LengthCard, shape: seq<nat>, p: Piece, s': FileState)
    requires Consistent(s) && i < |s.hdus| && Extended(s, i, axis, shape, p, s') && GrownShape(shape, p) != shape
    requires s.sizes[i] == ImageBytes(shape, p.bpp) && FirstCardStandsOut(NewCards(s.cards[i], axis))
    ensures Consistent(s') <==> BlocksFor(NewCards(s.cards[i], axis)) == s.hdus[i].blocks
  {
    var cards := NewCards(s.cards[i], axis);
    ExtendLeavesOthers(s, i, axis, shape, p, s');
    ExtendHeaderIff(s, i, axis, shape, p, s');
    ExtendedParts(s, i, axis, shape, p, s');
    SectionFits(s, i, axis, shape, p, s');
    if Consistent(s') {
      HduAt(s', i);
    }
    if HeaderOnDisk(s'.disk, s.hdus[i], cards) {
      hide Extended, Written, ValidLayout, KeepsOthers, HeaderOnDisk, BlocksFor, EndOf, Consistent;
      hide RoundUpToBlock, WithRoomForRows;
      AllOk(s, s', i);
    }
  }

  lemma SectionFits(s: FileState, i: nat, axis: LengthCard, shape: seq<nat>, p: Piece, s': FileState)
    requires Consistent(s) && i < |s.hdus| && Extended(s, i, axis, shape, p, s') && GrownShape(shape, p) != shape
    requires s.sizes[i] == ImageBytes(shape, p.bpp)
    ensures |s.hdus| == |s.cards| == |s.sizes| == |s'.hdus| == |s'.cards| == |s'.sizes|
    ensures s'.hdus[i] == s.hdus[i]
    ensures EndOf(|s'.disk|, s'.hdus, i) == s.hdus[i].data + RoundUpToBlock(s'.sizes[i])
  {
    var size := ImageBytes(GrownShape(shape, p), p.bpp);
    HduAt(s, i);
    AlwaysResizable(s, i);
    ExtendedParts(s, i, axis, shape, p, s');
    RoomParts(s, i, axis, shape, p);
    ResizedSizes(s, i, size);
    var grown, cards, d := WithRoomForRows(s, i, shape, p), NewCards(s.cards[i], axis), s.hdus[i].data;
    assert grown.sizes == s.sizes[i := size];
    hide Extended, DataResized, WithRoomForRows, HeaderBeforeData, Written, EndOf, ImageBytes, BlocksFor;
    hide ValidLayout, HeaderOnDisk, RoundUpToBlock, Consistent, NewCards;
    HduAt(grown, i);
    HeaderBeforeDataInside(grown.disk, d, cards);
    WrittenInside(HeaderBeforeData(grown.disk, d, cards), s'.disk, d, GrownShape(shape, p), p);
  }
}
