// The state of the file, and the three edits a call can make of it: an HDU
// appended, a header rewritten, a data section resized.  Each keeps a
// consistent file consistent.
module FileRuns {
  import opened FitsBytes
  import opened FileStorage
  import opened HeaderBlocks
  import opened LayoutModel
  import opened FileMoves
  import opened CardText

  // The file on disk, the offset records, the cards each HDU holds in memory,
  // the data bytes each header declares, and the taint flag.
  datatype FileState = FileState(disk: seq<byte>, hdus: seq<Extent>, cards: seq<seq<string>>, sizes: seq<nat>,
                                 tainted: bool)

  // The header blocks of h hold exactly these cards, blank-padded.
  predicate HeaderOnDisk(disk: seq<byte>, h: Extent, cards: seq<string>) {
    && |cards| <= 36 * h.blocks
    && h.data == h.header + 2880 * h.blocks <= |disk|
    && disk[h.header..h.data] == HeaderImage(cards, h.blocks)
  }

  // HDU i holds its cards and exactly the blocks its data needs.
  predicate HduOk(disk: seq<byte>, hdus: seq<Extent>, i: nat, cards: seq<string>, size: nat) {
    && i < |hdus|
    && HeaderOnDisk(disk, hdus[i], cards)
    && EndOf(|disk|, hdus, i) == hdus[i].data + RoundUpToBlock(size)
  }

  predicate Consistent(s: FileState) {
    && ValidLayout(|s.disk|, s.hdus)
    && |s.hdus| == |s.cards| == |s.sizes|
    && forall i :: 0 <= i < |s.hdus| ==> HduOk(s.disk, s.hdus, i, s.cards[i], s.sizes[i])
  }

  // ===== the three successful edits =====

  predicate FullCards(cards: seq<string>) {
    |cards| > 0 && forall i :: 0 <= i < |cards| ==> |cards[i]| == CARD_SIZE
  }

  function NewHdu(cards: seq<string>, size: nat): (bytes: seq<byte>) {
    HeaderBytes(cards) + Zeros(RoundUpToBlock(size))
  }

  function Appended(s: FileState, cards: seq<string>, size: nat): (r: FileState) {
    s.(disk := s.disk + NewHdu(cards, size),
       hdus := s.hdus + [Extent(|s.disk|, BlocksFor(cards), |s.disk| + 2880 * BlocksFor(cards))],
       cards := s.cards + [TrimmedAll(cards)],
       sizes := s.sizes + [size])
  }

  // The blocks a header has once `cards` are written over it: it never shrinks.
  function BlocksAfter(h: Extent, cards: seq<string>): (n: nat) {
    Max(h.blocks, BlocksFor(cards))
  }

  function HeaderEdited(s: FileState, i: nat, cards: seq<string>): (r: FileState)
    requires i < |s.hdus| && i < |s.cards| && s.hdus[i].data <= |s.disk|
  {
    var blocks := BlocksAfter(s.hdus[i], cards);
    HeaderFits(cards, blocks);
    s.(disk := EditedDisk(s.disk, s.hdus[i], cards, blocks),
       hdus := GrownHeader(s.hdus, i, blocks - s.hdus[i].blocks),
       cards := s.cards[i := cards])
  }

  // The header region grown to `blocks` blocks and written over.
  function EditedDisk(disk: seq<byte>, h: Extent, cards: seq<string>, blocks: nat): (bytes: seq<byte>)
    requires h.blocks <= blocks && |cards| <= 36 * blocks && h.data <= |disk|
  {
    HeaderWritten(ShiftedUp(disk, h.data, 2880 * (blocks - h.blocks)), h.header, cards, blocks)
  }

  function HeaderWritten(disk: seq<byte>, offset: nat, cards: seq<string>, blocks: nat): (bytes: seq<byte>)
    requires |cards| <= 36 * blocks
  {
    Overwrite(disk, offset, HeaderImage(cards, blocks))
  }

  lemma HeaderFits(cards: seq<string>, blocks: nat)
    requires blocks >= BlocksFor(cards)
    ensures |cards| <= 36 * blocks
  {
  }

  function ZerosInserted(disk: seq<byte>, at: nat, n: nat): (bytes: seq<byte>)
    requires at <= |disk|
  {
    Inserted(disk, at, Zeros(n))
  }

  // A data section that starts at `data`, grown with zeros or cut.
  function ResizedDisk(disk: seq<byte>, data: nat, was: nat, now: nat): (bytes: seq<byte>)
    requires data + was <= |disk|
  {
    if now >= was then ZerosInserted(disk, data + was, now - was) else Removed(disk, data + was, was - now)
  }

  function ResizedHdus(hdus: seq<Extent>, i: nat, was: nat, now: nat): (r: seq<Extent>)
    requires i < |hdus|
  {
    if Movable(hdus, hdus[i].data + was, now - was) then MovedAll(hdus, hdus[i].data + was, now - was) else hdus
  }

  predicate Resizable(s: FileState, i: nat) {
    i < |s.hdus| && i < |s.sizes| && s.hdus[i].data + RoundUpToBlock(s.sizes[i]) <= |s.disk|
  }

  function DataResized(s: FileState, i: nat, size: nat): (r: FileState)
    requires Resizable(s, i)
  {
    var was, now := RoundUpToBlock(s.sizes[i]), RoundUpToBlock(size);
    s.(disk := ResizedDisk(s.disk, s.hdus[i].data, was, now),
       hdus := ResizedHdus(s.hdus, i, was, now),
       sizes := s.sizes[i := size])
  }

  // ===== each edit keeps the file consistent =====

  lemma SameHduOk(disk: seq<byte>, hdus: seq<Extent>, disk': seq<byte>, hdus': seq<Extent>, j: nat,
                  cards: seq<string>, size: nat)
    requires SameHdu(disk, hdus, disk', hdus', j) && HduOk(disk, hdus, j, cards, size)
    requires WellPlaced(hdus[j]) && WellPlaced(hdus'[j])
    ensures HduOk(disk', hdus', j, cards, size)
  {
    hide HeaderImage, Aligned, RoundUpToBlock;
    var d := 2880 * hdus[j].blocks;
    assert HduBytes(disk', hdus', j)[..d] == disk'[hdus'[j].header..hdus'[j].data];
    assert HduBytes(disk, hdus, j)[..d] == disk[hdus[j].header..hdus[j].data];
  }

  lemma SameHduTransitive(d0: seq<byte>, h0: seq<Extent>, d1: seq<byte>, h1: seq<Extent>, d2: seq<byte>,
                          h2: seq<Extent>, j: nat)
    requires SameHdu(d0, h0, d1, h1, j) && SameHdu(d1, h1, d2, h2, j)
    ensures SameHdu(d0, h0, d2, h2, j)
  {
  }

  lemma {:induction false} TrimmedCardsBytes(cards: seq<string>)
    requires forall i :: 0 <= i < |cards| ==> |cards[i]| == CARD_SIZE
    ensures CardsBytes(TrimmedAll(cards)) == CardsBytes(cards)
  {
    if cards != [] {
      var n := |cards| - 1;
      TrimmedCardsBytes(cards[..n]);
      assert TrimmedAll(cards)[..n] == TrimmedAll(cards[..n]);
      PadTrimmed(cards[n]);
    }
  }

  lemma TrimmedImage(cards: seq<string>)
    requires FullCards(cards)
    ensures BlocksFor(cards) >= 1
    ensures |cards| <= 36 * BlocksFor(cards)
    ensures HeaderImage(TrimmedAll(cards), BlocksFor(cards)) == HeaderBytes(cards)
  {
    TrimmedCardsBytes(cards);
  }

  lemma BlocksAreAligned(n: nat)
    ensures Aligned(RoundUpToBlock(n)) && Aligned(2880 * n)
  {
  }

  lemma NewHduLaidOut(cards: seq<string>, size: nat)
    requires FullCards(cards)
    ensures var b := 2880 * BlocksFor(cards);
      && BlocksFor(cards) >= 1 && |cards| <= 36 * BlocksFor(cards)
      && |NewHdu(cards, size)| == b + RoundUpToBlock(size) && Aligned(b + RoundUpToBlock(size))
      && NewHdu(cards, size)[..b] == HeaderImage(TrimmedAll(cards), BlocksFor(cards))
  {
    TrimmedImage(cards);
    BlocksAreAligned(size);
    BlocksAreAligned(BlocksFor(cards));
    AlignedSum(2880 * BlocksFor(cards), RoundUpToBlock(size));
  }

  // An HDU already in the file is untouched by what is appended after it.
  lemma PrefixHduOk(disk: seq<byte>, hdus: seq<Extent>, more: seq<byte>, blocks: nat, j: nat, cards: seq<string>,
                    size: nat)
    requires HduOk(disk, hdus, j, cards, size)
    ensures HduOk(disk + more, hdus + [Extent(|disk|, blocks, |disk| + 2880 * blocks)], j, cards, size)
  {
    hide HeaderImage, RoundUpToBlock;
    var h := hdus[j];
    assert (disk + more)[h.header..h.data] == disk[h.header..h.data];
  }

  lemma NewHduOk(disk: seq<byte>, hdus: seq<Extent>, cards: seq<string>, size: nat)
    requires FullCards(cards)
    ensures HduOk(disk + NewHdu(cards, size),
                  hdus + [Extent(|disk|, BlocksFor(cards), |disk| + 2880 * BlocksFor(cards))],
                  |hdus|, TrimmedAll(cards), size)
  {
    NewHduLaidOut(cards, size);
    hide HeaderImage, NewHdu, RoundUpToBlock, BlocksFor, TrimmedAll;
    var b, added := 2880 * BlocksFor(cards), NewHdu(cards, size);
    assert (disk + added)[|disk|..|disk| + b] == added[..b];
  }

  lemma AppendedLayout(disk: seq<byte>, hdus: seq<Extent>, cards: seq<string>, size: nat)
    requires ValidLayout(|disk|, hdus) && FullCards(cards)
    ensures ValidLayout(|disk + NewHdu(cards, size)|,
                        hdus + [Extent(|disk|, BlocksFor(cards), |disk| + 2880 * BlocksFor(cards))])
  {
    hide *;
    NewHduLaidOut(cards, size);
    AppendKeeps(disk, hdus, NewHdu(cards, size), BlocksFor(cards));
  }

  lemma AppendStaysConsistent(s: FileState, cards: seq<string>, size: nat)
    requires Consistent(s) && FullCards(cards)
    ensures Consistent(Appended(s, cards, size))
  {
    hide HeaderImage, NewHdu, ValidLayout, RoundUpToBlock, Aligned, BlocksFor, HduOk;
    AppendedLayout(s.disk, s.hdus, cards, size);
    NewHduOk(s.disk, s.hdus, cards, size);
    var s' := Appended(s, cards, size);
    forall i | 0 <= i < |s.hdus|
      ensures HduOk(s'.disk, s'.hdus, i, s'.cards[i], s'.sizes[i])
    {
      PrefixHduOk(s.disk, s.hdus, NewHdu(cards, size), BlocksFor(cards), i, s.cards[i], s.sizes[i]);
    }
  }

  // Writing over a header leaves the data behind it and all other HDUs alone.
  lemma HeaderWriteKeeps(disk: seq<byte>, hdus: seq<Extent>, i: nat, image: seq<byte>)
    requires ValidLayout(|disk|, hdus) && i < |hdus| && |image| == 2880 * hdus[i].blocks
    ensures hdus[i].data <= EndOf(|disk|, hdus, i) <= |disk|
    ensures var disk' := Overwrite(disk, hdus[i].header, image);
      && |disk'| == |disk|
      && KeepsOthers(disk, hdus, disk', hdus, i)
      && disk'[hdus[i].header..hdus[i].data] == image
      && DataBytes(disk', hdus, i) == DataBytes(disk, hdus, i)
  {
    Inside(|disk|, hdus, i);
    var disk' := Overwrite(disk, hdus[i].header, image);
    forall j | 0 <= j < |hdus| && j != i
      ensures SameHdu(disk, hdus, disk', hdus, j)
    {
      OutsideEdit(|disk|, hdus, i, j);
    }
  }

  predicate SameOutside(before: seq<byte>, after: seq<byte>, lo: nat, hi: nat) {
    |after| == |before| && forall p :: 0 <= p < |before| && !(lo <= p < hi) ==> after[p] == before[p]
  }

  // A change inside HDU i leaves the others alone.
  lemma ChangedInside(disk: seq<byte>, hdus: seq<Extent>, i: nat, disk': seq<byte>)
    requires ValidLayout(|disk|, hdus) && i < |hdus|
    requires SameOutside(disk, disk', hdus[i].header, EndOf(|disk|, hdus, i))
    ensures KeepsOthers(disk, hdus, disk', hdus, i)
  {
    forall j | 0 <= j < |hdus| && j != i
      ensures SameHdu(disk, hdus, disk', hdus, j)
    {
      OutsideEdit(|disk|, hdus, i, j);
      Inside(|disk|, hdus, j);
    }
  }

  lemma KeepsOthersTransitive(d0: seq<byte>, h0: seq<Extent>, d1: seq<byte>, h1: seq<Extent>, d2: seq<byte>,
                              h2: seq<Extent>, i: nat)
    requires KeepsOthers(d0, h0, d1, h1, i) && KeepsOthers(d1, h1, d2, h2, i)
    ensures KeepsOthers(d0, h0, d2, h2, i)
  {
    forall j | 0 <= j < |h0| && j != i
      ensures SameHdu(d0, h0, d2, h2, j)
    {
      SameHduTransitive(d0, h0, d1, h1, d2, h2, j);
    }
  }

  // HDU i after its header is written: the cards, and the data as it was.
  lemma OthersStayOk(s: FileState, disk: seq<byte>, hdus: seq<Extent>, i: nat, j: nat)
    requires Consistent(s) && ValidLayout(|disk|, hdus) && KeepsOthers(s.disk, s.hdus, disk, hdus, i)
    requires j < |s.hdus| && j != i
    ensures HduOk(disk, hdus, j, s.cards[j], s.sizes[j])
  {
    hide HduOk, SameHdu, WellPlaced, Aligned;
    assert WellPlaced(s.hdus[j]) && WellPlaced(hdus[j]);
    SameHduOk(s.disk, s.hdus, disk, hdus, j, s.cards[j], s.sizes[j]);
  }

  lemma AllOk(s: FileState, s': FileState, i: nat)
    requires Consistent(s) && ValidLayout(|s'.disk|, s'.hdus) && KeepsOthers(s.disk, s.hdus, s'.disk, s'.hdus, i)
    requires i < |s.hdus| == |s'.hdus| == |s'.cards| == |s'.sizes|
    requires forall j :: 0 <= j < |s.hdus| && j != i ==> s'.cards[j] == s.cards[j] && s'.sizes[j] == s.sizes[j]
    requires HduOk(s'.disk, s'.hdus, i, s'.cards[i], s'.sizes[i])
    ensures Consistent(s')
  {
    hide HduOk, ValidLayout, KeepsOthers;
    forall j | 0 <= j < |s.hdus|
      ensures HduOk(s'.disk, s'.hdus, j, s'.cards[j], s'.sizes[j])
    {
      if j != i {
        OthersStayOk(s, s'.disk, s'.hdus, i, j);
      }
    }
  }

  // What an edit of HDU i's header promises about the whole file.
  predicate HeaderEditKeeps(disk: seq<byte>, hdus: seq<Extent>, disk': seq<byte>, hdus': seq<Extent>, i: nat) {
    && ValidLayout(|disk'|, hdus') && i < |hdus| == |hdus'|
    && KeepsOthers(disk, hdus, disk', hdus', i)
    && hdus[i].data <= EndOf(|disk|, hdus, i) <= |disk|
    && hdus'[i].data <= EndOf(|disk'|, hdus', i) <= |disk'|
    && DataBytes(disk', hdus', i) == DataBytes(disk, hdus, i)
  }

  lemma GrownHeaderAt(hdus: seq<Extent>, i: nat, more: nat)
    requires i < |hdus|
    ensures |GrownHeader(hdus, i, more)| == |hdus|
    ensures GrownHeader(hdus, i, more)[i] == Extent(hdus[i].header, hdus[i].blocks + more, hdus[i].data + 2880 * more)
    ensures GrownHeader(hdus, i, 0) == hdus
  {
  }

  lemma GrowKeeps(disk: seq<byte>, hdus: seq<Extent>, i: nat, more: nat)
    requires ValidLayout(|disk|, hdus) && i < |hdus|
    ensures hdus[i].data <= |disk|
    ensures HeaderEditKeeps(disk, hdus, ShiftedUp(disk, hdus[i].data, 2880 * more), GrownHeader(hdus, i, more), i)
  {
    Inside(|disk|, hdus, i);
    GrownHeaderAt(hdus, i, more);
    hide ValidLayout, GrownHeader, KeepsOthers, ShiftedUp, Inserted, DataBytes, Movable, MovedAll;
    var gap := ShiftGap(disk, hdus[i].data, 2880 * more);
    ShiftedUpInserts(disk, hdus[i].data, 2880 * more);
    HeaderGrowKeeps(disk, hdus, i, more, gap);
  }

  lemma HeaderEditKeepsTransitive(d0: seq<byte>, h0: seq<Extent>, d1: seq<byte>, h1: seq<Extent>, d2: seq<byte>, i: nat)
    requires HeaderEditKeeps(d0, h0, d1, h1, i) && |d2| == |d1|
    requires KeepsOthers(d1, h1, d2, h1, i) && DataBytes(d2, h1, i) == DataBytes(d1, h1, i)
    ensures HeaderEditKeeps(d0, h0, d2, h1, i)
  {
    hide ValidLayout;
    forall j | 0 <= j < |h0| && j != i
      ensures SameHdu(d0, h0, d2, h1, j)
    {
      SameHduTransitive(d0, h0, d1, h1, d2, h1, j);
    }
  }

  // Growing and writing HDU i's header keeps its data and every byte of the
  // other HDUs.
  lemma HeaderEditOutcome(disk: seq<byte>, hdus: seq<Extent>, i: nat, cards: seq<string>, blocks: nat)
    requires ValidLayout(|disk|, hdus) && i < |hdus| && |cards| <= 36 * blocks && hdus[i].blocks <= blocks
    ensures hdus[i].data <= |disk|
    ensures var disk', hdus' := EditedDisk(disk, hdus[i], cards, blocks), GrownHeader(hdus, i, blocks - hdus[i].blocks);
      && HeaderEditKeeps(disk, hdus, disk', hdus', i)
      && hdus'[i].header == hdus[i].header && hdus'[i].blocks == blocks
      && HeaderOnDisk(disk', hdus'[i], cards)
  {
    var h, more := hdus[i], blocks - hdus[i].blocks;
    var image := HeaderImage(cards, blocks);
    GrowKeeps(disk, hdus, i, more);
    GrownHeaderAt(hdus, i, more);
    assert WellPlaced(h);
    var grown, hdus' := ShiftedUp(disk, h.data, 2880 * more), GrownHeader(hdus, i, more);
    HeaderWriteKeeps(grown, hdus', i, image);
    hide HeaderImage, ValidLayout, GrownHeader, ShiftedUp, Overwrite, KeepsOthers, DataBytes, WellPlaced;
    HeaderEditKeepsTransitive(disk, hdus, grown, hdus', Overwrite(grown, h.header, image), i);
  }

  lemma HduAt(s: FileState, i: nat)
    requires Consistent(s) && i < |s.hdus|
    ensures ValidLayout(|s.disk|, s.hdus) && |s.hdus| == |s.cards| == |s.sizes|
    ensures s.hdus[i].header < s.hdus[i].data <= EndOf(|s.disk|, s.hdus, i) <= |s.disk|
    ensures EndOf(|s.disk|, s.hdus, i) == s.hdus[i].data + RoundUpToBlock(s.sizes[i])
    ensures HeaderOnDisk(s.disk, s.hdus[i], s.cards[i])
  {
    Inside(|s.disk|, s.hdus, i);
    assert HduOk(s.disk, s.hdus, i, s.cards[i], s.sizes[i]);
  }

  // A header edit, growing the header or not, keeps the file consistent, the
  // HDU's own data, and every byte of the others.
  lemma HeaderEditStaysConsistent(s: FileState, i: nat, cards: seq<string>)
    requires Consistent(s) && i < |s.hdus|
    ensures s.hdus[i].data <= |s.disk|
    ensures var s' := HeaderEdited(s, i, cards);
      && Consistent(s') && HeaderEditKeeps(s.disk, s.hdus, s'.disk, s'.hdus, i)
      && s'.hdus[i].blocks == BlocksAfter(s.hdus[i], cards)
  {
    var blocks := BlocksAfter(s.hdus[i], cards);
    HduAt(s, i);
    HeaderFits(cards, blocks);
    HeaderEditOutcome(s.disk, s.hdus, i, cards, blocks);
    var s' := HeaderEdited(s, i, cards);
    HeaderEditDataSize(s.disk, s.hdus, s'.disk, s'.hdus, i);
    hide HeaderEdited, HeaderOnDisk, ValidLayout, KeepsOthers, BlocksAfter, GrownHeader, EditedDisk;
    hide DataBytes, Consistent, EndOf;
    AllOk(s, s', i);
  }

  lemma HeaderEditDataSize(disk: seq<byte>, hdus: seq<Extent>, disk': seq<byte>, hdus': seq<Extent>, i: nat)
    requires HeaderEditKeeps(disk, hdus, disk', hdus', i)
    ensures EndOf(|disk'|, hdus', i) - hdus'[i].data == EndOf(|disk|, hdus, i) - hdus[i].data
  {
    assert |DataBytes(disk', hdus', i)| == |DataBytes(disk, hdus, i)|;
  }

  // An HDU extended with zero blocks, or cut.
  function ResizedHdu(hdu: seq<byte>, was: nat, now: nat): (bytes: seq<byte>) {
    if now >= was then hdu + Zeros(now - was)
    else if was - now <= |hdu| then hdu[..|hdu| - (was - now)]
    else hdu
  }

  // What a resize of HDU i's data promises about the whole file.
  predicate ResizeKeeps(disk: seq<byte>, hdus: seq<Extent>, disk': seq<byte>, hdus': seq<Extent>, i: nat, was: nat,
                        now: nat) {
    && ValidLayout(|disk'|, hdus') && i < |hdus| == |hdus'|
    && KeepsOthers(disk, hdus, disk', hdus', i)
    && hdus[i].header <= EndOf(|disk|, hdus, i) <= |disk|
    && hdus'[i] == hdus[i]
    && EndOf(|disk'|, hdus', i) == EndOf(|disk|, hdus, i) - was + now <= |disk'|
    && hdus'[i].header <= EndOf(|disk'|, hdus', i)
    && HduBytes(disk', hdus', i) == ResizedHdu(HduBytes(disk, hdus, i), was, now)
  }

  lemma DataGrows(disk: seq<byte>, hdus: seq<Extent>, i: nat, was: nat, now: nat)
    requires ValidLayout(|disk|, hdus) && i < |hdus| && now >= was && Aligned(now - was)
    requires EndOf(|disk|, hdus, i) == hdus[i].data + was <= |disk|
    ensures Movable(hdus, hdus[i].data + was, now - was)
    ensures ResizeKeeps(disk, hdus, ResizedDisk(disk, hdus[i].data, was, now), ResizedHdus(hdus, i, was, now), i,
                        was, now)
  {
    hide ValidLayout, KeepsOthers, Inserted, MovedAll, HduBytes, EndOf, Aligned;
    DataGrowKeeps(disk, hdus, i, Zeros(now - was));
  }

  lemma DataShrinks(disk: seq<byte>, hdus: seq<Extent>, i: nat, was: nat, now: nat)
    requires ValidLayout(|disk|, hdus) && i < |hdus| && now < was && Aligned(was - now)
    requires EndOf(|disk|, hdus, i) == hdus[i].data + was <= |disk|
    ensures Movable(hdus, hdus[i].data + was, now - was)
    ensures ResizeKeeps(disk, hdus, ResizedDisk(disk, hdus[i].data, was, now), ResizedHdus(hdus, i, was, now), i,
                        was, now)
  {
    hide ValidLayout, KeepsOthers, Removed, MovedAll, EndOf, Aligned, Movable;
    DataShrinkKeeps(disk, hdus, i, was - now);
    CutHdu(disk, hdus[i].header, hdus[i].data + was, was, now);
  }

  lemma CutHdu(disk: seq<byte>, lo: nat, hi: nat, was: nat, now: nat)
    requires lo <= hi <= |disk| && now < was && was - now <= hi - lo
    ensures ResizedHdu(disk[lo..hi], was, now) == disk[lo..hi - (was - now)]
  {
  }

  lemma AlignedDifference(a: nat, b: nat)
    requires Aligned(a) && Aligned(b)
    ensures a >= b ==> Aligned(a - b)
    ensures b >= a ==> Aligned(b - a)
  {
  }

  lemma PaddingChange(was: nat, now: nat)
    ensures RoundUpToBlock(now) >= RoundUpToBlock(was) ==> Aligned(RoundUpToBlock(now) - RoundUpToBlock(was))
    ensures RoundUpToBlock(was) >= RoundUpToBlock(now) ==> Aligned(RoundUpToBlock(was) - RoundUpToBlock(now))
  {
    BlocksAreAligned(was);
    BlocksAreAligned(now);
    hide RoundUpToBlock, Aligned;
    AlignedDifference(RoundUpToBlock(was), RoundUpToBlock(now));
  }

  // Growing or shrinking a data section keeps the file consistent, and every
  // byte of the other HDUs; the HDU itself gains zero blocks or is cut.
  lemma ResizeStaysConsistent(s: FileState, i: nat, size: nat)
    requires Consistent(s) && i < |s.hdus|
    ensures Resizable(s, i)
    ensures var s' := DataResized(s, i, size);
      && Consistent(s')
      && ResizeKeeps(s.disk, s.hdus, s'.disk, s'.hdus, i, RoundUpToBlock(s.sizes[i]), RoundUpToBlock(size))
  {
    HduAt(s, i);
    PaddingChange(s.sizes[i], size);
    DataResizes(s.disk, s.hdus, i, RoundUpToBlock(s.sizes[i]), RoundUpToBlock(size));
    var s' := DataResized(s, i, size);
    assert s'.cards == s.cards && s'.sizes == s.sizes[i := size];
    hide RoundUpToBlock, HduOk, ResizedHdu, HeaderOnDisk, ResizedDisk, ResizedHdus, Movable;
    ResizedOk(s, s', i, size);
    AllOk(s, s', i);
  }

  lemma DataResizes(disk: seq<byte>, hdus: seq<Extent>, i: nat, was: nat, now: nat)
    requires ValidLayout(|disk|, hdus) && i < |hdus|
    requires now >= was ==> Aligned(now - was)
    requires was >= now ==> Aligned(was - now)
    requires EndOf(|disk|, hdus, i) == hdus[i].data + was <= |disk|
    ensures Movable(hdus, hdus[i].data + was, now - was)
    ensures ResizeKeeps(disk, hdus, ResizedDisk(disk, hdus[i].data, was, now), ResizedHdus(hdus, i, was, now), i,
                        was, now)
  {
    hide *;
    if now >= was {
      DataGrows(disk, hdus, i, was, now);
    } else {
      DataShrinks(disk, hdus, i, was, now);
    }
  }

  lemma ResizedOk(s: FileState, s': FileState, i: nat, size: nat)
    requires Consistent(s) && i < |s.hdus| && |s.sizes| == |s.hdus|
    requires ResizeKeeps(s.disk, s.hdus, s'.disk, s'.hdus, i, RoundUpToBlock(s.sizes[i]), RoundUpToBlock(size))
    ensures HduOk(s'.disk, s'.hdus, i, s.cards[i], size)
  {
    HduAt(s, i);
    hide ValidLayout, KeepsOthers, RoundUpToBlock, HeaderImage, Consistent;
    var b := 2880 * s.hdus[i].blocks;
    assert HduBytes(s.disk, s.hdus, i)[..b] == s.disk[s.hdus[i].header..s.hdus[i].data];
    assert HduBytes(s'.disk, s'.hdus, i)[..b] == s'.disk[s.hdus[i].header..s.hdus[i].data];
  }

  lemma EmptyFileIsConsistent()
    ensures Consistent(FileState([], [], [], [], false))
  {
  }
}
