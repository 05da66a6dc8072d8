// Every run of HDU appends, header edits and data resizes, any of which may
// fail anywhere: what no run can break, and when the file is without gaps.
module SoundRuns {
  import opened FitsBytes
  import opened CardText
  import opened FileStorage
  import opened HeaderBlocks
  import opened LayoutModel
  import opened FileMoves
  import opened FileRuns

  datatype Op =
    | Append(cards: seq<string>, size: nat)
    | EditHeader(i: nat, cards: seq<string>)
    | ResizeData(i: nat, size: nat)

  // ===== a file that may hold stray bytes between its HDUs =====

  // The bytes an HDU's header declares: its blocks and its padded data.
  function Span(h: Extent, size: nat): (n: nat) {
    2880 * h.blocks + RoundUpToBlock(size)
  }

  function OwnEnd(s: FileState, j: nat): (n: nat)
    requires j < |s.hdus| && j < |s.sizes|
  {
    s.hdus[j].data + RoundUpToBlock(s.sizes[j])
  }

  // HDU j's cards are on disk at its record, and its own bytes end before the
  // next record.
  predicate HduSound(s: FileState, j: nat) {
    && j < |s.hdus| == |s.cards| == |s.sizes| && s.hdus[j].blocks >= 1
    && HeaderOnDisk(s.disk, s.hdus[j], s.cards[j])
    && OwnEnd(s, j) <= EndOf(|s.disk|, s.hdus, j)
  }

  predicate Sound(s: FileState) {
    && |s.hdus| == |s.cards| == |s.sizes|
    && forall j :: 0 <= j < |s.hdus| ==> HduSound(s, j)
  }

  // What the first n headers declare together.
  function Declared(hdus: seq<Extent>, sizes: seq<nat>, n: nat): (total: nat)
    requires n <= |hdus| && n <= |sizes|
  {
    if n == 0 then 0 else Declared(hdus, sizes, n - 1) + Span(hdus[n - 1], sizes[n - 1])
  }

  // The bytes of the file that no header declares.
  function Slack(s: FileState): (n: int)
    requires |s.hdus| == |s.sizes|
  {
    |s.disk| - Declared(s.hdus, s.sizes, |s.hdus|)
  }

  lemma SoundAt(s: FileState, j: nat)
    requires Sound(s) && j < |s.hdus|
    ensures |s.hdus| == |s.cards| == |s.sizes| && s.hdus[j].blocks >= 1
    ensures HeaderOnDisk(s.disk, s.hdus[j], s.cards[j])
    ensures s.hdus[j].header < s.hdus[j].data <= OwnEnd(s, j) <= EndOf(|s.disk|, s.hdus, j) <= |s.disk|
    ensures OwnEnd(s, j) == s.hdus[j].header + Span(s.hdus[j], s.sizes[j])
  {
    assert HduSound(s, j);
    if j + 1 < |s.hdus| {
      assert HduSound(s, j + 1);
    }
  }

  lemma {:induction false} SoundOrder(s: FileState, i: nat, j: nat)
    requires Sound(s) && i < j < |s.hdus|
    ensures i < |s.sizes| && OwnEnd(s, i) <= s.hdus[j].header
    decreases j - i
  {
    hide RoundUpToBlock, HeaderOnDisk;
    SoundAt(s, i);
    if i + 1 < j {
      SoundAt(s, i + 1);
      SoundOrder(s, i + 1, j);
    }
  }

  // ===== no stray byte, no gap =====

  // The records of the first k HDUs lie at or behind what is declared before
  // them, and what follows them has room for the rest.
  lemma {:induction false} DeclaredBefore(s: FileState, k: nat)
    requires Sound(s) && k < |s.hdus|
    ensures |s.hdus| == |s.sizes| && Declared(s.hdus, s.sizes, k) <= s.hdus[k].header
  {
    hide Sound, Span, OwnEnd, HeaderOnDisk;
    SoundAt(s, k);
    if k > 0 {
      SoundAt(s, k - 1);
      DeclaredBefore(s, k - 1);
    }
  }

  lemma {:induction false} DeclaredBehind(s: FileState, k: nat)
    requires Sound(s) && k < |s.hdus|
    ensures |s.hdus| == |s.sizes|
    ensures Declared(s.hdus, s.sizes, |s.hdus|) - Declared(s.hdus, s.sizes, k) <= |s.disk| - s.hdus[k].header
    decreases |s.hdus| - k
  {
    hide Sound, Span, OwnEnd, HeaderOnDisk;
    SoundAt(s, k);
    if k + 1 < |s.hdus| {
      DeclaredBehind(s, k + 1);
    }
  }

  lemma {:induction false} DeclaredAligned(hdus: seq<Extent>, sizes: seq<nat>, n: nat)
    requires n <= |hdus| && n <= |sizes|
    ensures Aligned(Declared(hdus, sizes, n))
  {
    if n > 0 {
      DeclaredAligned(hdus, sizes, n - 1);
      BlocksAreAligned(hdus[n - 1].blocks);
      BlocksAreAligned(sizes[n - 1]);
      hide Aligned, RoundUpToBlock;
      AlignedSum(2880 * hdus[n - 1].blocks, RoundUpToBlock(sizes[n - 1]));
      AlignedSum(Declared(hdus, sizes, n - 1), Span(hdus[n - 1], sizes[n - 1]));
    }
  }

  lemma ConsistentIsSound(s: FileState)
    requires Consistent(s)
    ensures Sound(s)
  {
    hide Consistent, HeaderOnDisk, RoundUpToBlock;
    ConsistentLengths(s);
    forall j | 0 <= j < |s.hdus| ensures HduSound(s, j) {
      HduAt(s, j);
      assert HeaderOnDisk(s.disk, s.hdus[j], s.cards[j]);
      HeaderHasBlocks(s, j);
    }
  }

  lemma ConsistentLengths(s: FileState)
    requires Consistent(s)
    ensures |s.hdus| == |s.cards| == |s.sizes|
    ensures if s.hdus == [] then |s.disk| == 0 else s.hdus[0].header == 0
  {
  }

  lemma HeaderHasBlocks(s: FileState, j: nat)
    requires Consistent(s) && j < |s.hdus|
    ensures s.hdus[j].blocks >= 1
  {
    assert WellPlaced(s.hdus[j]);
  }

  lemma {:induction false} ConsistentDeclared(s: FileState, k: nat)
    requires Consistent(s) && k <= |s.hdus|
    ensures |s.hdus| == |s.sizes|
    ensures Declared(s.hdus, s.sizes, k) == if k < |s.hdus| then s.hdus[k].header else |s.disk|
  {
    hide Consistent, RoundUpToBlock, HeaderImage;
    ConsistentLengths(s);
    if k > 0 {
      HduAt(s, k - 1);
      ConsistentDeclared(s, k - 1);
    }
  }

  // A file whose headers are all in place is consistent exactly when they
  // declare every byte of it.
  lemma ConsistentIffNoSlack(s: FileState)
    requires Sound(s)
    ensures |s.hdus| == |s.sizes| && (Consistent(s) <==> Slack(s) == 0)
  {
    hide Declared, Consistent, Sound;
    SoundLengths(s);
    if Consistent(s) {
      ConsistentDeclared(s, |s.hdus|);
    }
    if Slack(s) == 0 {
      NoSlackTiles(s);
    }
  }

  lemma SoundLengths(s: FileState)
    requires Sound(s)
    ensures |s.hdus| == |s.cards| == |s.sizes|
  {
  }

  lemma DeclaredNext(hdus: seq<Extent>, sizes: seq<nat>, k: nat)
    requires k < |hdus| && k < |sizes|
    ensures Declared(hdus, sizes, k + 1) == Declared(hdus, sizes, k) + Span(hdus[k], sizes[k])
  {
  }

  lemma NoSlackPlaces(s: FileState, k: nat)
    requires Sound(s) && |s.hdus| == |s.sizes| && Slack(s) == 0 && k < |s.hdus|
    ensures s.hdus[k].header == Declared(s.hdus, s.sizes, k)
    ensures EndOf(|s.disk|, s.hdus, k) == OwnEnd(s, k)
  {
    hide Sound, HeaderOnDisk, Span, Declared, RoundUpToBlock;
    SoundAt(s, k);
    DeclaredBefore(s, k);
    DeclaredBehind(s, k);
    DeclaredNext(s.hdus, s.sizes, k);
    if k + 1 < |s.hdus| {
      DeclaredBefore(s, k + 1);
      DeclaredBehind(s, k + 1);
    }
  }

  lemma NoSlackTiles(s: FileState)
    requires Sound(s) && |s.hdus| == |s.sizes| && Slack(s) == 0
    ensures Consistent(s)
  {
    hide Sound, HeaderOnDisk, Span, Declared, RoundUpToBlock, Aligned;
    SoundLengths(s);
    DeclaredAligned(s.hdus, s.sizes, |s.hdus|);
    forall k | 0 <= k < |s.hdus|
      ensures WellPlaced(s.hdus[k]) && s.hdus[k].data <= EndOf(|s.disk|, s.hdus, k)
      ensures HduOk(s.disk, s.hdus, k, s.cards[k], s.sizes[k])
    {
      SoundAt(s, k);
      NoSlackPlaces(s, k);
      DeclaredAligned(s.hdus, s.sizes, k);
      HeaderPlace(s.disk, s.hdus[k], s.cards[k]);
    }
    NothingDeclared(s.hdus, s.sizes);
    if s.hdus != [] {
      NoSlackPlaces(s, 0);
    }
  }

  lemma NothingDeclared(hdus: seq<Extent>, sizes: seq<nat>)
    ensures Declared(hdus, sizes, 0) == 0
  {
  }

  lemma HeaderPlace(disk: seq<byte>, h: Extent, cards: seq<string>)
    requires HeaderOnDisk(disk, h, cards)
    ensures h.data == h.header + 2880 * h.blocks
  {
  }

  // ===== what one edit moves =====

  // disk[lo..hi] is found d bytes further on.
  predicate Carried(disk: seq<byte>, disk': seq<byte>, lo: nat, hi: nat, d: int) {
    lo <= hi <= |disk| && 0 <= lo + d && hi + d <= |disk'| && disk'[lo + d..hi + d] == disk[lo..hi]
  }

  lemma CarriedPart(disk: seq<byte>, disk': seq<byte>, lo: nat, hi: nat, d: int, a: nat, b: nat)
    requires Carried(disk, disk', lo, hi, d) && lo <= a <= b <= hi
    ensures Carried(disk, disk', a, b, d)
  {
    SliceOfSlice(disk, lo, hi, a - lo, b - lo);
    SliceOfSlice(disk', lo + d, hi + d, a - lo, b - lo);
  }

  lemma CarriedTwice(disk0: seq<byte>, disk1: seq<byte>, disk2: seq<byte>, lo: nat, hi: nat, d: int, e: int)
    requires Carried(disk0, disk1, lo, hi, d) && Carried(disk1, disk2, lo + d, hi + d, e)
    ensures Carried(disk0, disk2, lo, hi, d + e)
  {
  }

  lemma InsertedCarries(disk: seq<byte>, at: nat, gap: seq<byte>, lo: nat, hi: nat)
    requires at <= |disk| && lo <= hi <= |disk|
    ensures hi <= at ==> Carried(disk, Inserted(disk, at, gap), lo, hi, 0)
    ensures lo >= at ==> Carried(disk, Inserted(disk, at, gap), lo, hi, |gap|)
  {
    InsertedSlices(disk, at, gap, lo, hi);
    hide Inserted;
  }

  lemma RemovedCarries(disk: seq<byte>, at: nat, n: nat, lo: nat, hi: nat)
    requires n <= at <= |disk| && lo <= hi <= |disk|
    ensures hi <= at - n ==> Carried(disk, Removed(disk, at, n), lo, hi, 0)
    ensures lo >= at ==> Carried(disk, Removed(disk, at, n), lo, hi, -(n as int))
  {
    RemovedSlices(disk, at, n, lo, hi);
    hide Removed;
  }

  lemma WrittenCarries(disk: seq<byte>, pos: nat, data: seq<byte>, lo: nat, hi: nat)
    requires lo <= hi <= |disk| && (hi <= pos || pos + |data| <= lo)
    ensures Carried(disk, Overwrite(disk, pos, data), lo, hi, 0)
  {
    var disk' := Overwrite(disk, pos, data);
    assert disk'[lo..hi] == disk[lo..hi];
  }

  // The records after an edit of HDU i that stretches or cuts it by delta
  // bytes: the earlier ones stay, the later ones move.
  predicate Displaced(s: FileState, s': FileState, i: nat, delta: int) {
    && |s'.hdus| == |s.hdus| == |s'.cards| == |s.cards| == |s'.sizes| == |s.sizes| && i < |s.hdus|
    && |s'.disk| == |s.disk| + delta
    && s'.hdus[i].header == s.hdus[i].header
    && forall j :: 0 <= j < |s.hdus| && j != i ==> RecordMoved(s, s', i, delta, j)
  }

  // How far an edit of HDU i that stretches it by delta moves HDU j.
  function Drift(i: nat, delta: int, j: nat): (d: int) {
    if j > i then delta else 0
  }

  predicate RecordMoved(s: FileState, s': FileState, i: nat, delta: int, j: nat)
    requires j < |s.hdus| == |s'.hdus| == |s'.cards| == |s.cards| == |s'.sizes| == |s.sizes|
  {
    var d := Drift(i, delta, j);
    && s'.hdus[j].header == s.hdus[j].header + d && s'.hdus[j].blocks == s.hdus[j].blocks
    && s'.hdus[j].data == s.hdus[j].data + d
    && s'.cards[j] == s.cards[j] && s'.sizes[j] == s.sizes[j]
  }

  lemma RecordAt(s: FileState, s': FileState, i: nat, delta: int, j: nat)
    requires Displaced(s, s', i, delta) && j < |s.hdus| && j != i
    ensures RecordMoved(s, s', i, delta, j)
  {
  }

  // HDU j's own bytes move with its record.
  predicate OwnCarried(s: FileState, s': FileState, i: nat, delta: int, j: nat) {
    && j < |s.hdus| && j < |s.sizes| && s.hdus[j].header <= OwnEnd(s, j)
    && Carried(s.disk, s'.disk, s.hdus[j].header, OwnEnd(s, j), Drift(i, delta, j))
  }

  lemma MovedHduSound(s: FileState, s': FileState, i: nat, delta: int, j: nat)
    requires Sound(s) && Displaced(s, s', i, delta) && j < |s.hdus| && j != i
    requires OwnCarried(s, s', i, delta, j)
    requires OwnEnd(s', i) <= OwnEnd(s, i) + delta
    ensures HduSound(s', j)
  {
    SoundAt(s, j);
    RecordAt(s, s', i, delta, j);
    var d := Drift(i, delta, j);
    CarriedPart(s.disk, s'.disk, s.hdus[j].header, OwnEnd(s, j), d, s.hdus[j].header, s.hdus[j].data);
    hide Sound, RoundUpToBlock, HeaderImage;
    if j + 1 < |s.hdus| && j + 1 != i {
      RecordAt(s, s', i, delta, j + 1);
    }
  }

  lemma EditedHduEnds(s: FileState, s': FileState, i: nat, delta: int)
    requires Sound(s) && Displaced(s, s', i, delta) && OwnEnd(s', i) <= OwnEnd(s, i) + delta
    ensures OwnEnd(s', i) <= EndOf(|s'.disk|, s'.hdus, i)
  {
    SoundAt(s, i);
    hide Sound, RoundUpToBlock, HeaderImage;
    if i + 1 < |s.hdus| {
      RecordAt(s, s', i, delta, i + 1);
    }
  }

  // An edit of HDU i that carries all others with their records keeps every
  // HDU sound, and the slack when it stretches its HDU by what it declares.
  lemma EditStaysSound(s: FileState, s': FileState, i: nat, delta: int)
    requires Sound(s) && Displaced(s, s', i, delta)
    requires s'.hdus[i].blocks >= 1 && HeaderOnDisk(s'.disk, s'.hdus[i], s'.cards[i])
    requires OwnEnd(s', i) == OwnEnd(s, i) + delta
    requires forall j :: 0 <= j < |s.hdus| && j != i ==> OwnCarried(s, s', i, delta, j)
    ensures Sound(s') && Slack(s') == Slack(s)
  {
    hide HeaderOnDisk, Slack, HduSound, OwnEnd, Carried, Sound, OwnCarried;
    EditedHduEnds(s, s', i, delta);
    forall j | 0 <= j < |s.hdus| ensures HduSound(s', j) {
      if j != i {
        MovedHduSound(s, s', i, delta, j);
      } else {
        EditedHduSound(s', i);
      }
    }
    AllSound(s');
    SlackKept(s, s', i, delta);
  }

  lemma AllSound(s: FileState)
    requires |s.hdus| == |s.cards| == |s.sizes| && forall j :: 0 <= j < |s.hdus| ==> HduSound(s, j)
    ensures Sound(s)
  {
  }

  lemma EditedHduSound(s: FileState, i: nat)
    requires i < |s.hdus| == |s.cards| == |s.sizes| && s.hdus[i].blocks >= 1
    requires HeaderOnDisk(s.disk, s.hdus[i], s.cards[i]) && OwnEnd(s, i) <= EndOf(|s.disk|, s.hdus, i)
    ensures HduSound(s, i)
  {
  }

  lemma SlackKept(s: FileState, s': FileState, i: nat, delta: int)
    requires Sound(s) && Displaced(s, s', i, delta) && HeaderOnDisk(s'.disk, s'.hdus[i], s'.cards[i])
    requires OwnEnd(s', i) == OwnEnd(s, i) + delta
    ensures Slack(s') == Slack(s)
  {
    SoundAt(s, i);
    hide Sound, RoundUpToBlock, HeaderImage, Declared;
    assert Span(s'.hdus[i], s'.sizes[i]) == Span(s.hdus[i], s.sizes[i]) + delta;
    DeclaredMoves(s, s', i, delta, |s.hdus|);
  }

  lemma {:induction false} DeclaredMoves(s: FileState, s': FileState, i: nat, delta: int, n: nat)
    requires Displaced(s, s', i, delta) && n <= |s.hdus|
    requires Span(s'.hdus[i], s'.sizes[i]) == Span(s.hdus[i], s.sizes[i]) + delta
    ensures Declared(s'.hdus, s'.sizes, n) == Declared(s.hdus, s.sizes, n) + if n > i then delta else 0
  {
    hide RoundUpToBlock, Displaced;
    DisplacedLengths(s, s', i, delta);
    if n > 0 {
      DeclaredMoves(s, s', i, delta, n - 1);
      if n - 1 != i {
        RecordAt(s, s', i, delta, n - 1);
      }
    }
  }

  lemma DisplacedLengths(s: FileState, s': FileState, i: nat, delta: int)
    requires Displaced(s, s', i, delta)
    ensures |s'.hdus| == |s.hdus| == |s'.cards| == |s.cards| == |s'.sizes| == |s.sizes| && i < |s.hdus|
  {
  }

  // Which records a move at a point behind HDU i's header touches.
  lemma MovesThoseBehind(s: FileState, i: nat, at: nat, j: nat)
    requires Sound(s) && i < |s.hdus| && j < |s.hdus|
    requires i < |s.sizes| && s.hdus[i].data <= at <= OwnEnd(s, i)
    ensures s.hdus[j].header >= at <==> j > i
    ensures s.hdus[j].data > s.hdus[j].header
    ensures j < |s.sizes| && s.hdus[j].header <= OwnEnd(s, j) <= |s.disk|
    ensures j < i ==> OwnEnd(s, j) <= s.hdus[i].header
    ensures j > i ==> OwnEnd(s, i) <= s.hdus[j].header
  {
    hide Sound, HeaderOnDisk, RoundUpToBlock;
    SoundAt(s, i);
    SoundAt(s, j);
    if j > i {
      SoundOrder(s, i, j);
    } else if j < i {
      SoundOrder(s, j, i);
    }
  }

  // ----- header edits -----

  lemma FrontCarries(disk: seq<byte>, h: Extent, cards: seq<string>, blocks: nat, lo: nat, hi: nat)
    requires h.blocks <= blocks && |cards| <= 36 * blocks && h.header <= h.data <= |disk| && lo <= hi <= h.header
    ensures Carried(disk, EditedDisk(disk, h, cards, blocks), lo, hi, 0)
  {
    hide Carried, HeaderWritten, ShiftedUp;
    var grown := ShiftedUp(disk, h.data, 2880 * (blocks - h.blocks));
    ShiftCarries(disk, h.data, 2880 * (blocks - h.blocks), lo, hi);
    HeaderWrittenCarries(grown, h.header, cards, blocks, lo, hi);
    CarriedTwice(disk, grown, EditedDisk(disk, h, cards, blocks), lo, hi, 0, 0);
  }

  lemma BackCarries(disk: seq<byte>, h: Extent, cards: seq<string>, blocks: nat, lo: nat, hi: nat, more: nat)
    requires h.blocks <= blocks && |cards| <= 36 * blocks && h.data <= lo <= hi <= |disk|
    requires more == 2880 * (blocks - h.blocks) && h.data + more == h.header + 2880 * blocks
    ensures Carried(disk, EditedDisk(disk, h, cards, blocks), lo, hi, more)
  {
    hide Carried, HeaderWritten, ShiftedUp;
    var grown := ShiftedUp(disk, h.data, more);
    ShiftCarries(disk, h.data, more, lo, hi);
    HeaderWrittenCarries(grown, h.header, cards, blocks, lo + more, hi + more);
    CarriedTwice(disk, grown, EditedDisk(disk, h, cards, blocks), lo, hi, more, 0);
  }

  lemma HeaderWrittenCarries(disk: seq<byte>, offset: nat, cards: seq<string>, blocks: nat, lo: nat, hi: nat)
    requires |cards| <= 36 * blocks && lo <= hi <= |disk| && (hi <= offset || offset + 2880 * blocks <= lo)
    ensures Carried(disk, HeaderWritten(disk, offset, cards, blocks), lo, hi, 0)
  {
    hide Carried;
    WrittenCarries(disk, offset, HeaderImage(cards, blocks), lo, hi);
    hide HeaderImage, Overwrite;
  }

  lemma ShiftCarries(disk: seq<byte>, at: nat, more: nat, lo: nat, hi: nat)
    requires at <= |disk| && lo <= hi <= |disk| && (hi <= at || at <= lo)
    ensures |ShiftedUp(disk, at, more)| == |disk| + more
    ensures hi <= at ==> Carried(disk, ShiftedUp(disk, at, more), lo, hi, 0)
    ensures lo >= at ==> Carried(disk, ShiftedUp(disk, at, more), lo, hi, more)
  {
    ShiftedUpInserts(disk, at, more);
    hide ShiftedUp, Carried, ShiftGap, Inserted;
    InsertedCarries(disk, at, ShiftGap(disk, at, more), lo, hi);
  }

  lemma EditedDiskHeader(disk: seq<byte>, h: Extent, cards: seq<string>, blocks: nat)
    requires h.blocks <= blocks && |cards| <= 36 * blocks && h.data == h.header + 2880 * h.blocks <= |disk|
    ensures var more := 2880 * (blocks - h.blocks);
      && |EditedDisk(disk, h, cards, blocks)| == |disk| + more
      && HeaderOnDisk(EditedDisk(disk, h, cards, blocks), Extent(h.header, blocks, h.data + more), cards)
  {
    var more := 2880 * (blocks - h.blocks);
    ShiftedUpInserts(disk, h.data, more);
    hide HeaderImage, ShiftedUp, ShiftGap;
    var image, grown := HeaderImage(cards, blocks), ShiftedUp(disk, h.data, more);
    assert Overwrite(grown, h.header, image)[h.header..h.header + |image|] == image;
  }

  // The records after a header has grown by `more` blocks.
  lemma GrownRecords(s: FileState, i: nat, more: nat)
    requires Sound(s) && i < |s.hdus|
    ensures var hdus := GrownHeader(s.hdus, i, more);
      && |hdus| == |s.hdus|
      && hdus[i] == Extent(s.hdus[i].header, s.hdus[i].blocks + more, s.hdus[i].data + 2880 * more)
      && forall j :: 0 <= j < |s.hdus| && j != i ==> hdus[j] == RecordAfter(s.hdus[j], i, 2880 * more, j)
  {
    SoundAt(s, i);
    hide Sound, OwnEnd, HeaderOnDisk, EndOf;
    forall j | 0 <= j < |s.hdus| && j != i
      ensures s.hdus[j].header >= s.hdus[i].data <==> j > i
    {
      MovesThoseBehind(s, i, s.hdus[i].data, j);
    }
  }

  function RecordAfter(h: Extent, i: nat, delta: nat, j: nat): (r: Extent) {
    Extent(h.header + Drift(i, delta, j), h.blocks, h.data + Drift(i, delta, j))
  }

  // HDU i's header stretched by delta bytes, its cards on disk and its data
  // moved with everything behind it.
  predicate HeaderStretched(s: FileState, s': FileState, i: nat, delta: nat) {
    && Displaced(s, s', i, delta) && OwnEnd(s', i) == OwnEnd(s, i) + delta
    && s'.hdus[i].blocks >= 1 && HeaderOnDisk(s'.disk, s'.hdus[i], s'.cards[i])
    && s'.sizes == s.sizes && s'.hdus[i].data == s.hdus[i].data + delta
  }

  lemma HeaderEditMoves(s: FileState, i: nat, cards: seq<string>)
    requires Sound(s) && i < |s.hdus|
    ensures |s.hdus| == |s.cards| == |s.sizes| && s.hdus[i].data <= |s.disk|
    ensures HeaderStretched(s, HeaderEdited(s, i, cards), i, HeaderGrowth(s, i, cards))
  {
    SoundAt(s, i);
    hide Sound, EditedDisk, RoundUpToBlock, HeaderOnDisk, BlocksFor, EndOf, GrownHeader, Span, HeaderEdited;
    hide RecordAfter, OwnEnd, HeaderStretched;
    HeaderPlace(s.disk, s.hdus[i], s.cards[i]);
    var blocks := BlocksAfter(s.hdus[i], cards);
    HeaderEditedDisk(s, i, cards);
    EditedDiskHeader(s.disk, s.hdus[i], cards, blocks);
    GrownRecords(s, i, blocks - s.hdus[i].blocks);
    HeaderEditedRecords(s, i, cards);
    Stretches(s, HeaderEdited(s, i, cards), i, blocks, cards);
  }

  lemma Stretches(s: FileState, s': FileState, i: nat, blocks: nat, cards: seq<string>)
    requires i < |s.hdus| == |s'.hdus| == |s.cards| == |s.sizes| && 1 <= s.hdus[i].blocks <= blocks
    requires s'.cards == s.cards[i := cards] && s'.sizes == s.sizes
    requires var delta := 2880 * (blocks - s.hdus[i].blocks);
      && |s'.disk| == |s.disk| + delta
      && s'.hdus[i] == Extent(s.hdus[i].header, blocks, s.hdus[i].data + delta)
      && (forall j :: 0 <= j < |s.hdus| && j != i ==> s'.hdus[j] == RecordAfter(s.hdus[j], i, delta, j))
      && HeaderOnDisk(s'.disk, s'.hdus[i], cards)
    ensures HeaderStretched(s, s', i, 2880 * (blocks - s.hdus[i].blocks))
  {
    hide HeaderOnDisk, OwnEnd, RecordAfter, Displaced;
    var delta := 2880 * (blocks - s.hdus[i].blocks);
    RecordsDisplace(s, s', i, delta);
    OwnEndMoves(s, s', i, delta);
  }

  lemma RecordsDisplace(s: FileState, s': FileState, i: nat, delta: nat)
    requires |s'.hdus| == |s.hdus| == |s'.cards| == |s.cards| == |s'.sizes| == |s.sizes| && i < |s.hdus|
    requires |s'.disk| == |s.disk| + delta && s'.hdus[i].header == s.hdus[i].header && s'.sizes == s.sizes
    requires forall j :: 0 <= j < |s.hdus| && j != i ==>
      s'.hdus[j] == RecordAfter(s.hdus[j], i, delta, j) && s'.cards[j] == s.cards[j]
    ensures Displaced(s, s', i, delta)
  {
    forall j | 0 <= j < |s.hdus| && j != i ensures RecordMoved(s, s', i, delta, j) {
      assert s'.hdus[j] == RecordAfter(s.hdus[j], i, delta, j);
    }
  }

  lemma HeaderEditedRecords(s: FileState, i: nat, cards: seq<string>)
    requires i < |s.hdus| && i < |s.cards| && s.hdus[i].data <= |s.disk|
    ensures var s' := HeaderEdited(s, i, cards);
      && s.hdus[i].blocks <= BlocksAfter(s.hdus[i], cards)
      && s'.hdus == GrownHeader(s.hdus, i, BlocksAfter(s.hdus[i], cards) - s.hdus[i].blocks)
      && s'.cards == s.cards[i := cards] && s'.sizes == s.sizes
  {
    HeaderFits(cards, BlocksAfter(s.hdus[i], cards));
    hide EditedDisk, GrownHeader, BlocksFor;
  }

  // A header that fits its blocks keeps them; one that does not gets just as
  // many as it needs.
  lemma EditedBlocks(s: FileState, i: nat, cards: seq<string>)
    requires Sound(s) && i < |s.hdus|
    ensures i < |s.cards| && s.hdus[i].data <= |s.disk| && |HeaderEdited(s, i, cards).hdus| == |s.hdus|
    ensures var was, now := s.hdus[i].blocks, HeaderEdited(s, i, cards).hdus[i].blocks;
      if |cards| <= 36 * was then now == was else 36 * (now - 1) < |cards| <= 36 * now
  {
    SoundAt(s, i);
    GrownHeaderAt(s.hdus, i, BlocksAfter(s.hdus[i], cards) - s.hdus[i].blocks);
    BlocksForIs(cards);
    hide Sound, GrownHeader, EditedDisk, HeaderOnDisk, BlocksFor;
  }

  lemma BlocksForIs(cards: seq<string>)
    ensures 36 * BlocksFor(cards) >= |cards|
    ensures BlocksFor(cards) > 0 ==> 36 * (BlocksFor(cards) - 1) < |cards|
  {
  }

  // By how much a header edit stretches its HDU.
  function HeaderGrowth(s: FileState, i: nat, cards: seq<string>): (n: nat)
    requires i < |s.hdus|
  {
    2880 * (BlocksAfter(s.hdus[i], cards) - s.hdus[i].blocks)
  }

  lemma HeaderEditedDisk(s: FileState, i: nat, cards: seq<string>)
    requires i < |s.hdus| && i < |s.cards| && s.hdus[i].data <= |s.disk|
    ensures var blocks := BlocksAfter(s.hdus[i], cards);
      && s.hdus[i].blocks <= blocks && |cards| <= 36 * blocks
      && HeaderEdited(s, i, cards).disk == EditedDisk(s.disk, s.hdus[i], cards, blocks)
      && HeaderGrowth(s, i, cards) == 2880 * (blocks - s.hdus[i].blocks)
  {
    HeaderFits(cards, BlocksAfter(s.hdus[i], cards));
    hide EditedDisk, BlocksFor, GrownHeader;
  }

  lemma HeaderEditCarries(s: FileState, i: nat, cards: seq<string>, j: nat)
    requires Sound(s) && i < |s.hdus| && j < |s.hdus| && i < |s.cards| && s.hdus[i].data <= |s.disk|
    ensures j != i ==> OwnCarried(s, HeaderEdited(s, i, cards), i, HeaderGrowth(s, i, cards), j)
    ensures j == i && i < |s.sizes| ==>
      Carried(s.disk, HeaderEdited(s, i, cards).disk, s.hdus[i].data, OwnEnd(s, i), HeaderGrowth(s, i, cards))
  {
    SoundAt(s, i);
    SoundAt(s, j);
    hide Sound, OwnEnd, HeaderOnDisk, Carried, EditedDisk, HeaderEdited, BlocksAfter, HeaderGrowth, EndOf;
    var h, blocks := s.hdus[i], BlocksAfter(s.hdus[i], cards);
    HeaderEditedDisk(s, i, cards);
    HeaderPlace(s.disk, h, s.cards[i]);
    if j == i {
      BackCarries(s.disk, h, cards, blocks, h.data, OwnEnd(s, i), HeaderGrowth(s, i, cards));
    } else if j < i {
      SoundOrder(s, j, i);
      FrontCarries(s.disk, h, cards, blocks, s.hdus[j].header, OwnEnd(s, j));
    } else {
      SoundOrder(s, i, j);
      BackCarries(s.disk, h, cards, blocks, s.hdus[j].header, OwnEnd(s, j), HeaderGrowth(s, i, cards));
    }
  }

  lemma HeaderEditStaysSound(s: FileState, i: nat, cards: seq<string>)
    requires Sound(s) && i < |s.hdus|
    ensures i < |s.cards| && s.hdus[i].data <= |s.disk|
    ensures var s' := HeaderEdited(s, i, cards);
      Sound(s') && |s'.hdus| == |s'.sizes| && |s.hdus| == |s.sizes| && Slack(s') == Slack(s)
  {
    HeaderEditMoves(s, i, cards);
    hide Sound, HeaderEdited, BlocksAfter, HeaderOnDisk, OwnEnd, OwnCarried, Slack;
    var s', delta := HeaderEdited(s, i, cards), HeaderGrowth(s, i, cards);
    forall j | 0 <= j < |s.hdus| && j != i ensures OwnCarried(s, s', i, delta, j) {
      HeaderEditCarries(s, i, cards, j);
    }
    EditStaysSound(s, s', i, delta);
  }

  // ----- changes of data extent -----

  lemma ResizedDiskCarries(disk: seq<byte>, data: nat, was: nat, now: nat, lo: nat, hi: nat)
    requires data + was <= |disk| && lo <= hi <= |disk|
    ensures |ResizedDisk(disk, data, was, now)| == |disk| + now - was
    ensures hi <= data + Min(was, now) ==> Carried(disk, ResizedDisk(disk, data, was, now), lo, hi, 0)
    ensures lo >= data + was ==> Carried(disk, ResizedDisk(disk, data, was, now), lo, hi, now - was)
  {
    hide Inserted, Removed, Carried;
    if now >= was {
      InsertedCarries(disk, data + was, Zeros(now - was), lo, hi);
    } else {
      RemovedCarries(disk, data + was, was - now, lo, hi);
    }
  }

  lemma ResizeMoves(s: FileState, i: nat, size: nat)
    requires Sound(s) && i < |s.hdus|
    ensures |s.hdus| == |s.cards| == |s.sizes| && Resizable(s, i)
    ensures var was, now := RoundUpToBlock(s.sizes[i]), RoundUpToBlock(size);
      Movable(s.hdus, s.hdus[i].data + was, now - was)
    ensures var s', delta := DataResized(s, i, size), RoundUpToBlock(size) - RoundUpToBlock(s.sizes[i]);
      && Displaced(s, s', i, delta) && OwnEnd(s', i) == OwnEnd(s, i) + delta && s'.cards == s.cards
      && s'.hdus[i] == s.hdus[i]
  {
    SoundAt(s, i);
    var was, now := RoundUpToBlock(s.sizes[i]), RoundUpToBlock(size);
    ResizedDiskCarries(s.disk, s.hdus[i].data, was, now, 0, 0);
    hide Sound, ResizedDisk, RoundUpToBlock, HeaderOnDisk, EndOf, Carried;
    forall j | 0 <= j < |s.hdus|
      ensures s.hdus[j].header >= s.hdus[i].data + was <==> j > i
      ensures s.hdus[j].data > s.hdus[j].header
    {
      MovesThoseBehind(s, i, s.hdus[i].data + was, j);
    }
  }

  lemma ResizeCarries(s: FileState, i: nat, size: nat, j: nat)
    requires Sound(s) && i < |s.hdus| && j < |s.hdus| && Resizable(s, i)
    ensures var s', delta := DataResized(s, i, size), RoundUpToBlock(size) - RoundUpToBlock(s.sizes[i]);
      && (j != i ==> OwnCarried(s, s', i, delta, j))
      && (j == i ==> Carried(s.disk, s'.disk, s.hdus[i].header, s.hdus[i].data, 0))
  {
    SoundAt(s, i);
    SoundAt(s, j);
    MovesThoseBehind(s, i, OwnEnd(s, i), j);
    hide Sound, ResizedDisk, RoundUpToBlock, HeaderOnDisk, EndOf, Carried, ResizedHdus;
    var was, now := RoundUpToBlock(s.sizes[i]), RoundUpToBlock(size);
    ResizedDiskCarries(s.disk, s.hdus[i].data, was, now, s.hdus[j].header,
                       if j == i then s.hdus[i].data else OwnEnd(s, j));
  }

  lemma ResizeStaysSound(s: FileState, i: nat, size: nat)
    requires Sound(s) && i < |s.hdus|
    ensures Resizable(s, i)
    ensures var s' := DataResized(s, i, size);
      Sound(s') && |s'.hdus| == |s'.sizes| && |s.hdus| == |s.sizes| && Slack(s') == Slack(s)
  {
    SoundAt(s, i);
    ResizeMoves(s, i, size);
    hide Sound, DataResized, HeaderOnDisk, OwnEnd, OwnCarried, Slack, RoundUpToBlock, Resizable;
    var s', delta := DataResized(s, i, size), RoundUpToBlock(size) - RoundUpToBlock(s.sizes[i]);
    forall j | 0 <= j < |s.hdus| && j != i ensures OwnCarried(s, s', i, delta, j) {
      ResizeCarries(s, i, size, j);
    }
    ResizeCarries(s, i, size, i);
    SameHeaderOnDisk(s.disk, s'.disk, s.hdus[i], s.cards[i]);
    EditStaysSound(s, s', i, delta);
  }

  lemma SameHeaderOnDisk(disk: seq<byte>, disk': seq<byte>, h: Extent, cards: seq<string>)
    requires HeaderOnDisk(disk, h, cards) && h.header <= h.data && Carried(disk, disk', h.header, h.data, 0)
    ensures HeaderOnDisk(disk', h, cards)
  {
    hide HeaderImage;
  }

  // ----- appends -----

  // Bytes behind the last HDU, declared or not, harm no HDU before them.
  lemma LongerFileSound(s: FileState, s': FileState, j: nat)
    requires Sound(s) && j < |s.hdus| && s.disk <= s'.disk && s.hdus <= s'.hdus && s.cards <= s'.cards
    requires s.sizes <= s'.sizes && |s'.hdus| == |s'.cards| == |s'.sizes|
    requires |s'.hdus| > |s.hdus| ==> s'.hdus[|s.hdus|].header >= |s.disk|
    ensures HduSound(s', j) && j < |s.sizes| && s.hdus[j].header <= OwnEnd(s, j)
    ensures OwnEnd(s', j) == OwnEnd(s, j) && Carried(s.disk, s'.disk, s.hdus[j].header, OwnEnd(s, j), 0)
  {
    SoundAt(s, j);
    hide Sound, RoundUpToBlock, HeaderImage;
    var h, end := s.hdus[j], OwnEnd(s, j);
    assert s'.disk[..|s.disk|] == s.disk;
    SliceOfSlice(s'.disk, 0, |s.disk|, h.header, end);
    assert s'.disk[h.header..end] == s.disk[h.header..end];
    CarriedPart(s.disk, s'.disk, h.header, end, 0, h.header, h.data);
    if j + 1 < |s.hdus| {
      assert s'.hdus[j + 1] == s.hdus[j + 1];
    }
  }

  lemma {:induction false} DeclaredPrefix(hdus: seq<Extent>, sizes: seq<nat>, hdus': seq<Extent>, sizes': seq<nat>,
                                          n: nat)
    requires n <= |hdus| && n <= |sizes| && hdus <= hdus' && sizes <= sizes'
    ensures Declared(hdus', sizes', n) == Declared(hdus, sizes, n)
  {
    if n > 0 {
      DeclaredPrefix(hdus, sizes, hdus', sizes', n - 1);
    }
  }

  lemma AppendStaysSound(s: FileState, cards: seq<string>, size: nat)
    requires Sound(s) && FullCards(cards)
    ensures var s' := Appended(s, cards, size);
      Sound(s') && |s'.hdus| == |s'.sizes| && |s.hdus| == |s.sizes| && Slack(s') == Slack(s)
  {
    SoundLengths(s);
    var s', n := Appended(s, cards, size), |s.hdus|;
    NewHduLaidOut(cards, size);
    NewHduOk(s.disk, s.hdus, cards, size);
    hide Sound, NewHdu, TrimmedAll, BlocksFor, RoundUpToBlock, HeaderOnDisk, Aligned, HeaderImage;
    forall j | 0 <= j < |s'.hdus| ensures HduSound(s', j) {
      if j < n {
        LongerFileSound(s, s', j);
      }
    }
    AllSound(s');
    DeclaredPrefix(s.hdus, s.sizes, s'.hdus, s'.sizes, n);
    DeclaredNext(s'.hdus, s'.sizes, n);
  }

  // An append that failed partway: stray bytes past the old end of the file,
  // and nothing says so.
  predicate TornAppend(s: FileState, s': FileState) {
    s.disk <= s'.disk && s' == s.(disk := s'.disk)
  }

  lemma TornStaysSound(s: FileState, s': FileState)
    requires Sound(s) && TornAppend(s, s')
    ensures Sound(s') && |s'.hdus| == |s'.sizes| && |s.hdus| == |s.sizes|
    ensures Slack(s') == Slack(s) + |s'.disk| - |s.disk|
  {
    SoundLengths(s);
    hide Sound, RoundUpToBlock, HeaderImage, HduSound, Carried;
    forall j | 0 <= j < |s'.hdus| ensures HduSound(s', j) {
      LongerFileSound(s, s', j);
    }
    AllSound(s');
  }

  // ===== runs =====

  // A failure after the first byte has moved: the taint flag is set, and the
  // in-memory cards are as they were.
  predicate Lost(s: FileState, s': FileState) {
    s'.tainted && |s'.hdus| == |s.hdus| && s'.cards == s.cards && s'.sizes == s.sizes
  }

  // One call.  An append may fail partway and leave bytes behind.  A tainted
  // file refuses edits; an edit may also fail before it has changed anything.
  predicate Next(s: FileState, op: Op, s': FileState) {
    match op
    case Append(cards, size) =>
      FullCards(cards) && (s' == Appended(s, cards, size) || TornAppend(s, s'))
    case EditHeader(i, cards) =>
      || s' == s
      || (!s.tainted && Lost(s, s'))
      || (!s.tainted && i < |s.hdus| && i < |s.cards| && s.hdus[i].data <= |s.disk| && s' == HeaderEdited(s, i, cards))
    case ResizeData(i, size) =>
      || s' == s
      || (!s.tainted && Lost(s, s'))
      || (!s.tainted && Resizable(s, i) && s' == DataResized(s, i, size))
  }

  predicate Run(trace: seq<FileState>, ops: seq<Op>) {
    |trace| == |ops| + 1 && forall k :: 0 <= k < |ops| ==> Next(trace[k], ops[k], trace[k + 1])
  }

  // The bytes a call leaves in the file without a record: those of an append
  // that has not added one.
  function LeftBehind(s: FileState, op: Op, s': FileState): (n: int) {
    if op.Append? && |s'.hdus| == |s.hdus| then |s'.disk| - |s.disk| else 0
  }

  function StrayBytes(trace: seq<FileState>, ops: seq<Op>, k: nat): (n: int)
    requires k <= |ops| < |trace|
  {
    if k == 0 then 0
    else StrayBytes(trace, ops, k - 1) + LeftBehind(trace[k - 1], ops[k - 1], trace[k])
  }

  lemma NothingTaken(s: FileState, op: Op, s': FileState)
    requires Next(s, op, s')
    ensures LeftBehind(s, op, s') >= 0
  {
    hide FullCards, NewHdu, BlocksFor, TrimmedAll, HeaderEdited, DataResized, Resizable;
  }

  lemma {:induction false} StrayBytesGrow(trace: seq<FileState>, ops: seq<Op>, j: nat, k: nat)
    requires Run(trace, ops) && j <= k < |trace|
    ensures 0 <= StrayBytes(trace, ops, j) <= StrayBytes(trace, ops, k)
  {
    hide Next, LeftBehind;
    if k > 0 {
      NothingTaken(trace[k - 1], ops[k - 1], trace[k]);
      StrayBytesGrow(trace, ops, if j < k then j else k - 1, k - 1);
    }
  }

  predicate Good(s: FileState) {
    !s.tainted ==> Sound(s)
  }

  lemma NextStaysGood(s: FileState, op: Op, s': FileState)
    requires Good(s) && Next(s, op, s')
    ensures Good(s')
    ensures s.tainted ==> s'.tainted
    ensures !s'.tainted ==>
      |s.hdus| == |s.sizes| && |s'.hdus| == |s'.sizes| && Slack(s') == Slack(s) + LeftBehind(s, op, s')
  {
    hide Sound, HeaderEdited, DataResized, RoundUpToBlock, Slack;
    if !s.tainted {
      SoundLengths(s);
      match op
      case Append(cards, size) =>
        if s' == Appended(s, cards, size) {
          AppendStaysSound(s, cards, size);
        } else {
          TornStaysSound(s, s');
        }
      case EditHeader(i, cards) =>
        if i < |s.hdus| { HeaderEditStaysSound(s, i, cards); }
      case ResizeData(i, size) =>
        if i < |s.hdus| { ResizeStaysSound(s, i, size); }
    }
  }

  // A taint is never cleared: only reopening the file does.
  lemma {:induction false} TaintIsForever(trace: seq<FileState>, ops: seq<Op>, j: nat, k: nat)
    requires Run(trace, ops) && j <= k < |trace| && trace[j].tainted
    ensures trace[k].tainted
  {
    if j < k {
      TaintIsForever(trace, ops, j, k - 1);
      assert Next(trace[k - 1], ops[k - 1], trace[k]);
    }
  }

  // In every run, for as long as the file is not tainted, every header is in
  // place and the bytes no header declares are those that failed appends left.
  lemma {:induction false} RunStaysSound(trace: seq<FileState>, ops: seq<Op>, k: nat)
    requires Run(trace, ops) && k < |trace| && Good(trace[0]) && !trace[k].tainted
    ensures Sound(trace[k]) && |trace[k].hdus| == |trace[k].sizes| && |trace[0].hdus| == |trace[0].sizes|
    ensures Slack(trace[k]) == Slack(trace[0]) + StrayBytes(trace, ops, k)
  {
    hide Sound, Next, Slack, LeftBehind;
    if k > 0 {
      if trace[k - 1].tainted {
        TaintIsForever(trace, ops, k - 1, k);
      }
      RunStaysSound(trace, ops, k - 1);
      NextStaysGood(trace[k - 1], ops[k - 1], trace[k]);
    } else {
      SoundLengths(trace[0]);
    }
  }

  // ... so the file is consistent exactly while no failed append has left a
  // byte, whatever else fails.
  lemma RunConsistentIff(trace: seq<FileState>, ops: seq<Op>, k: nat)
    requires Run(trace, ops) && k < |trace| && Consistent(trace[0]) && !trace[k].tainted
    ensures Consistent(trace[k]) <==> StrayBytes(trace, ops, k) == 0
  {
    hide Sound, Next, Slack, Consistent, StrayBytes;
    ConsistentIsSound(trace[0]);
    RunStaysSound(trace, ops, k);
    ConsistentIffNoSlack(trace[0]);
    ConsistentIffNoSlack(trace[k]);
  }

  // The file after a failed append, and after the next append that works, is
  // consistent exactly when the failed one had written nothing.
  lemma TornAppendIsFelt(s: FileState, s': FileState, cards: seq<string>, size: nat)
    requires Consistent(s) && TornAppend(s, s') && FullCards(cards)
    ensures Consistent(s') <==> s'.disk == s.disk
    ensures Consistent(Appended(s', cards, size)) <==> s'.disk == s.disk
  {
    ConsistentIsSound(s);
    TornStaysSound(s, s');
    AppendStaysSound(s', cards, size);
    hide Sound, Slack, Consistent, Appended;
    ConsistentIffNoSlack(s);
    ConsistentIffNoSlack(s');
    ConsistentIffNoSlack(Appended(s', cards, size));
  }

  // The cards in memory change only by a call that succeeds, and then to the
  // cards it was given.
  lemma FailedEditKeepsCards(s: FileState, i: nat, cards: seq<string>, s': FileState)
    requires Next(s, EditHeader(i, cards), s') && s'.cards != s.cards
    ensures !s.tainted && i < |s.hdus| && i < |s.cards| && s'.cards == s.cards[i := cards]
    ensures Good(s) ==> Sound(s') && HeaderOnDisk(s'.disk, s'.hdus[i], cards)
  {
    hide Sound, HeaderOnDisk;
    assert s' == HeaderEdited(s, i, cards);
    if Sound(s) {
      HeaderEditStaysSound(s, i, cards);
      SoundAt(s', i);
    }
  }

  // ----- what an HDU keeps -----

  function OwnBytes(s: FileState, j: nat): (bytes: seq<byte>)
    requires j < |s.hdus| && j < |s.sizes| && s.hdus[j].header <= OwnEnd(s, j) <= |s.disk|
  {
    s.disk[s.hdus[j].header..OwnEnd(s, j)]
  }

  function OwnData(s: FileState, j: nat): (bytes: seq<byte>)
    requires j < |s.hdus| && j < |s.sizes| && OwnEnd(s, j) <= |s.disk|
  {
    s.disk[s.hdus[j].data..OwnEnd(s, j)]
  }

  // HDU j reads the same in both states: its cards, its blocks, its bytes.
  predicate ReadsSame(s: FileState, s': FileState, j: nat) {
    && j < |s.hdus| && j < |s'.hdus| && j < |s.cards| && j < |s'.cards| && j < |s.sizes| && j < |s'.sizes|
    && s'.cards[j] == s.cards[j] && s'.hdus[j].blocks == s.hdus[j].blocks && s'.sizes[j] == s.sizes[j]
    && s.hdus[j].header <= OwnEnd(s, j) <= |s.disk|
    && s'.hdus[j].header <= OwnEnd(s', j) <= |s'.disk|
    && OwnBytes(s', j) == OwnBytes(s, j)
  }

  // HDU j's data section reads the same in both states.
  predicate DataSame(s: FileState, s': FileState, j: nat) {
    && j < |s.hdus| && j < |s'.hdus| && j < |s.sizes| && j < |s'.sizes| && s'.sizes[j] == s.sizes[j]
    && OwnEnd(s, j) <= |s.disk| && OwnEnd(s', j) <= |s'.disk|
    && OwnData(s', j) == OwnData(s, j)
  }

  predicate Edits(op: Op, j: nat) {
    !op.Append? && op.i == j
  }

  predicate Resizes(op: Op, j: nat) {
    op.ResizeData? && op.i == j
  }

  lemma CarriedReadsSame(s: FileState, s': FileState, j: nat, d: int)
    requires Sound(s) && j < |s.hdus| && j < |s'.hdus| && j < |s.cards| && j < |s'.cards|
    requires j < |s.sizes| && j < |s'.sizes| && s.hdus[j].header <= OwnEnd(s, j)
    requires Carried(s.disk, s'.disk, s.hdus[j].header, OwnEnd(s, j), d)
    requires s'.hdus[j].header == s.hdus[j].header + d && s'.hdus[j].data == s.hdus[j].data + d
    requires s'.cards[j] == s.cards[j] && s'.sizes[j] == s.sizes[j] && s'.hdus[j].blocks == s.hdus[j].blocks
    ensures ReadsSame(s, s', j) && DataSame(s, s', j)
  {
    SoundAt(s, j);
    OwnEndMoves(s, s', j, d);
    hide Sound, OwnEnd, HeaderOnDisk, EndOf, DataSame, Span, Carried;
    CarriedPart(s.disk, s'.disk, s.hdus[j].header, OwnEnd(s, j), d, s.hdus[j].data, OwnEnd(s, j));
    CarriedData(s, s', j, d);
    CarriedBytes(s.disk, s'.disk, s.hdus[j].header, OwnEnd(s, j), d);
  }

  lemma OwnEndMoves(s: FileState, s': FileState, j: nat, d: int)
    requires j < |s.hdus| && j < |s'.hdus| && j < |s.sizes| && j < |s'.sizes|
    requires s'.hdus[j].data == s.hdus[j].data + d && s'.sizes[j] == s.sizes[j]
    ensures OwnEnd(s', j) == OwnEnd(s, j) + d
  {
    hide RoundUpToBlock;
  }

  lemma CarriedBytes(disk: seq<byte>, disk': seq<byte>, lo: nat, hi: nat, d: int)
    requires Carried(disk, disk', lo, hi, d)
    ensures lo <= hi <= |disk| && 0 <= lo + d && hi + d <= |disk'| && disk'[lo + d..hi + d] == disk[lo..hi]
  {
  }

  // A data section carried with its record reads the same.
  lemma CarriedData(s: FileState, s': FileState, j: nat, d: int)
    requires j < |s.hdus| && j < |s'.hdus| && j < |s.sizes| && j < |s'.sizes| && s'.sizes[j] == s.sizes[j]
    requires s'.hdus[j].data == s.hdus[j].data + d && OwnEnd(s', j) == OwnEnd(s, j) + d
    requires Carried(s.disk, s'.disk, s.hdus[j].data, OwnEnd(s, j), d)
    ensures DataSame(s, s', j)
  {
    hide OwnEnd;
  }

  lemma DisplacedReadsSame(s: FileState, s': FileState, i: nat, delta: int, j: nat)
    requires Sound(s) && Displaced(s, s', i, delta) && j != i && OwnCarried(s, s', i, delta, j)
    ensures ReadsSame(s, s', j) && DataSame(s, s', j)
  {
    hide Sound, OwnEnd, Carried, ReadsSame, DataSame;
    RecordAt(s, s', i, delta, j);
    CarriedReadsSame(s, s', j, Drift(i, delta, j));
  }

  lemma LongerFileReadsSame(s: FileState, s': FileState, j: nat)
    requires Sound(s) && j < |s.hdus| && s.disk <= s'.disk && s.hdus <= s'.hdus && s.cards <= s'.cards
    requires s.sizes <= s'.sizes && |s'.hdus| == |s'.cards| == |s'.sizes|
    requires |s'.hdus| > |s.hdus| ==> s'.hdus[|s.hdus|].header >= |s.disk|
    ensures ReadsSame(s, s', j) && DataSame(s, s', j)
  {
    SoundLengths(s);
    LongerFileSound(s, s', j);
    hide Sound, OwnEnd, Carried, ReadsSame, DataSame, HduSound;
    CarriedReadsSame(s, s', j, 0);
  }

  lemma EditLeavesHdu(s: FileState, i: nat, cards: seq<string>, j: nat)
    requires Sound(s) && i < |s.hdus| && j < |s.hdus| && i < |s.cards| && s.hdus[i].data <= |s.disk|
    ensures var s' := HeaderEdited(s, i, cards); (i != j ==> ReadsSame(s, s', j)) && DataSame(s, s', j)
  {
    hide Sound, HeaderEdited, HeaderGrowth, ReadsSame, DataSame, HeaderOnDisk, OwnCarried, OwnEnd, Carried;
    HeaderEditMoves(s, i, cards);
    HeaderEditCarries(s, i, cards, j);
    var s', delta := HeaderEdited(s, i, cards), HeaderGrowth(s, i, cards);
    if i != j {
      DisplacedReadsSame(s, s', i, delta, j);
    } else {
      CarriedData(s, s', i, delta);
    }
  }

  lemma ResizeLeavesHdu(s: FileState, i: nat, size: nat, j: nat)
    requires Sound(s) && i < |s.hdus| && j < |s.hdus| && i != j
    ensures Resizable(s, i)
    ensures ReadsSame(s, DataResized(s, i, size), j) && DataSame(s, DataResized(s, i, size), j)
  {
    ResizeMoves(s, i, size);
    ResizeCarries(s, i, size, j);
    hide Sound, DataResized, ReadsSame, DataSame, OwnCarried, RoundUpToBlock, Displaced, OwnEnd, Resizable;
    DisplacedReadsSame(s, DataResized(s, i, size), i, RoundUpToBlock(size) - RoundUpToBlock(s.sizes[i]), j);
  }

  lemma StepLeavesHdu(s: FileState, op: Op, s': FileState, j: nat)
    requires Good(s) && Next(s, op, s') && !s'.tainted && j < |s.hdus|
    ensures |s.hdus| <= |s'.hdus|
    ensures !Edits(op, j) ==> ReadsSame(s, s', j)
    ensures !Resizes(op, j) ==> DataSame(s, s', j)
  {
    hide Sound, HeaderEdited, DataResized, ReadsSame, DataSame, RoundUpToBlock, Resizable, NewHdu, BlocksFor;
    SoundLengths(s);
    match op
    case Append(cards, size) =>
      LongerFileReadsSame(s, s', j);
    case EditHeader(i, cards) =>
      if s' == s {
        LongerFileReadsSame(s, s', j);
      } else {
        HeaderEditMoves(s, i, cards);
        EditLeavesHdu(s, i, cards, j);
      }
    case ResizeData(i, size) =>
      if s' == s {
        LongerFileReadsSame(s, s', j);
      } else {
        ResizableHere(s, i);
        ResizeMoves(s, i, size);
        if i != j { ResizeLeavesHdu(s, i, size, j); }
      }
  }

  lemma ResizableHere(s: FileState, i: nat)
    requires Resizable(s, i)
    ensures i < |s.hdus|
  {
  }

  lemma SameTransitive(s0: FileState, s1: FileState, s2: FileState, j: nat)
    ensures ReadsSame(s0, s1, j) && ReadsSame(s1, s2, j) ==> ReadsSame(s0, s2, j)
    ensures DataSame(s0, s1, j) && DataSame(s1, s2, j) ==> DataSame(s0, s2, j)
  {
    hide OwnEnd;
  }

  predicate NoneEdits(ops: seq<Op>, j: nat) {
    forall n :: 0 <= n < |ops| ==> !Edits(ops[n], j)
  }

  predicate NoneResizes(ops: seq<Op>, j: nat) {
    forall n :: 0 <= n < |ops| ==> !Resizes(ops[n], j)
  }

  lemma LastStep(trace: seq<FileState>, ops: seq<Op>, k: nat, j: nat)
    requires Run(trace, ops) && 0 < k < |trace| && Good(trace[0]) && !trace[k].tainted
    ensures |trace| == |ops| + 1 && !trace[k - 1].tainted
    ensures Good(trace[k - 1]) && Next(trace[k - 1], ops[k - 1], trace[k])
    ensures NoneEdits(ops, j) ==> !Edits(ops[k - 1], j)
    ensures NoneResizes(ops, j) ==> !Resizes(ops[k - 1], j)
  {
    if trace[k - 1].tainted {
      TaintIsForever(trace, ops, k - 1, k);
    }
    RunStaysSound(trace, ops, k - 1);
    hide Sound, Next;
  }

  lemma FirstState(trace: seq<FileState>, ops: seq<Op>, j: nat)
    requires Run(trace, ops) && Good(trace[0]) && !trace[0].tainted && j < |trace[0].hdus|
    ensures ReadsSame(trace[0], trace[0], j) && DataSame(trace[0], trace[0], j)
  {
    hide Sound, Next, ReadsSame, DataSame;
    SoundLengths(trace[0]);
    LongerFileReadsSame(trace[0], trace[0], j);
  }

  // Over any run, torn appends and all, an HDU that no call edits keeps its
  // cards and every one of its bytes for as long as the file is untainted,
  // wherever the others' growth has moved it.
  lemma {:induction false} RunLeavesUneditedHdu(trace: seq<FileState>, ops: seq<Op>, j: nat, k: nat)
    requires Run(trace, ops) && k < |trace| && Good(trace[0]) && !trace[k].tainted
    requires j < |trace[0].hdus| && NoneEdits(ops, j)
    ensures |trace[0].hdus| <= |trace[k].hdus| && ReadsSame(trace[0], trace[k], j)
  {
    hide *;
    if k == 0 {
      FirstState(trace, ops, j);
    } else {
      LastStep(trace, ops, k, j);
      RunLeavesUneditedHdu(trace, ops, j, k - 1);
      StepLeavesHdu(trace[k - 1], ops[k - 1], trace[k], j);
      SameTransitive(trace[0], trace[k - 1], trace[k], j);
    }
  }

  // Likewise an HDU's data section changes only by its own resizes: header
  // edits, its own included, leave it alone.
  lemma {:induction false} RunLeavesData(trace: seq<FileState>, ops: seq<Op>, j: nat, k: nat)
    requires Run(trace, ops) && k < |trace| && Good(trace[0]) && !trace[k].tainted
    requires j < |trace[0].hdus| && NoneResizes(ops, j)
    ensures |trace[0].hdus| <= |trace[k].hdus| && DataSame(trace[0], trace[k], j)
  {
    hide *;
    if k == 0 {
      FirstState(trace, ops, j);
    } else {
      LastStep(trace, ops, k, j);
      RunLeavesData(trace, ops, j, k - 1);
      StepLeavesHdu(trace[k - 1], ops[k - 1], trace[k], j);
      SameTransitive(trace[0], trace[k - 1], trace[k], j);
    }
  }
}
