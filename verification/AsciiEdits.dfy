// insert_column and delete_column on the open file: the header rewritten, the
// data section grown or cut, the rows reshaped, and at last the cards in
// memory replaced.
module AsciiEdits {
  import opened FitsBytes
  import opened SliceMath
  import opened FileStorage
  import opened CardText
  import opened HeaderBlocks
  import opened LayoutModel
  import opened FileMoves
  import opened FileRuns
  import opened SoundRuns
  import opened FitsFiles
  import opened CardNumbers
  import opened AsciiRows
  import opened AsciiShuffles
  import opened AsciiCards
  import opened AsciiSchemas
  import opened AsciiCells

  // Row r of HDU i's table, rows w bytes wide.
  function TableRow(s: FileState, i: nat, w: nat, r: nat): (row: seq<byte>)
    requires i < |s.hdus|
  {
    RowBytes(s.disk, s.hdus[i].data, w, r)
  }

  // What an edit that went through leaves: a consistent file, every other HDU
  // byte for byte, the new cards, and each row reshaped.
  predicate TableEdited(s: FileState, i: nat, cards: seq<string>, edit: Edit, n: nat, w: nat, s': FileState) {
    && Consistent(s') && !s'.tainted && i < |s.hdus| == |s'.hdus| == |s.cards| == |s.sizes|
    && KeepsOthers(s.disk, s.hdus, s'.disk, s'.hdus, i)
    && s'.cards == s.cards[i := cards] && s'.sizes == s.sizes[i := RowStart(0, NewWidth(edit, w), n)]
    && forall r :: 0 <= r < n ==> TableRow(s', i, NewWidth(edit, w), r) == EditedRow(edit, r, TableRow(s, i, w, r))
  }

  // ----- rows that move with their section -----

  lemma SameRows(a: seq<byte>, p: nat, b: seq<byte>, q: nat, w: nat, n: nat, r: nat)
    requires p + RowStart(0, w, n) <= |a| && q + RowStart(0, w, n) <= |b| && r < n
    requires a[p..p + RowStart(0, w, n)] == b[q..q + RowStart(0, w, n)]
    ensures RowBytes(a, p, w, r) == RowBytes(b, q, w, r)
  {
    hide RowStart, RowBytes, BufferRow;
    RowsFrom(p, w, n);
    RowsFrom(q, w, n);
    StripRow(a, p, w, 0, n, r);
    StripRow(b, q, w, 0, n, r);
  }

  lemma RowsFrom(p: nat, w: nat, n: nat)
    ensures RowStart(p, w, 0) == p && RowStart(p, w, n) == p + RowStart(0, w, n)
  {
    RowsGrow(p, w, 0, n);
  }

  // A header edit carries the rows along.
  lemma HeaderKeepsRows(s: FileState, i: nat, cards: seq<string>, w: nat, n: nat, r: nat)
    requires Consistent(s) && i < |s.hdus| && s.sizes[i] == RowStart(0, w, n) && r < n
    ensures s.hdus[i].data <= |s.disk| && |HeaderEdited(s, i, cards).hdus| == |s.hdus|
    ensures TableRow(HeaderEdited(s, i, cards), i, w, r) == TableRow(s, i, w, r)
  {
    HeaderEditStaysConsistent(s, i, cards);
    HduAt(s, i);
    PaddedSize(s.sizes[i]);
    hide HeaderEdited, Consistent, ValidLayout, RowStart, RowBytes, RoundUpToBlock, HeaderOnDisk;
    hide HeaderEditKeeps, EndOf;
    var s1 := HeaderEdited(s, i, cards);
    KeptData(s.disk, s.hdus, s1.disk, s1.hdus, i, RowStart(0, w, n));
    SameRows(s1.disk, s1.hdus[i].data, s.disk, s.hdus[i].data, w, n, r);
  }

  lemma KeptData(disk: seq<byte>, hdus: seq<Extent>, disk': seq<byte>, hdus': seq<Extent>, i: nat, had: nat)
    requires HeaderEditKeeps(disk, hdus, disk', hdus', i) && hdus[i].data + had <= EndOf(|disk|, hdus, i)
    ensures |hdus'| == |hdus| && hdus[i].data + had <= |disk| && hdus'[i].data + had <= |disk'|
    ensures disk'[hdus'[i].data..hdus'[i].data + had] == disk[hdus[i].data..hdus[i].data + had]
  {
    HeaderEditDataSize(disk, hdus, disk', hdus', i);
    hide ValidLayout, KeepsOthers, EndOf;
    PrefixSame(disk, hdus[i].data, disk', hdus'[i].data, EndOf(|disk|, hdus, i) - hdus[i].data, had);
  }

  lemma PaddedSize(n: nat)
    ensures RoundUpToBlock(n) >= n
  {
  }

  lemma PrefixSame(a: seq<byte>, p: nat, b: seq<byte>, q: nat, len: nat, had: nat)
    requires p + len <= |a| && q + len <= |b| && a[p..p + len] == b[q..q + len] && had <= len
    ensures a[p..p + had] == b[q..q + had]
  {
    SliceOfSlice(a, p, p + len, 0, had);
    SliceOfSlice(b, q, q + len, 0, had);
  }

  // So does a change of the data section's size, for the rows that stay
  // inside it.
  lemma ResizeKeepsRows(s: FileState, i: nat, size: nat, w: nat, n: nat, r: nat)
    requires Consistent(s) && i < |s.hdus| && r < n && RowStart(0, w, n) <= size && RowStart(0, w, n) <= s.sizes[i]
    ensures Resizable(s, i) && |DataResized(s, i, size).hdus| == |s.hdus|
    ensures TableRow(DataResized(s, i, size), i, w, r) == TableRow(s, i, w, r)
  {
    ResizeStaysConsistent(s, i, size);
    HduAt(s, i);
    PaddedSize(s.sizes[i]);
    PaddedSize(size);
    var s1 := DataResized(s, i, size);
    HduAt(s1, i);
    assert s1.sizes[i] == size;
    hide DataResized, Consistent, ValidLayout, RowStart, RowBytes, RoundUpToBlock, HeaderOnDisk, KeepsOthers;
    hide EndOf, Resizable;
    ResizedPrefix(s.disk, s.hdus, s1.disk, s1.hdus, i, RoundUpToBlock(s.sizes[i]), RoundUpToBlock(size),
                  RowStart(0, w, n));
    SameRows(s1.disk, s1.hdus[i].data, s.disk, s.hdus[i].data, w, n, r);
  }

  lemma ResizedPrefix(disk: seq<byte>, hdus: seq<Extent>, disk': seq<byte>, hdus': seq<Extent>, i: nat, was: nat,
                      now: nat, had: nat)
    requires ResizeKeeps(disk, hdus, disk', hdus', i, was, now) && hdus[i].header <= hdus[i].data
    requires EndOf(|disk|, hdus, i) == hdus[i].data + was && had <= was && had <= now
    ensures hdus'[i] == hdus[i] && hdus[i].data + had <= |disk'| && hdus[i].data + had <= |disk|
    ensures disk'[hdus[i].data..hdus[i].data + had] == disk[hdus[i].data..hdus[i].data + had]
  {
    hide ValidLayout, KeepsOthers, EndOf;
    var a, b := HduBytes(disk, hdus, i), HduBytes(disk', hdus', i);
    var lo := hdus[i].data - hdus[i].header;
    SliceOfSlice(disk, hdus[i].header, EndOf(|disk|, hdus, i), lo, lo + had);
    SliceOfSlice(disk', hdus[i].header, EndOf(|disk'|, hdus', i), lo, lo + had);
    ResizedFront(a, was, now, lo + had);
    SliceOfSlice(a, 0, lo + had, lo, lo + had);
    SliceOfSlice(b, 0, lo + had, lo, lo + had);
  }

  lemma ResizedFront(hdu: seq<byte>, was: nat, now: nat, k: nat)
    requires was <= |hdu| && k <= |hdu| && k + was <= |hdu| + now
    ensures k <= |ResizedHdu(hdu, was, now)| && ResizedHdu(hdu, was, now)[0..k] == hdu[0..k]
  {
  }

  // ----- rows reshaped inside the section -----

  // A shuffle writes inside the section only.
  lemma ShuffleStaysInside(s: FileState, i: nat, w: nat, edit: Edit, n: nat, disk: seq<byte>)
    requires Consistent(s) && i < |s.hdus| && RowStart(0, NewWidth(edit, w), n) <= s.sizes[i]
    requires Reshaped(s.disk, disk, s.hdus[i].data, w, edit, 0, n)
    ensures s.hdus[i].header < s.hdus[i].data <= EndOf(|s.disk|, s.hdus, i) <= |s.disk|
    ensures SameOutside(s.disk, disk, s.hdus[i].data, EndOf(|s.disk|, s.hdus, i))
  {
    hide Consistent, RowStart, RowBytes, EditedRow, RoundUpToBlock, EndOf, ValidLayout, HeaderOnDisk;
    HduAt(s, i);
    PaddedSize(s.sizes[i]);
    var lo, end := s.hdus[i].data, EndOf(|s.disk|, s.hdus, i);
    RowsFrom(lo, NewWidth(edit, w), n);
    var hi := RowStart(lo, NewWidth(edit, w), n);
    SlicesAgree(s.disk, disk, lo, hi, end);
  }

  lemma SlicesAgree(a: seq<byte>, b: seq<byte>, lo: nat, hi: nat, end: nat)
    requires |b| == |a| && lo <= hi <= end <= |a| && b[..lo] == a[..lo] && b[hi..] == a[hi..]
    ensures SameOutside(a, b, lo, end)
  {
    forall p | 0 <= p < |a| && !(lo <= p < end) ensures b[p] == a[p] {
      assert if p < lo then b[p] == b[..lo][p] && a[p] == a[..lo][p]
        else b[p] == b[hi..][p - hi] && a[p] == a[hi..][p - hi];
    }
  }

  // Such a write keeps the file consistent, and every other HDU.
  lemma WriteInsideKeeps(s: FileState, i: nat, disk: seq<byte>)
    requires Consistent(s) && i < |s.hdus|
    requires s.hdus[i].header < s.hdus[i].data <= EndOf(|s.disk|, s.hdus, i) <= |s.disk|
    requires SameOutside(s.disk, disk, s.hdus[i].data, EndOf(|s.disk|, s.hdus, i))
    ensures Consistent(s.(disk := disk)) && KeepsOthers(s.disk, s.hdus, disk, s.hdus, i)
  {
    HduAt(s, i);
    ChangedInside(s.disk, s.hdus, i, disk);
    hide ValidLayout, KeepsOthers, HeaderImage, RoundUpToBlock, EndOf, Consistent;
    var h := s.hdus[i];
    assert disk[h.header..h.data] == s.disk[h.header..h.data];
    HeaderUntouched(s, i, disk);
    AllOk(s, s.(disk := disk), i);
  }

  lemma HeaderUntouched(s: FileState, i: nat, disk: seq<byte>)
    requires Consistent(s) && i < |s.hdus| && |disk| == |s.disk| && s.hdus[i].header < s.hdus[i].data <= |s.disk|
    requires disk[s.hdus[i].header..s.hdus[i].data] == s.disk[s.hdus[i].header..s.hdus[i].data]
    ensures |s.hdus| == |s.cards| == |s.sizes| && HduOk(disk, s.hdus, i, s.cards[i], s.sizes[i])
  {
    HduAt(s, i);
    hide ValidLayout, HeaderImage, RoundUpToBlock, Consistent;
  }

  // ----- the stages of an insertion and of a deletion -----

  // Header, then room, then rows.
  lemma InsertionEdits(s: FileState, i: nat, cards: seq<string>, edit: Edit, n: nat, w: nat, disk: seq<byte>)
    requires Consistent(s) && !s.tainted && i < |s.hdus| && s.hdus[i].data <= |s.disk|
    requires |s.cards| == |s.sizes| == |s.hdus| && s.sizes[i] == RowStart(0, w, n)
    requires edit.InsertCells? && Suits(edit, n, w)
    requires var s1 := HeaderEdited(s, i, cards);
             && Resizable(s1, i) && i < |DataResized(s1, i, RowStart(0, NewWidth(edit, w), n)).hdus|
             && var s2 := DataResized(s1, i, RowStart(0, NewWidth(edit, w), n));
                Reshaped(s2.disk, disk, s2.hdus[i].data, w, edit, 0, n)
    ensures var s2 := DataResized(HeaderEdited(s, i, cards), i, RowStart(0, NewWidth(edit, w), n));
            TableEdited(s, i, cards, edit, n, w, s2.(disk := disk))
  {
    hide Consistent, KeepsOthers, ValidLayout, RowStart, RowBytes, EditedRow, EndOf, RoundUpToBlock;
    hide ResizedHdu, DataBytes;
    hide ResizedDisk, ResizedHdus, EditedDisk, GrownHeader, BlocksAfter, Reshaped, TableRow, HduBytes;
    var size := RowStart(0, NewWidth(edit, w), n);
    var s1, s2 := HeaderEdited(s, i, cards), DataResized(HeaderEdited(s, i, cards), i, size);
    HeaderEditStaysConsistent(s, i, cards);
    ResizeStaysConsistent(s1, i, size);
    ShuffleStaysInside(s2, i, w, edit, n, disk);
    WriteInsideKeeps(s2, i, disk);
    KeepsOthersTransitive(s.disk, s.hdus, s1.disk, s1.hdus, s2.disk, s2.hdus, i);
    KeepsOthersTransitive(s.disk, s.hdus, s2.disk, s2.hdus, disk, s2.hdus, i);
    forall r | 0 <= r < n
      ensures TableRow(s2.(disk := disk), i, NewWidth(edit, w), r) == EditedRow(edit, r, TableRow(s, i, w, r))
    {
      HeaderKeepsRows(s, i, cards, w, n, r);
      WiderRows(0, w, NewWidth(edit, w), n);
      ResizeKeepsRows(s1, i, size, w, n, r);
      ReshapedRow(s2, disk, i, w, edit, n, r);
    }
  }

  lemma ReshapedRow(s: FileState, disk: seq<byte>, i: nat, w: nat, edit: Edit, n: nat, r: nat)
    requires i < |s.hdus| && Reshaped(s.disk, disk, s.hdus[i].data, w, edit, 0, n) && r < n
    ensures TableRow(s.(disk := disk), i, NewWidth(edit, w), r) == EditedRow(edit, r, TableRow(s, i, w, r))
  {
    hide RowStart, RowBytes, EditedRow;
  }

  // Header, then rows, then the section is cut.
  lemma DeletionEdits(s: FileState, i: nat, cards: seq<string>, edit: Edit, n: nat, w: nat, disk: seq<byte>)
    requires Consistent(s) && !s.tainted && i < |s.hdus| && s.hdus[i].data <= |s.disk|
    requires |s.cards| == |s.sizes| == |s.hdus| && s.sizes[i] == RowStart(0, w, n)
    requires edit.DeleteBytes? && Suits(edit, n, w)
    requires var s1 := HeaderEdited(s, i, cards);
             && i < |s1.hdus| && Reshaped(s1.disk, disk, s1.hdus[i].data, w, edit, 0, n)
             && Resizable(s1.(disk := disk), i)
    ensures TableEdited(s, i, cards, edit, n, w,
                        DataResized(HeaderEdited(s, i, cards).(disk := disk), i, RowStart(0, NewWidth(edit, w), n)))
  {
    hide Consistent, KeepsOthers, ValidLayout, RowStart, RowBytes, EditedRow, EndOf, RoundUpToBlock;
    hide ResizedHdu, DataBytes;
    hide ResizedDisk, ResizedHdus, EditedDisk, GrownHeader, BlocksAfter, Reshaped, TableRow, HduBytes;
    var size := RowStart(0, NewWidth(edit, w), n);
    var s1 := HeaderEdited(s, i, cards);
    var s2 := s1.(disk := disk);
    var s3 := DataResized(s2, i, size);
    HeaderEditStaysConsistent(s, i, cards);
    WiderRows(0, NewWidth(edit, w), w, n);
    ShuffleStaysInside(s1, i, w, edit, n, disk);
    WriteInsideKeeps(s1, i, disk);
    ResizeStaysConsistent(s2, i, size);
    KeepsOthersTransitive(s.disk, s.hdus, s1.disk, s1.hdus, disk, s1.hdus, i);
    KeepsOthersTransitive(s.disk, s.hdus, disk, s1.hdus, s3.disk, s3.hdus, i);
    forall r | 0 <= r < n
      ensures TableRow(s3, i, NewWidth(edit, w), r) == EditedRow(edit, r, TableRow(s, i, w, r))
    {
      HeaderKeepsRows(s, i, cards, w, n, r);
      ReshapedRow(s1, disk, i, w, edit, n, r);
      ResizeKeepsRows(s2, i, size, NewWidth(edit, w), n, r);
    }
  }

  // ----- the two calls -----

  // HalfDone: an error is reported and the taint flag is clear, but the header
  // on disk is already the new one.
  datatype Outcome = Done | Refused | HalfDone | Tainted

  // What HalfDone leaves: in memory the old cards, on disk the new ones.
  predicate HeaderAhead(s: FileState, i: nat, cards: seq<string>, s': FileState) {
    && !s'.tainted && i < |s'.hdus| && s'.cards == s.cards && s'.sizes == s.sizes
    && HeaderOnDisk(s'.disk, s'.hdus[i], cards)
  }

  // A card list that is longer than another, and ends in ink, prints
  // differently.
  lemma LongerPrints(longer: seq<string>, shorter: seq<string>, blocks: nat)
    requires |shorter| < |longer| <= 36 * blocks && EndsInEnd(longer)
    ensures HeaderImage(longer, blocks) != HeaderImage(shorter, blocks)
  {
    var k := |longer| - 1;
    EndPrints(longer[k]);
    hide HeaderImage, CardBytes, BlankCard, IsEnd;
    CardOnDisk(longer, blocks, k);
    CardOnDisk(shorter, blocks, k);
  }

  lemma EndPrints(card: string)
    requires IsEnd(card)
    ensures CardBytes(card) != BlankCard()
  {
    TrimEndCuts(TrimStart(card[..3]));
    assert TrimStart(card[..3]) == card[..3];
    assert "END"[0] == 'E' && card[..3] == "END";
    assert CardBytes(card)[0] == 69 && BlankCard()[0] == 32;
  }

  // After HalfDone the file is not what its records say, whenever one of the
  // two headers is longer and ends in END.
  lemma HeaderAheadIsFelt(s: FileState, i: nat, cards: seq<string>, s': FileState)
    requires HeaderAhead(s, i, cards, s') && i < |s.cards|
    requires if |cards| < |s.cards[i]| then EndsInEnd(s.cards[i]) else |cards| > |s.cards[i]| && EndsInEnd(cards)
    ensures !Consistent(s')
  {
    hide Consistent, ValidLayout, HeaderImage, EndOf, IsEnd;
    if Consistent(s') {
      HduAt(s', i);
      if |cards| < |s.cards[i]| {
        LongerPrints(s.cards[i], cards, s'.hdus[i].blocks);
      } else {
        LongerPrints(cards, s.cards[i], s'.hdus[i].blocks);
      }
    }
  }

  // Which file an edit leaves: a consistent or tainted one, unless it is half
  // done.
  predicate Sane(s: FileState) {
    s.tainted || Consistent(s)
  }

  // The room for the rows' new width, once the header is out.
  method ChangeRoom(f: FitsFile, i: nat, was: nat, now: nat, ghost s1: FileState) returns (ok: bool)
    requires f.Valid() && !f.tainted && i < |f.layout| && Consistent(s1) && i < |s1.sizes|
    requires f.State() == s1.(cards := f.headers, sizes := f.sizes) && was == s1.sizes[i]
    modifies f`tainted, f.file, f.layout
    ensures f.Valid()
    ensures ok ==>
      Resizable(s1, i) && f.State() == DataResized(s1, i, now).(cards := old(f.headers), sizes := old(f.sizes))
    ensures !ok && !f.tainted ==> f.State() == old(f.State())
    ensures !f.file.mayFail ==> ok
  {
    ConsistentIsSound(s1);
    ResizeFacts(s1, i, now);
    hide Consistent, Sound, RoundUpToBlock, Movable, MovedAll, ResizedDisk, ResizedHdus;
    HduAt(s1, i);
    assert s1.hdus[i] == f.layout[i].Value();
    ok := f.ChangeExtent(i, RoundUpToBlock(was), RoundUpToBlock(now));
  }

  // The cards in memory replaced, last of all.
  method Commit(f: FitsFile, i: nat, cards: seq<string>, size: nat)
    requires f.Valid() && i < |f.layout|
    modifies f`headers, f`sizes
    ensures f.Valid()
    ensures f.State() == old(f.State()).(cards := old(f.headers)[i := cards], sizes := old(f.sizes)[i := size])
  {
    f.headers := f.headers[i := cards];
    f.sizes := f.sizes[i := size];
  }

  lemma HeaderIsOut(s: FileState, i: nat, cards: seq<string>)
    requires Consistent(s) && i < |s.hdus|
    ensures s.hdus[i].data <= |s.disk| && |s.hdus| == |s.cards| == |s.sizes|
    ensures var s1 := HeaderEdited(s, i, cards);
            && Consistent(s1) && |s1.hdus| == |s.hdus| && s1.sizes == s.sizes && s1.tainted == s.tainted
            && HeaderOnDisk(s1.disk, s1.hdus[i], cards)
  {
    HduAt(s, i);
    HeaderEditStaysConsistent(s, i, cards);
    HduAt(HeaderEdited(s, i, cards), i);
    hide Consistent, HeaderOnDisk, EndOf, ValidLayout, RoundUpToBlock, HeaderEditKeeps, EditedDisk, GrownHeader;
  }

  lemma RoomIsThere(s: FileState, i: nat, size: nat)
    requires Consistent(s) && i < |s.hdus|
    ensures Resizable(s, i) && |s.sizes| == |s.hdus| == |s.cards|
    ensures var s1 := DataResized(s, i, size);
            && |s1.hdus| == |s.hdus| && s1.sizes == s.sizes[i := size] && s1.cards == s.cards && s1.tainted == s.tainted
            && s1.hdus[i].data + size <= |s1.disk| && HeaderOnDisk(s1.disk, s1.hdus[i], s.cards[i])
  {
    HduAt(s, i);
    ResizeStaysConsistent(s, i, size);
    HduAt(DataResized(s, i, size), i);
    PaddedSize(size);
    hide Consistent, HeaderOnDisk, EndOf, ValidLayout, RoundUpToBlock, ResizeKeeps, ResizedDisk, ResizedHdus;
  }

  // Rows written behind a header leave it.
  lemma HeaderStaysOut(disk: seq<byte>, h: Extent, cards: seq<string>, disk': seq<byte>, w: nat, edit: Edit, a: nat,
                       b: nat)
    requires HeaderOnDisk(disk, h, cards) && Reshaped(disk, disk', h.data, w, edit, a, b)
    ensures HeaderOnDisk(disk', h, cards)
  {
    hide HeaderImage, RowStart, RowBytes, EditedRow;
    RowsGrow(h.data, NewWidth(edit, w), 0, a);
    RowsFrom(h.data, NewWidth(edit, w), 0);
    var lo := RowStart(h.data, NewWidth(edit, w), a);
    assert disk'[h.header..h.data] == disk'[..lo][h.header..h.data];
    assert disk[h.header..h.data] == disk[..lo][h.header..h.data];
  }

  // Room, rows, commit: the part of an insertion behind its header rewrite.
  method InsertRows(f: FitsFile, i: nat, cards: seq<string>, edit: Edit, n: nat, w: nat, stripRows: nat,
                    ghost s: FileState)
    returns (outcome: Outcome)
    requires f.Valid() && i < |f.layout| && Consistent(s) && !s.tainted && |s.hdus| == |f.layout|
    requires s.hdus[i].data <= |s.disk| && |s.cards| == |s.sizes| == |s.hdus|
    requires f.State() == HeaderEdited(s, i, cards).(cards := s.cards)
    requires s.sizes[i] == RowStart(0, w, n) && edit.InsertCells? && Suits(edit, n, w) && stripRows > 0
    modifies f`tainted, f`headers, f`sizes, f.file, f.layout
    ensures f.Valid()
    ensures outcome.Done? ==> TableEdited(s, i, cards, edit, n, w, f.State())
    ensures outcome.HalfDone? ==> HeaderAhead(s, i, cards, f.State())
    ensures outcome.Tainted? ==> f.tainted && f.file.mayFail
    ensures !outcome.Refused?
    ensures !f.file.mayFail ==> outcome == if Printable(edit, 0, n) then Done else HalfDone
  {
    hide Consistent, HeaderOnDisk, EndOf, RowStart, Reshaped, Suits, Printable, HeaderEdited, DataResized, TableEdited;
    hide Resizable;
    ghost var s1 := HeaderEdited(s, i, cards);
    HeaderIsOut(s, i, cards);
    HeaderAheadAfter(s, i, cards);
    var nw := NewWidth(edit, w);
    var ok := ChangeRoom(f, i, RowStart(0, w, n), RowStart(0, nw, n), s1);
    if !ok {
      return if f.tainted then Tainted else HalfDone;
    }
    ghost var s2 := DataResized(s1, i, RowStart(0, nw, n));
    RoomIsThere(s1, i, RowStart(0, nw, n));
    EditedCards(s, i, cards);
    assert s2.hdus[i] == f.layout[i].Value();
    RowsFrom(f.layout[i].data, nw, n);
    var tainted;
    ghost var left;
    ok, tainted, left := ShuffleForInsert(f.file, f.layout[i].data, n, w, edit, stripRows);
    if tainted {
      f.tainted := true;
      return Tainted;
    }
    HeaderStaysOut(s2.disk, s2.hdus[i], cards, f.file.bytes, w, edit, left, n);
    if !ok {
      return HalfDone;
    }
    InsertionEdits(s, i, cards, edit, n, w, f.file.bytes);
    Commit(f, i, cards, RowStart(0, nw, n));
    outcome := Done;
  }

  lemma EditedCards(s: FileState, i: nat, cards: seq<string>)
    requires i < |s.hdus| && i < |s.cards| && s.hdus[i].data <= |s.disk|
    ensures HeaderEdited(s, i, cards).cards == s.cards[i := cards]
  {
  }

  lemma HeaderAheadAfter(s: FileState, i: nat, cards: seq<string>)
    requires Consistent(s) && i < |s.hdus| && !s.tainted && i < |s.cards| && s.hdus[i].data <= |s.disk|
    ensures HeaderAhead(s, i, cards, HeaderEdited(s, i, cards).(cards := s.cards))
  {
    hide Consistent, HeaderOnDisk, HeaderEdited;
    HeaderIsOut(s, i, cards);
  }

  // insert_column_impl, once its arguments are resolved: `added` are the new
  // column's cards, edit.cells its cells as text.
  method InsertColumn(f: FitsFile, i: nat, at: nat, columns: nat, added: seq<string>, edit: Edit, n: nat, w: nat,
                      stripRows: nat) returns (outcome: Outcome)
    requires f.Valid() && i < |f.layout| && Sane(f.State()) && f.sizes[i] == RowStart(0, w, n)
    requires edit.InsertCells? && Suits(edit, n, w) && stripRows > 0
    modifies f`tainted, f`headers, f`sizes, f.file, f.layout
    ensures f.Valid()
    ensures outcome.Refused? ==> f.State() == old(f.State())
    ensures old(f.tainted) ==> outcome.Refused?
    ensures !outcome.Refused? ==> CardsWithColumn(old(f.headers)[i], at, edit.width, added, columns, w).Some?
    ensures outcome.Done? ==>
      var cards := CardsWithColumn(old(f.headers)[i], at, edit.width, added, columns, w).value;
      TableEdited(old(f.State()), i, cards, edit, n, w, f.State())
    ensures outcome.HalfDone? ==>
      var cards := CardsWithColumn(old(f.headers)[i], at, edit.width, added, columns, w).value;
      HeaderAhead(old(f.State()), i, cards, f.State())
    ensures outcome.Tainted? ==> f.tainted && f.file.mayFail
    ensures !f.file.mayFail && !old(f.tainted) ==>
      outcome == if CardsWithColumn(old(f.headers)[i], at, edit.width, added, columns, w).None? then Refused
                 else if Printable(edit, 0, n) then Done else HalfDone
    ensures EndsInEnd(old(f.headers)[i]) && added != [] ==> (Sane(f.State()) <==> !outcome.HalfDone?)
    ensures !f.file.mayFail && !old(f.tainted) && EndsInEnd(old(f.headers)[i]) && added != [] ==>
      (Consistent(f.State()) <==>
         CardsWithColumn(old(f.headers)[i], at, edit.width, added, columns, w).None? || Printable(edit, 0, n))
  {
    hide Consistent, Sound, HeaderOnDisk, EndOf, RowStart, Suits, Printable, HeaderEdited, TableEdited, HeaderAhead;
    hide CardsWithColumn;
    if f.tainted {
      return Refused;
    }
    ghost var s := f.State();
    HduAt(s, i);
    var cards := InsertColumnCards(f.headers[i], at, edit.width, added, columns, w);
    if cards.None? {
      return Refused;
    }
    ConsistentIsSound(s);
    var ok := f.RewriteHeader(i, cards.value);
    if !ok {
      return if f.tainted then Tainted else Refused;
    }
    outcome := InsertRows(f, i, cards.value, edit, n, w, stripRows, s);
    InsertionIsFelt(s, i, at, added, columns, edit, n, w, outcome, f.State());
  }

  // A finished insertion leaves a consistent file, a half-done one does not.
  lemma InsertionIsFelt(s: FileState, i: nat, at: nat, added: seq<string>, columns: nat, edit: Edit, n: nat, w: nat,
                        outcome: Outcome, s': FileState)
    requires i < |s.cards| && CardsWithColumn(s.cards[i], at, edit.width, added, columns, w).Some?
    requires var cards := CardsWithColumn(s.cards[i], at, edit.width, added, columns, w).value;
      && (outcome.Done? ==> TableEdited(s, i, cards, edit, n, w, s'))
      && (outcome.HalfDone? ==> HeaderAhead(s, i, cards, s'))
    requires !outcome.Refused? && (outcome.Tainted? ==> s'.tainted)
    ensures outcome.Done? || outcome.HalfDone? ==> !s'.tainted
    ensures EndsInEnd(s.cards[i]) && added != [] ==> (Sane(s') <==> !outcome.HalfDone?)
  {
    hide CardsWithColumn, Consistent, KeepsOthers, RowStart, TableRow, EditedRow, EndsInEnd, HeaderOnDisk;
    if outcome.HalfDone? && EndsInEnd(s.cards[i]) && added != [] {
      InsertedShape(s.cards[i], at, edit.width, added, columns, w);
      HeaderAheadIsFelt(s, i, CardsWithColumn(s.cards[i], at, edit.width, added, columns, w).value, s');
    }
  }

  // Rows, room, commit: the part of a deletion behind its header rewrite.
  method DeleteRows(f: FitsFile, i: nat, cards: seq<string>, edit: Edit, n: nat, w: nat, stripRows: nat,
                    ghost s: FileState)
    returns (outcome: Outcome)
    requires f.Valid() && i < |f.layout| && Consistent(s) && !s.tainted && |s.hdus| == |f.layout|
    requires s.hdus[i].data <= |s.disk| && |s.cards| == |s.sizes| == |s.hdus|
    requires f.State() == HeaderEdited(s, i, cards).(cards := s.cards)
    requires s.sizes[i] == RowStart(0, w, n) && edit.DeleteBytes? && Suits(edit, n, w) && stripRows > 0
    modifies f`tainted, f`headers, f`sizes, f.file, f.layout
    ensures f.Valid()
    ensures outcome.Done? ==> TableEdited(s, i, cards, edit, n, w, f.State())
    ensures outcome.HalfDone? ==> HeaderAhead(s, i, cards, f.State()) && f.file.mayFail
    ensures outcome.Tainted? ==> f.tainted && f.file.mayFail
    ensures !outcome.Refused?
  {
    hide Consistent, HeaderOnDisk, EndOf, RowStart, Reshaped, Suits, Printable, HeaderEdited, DataResized, TableEdited;
    hide Resizable;
    ghost var s1 := HeaderEdited(s, i, cards);
    HeaderIsOut(s, i, cards);
    EditedCards(s, i, cards);
    TableInside(s1, i);
    var nw := NewWidth(edit, w);
    assert s1.hdus[i] == f.layout[i].Value();
    RowsFrom(f.layout[i].data, w, n);
    var ok := ShuffleForDelete(f.file, f.layout[i].data, n, w, edit, stripRows);
    if !ok {
      f.tainted := true;
      return Tainted;
    }
    ghost var disk := f.file.bytes;
    ghost var s2 := s1.(disk := disk);
    RowsShrink(edit, n, w);
    ShuffleStaysInside(s1, i, w, edit, n, disk);
    WriteInsideKeeps(s1, i, disk);
    HeaderStaysOut(s1.disk, s1.hdus[i], cards, disk, w, edit, 0, n);
    ok := ChangeRoom(f, i, RowStart(0, w, n), RowStart(0, nw, n), s2);
    if !ok {
      return if f.tainted then Tainted else HalfDone;
    }
    RoomIsThere(s2, i, RowStart(0, nw, n));
    DeletionEdits(s, i, cards, edit, n, w, disk);
    Commit(f, i, cards, RowStart(0, nw, n));
    outcome := Done;
  }

  lemma TableInside(s: FileState, i: nat)
    requires Consistent(s) && i < |s.hdus| && i < |s.sizes|
    ensures s.hdus[i].data + s.sizes[i] <= |s.disk|
  {
    HduAt(s, i);
    PaddedSize(s.sizes[i]);
  }

  lemma RowsShrink(edit: Edit, n: nat, w: nat)
    requires edit.DeleteBytes? && Suits(edit, n, w)
    ensures RowStart(0, NewWidth(edit, w), n) <= RowStart(0, w, n)
  {
    WiderRows(0, NewWidth(edit, w), w, n);
  }

  // delete_column_impl, once the column is found.
  method DeleteColumn(f: FitsFile, i: nat, at: nat, columns: nat, edit: Edit, n: nat, w: nat, stripRows: nat)
    returns (outcome: Outcome)
    requires f.Valid() && i < |f.layout| && Sane(f.State()) && f.sizes[i] == RowStart(0, w, n)
    requires columns > 0
    requires edit.DeleteBytes? && Suits(edit, n, w) && stripRows > 0
    modifies f`tainted, f`headers, f`sizes, f.file, f.layout
    ensures f.Valid()
    ensures outcome.Refused? ==> f.State() == old(f.State())
    ensures old(f.tainted) ==> outcome.Refused?
    ensures !outcome.Refused? ==> CardsWithoutColumn(old(f.headers)[i], at, edit.width, columns, w).Some?
    ensures outcome.Done? ==>
      var cards := CardsWithoutColumn(old(f.headers)[i], at, edit.width, columns, w).value;
      TableEdited(old(f.State()), i, cards, edit, n, w, f.State())
    ensures outcome.HalfDone? ==>
      var cards := CardsWithoutColumn(old(f.headers)[i], at, edit.width, columns, w).value;
      HeaderAhead(old(f.State()), i, cards, f.State()) && f.file.mayFail
    ensures outcome.Tainted? ==> f.tainted && f.file.mayFail
    ensures !f.file.mayFail && !old(f.tainted) ==>
      outcome == if CardsWithoutColumn(old(f.headers)[i], at, edit.width, columns, w).None? then Refused else Done
    ensures EndsInEnd(old(f.headers)[i]) && HasColumn(old(f.headers)[i], at) ==>
      (Sane(f.State()) <==> !outcome.HalfDone?)
    ensures !f.file.mayFail && !old(f.tainted) ==> Consistent(f.State())
  {
    hide Consistent, Sound, HeaderOnDisk, EndOf, RowStart, HeaderEdited, TableEdited, HeaderAhead, CardsWithoutColumn;
    if f.tainted {
      return Refused;
    }
    ghost var s := f.State();
    HduAt(s, i);
    var cards := DeleteColumnCards(f.headers[i], at, edit.width, columns, w);
    if cards.None? {
      return Refused;
    }
    ConsistentIsSound(s);
    var ok := f.RewriteHeader(i, cards.value);
    if !ok {
      return if f.tainted then Tainted else Refused;
    }
    outcome := DeleteRows(f, i, cards.value, edit, n, w, stripRows, s);
    DeletionIsFelt(s, i, at, columns, edit, n, w, outcome, f.State());
  }

  lemma DeletionIsFelt(s: FileState, i: nat, at: nat, columns: nat, edit: Edit, n: nat, w: nat, outcome: Outcome,
                       s': FileState)
    requires i < |s.cards| && columns > 0 && edit.width <= w
    requires CardsWithoutColumn(s.cards[i], at, edit.width, columns, w).Some?
    requires var cards := CardsWithoutColumn(s.cards[i], at, edit.width, columns, w).value;
      && (outcome.Done? ==> TableEdited(s, i, cards, edit, n, w, s'))
      && (outcome.HalfDone? ==> HeaderAhead(s, i, cards, s'))
    requires !outcome.Refused? && (outcome.Tainted? ==> s'.tainted)
    ensures outcome.Done? ==> Consistent(s')
    ensures EndsInEnd(s.cards[i]) && HasColumn(s.cards[i], at) ==> (Sane(s') <==> !outcome.HalfDone?)
  {
    hide CardsWithoutColumn, Consistent, KeepsOthers, RowStart, TableRow, EditedRow, EndsInEnd, HeaderOnDisk;
    hide Describes;
    if outcome.HalfDone? && EndsInEnd(s.cards[i]) && HasColumn(s.cards[i], at) {
      DeletedShape(s.cards[i], at, edit.width, columns, w);
      HeaderAheadIsFelt(s, i, CardsWithoutColumn(s.cards[i], at, edit.width, columns, w).value, s');
    }
  }

  // ----- what a reader of the table finds -----

  // Where the header says column k starts.
  function StartRead(cards: seq<string>, k: nat): (start: int) {
    match KeywordValue(cards, ColumnKey("TBCOL", k + 1))
    case Some(v) => v
    case None => 0
  }

  // Column k of a row, by the header.
  function CellRead(cards: seq<string>, widths: seq<nat>, k: nat, row: seq<byte>): (cell: seq<byte>)
    requires k < |widths|
  {
    Cell(row, StartRead(cards, k), widths[k])
  }

  lemma StartIsBefore(cards: seq<string>, widths: seq<nat>, k: nat)
    requires Packed(cards, widths) && k < |widths|
    ensures StartRead(cards, k) == 1 + Before(widths, k)
  {
    hide Packed, Before, KeywordValue;
    PackedReads(cards, widths, k);
  }

  lemma InsertedRowReads(cards: seq<string>, new_: seq<string>, widths: seq<nat>, at: nat, edit: Edit, n: nat, r: nat,
                         row: seq<byte>, k: nat)
    requires Packed(cards, widths) && at <= |widths| && edit.InsertCells? && edit.pre == Before(widths, at)
    requires Packed(new_, WithColumn(widths, at, edit.width)) && Suits(edit, n, |row|) && Total(widths) <= |row|
    requires r < n && Printable(edit, r, r + 1) && k < |widths|
    ensures CellRead(new_, WithColumn(widths, at, edit.width), if k < at then k else k + 1, EditedRow(edit, r, row))
         == CellRead(cards, widths, k, row)
  {
    hide Packed, Before, Total, StartRead, Cell;
    StartIsBefore(cards, widths, k);
    StartIsBefore(new_, WithColumn(widths, at, edit.width), if k < at then k else k + 1);
    BeforeWithColumn(widths, at, edit.width, k);
    BeforeNext(widths, k);
    if k < at {
      BeforeGrows(widths, k + 1, at);
    } else {
      BeforeGrows(widths, at, k);
    }
    InsertedCell(row, edit.pre, edit.cells[r].value, 1 + Before(widths, k), widths[k]);
  }

  lemma AddedRowReads(new_: seq<string>, widths: seq<nat>, at: nat, edit: Edit, n: nat, r: nat, row: seq<byte>)
    requires at <= |widths| && edit.InsertCells? && edit.pre == Before(widths, at)
    requires Packed(new_, WithColumn(widths, at, edit.width)) && Suits(edit, n, |row|)
    requires r < n && Printable(edit, r, r + 1)
    ensures CellRead(new_, WithColumn(widths, at, edit.width), at, EditedRow(edit, r, row)) == edit.cells[r].value
  {
    hide Packed, Before, Total, StartRead, Cell;
    StartIsBefore(new_, WithColumn(widths, at, edit.width), at);
    BeforeWithColumn(widths, at, edit.width, at);
    AddedCell(row, edit.pre, edit.cells[r].value);
  }

  lemma DeletedRowReads(cards: seq<string>, new_: seq<string>, widths: seq<nat>, at: nat, edit: Edit, r: nat,
                        row: seq<byte>, k: nat)
    requires Packed(cards, widths) && at < |widths| && edit == DeleteBytes(Before(widths, at), widths[at])
    requires Packed(new_, WithoutColumn(widths, at)) && Total(widths) <= |row| && k < |widths| && k != at
    ensures CellRead(new_, WithoutColumn(widths, at), if k < at then k else k - 1, EditedRow(edit, r, row))
         == CellRead(cards, widths, k, row)
  {
    hide Packed, Before, Total, StartRead, Cell;
    StartIsBefore(cards, widths, k);
    StartIsBefore(new_, WithoutColumn(widths, at), if k < at then k else k - 1);
    BeforeWithoutColumn(widths, at, if k < at then k else k - 1);
    BeforeNext(widths, k);
    BeforeNext(widths, at);
    if k < at {
      BeforeGrows(widths, k + 1, at);
    } else {
      BeforeGrows(widths, at + 1, k);
    }
    DeletedCell(row, edit.pre, edit.width, 1 + Before(widths, k), widths[k]);
  }

  // Deleting what was inserted restores the row.
  lemma DeleteUndoesInsertedRow(edit: Edit, n: nat, r: nat, row: seq<byte>)
    requires edit.InsertCells? && Suits(edit, n, |row|) && r < n && Printable(edit, r, r + 1)
    ensures EditedRow(DeleteBytes(edit.pre, edit.width), r, EditedRow(edit, r, row)) == row
  {
    var front, text, back := row[..edit.pre], edit.cells[r].value, row[edit.pre..];
    var with := front + text + back;
    assert with[..edit.pre] == front && with[edit.pre + edit.width..] == back;
    assert front + back == row;
  }

  // ... so an insertion and the deletion of what it put in leave every row of
  // the table and every byte of the other HDUs as they were.
  lemma DeleteUndoesInsertedTable(s: FileState, i: nat, cards1: seq<string>, edit: Edit, n: nat, w: nat, s1: FileState,
                                  cards2: seq<string>, s2: FileState)
    requires Consistent(s) && i < |s.hdus| && i < |s.sizes| && s.sizes[i] == RowStart(0, w, n)
    requires edit.InsertCells? && Suits(edit, n, w) && Printable(edit, 0, n)
    requires TableEdited(s, i, cards1, edit, n, w, s1)
    requires TableEdited(s1, i, cards2, DeleteBytes(edit.pre, edit.width), n, w + edit.width, s2)
    ensures |s2.hdus| == |s.hdus| && s2.sizes == s.sizes && KeepsOthers(s.disk, s.hdus, s2.disk, s2.hdus, i)
    ensures forall r :: 0 <= r < n ==> TableRow(s2, i, w, r) == TableRow(s, i, w, r)
  {
    hide Consistent, RowStart, TableRow, EditedRow, KeepsOthers, Printable, Suits;
    KeepsOthersTransitive(s.disk, s.hdus, s1.disk, s1.hdus, s2.disk, s2.hdus, i);
    assert s2.sizes == s.sizes[i := s.sizes[i]] == s.sizes;
    forall r | 0 <= r < n ensures TableRow(s2, i, w, r) == TableRow(s, i, w, r) {
      TableRowLength(s, i, w, n, r);
      OnePrintable(edit, n, r);
      DeleteUndoesInsertedRow(edit, n, r, TableRow(s, i, w, r));
    }
  }

  lemma TableRowLength(s: FileState, i: nat, w: nat, n: nat, r: nat)
    requires Consistent(s) && i < |s.hdus| && i < |s.sizes| && s.sizes[i] == RowStart(0, w, n) && r < n
    ensures |TableRow(s, i, w, r)| == w
  {
    hide Consistent, RowStart, RowBytes;
    TableInside(s, i);
    RowsFrom(s.hdus[i].data, w, n);
    RowsGrow(s.hdus[i].data, w, r + 1, n);
    RowSlice(s.disk, s.hdus[i].data, w, r);
  }

  // A header after an edit that may refuse it.
  function Renewed(cards: seq<string>, new_: Option<seq<string>>): (r: seq<string>) {
    if new_.Some? then new_.value else cards
  }

  // An insertion into a flush-packed table: the header is flush-packed again,
  // every cell of every column reads as before, and the new column reads as
  // the cells put in.
  lemma InsertKeepsCells(s: FileState, i: nat, widths: seq<nat>, at: nat, added: seq<string>, edit: Edit, n: nat,
                         s': FileState, r: nat, k: nat)
    requires Consistent(s) && i < |s.hdus| == |s.cards| == |s.sizes| && s.sizes[i] == RowStart(0, Total(widths), n)
    requires Packed(s.cards[i], widths) && at <= |widths| < 999 && FitsI64(1 + Total(widths) + edit.width)
    requires NewColumnCards(added, at, 1 + Before(widths, at))
    requires edit.InsertCells? && edit.pre == Before(widths, at) && Suits(edit, n, Total(widths))
      && Printable(edit, 0, n)
    requires Editable(s.cards[i])
    requires TableEdited(s, i, Renewed(s.cards[i], CardsWithColumn(s.cards[i], at, edit.width, added, |widths|,
                                                                   Total(widths))),
                         edit, n, Total(widths), s')
    requires r < n
    ensures i < |s'.cards| && Packed(s'.cards[i], WithColumn(widths, at, edit.width)) && Editable(s'.cards[i])
    ensures var widths', row' := WithColumn(widths, at, edit.width), TableRow(s', i, Total(widths) + edit.width, r);
            && CellRead(s'.cards[i], widths', at, row') == edit.cells[r].value
            && (k < |widths| ==>
                  CellRead(s'.cards[i], widths', if k < at then k else k + 1, row')
                  == CellRead(s.cards[i], widths, k, TableRow(s, i, Total(widths), r)))
  {
    hide Consistent, Packed, NewColumnCards, CardsWithColumn, RowStart, Total, Before, TableRow, CellRead, EditedRow;
    hide KeepsOthers, WithColumn, Suits, Editable;
    TableRowLength(s, i, Total(widths), n, r);
    InsertKeepsPacked(s.cards[i], widths, at, edit.width, added, Total(widths));
    OnePrintable(edit, n, r);
    AddedRowReads(s'.cards[i], widths, at, edit, n, r, TableRow(s, i, Total(widths), r));
    if k < |widths| {
      InsertedRowReads(s.cards[i], s'.cards[i], widths, at, edit, n, r, TableRow(s, i, Total(widths), r), k);
    }
  }

  lemma OnePrintable(edit: Edit, n: nat, r: nat)
    requires Printable(edit, 0, n) && r < n
    ensures Printable(edit, r, r + 1)
  {
  }

  lemma PackedFits(cards: seq<string>, widths: seq<nat>)
    requires Packed(cards, widths)
    ensures FitsI64(Total(widths)) && |widths| <= 999
  {
    hide PlainKeywords, AllNumberedTo, StartIs, Total;
  }

  // A deletion: every other cell reads as before.
  lemma DeleteKeepsCells(s: FileState, i: nat, widths: seq<nat>, at: nat, edit: Edit, n: nat, s': FileState, r: nat,
                         k: nat)
    requires Consistent(s) && i < |s.hdus| == |s.cards| == |s.sizes| && s.sizes[i] == RowStart(0, Total(widths), n)
    requires Packed(s.cards[i], widths) && at < |widths| && edit == DeleteBytes(Before(widths, at), widths[at])
    requires widths[at] <= Total(widths)
      && HasCounts(s.cards[i])
    requires TableEdited(s, i, Renewed(s.cards[i], CardsWithoutColumn(s.cards[i], at, edit.width, |widths|,
                                                                      Total(widths))),
                         edit, n, Total(widths), s')
    requires r < n && k < |widths| && k != at
    ensures i < |s'.cards| && Packed(s'.cards[i], WithoutColumn(widths, at)) && HasCounts(s'.cards[i])
    ensures CellRead(s'.cards[i], WithoutColumn(widths, at), if k < at then k else k - 1,
                     TableRow(s', i, Total(widths) - widths[at], r))
         == CellRead(s.cards[i], widths, k, TableRow(s, i, Total(widths), r))
  {
    hide Consistent, CardsWithoutColumn, RowStart, Before, TableRow, CellRead, EditedRow, KeepsOthers, Packed, Total;
    hide WithoutColumn, HasCounts, HasEnd;
    PackedFits(s.cards[i], widths);
    TableRowLength(s, i, Total(widths), n, r);
    DeleteKeepsPacked(s.cards[i], widths, at, Total(widths));
    DeletedRowReads(s.cards[i], s'.cards[i], widths, at, edit, r, TableRow(s, i, Total(widths), r), k);
  }
}
