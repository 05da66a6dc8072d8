// grow_file_to_at_least: room for `minBytes` of data, and when it really
// makes that room.
module DataRoom {
  import opened FitsBytes
  import opened FileStorage
  import opened LayoutModel
  import opened FileMoves
  import opened FileRuns
  import opened SoundRuns
  import opened FitsFiles

  datatype NextStart = NoLater | Later(start: nat)

  // The least header offset strictly past `off`.
  predicate IsNext(hdus: seq<Extent>, off: nat, next: NextStart) {
    match next
    case NoLater => forall j :: 0 <= j < |hdus| ==> hdus[j].header <= off
    case Later(start) =>
      && start > off
      && (exists j :: 0 <= j < |hdus| && hdus[j].header == start)
      && forall j :: 0 <= j < |hdus| && hdus[j].header > off ==> start <= hdus[j].header
  }

  method FindNext(layout: seq<HduOffsets>, off: nat) returns (next: NextStart)
    ensures IsNext(Extents(layout), off, next)
  {
    next := NoLater;
    ghost var hdus := Extents(layout);
    for k := 0 to |layout|
      invariant IsNext(hdus[..k], off, next)
    {
      assert hdus[k] == layout[k].Value();
      var start := layout[k].header;
      ghost var j := if next.NoLater? then 0 else FirstAt(hdus[..k], next.start);
      if start > off && (next.NoLater? || start < next.start) {
        next := Later(start);
        assert hdus[..k + 1][k].header == start;
      } else if next.Later? {
        assert hdus[..k + 1][j].header == next.start;
      }
    }
    assert hdus[..|layout|] == hdus;
  }

  ghost function FirstAt(hdus: seq<Extent>, start: nat): (j: nat)
    requires exists j :: 0 <= j < |hdus| && hdus[j].header == start
    ensures j < |hdus| && hdus[j].header == start
  {
    var j :| 0 <= j < |hdus| && hdus[j].header == start;
    j
  }

  // Whose data section the call grows: HDU i's, unless that one is empty and
  // another HDU follows right behind it.
  function Grows(len: nat, hdus: seq<Extent>, i: nat): (n: nat)
    requires i < |hdus|
  {
    if i + 1 < |hdus| && hdus[i + 1].header == hdus[i].data then i + 1 else i
  }

  lemma NextIsEnd(len: nat, hdus: seq<Extent>, i: nat, next: NextStart)
    requires ValidLayout(len, hdus) && i < |hdus| && IsNext(hdus, hdus[i].data, next)
    ensures Grows(len, hdus, i) < |hdus|
    ensures EndOf(len, hdus, Grows(len, hdus, i)) == (if next.Later? then next.start else len)
    ensures next.NoLater? <==> Grows(len, hdus, i) == |hdus| - 1
  {
    var g := Grows(len, hdus, i);
    forall j | 0 <= j < |hdus|
      ensures j <= g ==> hdus[j].header <= hdus[i].data
      ensures j > g ==> hdus[j].header > hdus[i].data && EndOf(len, hdus, g) <= hdus[j].header
    {
      StartsAround(len, hdus, i, j);
    }
    if g + 1 < |hdus| {
      assert hdus[g + 1].header > hdus[i].data;
    }
  }

  lemma StartsAround(len: nat, hdus: seq<Extent>, i: nat, j: nat)
    requires ValidLayout(len, hdus) && i < |hdus| && j < |hdus|
    ensures j <= Grows(len, hdus, i) ==> hdus[j].header <= hdus[i].data
    ensures j > Grows(len, hdus, i) ==>
      hdus[j].header > hdus[i].data && EndOf(len, hdus, Grows(len, hdus, i)) <= hdus[j].header
  {
    var g := Grows(len, hdus, i);
    Inside(len, hdus, i);
    Inside(len, hdus, g);
    Inside(len, hdus, j);
    hide Aligned;
    if j < i {
      Ordered(len, hdus, j, i);
    } else if j > g {
      if j > g + 1 {
        Inside(len, hdus, g + 1);
        Ordered(len, hdus, g + 1, j);
      }
    }
  }

  // The bytes the call inserts at the end of the section it grows: stale ones
  // when a tail moves out of the way, zeros at the end of the file.
  function RoomGap(disk: seq<byte>, hdus: seq<Extent>, g: nat, end: nat, delta: nat): (gap: seq<byte>)
    requires end <= |disk|
    ensures |gap| == delta
  {
    if g + 1 < |hdus| then ShiftGap(disk, end, delta) else Zeros(delta)
  }

  function Shortfall(want: nat, end: nat): (n: nat) {
    if want <= end then 0 else want - end
  }

  function WithRoom(disk: seq<byte>, hdus: seq<Extent>, i: nat, minBytes: nat): (r: (seq<byte>, seq<Extent>))
    requires i < |hdus| && Grows(|disk|, hdus, i) < |hdus| && EndOf(|disk|, hdus, Grows(|disk|, hdus, i)) <= |disk|
  {
    var g := Grows(|disk|, hdus, i);
    var end := EndOf(|disk|, hdus, g);
    var delta := Shortfall(hdus[i].data + RoundUpToBlock(minBytes), end);
    (Inserted(disk, end, RoomGap(disk, hdus, g, end, delta)), MovedAll(hdus, end, delta))
  }

  // The layout stays valid and every HDU but the one grown reads as before;
  // the caller's HDU has its room exactly when no other HDU starts where its
  // data section does, or nothing was asked for.
  lemma RoomIsMade(disk: seq<byte>, hdus: seq<Extent>, i: nat, minBytes: nat)
    requires ValidLayout(|disk|, hdus) && i < |hdus|
    ensures Grows(|disk|, hdus, i) < |hdus| && EndOf(|disk|, hdus, Grows(|disk|, hdus, i)) <= |disk|
    ensures var (disk', hdus') := WithRoom(disk, hdus, i, minBytes);
      && ValidLayout(|disk'|, hdus') && |hdus'| == |hdus|
      && KeepsOthers(disk, hdus, disk', hdus', Grows(|disk|, hdus, i))
      && hdus'[i] == hdus[i]
      && (EndOf(|disk'|, hdus', i) >= hdus[i].data + RoundUpToBlock(minBytes) <==>
          minBytes == 0 || i + 1 == |hdus| || hdus[i + 1].header != hdus[i].data)
  {
    hide *;
    RoomKeeps(disk, hdus, i, minBytes);
    RoomSuffices(disk, hdus, i, minBytes);
  }

  lemma RoomKeeps(disk: seq<byte>, hdus: seq<Extent>, i: nat, minBytes: nat)
    requires ValidLayout(|disk|, hdus) && i < |hdus|
    ensures Grows(|disk|, hdus, i) < |hdus| && EndOf(|disk|, hdus, Grows(|disk|, hdus, i)) <= |disk|
    ensures var (disk', hdus') := WithRoom(disk, hdus, i, minBytes);
      && ValidLayout(|disk'|, hdus') && |hdus'| == |hdus|
      && KeepsOthers(disk, hdus, disk', hdus', Grows(|disk|, hdus, i))
      && hdus'[i] == hdus[i]
  {
    GrowsIsThere(|disk|, hdus, i);
    var g := Grows(|disk|, hdus, i);
    Inside(|disk|, hdus, g);
    var end := EndOf(|disk|, hdus, g);
    var delta := Shortfall(hdus[i].data + RoundUpToBlock(minBytes), end);
    ShortfallIsAligned(|disk|, hdus, i, g, minBytes);
    MovesLaterOnes(|disk|, hdus, g, end, i);
    hide ValidLayout, KeepsOthers, Inserted, RoomGap, RoundUpToBlock, Aligned, MovedAll, Grows, EndOf;
    DataGrowKeeps(disk, hdus, g, RoomGap(disk, hdus, g, end, delta));
    MovedRecord(hdus, end, delta, i);
  }

  lemma GrowsIsThere(len: nat, hdus: seq<Extent>, i: nat)
    requires i < |hdus|
    ensures i <= Grows(len, hdus, i) < |hdus|
  {
  }

  lemma MovedRecord(hdus: seq<Extent>, from: nat, delta: nat, i: nat)
    requires i < |hdus| && hdus[i].header < from
    ensures MovedAll(hdus, from, delta)[i] == hdus[i]
  {
  }

  lemma RoomSuffices(disk: seq<byte>, hdus: seq<Extent>, i: nat, minBytes: nat)
    requires ValidLayout(|disk|, hdus) && i < |hdus|
    ensures Grows(|disk|, hdus, i) < |hdus| && EndOf(|disk|, hdus, Grows(|disk|, hdus, i)) <= |disk|
    ensures var (disk', hdus') := WithRoom(disk, hdus, i, minBytes);
      && |hdus'| == |hdus|
      && (EndOf(|disk'|, hdus', i) >= hdus[i].data + RoundUpToBlock(minBytes) <==>
          minBytes == 0 || i + 1 == |hdus| || hdus[i + 1].header != hdus[i].data)
  {
    GrowsIsThere(|disk|, hdus, i);
    var g := Grows(|disk|, hdus, i);
    Inside(|disk|, hdus, g);
    Inside(|disk|, hdus, i);
    var end := EndOf(|disk|, hdus, g);
    var delta := Shortfall(hdus[i].data + RoundUpToBlock(minBytes), end);
    NoRoomNeeded(minBytes);
    GrowsItself(|disk|, hdus, i);
    MovesLaterOnes(|disk|, hdus, g, end, g);
    hide ValidLayout, Inserted, RoomGap, RoundUpToBlock, Aligned, MovedAll, Grows;
    if g == i {
      SectionGrows(|disk|, hdus, i, delta);
    } else {
      MovedRecord(hdus, end, delta, g);
      FullHdu(|disk|, hdus, i, MovedAll(hdus, end, delta), |disk| + delta);
    }
  }

  lemma SectionGrows(len: nat, hdus: seq<Extent>, i: nat, delta: nat)
    requires ValidLayout(len, hdus) && i < |hdus|
    ensures EndOf(len + delta, MovedAll(hdus, EndOf(len, hdus, i), delta), i) == EndOf(len, hdus, i) + delta
  {
  }

  lemma GrowsItself(len: nat, hdus: seq<Extent>, i: nat)
    requires i < |hdus|
    ensures Grows(len, hdus, i) == i <==> i + 1 == |hdus| || hdus[i + 1].header != hdus[i].data
    ensures Grows(len, hdus, i) != i ==>
      i + 1 < |hdus| && hdus[i + 1].header == hdus[i].data && Grows(len, hdus, i) == i + 1
  {
  }

  // The HDU behind an empty data section stays where it is.
  lemma FullHdu(len: nat, hdus: seq<Extent>, i: nat, hdus': seq<Extent>, len': nat)
    requires i < |hdus| == |hdus'| && Grows(len, hdus, i) != i
    requires hdus'[Grows(len, hdus, i)] == hdus[Grows(len, hdus, i)]
    ensures EndOf(len', hdus', i) == hdus[i].data
  {
  }

  lemma ShortfallIsAligned(len: nat, hdus: seq<Extent>, i: nat, g: nat, minBytes: nat)
    requires ValidLayout(len, hdus) && i < |hdus| && g < |hdus|
    ensures Aligned(Shortfall(hdus[i].data + RoundUpToBlock(minBytes), EndOf(len, hdus, g)))
  {
    Placed(len, hdus, i);
    Placed(len, hdus, g);
    BlocksAreAligned(minBytes);
    hide ValidLayout, RoundUpToBlock, EndOf, Aligned;
    AlignedSum(hdus[i].data, RoundUpToBlock(minBytes));
    AlignedDifference(hdus[i].data + RoundUpToBlock(minBytes), EndOf(len, hdus, g));
    NothingIsAligned();
  }

  lemma NothingIsAligned()
    ensures Aligned(0)
  {
  }

  lemma Placed(len: nat, hdus: seq<Extent>, g: nat)
    requires ValidLayout(len, hdus) && g < |hdus|
    ensures Aligned(hdus[g].data) && Aligned(EndOf(len, hdus, g))
  {
    assert WellPlaced(hdus[g]);
    if g + 1 < |hdus| {
      assert WellPlaced(hdus[g + 1]);
    }
  }

  lemma NoRoomNeeded(minBytes: nat)
    ensures RoundUpToBlock(minBytes) == 0 <==> minBytes == 0
  {
  }

  // What a call that succeeds leaves.
  predicate MadeRoom(s: FileState, i: nat, minBytes: nat, s': FileState) {
    && i < |s.hdus|
    && Grows(|s.disk|, s.hdus, i) < |s.hdus|
    && EndOf(|s.disk|, s.hdus, Grows(|s.disk|, s.hdus, i)) <= |s.disk|
    && var (disk, hdus) := WithRoom(s.disk, s.hdus, i, minBytes);
      s' == s.(disk := disk, hdus := hdus)
  }

  // grow_file_to_at_least
  method GrowFileToAtLeast(f: FitsFile, i: nat, minBytes: nat) returns (ok: bool)
    requires f.Valid() && !f.tainted && i < |f.layout| && Consistent(f.State())
    modifies f`tainted, f.file, f.layout
    ensures ok ==> MadeRoom(old(f.State()), i, minBytes, f.State())
    ensures !ok && !f.tainted ==> f.State() == old(f.State())
    ensures !f.file.mayFail ==> ok
  {
    ghost var s := f.State();
    assert s.hdus[i] == f.layout[i].Value();
    var next := FindNext(f.layout, f.layout[i].data);
    NextIsEnd(|s.disk|, s.hdus, i, next);
    var end := if next.Later? then next.start else |f.file.bytes|;
    RoomEnd(s, i, end);
    hide Consistent, MadeRoom, IsNext, ValidLayout, Grows, EndOf;
    ok := MakeRoom(f, i, minBytes, end, next.NoLater?);
  }

  // The section that has to grow ends at `end`.
  predicate RoomEndsAt(s: FileState, i: nat, end: nat, last: bool) {
    && i < |s.hdus| && Grows(|s.disk|, s.hdus, i) < |s.hdus|
    && end == EndOf(|s.disk|, s.hdus, Grows(|s.disk|, s.hdus, i)) <= |s.disk|
    && (last <==> Grows(|s.disk|, s.hdus, i) == |s.hdus| - 1)
  }

  method MakeRoom(f: FitsFile, i: nat, minBytes: nat, end: nat, last: bool) returns (ok: bool)
    requires f.Valid() && !f.tainted && i < |f.layout| && Consistent(f.State())
    requires RoomEndsAt(f.State(), i, end, last)
    modifies f`tainted, f.file, f.layout
    ensures ok ==> MadeRoom(old(f.State()), i, minBytes, f.State())
    ensures !ok && !f.tainted ==> f.State() == old(f.State())
    ensures !f.file.mayFail ==> ok
  {
    ghost var s := f.State();
    assert s.hdus[i] == f.layout[i].Value();
    var want := f.layout[i].data + RoundUpToBlock(minBytes);
    RoomCases(s, i, minBytes, want, end, last);
    hide Consistent, MadeRoom, RoundUpToBlock, ShiftedUp, MovedAll, ZerosInserted, RoomEndsAt, Grows, WithRoom, EndOf;
    if want <= end {
      return true;
    }
    if last {
      ok := f.ExtendWithZeros(want - end);
    } else {
      ok := ShiftLater(f, i, minBytes, end, want - end);
    }
  }

  // Another HDU is in the way: everything from it on moves.
  method ShiftLater(f: FitsFile, ghost i: nat, ghost minBytes: nat, end: nat, delta: nat) returns (ok: bool)
    requires f.Valid() && !f.tainted && Movable(f.State().hdus, end, delta)
    requires var s := f.State();
      MadeRoom(s, i, minBytes, s.(disk := ShiftedUp(s.disk, end, delta), hdus := MovedAll(s.hdus, end, delta)))
    modifies f`tainted, f.file, f.layout
    ensures ok ==> MadeRoom(old(f.State()), i, minBytes, f.State())
    ensures !ok && !f.tainted ==> f.State() == old(f.State())
    ensures !f.file.mayFail ==> ok
  {
    hide MadeRoom, ShiftedUp, MovedAll;
    ok := f.ShiftTail(end, delta);
  }

  lemma RoomCases(s: FileState, i: nat, minBytes: nat, want: nat, end: nat, last: bool)
    requires Consistent(s) && RoomEndsAt(s, i, end, last) && want == s.hdus[i].data + RoundUpToBlock(minBytes)
    ensures end <= |s.disk| && (last ==> end == |s.disk|)
    ensures want <= end ==> MadeRoom(s, i, minBytes, s)
    ensures want > end && last ==> MadeRoom(s, i, minBytes, s.(disk := ZerosInserted(s.disk, |s.disk|, want - end)))
    ensures want > end && !last ==>
      MadeRoom(s, i, minBytes,
               s.(disk := ShiftedUp(s.disk, end, want - end), hdus := MovedAll(s.hdus, end, want - end)))
  {
    hide RoundUpToBlock, Consistent, ShiftedUp, MovedAll, ZerosInserted, Grows, MadeRoom;
    if want <= end {
      EnoughRoom(s, i, minBytes, end);
    } else if last {
      RoomAtEnd(s, i, minBytes, want);
    } else {
      RoomBefore(s, i, minBytes, want, end);
    }
  }

  lemma RoomEnd(s: FileState, i: nat, end: nat)
    requires Consistent(s) && i < |s.hdus|
    requires Grows(|s.disk|, s.hdus, i) < |s.hdus| && end == EndOf(|s.disk|, s.hdus, Grows(|s.disk|, s.hdus, i))
    ensures end <= |s.disk|
  {
    HduAt(s, Grows(|s.disk|, s.hdus, i));
  }

  lemma EnoughRoom(s: FileState, i: nat, minBytes: nat, end: nat)
    requires i < |s.hdus| && s.hdus[i].data + RoundUpToBlock(minBytes) <= end <= |s.disk|
    requires Grows(|s.disk|, s.hdus, i) < |s.hdus| && end == EndOf(|s.disk|, s.hdus, Grows(|s.disk|, s.hdus, i))
    ensures MadeRoom(s, i, minBytes, s)
  {
    hide RoundUpToBlock, Grows, ShiftGap;
    assert Inserted(s.disk, end, []) == s.disk;
    assert MovedAll(s.hdus, end, 0) == s.hdus;
  }

  lemma RoomAtEnd(s: FileState, i: nat, minBytes: nat, want: nat)
    requires Consistent(s) && i < |s.hdus| && want == s.hdus[i].data + RoundUpToBlock(minBytes) && want > |s.disk|
    requires Grows(|s.disk|, s.hdus, i) == |s.hdus| - 1
    ensures MadeRoom(s, i, minBytes, s.(disk := ZerosInserted(s.disk, |s.disk|, want - |s.disk|)))
  {
    ConsistentIsSound(s);
    NoneMovesAtEnd(s, want - |s.disk|);
    hide RoundUpToBlock, Grows, ShiftGap, Consistent, Inserted, MovedAll, Movable;
  }

  lemma RoomBefore(s: FileState, i: nat, minBytes: nat, want: nat, end: nat)
    requires i < |s.hdus| && want == s.hdus[i].data + RoundUpToBlock(minBytes) && want > end
    requires Grows(|s.disk|, s.hdus, i) < |s.hdus| - 1
      && end == EndOf(|s.disk|, s.hdus, Grows(|s.disk|, s.hdus, i)) <= |s.disk|
    ensures MadeRoom(s, i, minBytes,
                     s.(disk := ShiftedUp(s.disk, end, want - end), hdus := MovedAll(s.hdus, end, want - end)))
  {
    hide RoundUpToBlock, Grows, ShiftGap, Inserted, MovedAll, Movable, ShiftedUp;
    ShiftedUpInserts(s.disk, end, want - end);
  }

  // An empty data section with another HDU right behind it: one byte is asked
  // for, and the other HDU's section gets the room.
  lemma EmptySectionGetsNoRoom(disk: seq<byte>, hdus: seq<Extent>)
    requires |disk| == 5760 && hdus == [Extent(0, 1, 2880), Extent(2880, 1, 5760)]
    ensures ValidLayout(|disk|, hdus)
    ensures Grows(|disk|, hdus, 0) == 1 && EndOf(|disk|, hdus, 1) == |disk|
    ensures var (disk', hdus') := WithRoom(disk, hdus, 0, 1);
      |hdus'| == 2 && EndOf(|disk'|, hdus', 0) == 2880 < 2880 + RoundUpToBlock(1)
  {
    assert forall j {:trigger hdus[j]} :: 0 <= j < 2 ==> WellPlaced(hdus[j]);
    assert ValidLayout(|disk|, hdus);
    hide ValidLayout, WithRoom, RoundUpToBlock;
    RoomIsMade(disk, hdus, 0, 1);
    OneByteNeedsABlock();
    var (disk', hdus') := WithRoom(disk, hdus, 0, 1);
    SectionsBehind(disk, hdus);
  }

  lemma OneByteNeedsABlock()
    ensures RoundUpToBlock(1) == 2880
  {
  }

  lemma SectionsBehind(disk: seq<byte>, hdus: seq<Extent>)
    requires |disk| == 5760 && hdus == [Extent(0, 1, 2880), Extent(2880, 1, 5760)]
    ensures Grows(|disk|, hdus, 0) == 1
    ensures var (disk', hdus') := WithRoom(disk, hdus, 0, 1); |hdus'| == 2 && hdus'[1].header == 2880
  {
    hide Inserted, RoomGap, RoundUpToBlock;
  }
}
