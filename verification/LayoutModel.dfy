// The file as the library sees it: a byte string and one offset record per
// HDU.  Header grows, data grows, data shrinks and appends as functions, and
// what each of them keeps.
module LayoutModel {
  import opened FitsBytes

  // One HduOffsets record.
  datatype Extent = Extent(header: nat, blocks: nat, data: nat)

  function EndOf(len: nat, hdus: seq<Extent>, i: nat): (n: nat)
    requires i < |hdus|
  {
    if i + 1 < |hdus| then hdus[i + 1].header else len
  }

  predicate Aligned(n: int) {
    n % 2880 == 0
  }

  lemma AlignedSum(a: int, b: int)
    requires Aligned(b)
    ensures Aligned(a + b) <==> Aligned(a)
  {
  }

  predicate WellPlaced(h: Extent) {
    h.blocks >= 1 && h.data == h.header + 2880 * h.blocks && Aligned(h.header)
  }

  // Every record satisfies data = header + blocks * 2880; the extents are
  // block-aligned, in order, and cover the file without gap or overlap.
  predicate ValidLayout(len: nat, hdus: seq<Extent>) {
    && Aligned(len)
    && (forall i :: 0 <= i < |hdus| ==> WellPlaced(hdus[i]))
    && (forall i {:trigger EndOf(len, hdus, i)} :: 0 <= i < |hdus| ==> hdus[i].data <= EndOf(len, hdus, i))
    && (if hdus == [] then len == 0 else hdus[0].header == 0)
  }

  function HduBytes(disk: seq<byte>, hdus: seq<Extent>, i: nat): (bytes: seq<byte>)
    requires i < |hdus| && hdus[i].header <= EndOf(|disk|, hdus, i) <= |disk|
  {
    disk[hdus[i].header..EndOf(|disk|, hdus, i)]
  }

  // Extents come in the order of their index.
  lemma {:induction false} Ordered(len: nat, hdus: seq<Extent>, i: nat, j: nat)
    requires ValidLayout(len, hdus) && i < j < |hdus|
    ensures hdus[i].data <= hdus[j].header
    decreases j - i
  {
    assert hdus[i].data <= EndOf(len, hdus, i);
    if i + 1 < j {
      assert WellPlaced(hdus[i + 1]);
      hide Aligned;
      Ordered(len, hdus, i + 1, j);
    }
  }

  // Each extent lies inside the file.
  lemma Inside(len: nat, hdus: seq<Extent>, i: nat)
    requires ValidLayout(len, hdus) && i < |hdus|
    ensures WellPlaced(hdus[i])
    ensures hdus[i].header < hdus[i].data <= EndOf(len, hdus, i) <= len
  {
    hide Aligned;
    var last := |hdus| - 1;
    assert EndOf(len, hdus, last) == len && EndOf(len, hdus, i) >= hdus[i].data;
    assert WellPlaced(hdus[i]) && WellPlaced(hdus[last]);
    if i + 1 < last {
      Ordered(len, hdus, i + 1, last);
      assert WellPlaced(hdus[i + 1]);
    } else if i < last {
      assert EndOf(len, hdus, i) == hdus[last].header;
    }
  }

  // ===== moving a tail =====

  // shift: every record whose header starts at or after `from` moves by delta.
  function Moved(h: Extent, from: nat, delta: int): (r: Extent)
    requires h.header >= from ==> h.header + delta >= 0 && h.data + delta >= 0
  {
    if h.header >= from then Extent(h.header + delta, h.blocks, h.data + delta) else h
  }

  predicate Movable(hdus: seq<Extent>, from: nat, delta: int) {
    forall i :: 0 <= i < |hdus| && hdus[i].header >= from ==> hdus[i].header + delta >= 0 && hdus[i].data + delta >= 0
  }

  function MovedAll(hdus: seq<Extent>, from: nat, delta: int): (r: seq<Extent>)
    requires Movable(hdus, from, delta)
    ensures |r| == |hdus|
    ensures forall i :: 0 <= i < |hdus| ==> r[i] == Moved(hdus[i], from, delta)
  {
    seq(|hdus|, i requires 0 <= i < |hdus| => Moved(hdus[i], from, delta))
  }

  function Inserted(disk: seq<byte>, at: nat, gap: seq<byte>): (r: seq<byte>)
    requires at <= |disk|
    ensures |r| == |disk| + |gap|
  {
    disk[..at] + gap + disk[at..]
  }

  function Removed(disk: seq<byte>, at: nat, n: nat): (r: seq<byte>)
    requires n <= at <= |disk|
    ensures |r| == |disk| - n
  {
    disk[..at - n] + disk[at..]
  }

  lemma InsertedSlices(disk: seq<byte>, at: nat, gap: seq<byte>, lo: nat, hi: nat)
    requires at <= |disk| && lo <= hi <= |disk|
    ensures hi <= at ==> Inserted(disk, at, gap)[lo..hi] == disk[lo..hi]
    ensures lo >= at ==> Inserted(disk, at, gap)[lo + |gap|..hi + |gap|] == disk[lo..hi]
  {
  }

  lemma RemovedSlices(disk: seq<byte>, at: nat, n: nat, lo: nat, hi: nat)
    requires n <= at <= |disk| && lo <= hi <= |disk|
    ensures hi <= at - n ==> Removed(disk, at, n)[lo..hi] == disk[lo..hi]
    ensures lo >= at ==> Removed(disk, at, n)[lo - n..hi - n] == disk[lo..hi]
  {
  }

  // Which records a move at a point inside HDU i touches: the later ones.
  lemma MovesLaterOnes(len: nat, hdus: seq<Extent>, i: nat, from: nat, j: nat)
    requires ValidLayout(len, hdus) && i < |hdus| && j < |hdus|
    requires hdus[i].data <= from <= EndOf(len, hdus, i)
    ensures hdus[j].header >= from <==> j > i
    ensures hdus[j].data > hdus[j].header
  {
    Inside(len, hdus, i);
    Inside(len, hdus, j);
    if j > i + 1 {
      Inside(len, hdus, i + 1);
      Ordered(len, hdus, i + 1, j);
    } else if j < i {
      Ordered(len, hdus, j, i);
    }
  }

  // ===== the edits =====

  // HDU j keeps the length of its header and all its bytes.
  predicate SameHdu(disk: seq<byte>, hdus: seq<Extent>, disk': seq<byte>, hdus': seq<Extent>, j: nat) {
    && j < |hdus| == |hdus'|
    && hdus[j].header <= EndOf(|disk|, hdus, j) <= |disk|
    && hdus'[j].header <= EndOf(|disk'|, hdus', j) <= |disk'|
    && hdus'[j].data - hdus'[j].header == hdus[j].data - hdus[j].header
    && HduBytes(disk', hdus', j) == HduBytes(disk, hdus, j)
  }

  // Every HDU but i reads the same bytes through its record.
  predicate KeepsOthers(disk: seq<byte>, hdus: seq<Extent>, disk': seq<byte>, hdus': seq<Extent>, i: nat) {
    && |hdus'| == |hdus|
    && forall j :: 0 <= j < |hdus| && j != i ==> SameHdu(disk, hdus, disk', hdus', j)
  }

  // The data section of HDU i.
  function DataBytes(disk: seq<byte>, hdus: seq<Extent>, i: nat): (bytes: seq<byte>)
    requires i < |hdus| && hdus[i].data <= EndOf(|disk|, hdus, i) <= |disk|
  {
    disk[hdus[i].data..EndOf(|disk|, hdus, i)]
  }

  // The records after an edit of HDU i: it starts where it did, the earlier
  // ones are as before and the later ones have all moved by delta.
  predicate StretchedAt(hdus: seq<Extent>, hdus': seq<Extent>, i: nat, delta: int) {
    && |hdus'| == |hdus| && i < |hdus|
    && hdus'[i].header == hdus[i].header && WellPlaced(hdus'[i])
    && (forall j :: 0 <= j < i ==> hdus'[j] == hdus[j])
    && (forall j :: i < j < |hdus| ==>
          hdus'[j].header == hdus[j].header + delta && hdus'[j].blocks == hdus[j].blocks
            && hdus'[j].data == hdus[j].data + delta)
  }

  lemma StretchedEnd(len: nat, hdus: seq<Extent>, i: nat, delta: int, hdus': seq<Extent>, j: nat)
    requires StretchedAt(hdus, hdus', i, delta) && j < |hdus| && len + delta >= 0
    ensures EndOf(len + delta, hdus', j) == EndOf(len, hdus, j) + (if j >= i then delta else 0)
  {
  }

  lemma StretchStaysValid(len: nat, hdus: seq<Extent>, i: nat, delta: int, hdus': seq<Extent>)
    requires ValidLayout(len, hdus) && StretchedAt(hdus, hdus', i, delta) && Aligned(delta)
    requires hdus'[i].data <= EndOf(len, hdus, i) + delta
    ensures len + delta >= 0 && ValidLayout(len + delta, hdus')
    ensures EndOf(len + delta, hdus', i) == EndOf(len, hdus, i) + delta
  {
    Inside(len, hdus, i);
    AlignedSum(len, delta);
    StretchedEnd(len, hdus, i, delta, hdus', i);
    forall j | 0 <= j < |hdus|
      ensures WellPlaced(hdus'[j])
      ensures hdus'[j].data <= EndOf(len + delta, hdus', j)
    {
      Inside(len, hdus, j);
      AlignedSum(hdus[j].header, delta);
      StretchedEnd(len, hdus, i, delta, hdus', j);
    }
  }

  // A lemma for every move: what lies before or after the edited HDU and is
  // moved with its record is read unchanged.
  lemma MovedHduSame(disk: seq<byte>, hdus: seq<Extent>, disk': seq<byte>, hdus': seq<Extent>, i: nat, delta: int,
                     j: nat)
    requires ValidLayout(|disk|, hdus) && StretchedAt(hdus, hdus', i, delta) && j < |hdus| && j != i
    requires |disk'| == |disk| + delta
    requires 0 <= hdus[j].header <= EndOf(|disk|, hdus, j) <= |disk|
    requires var lo, hi, d := hdus[j].header, EndOf(|disk|, hdus, j), if j > i then delta else 0;
      0 <= lo + d && hi + d <= |disk'| && disk'[lo + d..hi + d] == disk[lo..hi]
    ensures SameHdu(disk, hdus, disk', hdus', j)
  {
    StretchedEnd(|disk|, hdus, i, delta, hdus', j);
  }

  lemma InsertKeepsOthers(disk: seq<byte>, hdus: seq<Extent>, i: nat, at: nat, gap: seq<byte>, hdus': seq<Extent>)
    requires ValidLayout(|disk|, hdus) && i < |hdus|
    requires hdus[i].data <= at <= EndOf(|disk|, hdus, i) <= |disk|
    requires StretchedAt(hdus, hdus', i, |gap|)
    ensures KeepsOthers(disk, hdus, Inserted(disk, at, gap), hdus', i)
  {
    forall j | 0 <= j < |hdus| && j != i
      ensures SameHdu(disk, hdus, Inserted(disk, at, gap), hdus', j)
    {
      OutsideEdit(|disk|, hdus, i, j);
      hide *;
      InsertedSlices(disk, at, gap, hdus[j].header, EndOf(|disk|, hdus, j));
      MovedHduSame(disk, hdus, Inserted(disk, at, gap), hdus', i, |gap|, j);
    }
  }

  // An HDU other than i lies wholly before or wholly after it.
  lemma OutsideEdit(len: nat, hdus: seq<Extent>, i: nat, j: nat)
    requires ValidLayout(len, hdus) && i < |hdus| && j < |hdus| && i != j
    ensures hdus[j].header <= EndOf(len, hdus, j) <= len
    ensures j < i ==> EndOf(len, hdus, j) <= hdus[i].header < hdus[i].data
    ensures j > i ==> EndOf(len, hdus, i) <= hdus[j].header
  {
    Inside(len, hdus, i);
    Inside(len, hdus, j);
    if j + 1 < i {
      Inside(len, hdus, j + 1);
      Ordered(len, hdus, j + 1, i);
    } else if j > i + 1 {
      Inside(len, hdus, i + 1);
      Ordered(len, hdus, i + 1, j);
    }
  }

  function GrownHeader(hdus: seq<Extent>, i: nat, blocks: nat): (r: seq<Extent>)
    requires i < |hdus|
  {
    var h := hdus[i];
    MovedAll(hdus, h.data, 2880 * blocks)[i := Extent(h.header, h.blocks + blocks, h.data + 2880 * blocks)]
  }

  lemma MoveStretches(len: nat, hdus: seq<Extent>, i: nat, at: nat, delta: int)
    requires ValidLayout(len, hdus) && i < |hdus| && hdus[i].data <= at <= EndOf(len, hdus, i)
    requires delta >= 0 || -delta <= at
    ensures Movable(hdus, at, delta)
    ensures StretchedAt(hdus, MovedAll(hdus, at, delta), i, delta)
    ensures MovedAll(hdus, at, delta)[i] == hdus[i]
  {
    Inside(len, hdus, i);
    forall j | 0 <= j < |hdus|
      ensures hdus[j].header >= at <==> j > i
      ensures hdus[j].data > hdus[j].header
    {
      MovesLaterOnes(len, hdus, i, at, j);
    }
  }

  // Growing a header: the data section and all other HDUs read as before.
  lemma HeaderGrowKeeps(disk: seq<byte>, hdus: seq<Extent>, i: nat, blocks: nat, gap: seq<byte>)
    requires ValidLayout(|disk|, hdus) && i < |hdus| && |gap| == 2880 * blocks
    ensures hdus[i].data <= EndOf(|disk|, hdus, i) <= |disk|
    ensures ValidLayout(|disk| + |gap|, GrownHeader(hdus, i, blocks))
    ensures KeepsOthers(disk, hdus, Inserted(disk, hdus[i].data, gap), GrownHeader(hdus, i, blocks), i)
    ensures hdus[i].data + |gap| <= EndOf(|disk| + |gap|, GrownHeader(hdus, i, blocks), i) <= |disk| + |gap|
    ensures DataBytes(Inserted(disk, hdus[i].data, gap), GrownHeader(hdus, i, blocks), i) == DataBytes(disk, hdus, i)
  {
    Inside(|disk|, hdus, i);
    var hdus' := GrownHeader(hdus, i, blocks);
    MoveStretches(|disk|, hdus, i, hdus[i].data, |gap|);
    assert WellPlaced(hdus'[i]);
    assert StretchedAt(hdus, hdus', i, |gap|);
    hide ValidLayout, StretchedAt, WellPlaced, EndOf, MovedAll, Inserted, KeepsOthers;
    StretchStaysValid(|disk|, hdus, i, |gap|, hdus');
    InsertKeepsOthers(disk, hdus, i, hdus[i].data, gap, hdus');
    InsertedSlices(disk, hdus[i].data, gap, hdus[i].data, EndOf(|disk|, hdus, i));
  }

  // Growing a data section: the HDU itself reads as before followed by the gap.
  lemma DataGrowKeeps(disk: seq<byte>, hdus: seq<Extent>, i: nat, gap: seq<byte>)
    requires ValidLayout(|disk|, hdus) && i < |hdus| && Aligned(|gap|)
    ensures hdus[i].header <= EndOf(|disk|, hdus, i) <= |disk|
    ensures var at := EndOf(|disk|, hdus, i);
      && ValidLayout(|disk| + |gap|, MovedAll(hdus, at, |gap|))
      && KeepsOthers(disk, hdus, Inserted(disk, at, gap), MovedAll(hdus, at, |gap|), i)
      && MovedAll(hdus, at, |gap|)[i] == hdus[i]
      && EndOf(|disk| + |gap|, MovedAll(hdus, at, |gap|), i) == at + |gap| <= |disk| + |gap|
      && HduBytes(Inserted(disk, at, gap), MovedAll(hdus, at, |gap|), i) == HduBytes(disk, hdus, i) + gap
  {
    Inside(|disk|, hdus, i);
    var at := EndOf(|disk|, hdus, i);
    MoveStretches(|disk|, hdus, i, at, |gap|);
    hide ValidLayout, StretchedAt, WellPlaced, EndOf, MovedAll, KeepsOthers, Aligned;
    StretchStaysValid(|disk|, hdus, i, |gap|, MovedAll(hdus, at, |gap|));
    InsertKeepsOthers(disk, hdus, i, at, gap, MovedAll(hdus, at, |gap|));
    assert Inserted(disk, at, gap)[hdus[i].header..at + |gap|] == disk[hdus[i].header..at] + gap;
  }

  // Shrinking a data section by n bytes: the HDU itself is cut.
  lemma DataShrinkKeeps(disk: seq<byte>, hdus: seq<Extent>, i: nat, n: nat)
    requires ValidLayout(|disk|, hdus) && i < |hdus| && Aligned(n)
    requires hdus[i].data + n <= EndOf(|disk|, hdus, i)
    ensures hdus[i].header <= EndOf(|disk|, hdus, i) - n && EndOf(|disk|, hdus, i) <= |disk|
    ensures var at := EndOf(|disk|, hdus, i);
      && Movable(hdus, at, -(n as int))
      && ValidLayout(|disk| - n, MovedAll(hdus, at, -(n as int)))
      && KeepsOthers(disk, hdus, Removed(disk, at, n), MovedAll(hdus, at, -(n as int)), i)
      && MovedAll(hdus, at, -(n as int))[i] == hdus[i]
      && EndOf(|disk| - n, MovedAll(hdus, at, -(n as int)), i) == at - n
      && HduBytes(Removed(disk, at, n), MovedAll(hdus, at, -(n as int)), i) == disk[hdus[i].header..at - n]
  {
    Inside(|disk|, hdus, i);
    var at := EndOf(|disk|, hdus, i);
    var delta: int := -(n as int);
    MoveStretches(|disk|, hdus, i, at, delta);
    var hdus' := MovedAll(hdus, at, delta);
    AlignedNegation(n);
    hide ValidLayout, StretchedAt, WellPlaced, EndOf, MovedAll, KeepsOthers, Aligned, Movable;
    StretchStaysValid(|disk|, hdus, i, delta, hdus');
    RemoveKeepsOthers(disk, hdus, i, n, hdus');
    RemovedSlices(disk, at, n, hdus[i].header, at - n);
  }

  lemma RemoveKeepsOthers(disk: seq<byte>, hdus: seq<Extent>, i: nat, n: nat, hdus': seq<Extent>)
    requires ValidLayout(|disk|, hdus) && i < |hdus| && hdus[i].data + n <= EndOf(|disk|, hdus, i) <= |disk|
    requires StretchedAt(hdus, hdus', i, -(n as int))
    ensures KeepsOthers(disk, hdus, Removed(disk, EndOf(|disk|, hdus, i), n), hdus', i)
  {
    var at := EndOf(|disk|, hdus, i);
    forall j | 0 <= j < |hdus| && j != i
      ensures SameHdu(disk, hdus, Removed(disk, at, n), hdus', j)
    {
      OutsideEdit(|disk|, hdus, i, j);
      hide *;
      RemovedSlices(disk, at, n, hdus[j].header, EndOf(|disk|, hdus, j));
      MovedHduSame(disk, hdus, Removed(disk, at, n), hdus', i, -(n as int), j);
    }
  }

  lemma AlignedNegation(n: nat)
    requires Aligned(n)
    ensures Aligned(-(n as int))
  {
  }

  // Appending an HDU at the end of the file.
  lemma AppendKeeps(disk: seq<byte>, hdus: seq<Extent>, added: seq<byte>, blocks: nat)
    requires ValidLayout(|disk|, hdus) && blocks >= 1
    requires Aligned(|added|) && |added| >= 2880 * blocks
    ensures var disk', hdus' := disk + added, hdus + [Extent(|disk|, blocks, |disk| + 2880 * blocks)];
      && ValidLayout(|disk'|, hdus')
      && HduBytes(disk', hdus', |hdus|) == added
      && forall j :: 0 <= j < |hdus| ==>
           && hdus[j].header <= EndOf(|disk|, hdus, j) <= |disk|
           && hdus'[j].header <= EndOf(|disk'|, hdus', j) <= |disk'|
           && HduBytes(disk', hdus', j) == HduBytes(disk, hdus, j)
  {
    var disk', hdus' := disk + added, hdus + [Extent(|disk|, blocks, |disk| + 2880 * blocks)];
    AlignedSum(|disk|, |added|);
    hide Aligned;
    forall j | 0 <= j < |hdus|
      ensures WellPlaced(hdus'[j])
      ensures hdus[j].header < hdus[j].data <= EndOf(|disk|, hdus, j) <= |disk|
      ensures EndOf(|disk'|, hdus', j) == EndOf(|disk|, hdus, j)
    {
      Inside(|disk|, hdus, j);
    }
    assert disk'[|disk|..|disk'|] == added;
  }
}
