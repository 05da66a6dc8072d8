// The open file: the offset records every handle shares, and the calls that
// append HDUs, rewrite headers and resize data sections in place.
module FitsFiles {
  import opened FitsBytes
  import opened CardText
  import opened FileStorage
  import opened HeaderBlocks
  import opened LayoutModel
  import opened FileMoves
  import opened FileRuns
  import opened SoundRuns

  class HduOffsets {
    var header: nat
    var blocks: nat
    var data: nat

    constructor (header: nat, blocks: nat, data: nat)
      ensures Value() == Extent(header, blocks, data)
    {
      this.header, this.blocks, this.data := header, blocks, data;
    }

    ghost function Value(): (r: Extent)
      reads this
    {
      Extent(header, blocks, data)
    }
  }

  ghost predicate Distinct(layout: seq<HduOffsets>) {
    forall i, j :: 0 <= i < j < |layout| ==> layout[i] != layout[j]
  }

  ghost function Extents(layout: seq<HduOffsets>): (hdus: seq<Extent>)
    reads layout
    ensures |hdus| == |layout|
    ensures forall i :: 0 <= i < |layout| ==> hdus[i] == layout[i].Value()
  {
    seq(|layout|, i requires 0 <= i < |layout| reads layout => layout[i].Value())
  }

  // The offset updates of both shifts: every record whose header starts at or
  // after `from` moves by delta.
  method MoveOffsets(layout: seq<HduOffsets>, from: nat, delta: int)
    requires Distinct(layout) && Movable(Extents(layout), from, delta)
    modifies layout
    ensures Extents(layout) == MovedAll(old(Extents(layout)), from, delta)
  {
    ghost var was := Extents(layout);
    for k := 0 to |layout|
      invariant forall j :: 0 <= j < k ==> layout[j].Value() == Moved(was[j], from, delta)
      invariant forall j :: k <= j < |layout| ==> layout[j].Value() == was[j]
    {
      var h := layout[k];
      assert h.Value() == was[k];
      if h.header >= from {
        h.header := h.header + delta;
        h.data := h.data + delta;
      }
    }
  }

  class FitsFile {
    const file: Storage
    const chunk: nat
    var layout: seq<HduOffsets>
    var headers: seq<seq<string>>
    var sizes: seq<nat>
    var tainted: bool

    constructor (file: Storage, chunk: nat)
      requires file.bytes == [] && chunk > 0
      ensures Valid() && State() == FileState([], [], [], [], false) && this.file == file
    {
      this.file, this.chunk := file, chunk;
      layout, headers, sizes, tainted := [], [], [], false;
      new;
      assert Extents([]) == [];
    }

    ghost predicate Valid()
      reads this
    {
      chunk > 0 && Distinct(layout) && |layout| == |headers| == |sizes|
    }

    ghost function State(): (r: FileState)
      reads this, file, layout
    {
      FileState(file.bytes, Extents(layout), headers, sizes, tainted)
    }

    // The header half of append_header_and_data_to_file: the cards one after
    // another at the end of the file, then blanks to the end of the block.
    method AppendHeader(cards: seq<string>) returns (ok: bool)
      requires FullCards(cards)
      modifies file
      ensures ok ==> file.bytes == old(file.bytes) + HeaderBytes(cards)
      ensures old(file.bytes) <= file.bytes
      ensures !file.mayFail ==> ok
    {
      ghost var disk := file.bytes;
      ok := AppendCards(cards);
      if !ok { return; }
      HeaderFits(cards, BlocksFor(cards));
      BlankTail(|cards|);
      var pad := (BLOCK_SIZE - |cards| * CARD_SIZE % BLOCK_SIZE) % BLOCK_SIZE;
      hide CardsBytes, BlocksFor, Overwrite;
      SeqAssoc(disk, CardsBytes(cards), Repeat(BLANK_BYTE, pad));
      if pad > 0 {
        ok := AppendBytes(Repeat(BLANK_BYTE, pad));
      }
    }

    method AppendBytes(data: seq<byte>) returns (ok: bool)
      modifies file
      ensures ok ==> file.bytes == old(file.bytes) + data
      ensures old(file.bytes) <= file.bytes
      ensures !file.mayFail ==> ok
    {
      ok := file.Write(|file.bytes|, data);
    }

    method AppendCards(cards: seq<string>) returns (ok: bool)
      requires forall i :: 0 <= i < |cards| ==> |cards[i]| == CARD_SIZE
      modifies file
      ensures ok ==> file.bytes == old(file.bytes) + CardsBytes(cards)
      ensures old(file.bytes) <= file.bytes
      ensures !file.mayFail ==> ok
    {
      ghost var disk := file.bytes;
      ok := true;
      for i := 0 to |cards|
        invariant ok && file.bytes == disk + CardsBytes(cards[..i])
      {
        assert cards[..i + 1][..i] == cards[..i];
        SeqAssoc(disk, CardsBytes(cards[..i]), CardBytes(cards[i]));
        ok := AppendBytes(AsciiBytes(cards[i]));
        if !ok { return; }
      }
      assert cards[..|cards|] == cards;
    }

    // append_header_and_data_to_file
    method AppendHeaderAndData(cards: seq<string>, padded: nat) returns (ok: bool, offsets: HduOffsets)
      requires FullCards(cards)
      modifies file
      ensures ok ==> file.bytes == old(file.bytes) + HeaderBytes(cards) + Zeros(padded)
      ensures fresh(offsets)
      ensures ok ==>
        offsets.Value() == Extent(old(|file.bytes|), BlocksFor(cards), old(|file.bytes|) + 2880 * BlocksFor(cards))
      ensures old(file.bytes) <= file.bytes
      ensures !file.mayFail ==> ok
    {
      hide BlocksFor;
      var start := |file.bytes|;
      offsets := new HduOffsets(start, 0, start);
      ok := AppendHeader(cards);
      if !ok { return; }
      var end := |file.bytes|;
      if padded > 0 {
        ok := file.SetLen(end + padded);
        if !ok { return; }
      }
      ok := file.Flush();
      offsets := new HduOffsets(start, (end - start) / BLOCK_SIZE, end);
    }

    // An HDU creation: appended to the file, then registered in the layout.
    method AppendHdu(cards: seq<string>, size: nat) returns (ok: bool)
      requires Valid() && FullCards(cards)
      modifies this`layout, this`headers, this`sizes, file
      ensures Valid()
      ensures Next(old(State()), Op.Append(cards, size), State())
      ensures old(layout) <= layout && forall k :: |old(layout)| <= k < |layout| ==> fresh(layout[k])
      ensures if ok then State() == Appended(old(State()), cards, size) else TornAppend(old(State()), State())
      ensures !file.mayFail ==> ok
    {
      hide BlocksFor, HeaderBytes, RoundUpToBlock;
      var offsets;
      SeqAssoc(file.bytes, HeaderBytes(cards), Zeros(RoundUpToBlock(size)));
      ok, offsets := AppendHeaderAndData(cards, RoundUpToBlock(size));
      if ok {
        layout := layout + [offsets];
        headers := headers + [TrimmedAll(cards)];
        sizes := sizes + [size];
      }
    }

    // shift_file_tail_and_update_offsets
    method ShiftTail(after: nat, delta: nat) returns (ok: bool)
      requires Valid() && !tainted
      modifies this`tainted, file, layout
      ensures ok ==>
        State()
             == old(State()).(disk := ShiftedUp(old(file.bytes), after, delta),
                              hdus := MovedAll(old(Extents(layout)), after, delta))
      ensures !ok && !tainted ==> State() == old(State())
      ensures !file.mayFail ==> ok
    {
      hide ShiftedUp;
      var untouched;
      ok, untouched := ShiftTailUp(file, after, delta, chunk);
      if !ok {
        tainted := !untouched;
        return;
      }
      MoveOffsets(layout, after, delta);
    }

    // shift_file_tail_backward_and_update_offsets
    method ShiftTailBack(after: nat, delta: nat) returns (ok: bool)
      requires Valid() && !tainted && delta <= |file.bytes|
      requires Movable(Extents(layout), after, -(delta as int))
      modifies this`tainted, file, layout
      ensures ok ==> delta <= after
      ensures ok ==>
        State()
             == old(State()).(disk := ShiftedDown(old(file.bytes), after, delta),
                              hdus := MovedAll(old(Extents(layout)), after, -(delta as int)))
      ensures !ok && !tainted ==> State() == old(State())
      ensures !file.mayFail && delta <= after ==> ok
    {
      hide ShiftedDown;
      var untouched;
      ok, untouched := ShiftTailDown(file, after, delta, chunk);
      if !ok {
        tainted := !untouched;
        return;
      }
      MoveOffsets(layout, after, -(delta as int));
    }

    // The grow path of rewrite_header_to_disk: `more` empty blocks inserted
    // where HDU i's data starts.
    method GrowHeader(i: nat, more: nat) returns (ok: bool)
      requires Valid() && !tainted && i < |layout| && layout[i].header < layout[i].data
      modifies this`tainted, file, layout
      ensures ok ==>
        State()
             == old(State()).(disk := ShiftedUp(old(file.bytes), old(layout[i].data), 2880 * more),
                              hdus := GrownHeader(old(Extents(layout)), i, more))
      ensures !ok && !tainted ==> State() == old(State())
      ensures !file.mayFail ==> ok
    {
      hide ShiftedUp;
      var h := layout[i];
      assert Extents(layout)[i] == h.Value();
      ok := ShiftTail(h.data, 2880 * more);
      if !ok { return; }
      ghost var moved := Extents(layout);
      assert h.Value() == moved[i];
      h.blocks := h.blocks + more;
      h.data := h.data + 2880 * more;
      assert Extents(layout) == moved[i := h.Value()];
    }

    // rewrite_header_to_disk
    method RewriteHeader(i: nat, cards: seq<string>) returns (ok: bool)
      requires Valid() && !tainted && i < |layout| && Sound(State())
      modifies this`tainted, file, layout
      ensures ok ==> Rewritten(old(State()), i, cards, State())
      ensures !ok && !tainted ==> State() == old(State())
      ensures !file.mayFail ==> ok
    {
      ghost var s := State();
      SoundAt(s, i);
      RewriteCases(s, i, cards);
      hide Sound, BlocksFor, HeaderOnDisk, RoundUpToBlock, OwnEnd, ShiftedUp, GrownHeader;
      hide HeaderWritten, Rewritten, EndOf;
      var h := layout[i];
      assert s.hdus[i] == h.Value();
      var blocks := h.blocks;
      if |cards| > blocks * CARDS_PER_BLOCK {
        var needed := BlocksFor(cards);
        ok := GrowHeader(i, needed - blocks);
        if !ok { return; }
        blocks := needed;
      }
      ok := WriteHeader(h.header, cards, blocks);
    }

    // The second half of rewrite_header_to_disk: the blocks are there, print
    // the cards over them.
    method WriteHeader(offset: nat, cards: seq<string>, blocks: nat) returns (ok: bool)
      requires Valid() && !tainted && |cards| <= 36 * blocks
      modifies this`tainted, file
      ensures ok ==> State() == old(State()).(disk := HeaderWritten(old(file.bytes), offset, cards, blocks))
      ensures !ok ==> tainted
      ensures !file.mayFail ==> ok
    {
      hide HeaderImage, Overwrite;
      var image := PrintHeader(cards, blocks);
      ok := file.Write(offset, image);
      if ok {
        ok := file.Flush();
      }
      tainted := !ok;
    }

    // A header edit: refused when tainted; the disk is written first and the
    // cards in memory replaced only when that has worked.
    method EditHeader(i: nat, cards: seq<string>) returns (ok: bool)
      requires Valid() && i < |layout| && Good(State())
      modifies this`tainted, this`headers, file, layout
      ensures Valid() && Next(old(State()), Op.EditHeader(i, cards), State())
      ensures ok ==> headers == old(headers)[i := cards]
      ensures !ok ==> headers == old(headers)
      ensures !old(tainted) && !file.mayFail ==> ok
    {
      if tainted {
        return false;
      }
      hide Sound, HeaderEdited;
      ok := RewriteHeader(i, cards);
      if ok {
        headers := headers[i := cards];
      }
    }

    // The tail moved up and the hole it leaves zeroed.
    method InsertZeros(end: nat, delta: nat) returns (ok: bool)
      requires Valid() && !tainted && end <= |file.bytes|
      modifies this`tainted, file, layout
      ensures ok ==>
        State()
             == old(State()).(disk := ZerosInserted(old(file.bytes), end, delta),
                              hdus := MovedAll(old(Extents(layout)), end, delta))
      ensures !ok && !tainted ==> State() == old(State())
      ensures !file.mayFail ==> ok
    {
      ZeroedGap(file.bytes, end, delta);
      hide ShiftedUp, Overwrite, MovedAll, ZerosInserted;
      ok := ShiftTail(end, delta);
      if ok {
        ok := ZeroFillRange(file, end, delta, chunk);
        tainted := !ok;
      }
    }

    // At the end of the file there is nothing to move.
    method ExtendWithZeros(delta: nat) returns (ok: bool)
      requires Valid() && !tainted
      modifies this`tainted, file
      ensures ok ==> State() == old(State()).(disk := ZerosInserted(old(file.bytes), old(|file.bytes|), delta))
      ensures !ok ==> tainted
      ensures !file.mayFail ==> ok
    {
      ZeroedGap(file.bytes, |file.bytes|, delta);
      hide Resized, ZerosInserted;
      ok := file.SetLen(|file.bytes| + delta);
      tainted := !ok;
    }

    // grow_or_shrink_data_extent, the growing half.
    method GrowData(i: nat, was: nat, now: nat) returns (ok: bool)
      requires now > was
      requires Valid() && !tainted && i < |layout| && layout[i].data + was <= |file.bytes|
      requires Movable(Extents(layout), layout[i].data + was, now - was)
      requires |file.bytes| == layout[i].data + was ==>
        MovedAll(Extents(layout), layout[i].data + was, now - was) == Extents(layout)
      modifies this`tainted, file, layout
      ensures ok ==> State() == old(State()).(disk := ResizedDisk(old(file.bytes), old(layout[i].data), was, now),
                                              hdus := ResizedHdus(old(Extents(layout)), i, was, now))
      ensures !ok && !tainted ==> State() == old(State())
      ensures !file.mayFail ==> ok
    {
      ghost var disk, hdus := file.bytes, Extents(layout);
      assert hdus[i] == layout[i].Value();
      var end, delta := layout[i].data + was, now - was;
      GrowCases(disk, hdus, i, was, now);
      hide ZerosInserted, MovedAll, Movable, ResizedDisk, ResizedHdus;
      if |file.bytes| > end {
        ok := InsertZeros(end, delta);
      } else {
        ok := ExtendWithZeros(delta);
      }
    }

    // grow_or_shrink_data_extent, the shrinking half.
    method ShrinkData(i: nat, was: nat, now: nat) returns (ok: bool)
      requires now < was
      requires Valid() && !tainted && i < |layout| && layout[i].data + was <= |file.bytes|
      requires Movable(Extents(layout), layout[i].data + was, now - was)
      requires |file.bytes| == layout[i].data + was ==>
        MovedAll(Extents(layout), layout[i].data + was, now - was) == Extents(layout)
      modifies this`tainted, file, layout
      ensures ok ==> State() == old(State()).(disk := ResizedDisk(old(file.bytes), old(layout[i].data), was, now),
                                              hdus := ResizedHdus(old(Extents(layout)), i, was, now))
      ensures !ok && !tainted ==> State() == old(State())
      ensures !file.mayFail ==> ok
    {
      ghost var disk, hdus := file.bytes, Extents(layout);
      assert hdus[i] == layout[i].Value();
      var end, delta := layout[i].data + was, was - now;
      ShrinkCases(disk, hdus, i, was, now);
      hide ShiftedDown, Resized, MovedAll, Movable, ResizedDisk, ResizedHdus;
      if |file.bytes| > end {
        ok := ShiftTailBack(end, delta);
      } else {
        ok := file.SetLen(end - delta);
        tainted := !ok;
      }
    }

    // grow_or_shrink_data_extent: HDU i's data section goes from `was` to
    // `now` padded bytes.
    method ChangeExtent(i: nat, was: nat, now: nat) returns (ok: bool)
      requires Valid() && !tainted && i < |layout| && layout[i].data + was <= |file.bytes|
      requires Movable(Extents(layout), layout[i].data + was, now - was)
      requires |file.bytes| == layout[i].data + was ==>
        MovedAll(Extents(layout), layout[i].data + was, now - was) == Extents(layout)
      modifies this`tainted, file, layout
      ensures ok ==> State() == old(State()).(disk := ResizedDisk(old(file.bytes), old(layout[i].data), was, now),
                                              hdus := ResizedHdus(old(Extents(layout)), i, was, now))
      ensures !ok && !tainted ==> State() == old(State())
      ensures !file.mayFail ==> ok
    {
      ghost var hdus := Extents(layout);
      assert hdus[i] == layout[i].Value();
      SameExtent(file.bytes, hdus, i, was);
      hide MovedAll, ResizedDisk, ResizedHdus, Movable;
      ok := true;
      if now > was {
        ok := GrowData(i, was, now);
      } else if now < was {
        ok := ShrinkData(i, was, now);
      }
    }

    method SetSize(i: nat, size: nat)
      requires Valid() && i < |layout|
      modifies this`sizes
      ensures Valid() && State() == old(State()).(sizes := old(sizes)[i := size])
    {
      sizes := sizes[i := size];
    }

    // The extent change of a schema edit, once the new row size is known.
    method ResizeData(i: nat, size: nat) returns (ok: bool)
      requires Valid() && i < |layout| && Good(State())
      modifies this`tainted, this`sizes, file, layout
      ensures Valid() && Next(old(State()), Op.ResizeData(i, size), State())
      ensures !old(tainted) && !file.mayFail ==> ok
      ensures ok ==> sizes == old(sizes)[i := size]
    {
      ghost var s := State();
      if tainted {
        ResizeIsNext(s, i, size, s);
        return false;
      }
      ResizeFacts(s, i, size);
      hide Sound, RoundUpToBlock, Movable, MovedAll, ResizedDisk, ResizedHdus, Next, DataResized, EndOf;
      assert s.hdus[i] == layout[i].Value();
      ok := ChangeExtent(i, RoundUpToBlock(sizes[i]), RoundUpToBlock(size));
      if ok {
        SetSize(i, size);
        ResizeDone(s, i, size, State());
      } else {
        ResizeIsNext(s, i, size, State());
      }
    }
  }

  lemma ResizeDone(s: FileState, i: nat, size: nat, s': FileState)
    requires !s.tainted && Resizable(s, i)
    requires var was, now := RoundUpToBlock(s.sizes[i]), RoundUpToBlock(size);
      s' == s.(disk := ResizedDisk(s.disk, s.hdus[i].data, was, now), hdus := ResizedHdus(s.hdus, i, was, now),
               sizes := s.sizes[i := size])
    ensures Next(s, Op.ResizeData(i, size), s')
  {
    hide ResizedDisk, ResizedHdus, RoundUpToBlock;
  }

  lemma SameExtent(disk: seq<byte>, hdus: seq<Extent>, i: nat, was: nat)
    requires i < |hdus| && hdus[i].data + was <= |disk|
    ensures ResizedHdus(hdus, i, was, was) == hdus && ResizedDisk(disk, hdus[i].data, was, was) == disk
  {
  }

  lemma ZeroedGap(disk: seq<byte>, end: nat, delta: nat)
    requires end <= |disk|
    ensures |ShiftedUp(disk, end, delta)| == |disk| + delta
    ensures Overwrite(ShiftedUp(disk, end, delta), end, Zeros(delta)) == ZerosInserted(disk, end, delta)
    ensures |disk| == end ==> Resized(disk, end + delta) == ZerosInserted(disk, end, delta)
  {
    ShiftedUpInserts(disk, end, delta);
    hide ShiftedUp;
  }

  lemma GrowCases(disk: seq<byte>, hdus: seq<Extent>, i: nat, was: nat, now: nat)
    requires i < |hdus| && hdus[i].data + was <= |disk| && now > was
    ensures ResizedHdus(hdus, i, was, now) == MovedAll(hdus, hdus[i].data + was, now - was)
    ensures ZerosInserted(disk, hdus[i].data + was, now - was) == ResizedDisk(disk, hdus[i].data, was, now)
  {
  }

  lemma ShrinkCases(disk: seq<byte>, hdus: seq<Extent>, i: nat, was: nat, now: nat)
    requires i < |hdus| && hdus[i].data + was <= |disk| && now < was && Movable(hdus, hdus[i].data + was, now - was)
    ensures var end, delta := hdus[i].data + was, was - now;
      && Movable(hdus, end, -delta)
      && ResizedHdus(hdus, i, was, now) == MovedAll(hdus, end, -delta) == MovedAll(hdus, end, now - was)
      && ShiftedDown(disk, end, delta) == ResizedDisk(disk, hdus[i].data, was, now)
      && (|disk| == end ==> Resized(disk, end - delta) == ResizedDisk(disk, hdus[i].data, was, now))
  {
    assert -(was - now) == now - was;
  }

  // No record starts at or past the end of the file.
  lemma NoneMovesAtEnd(s: FileState, delta: int)
    requires Sound(s)
    ensures Movable(s.hdus, |s.disk|, delta) && MovedAll(s.hdus, |s.disk|, delta) == s.hdus
  {
    forall j | 0 <= j < |s.hdus|
      ensures s.hdus[j].header < |s.disk|
    {
      SoundAt(s, j);
    }
  }

  lemma ResizeFacts(s: FileState, i: nat, size: nat)
    requires Sound(s) && i < |s.hdus|
    ensures |s.sizes| == |s.hdus| && Resizable(s, i)
    ensures var was, now := RoundUpToBlock(s.sizes[i]), RoundUpToBlock(size);
      && Movable(s.hdus, s.hdus[i].data + was, now - was)
      && (|s.disk| == s.hdus[i].data + was ==> MovedAll(s.hdus, s.hdus[i].data + was, now - was) == s.hdus)
  {
    hide Sound, RoundUpToBlock, Movable, MovedAll, DataResized, Displaced, Resizable;
    ResizeMoves(s, i, size);
    ResizableAt(s, i);
    NoneMovesAtEnd(s, RoundUpToBlock(size) as int - RoundUpToBlock(s.sizes[i]));
  }

  lemma ResizableAt(s: FileState, i: nat)
    requires Resizable(s, i)
    ensures i < |s.hdus| && i < |s.sizes| && s.hdus[i].data + RoundUpToBlock(s.sizes[i]) <= |s.disk|
  {
  }

  lemma ResizeIsNext(s: FileState, i: nat, size: nat, s': FileState)
    requires s' == s || (!s.tainted && Lost(s, s')) || (!s.tainted && Resizable(s, i) && s' == DataResized(s, i, size))
    ensures Next(s, Op.ResizeData(i, size), s')
  {
  }

  lemma BlankTail(n: nat)
    ensures (2880 - n * 80 % 2880) % 2880 == 2880 * DivCeil(n, CARDS_PER_BLOCK) - 80 * n
  {
    var q, r := n / 36, n % 36;
    assert n * 80 == 2880 * q + 80 * r;
    assert n * 80 % 2880 == 80 * r;
    assert DivCeil(n, CARDS_PER_BLOCK) == if r == 0 then q else q + 1;
  }

  // What rewrite_header_to_disk leaves: the edited file, the cards in memory
  // not yet replaced.
  ghost predicate Rewritten(s: FileState, i: nat, cards: seq<string>, s': FileState) {
    && i < |s.hdus| && i < |s.cards| && s.hdus[i].data <= |s.disk|
    && s' == HeaderEdited(s, i, cards).(cards := s.cards)
  }

  lemma RewriteCases(s: FileState, i: nat, cards: seq<string>)
    requires i < |s.hdus| && i < |s.cards| && s.hdus[i].data <= |s.disk|
    ensures |cards| <= 36 * BlocksFor(cards)
    ensures |cards| > 36 * s.hdus[i].blocks ==> BlocksFor(cards) > s.hdus[i].blocks
    ensures |cards| <= 36 * s.hdus[i].blocks ==>
      Rewritten(s, i, cards, s.(disk := HeaderWritten(s.disk, s.hdus[i].header, cards, s.hdus[i].blocks)))
    ensures |cards| > 36 * s.hdus[i].blocks ==>
      var more := BlocksFor(cards) - s.hdus[i].blocks;
      Rewritten(s, i, cards,
                s.(disk := HeaderWritten(ShiftedUp(s.disk, s.hdus[i].data, 2880 * more), s.hdus[i].header, cards,
                                         BlocksFor(cards)),
                                hdus := GrownHeader(s.hdus, i, more)))
  {
    HeaderFits(cards, BlocksFor(cards));
    MoreBlocks(cards, s.hdus[i].blocks);
    hide HeaderWritten, BlocksFor, Rewritten, ShiftedUp, GrownHeader;
    if |cards| <= 36 * s.hdus[i].blocks {
      RewrittenInPlace(s, i, cards);
    } else {
      RewrittenGrown(s, i, cards);
    }
  }

  lemma RewrittenInPlace(s: FileState, i: nat, cards: seq<string>)
    requires i < |s.hdus| && i < |s.cards| && s.hdus[i].data <= |s.disk|
    requires |cards| <= 36 * s.hdus[i].blocks && BlocksFor(cards) <= s.hdus[i].blocks
    ensures Rewritten(s, i, cards, s.(disk := HeaderWritten(s.disk, s.hdus[i].header, cards, s.hdus[i].blocks)))
  {
    GrownHeaderAt(s.hdus, i, 0);
    hide HeaderWritten, BlocksFor, GrownHeader;
    assert BlocksAfter(s.hdus[i], cards) == s.hdus[i].blocks;
    assert s.cards[i := cards][i := s.cards[i]] == s.cards;
  }

  lemma RewrittenGrown(s: FileState, i: nat, cards: seq<string>)
    requires i < |s.hdus| && i < |s.cards| && s.hdus[i].data <= |s.disk|
    requires BlocksFor(cards) > s.hdus[i].blocks && |cards| <= 36 * BlocksFor(cards)
    ensures var more := BlocksFor(cards) - s.hdus[i].blocks;
      Rewritten(s, i, cards,
                s.(disk := HeaderWritten(ShiftedUp(s.disk, s.hdus[i].data, 2880 * more), s.hdus[i].header, cards,
                                         BlocksFor(cards)),
                                hdus := GrownHeader(s.hdus, i, more)))
  {
    hide HeaderWritten, BlocksFor, GrownHeader, ShiftedUp;
    assert BlocksAfter(s.hdus[i], cards) == BlocksFor(cards);
  }

  lemma MoreBlocks(cards: seq<string>, blocks: nat)
    ensures |cards| > 36 * blocks <==> BlocksFor(cards) > blocks
  {
  }
}
