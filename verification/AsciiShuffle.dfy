// Reshaping the rows of a table in place, strip by strip: the last strip first
// when rows grow, the first strip first when they shrink.
module AsciiShuffles {
  import opened FitsBytes
  import opened SliceMath
  import opened FileStorage
  import opened AsciiRows

  // A column put in after the first `pre` bytes of every row, its cells as
  // text or unprintable; or `width` bytes taken out there.
  datatype Edit =
    | InsertCells(pre: nat, width: nat, cells: seq<Option<seq<byte>>>)
    | DeleteBytes(pre: nat, width: nat)

  function NewWidth(edit: Edit, w: nat): (nw: nat) {
    if edit.InsertCells? then w + edit.width else Max(0, w - edit.width)
  }

  predicate Suits(edit: Edit, n: nat, w: nat) {
    match edit
    case InsertCells(pre, width, cells) =>
      pre <= w && |cells| == n && forall r :: 0 <= r < n && cells[r].Some? ==> |cells[r].value| == width
    case DeleteBytes(pre, width) => pre + width <= w
  }

  // Every row from `lo` to `hi` can be built.
  predicate Printable(edit: Edit, lo: nat, hi: nat) {
    edit.InsertCells? ==> hi <= |edit.cells| && forall r :: lo <= r < hi ==> edit.cells[r].Some?
  }

  // Row r after the edit.
  function EditedRow(edit: Edit, r: nat, row: seq<byte>): (edited: seq<byte>) {
    match edit
    case InsertCells(pre, width, cells) =>
      if pre <= |row| && r < |cells| && cells[r].Some? then row[..pre] + cells[r].value + row[pre..] else row
    case DeleteBytes(pre, width) =>
      if pre + width <= |row| then row[..pre] + row[pre + width..] else row
  }

  lemma EditedLength(edit: Edit, n: nat, w: nat, r: nat, row: seq<byte>)
    requires Suits(edit, n, w) && r < n && Printable(edit, r, r + 1) && |row| == w
    ensures |EditedRow(edit, r, row)| == NewWidth(edit, w)
  {
  }

  // ----- one strip -----

  // Row k of a buffer of rows.
  function BufferRow(buf: seq<byte>, w: nat, k: nat): (row: seq<byte>) {
    RowBytes(buf, 0, w, k)
  }

  // The buffers of one strip: c rows, the first of which is row `first`.
  ghost predicate StripEdited(edit: Edit, w: nat, first: nat, c: nat, old_: seq<byte>, new_: seq<byte>)
  {
    && |new_| == RowStart(0, NewWidth(edit, w), c)
    && forall k :: 0 <= k < c ==>
         BufferRow(new_, NewWidth(edit, w), k) == EditedRow(edit, first + k, BufferRow(old_, w, k))
  }

  lemma RowSlice(buf: seq<byte>, offset: nat, w: nat, k: nat)
    requires RowStart(offset, w, k + 1) <= |buf|
    ensures RowStart(offset, w, k + 1) == RowStart(offset, w, k) + w
    ensures RowBytes(buf, offset, w, k) == buf[RowStart(offset, w, k)..RowStart(offset, w, k) + w]
  {
    RowsGrow(offset, w, k, k);
  }

  lemma RowAppended(buf: seq<byte>, w: nat, c: nat, row: seq<byte>, k: nat)
    requires |buf| == RowStart(0, w, c) && |row| == w && k <= c
    ensures |buf + row| == RowStart(0, w, c + 1)
    ensures BufferRow(buf + row, w, k) == if k < c then BufferRow(buf, w, k) else row
  {
    hide RowStart, RowBytes;
    RowsGrow(0, w, c, c);
    if k < c {
      RowsGrow(0, w, k + 1, c);
      RowSlice(buf, 0, w, k);
    }
    RowSlice(buf + row, 0, w, k);
  }

  method EditStrip(edit: Edit, ghost n: nat, w: nat, first: nat, c: nat, old_: seq<byte>)
    returns (ok: bool, new_: seq<byte>)
    requires Suits(edit, n, w) && first + c <= n && |old_| == RowStart(0, w, c)
    ensures ok <==> Printable(edit, first, first + c)
    ensures ok ==> StripEdited(edit, w, first, c, old_, new_)
  {
    hide RowStart, BufferRow, EditedRow, StripEdited;
    new_ := [];
    NoRows(edit, n, w, first, old_);
    for k := 0 to c
      invariant Printable(edit, first, first + k) && StripEdited(edit, w, first, k, old_, new_)
    {
      if edit.InsertCells? && edit.cells[first + k].None? {
        return false, [];
      }
      OneMoreRow(edit, n, w, first, k, c, old_, new_);
      new_ := new_ + EditedRow(edit, first + k, BufferRow(old_, w, k));
    }
    ok := true;
  }

  lemma NoRows(edit: Edit, n: nat, w: nat, first: nat, old_: seq<byte>)
    requires Suits(edit, n, w)
    ensures StripEdited(edit, w, first, 0, old_, [])
  {
  }

  lemma OneMoreRow(edit: Edit, n: nat, w: nat, first: nat, k: nat, c: nat, old_: seq<byte>, new_: seq<byte>)
    requires Suits(edit, n, w) && first + k < n && Printable(edit, first + k, first + k + 1)
    requires k < c && |old_| == RowStart(0, w, c) && StripEdited(edit, w, first, k, old_, new_)
    ensures StripEdited(edit, w, first, k + 1, old_, new_ + EditedRow(edit, first + k, BufferRow(old_, w, k)))
  {
    hide RowStart, RowBytes, BufferRow, EditedRow, Suits, NewWidth;
    var row, nw := BufferRow(old_, w, k), NewWidth(edit, w);
    RowsGrow(0, w, k + 1, c);
    BufferRowLength(old_, w, k);
    EditedLength(edit, n, w, first + k, row);
    var added := EditedRow(edit, first + k, row);
    forall j | 0 <= j <= k
      ensures BufferRow(new_ + added, nw, j) == EditedRow(edit, first + j, BufferRow(old_, w, j))
    {
      RowAppended(new_, nw, k, added, j);
    }
    RowAppended(new_, nw, k, added, k);
  }

  lemma BufferRowLength(buf: seq<byte>, w: nat, k: nat)
    requires RowStart(0, w, k + 1) <= |buf|
    ensures |BufferRow(buf, w, k)| == w
  {
    hide RowStart, RowBytes;
    RowSlice(buf, 0, w, k);
  }

  // ----- the table -----

  // Rows a to b of the table have been edited and stand in their new places;
  // the rest of the file is as it was.
  ghost predicate Reshaped(was: seq<byte>, now: seq<byte>, offset: nat, w: nat, edit: Edit, a: nat, b: nat)
  {
    var lo, hi := RowStart(offset, NewWidth(edit, w), a), RowStart(offset, NewWidth(edit, w), b);
    && |now| == |was| && lo <= hi <= |was|
    && now[..lo] == was[..lo] && now[hi..] == was[hi..]
    && forall r :: a <= r < b ==>
         RowBytes(now, offset, NewWidth(edit, w), r) == EditedRow(edit, r, RowBytes(was, offset, w, r))
  }

  // What a write inside the file leaves.
  function Patched(s: seq<byte>, pos: nat, data: seq<byte>): (r: seq<byte>)
    requires pos + |data| <= |s|
    ensures |r| == |s|
  {
    s[..pos] + data + s[pos + |data|..]
  }

  lemma PatchedIs(s: seq<byte>, pos: nat, data: seq<byte>)
    requires pos + |data| <= |s|
    ensures Overwrite(s, pos, data) == Patched(s, pos, data)
  {
  }

  lemma {:induction false} WiderRows(offset: nat, w: nat, nw: nat, r: nat)
    requires w <= nw
    ensures RowStart(offset, w, r) <= RowStart(offset, nw, r)
  {
    if r > 0 {
      WiderRows(offset, w, nw, r - 1);
    }
  }

  lemma SameSlice(was: seq<byte>, now: seq<byte>, lo: nat, hi: nat, p: nat, q: nat)
    requires |now| == |was| && lo <= hi <= |was| && now[..lo] == was[..lo] && now[hi..] == was[hi..]
    requires p <= q <= lo || hi <= p <= q <= |was|
    ensures now[p..q] == was[p..q]
  {
    if q <= lo {
      assert now[p..q] == now[..lo][p..q] && was[p..q] == was[..lo][p..q];
    } else {
      SliceOfSlice(now, hi, |now|, p - hi, q - hi);
      SliceOfSlice(was, hi, |was|, p - hi, q - hi);
      assert now[hi..|now|] == now[hi..] && was[hi..|was|] == was[hi..];
    }
  }

  lemma StripRow(was: seq<byte>, offset: nat, w: nat, s: nat, c: nat, k: nat)
    requires k < c && RowStart(offset, w, s) <= RowStart(offset, w, s + c) <= |was|
    ensures BufferRow(was[RowStart(offset, w, s)..RowStart(offset, w, s + c)], w, k) == RowBytes(was, offset, w, s + k)
  {
    hide RowStart, RowBytes;
    var lo, hi := RowStart(offset, w, s), RowStart(offset, w, s + c);
    RowsGrow(offset, w, s, s + c);
    RowsGrow(offset, w, s, s + k);
    RowsGrow(offset, w, s + k + 1, s + c);
    RowsGrow(0, w, k + 1, c);
    RowSlice(was, offset, w, s + k);
    RowSlice(was[lo..hi], 0, w, k);
    SliceOfSlice(was, lo, hi, RowStart(0, w, k), RowStart(0, w, k) + w);
  }

  // The strip that a shuffle reads next: before the reshaped rows when rows
  // grow, behind them when they shrink.
  predicate NextStrip(edit: Edit, a: nat, b: nat, s: nat, c: nat) {
    if edit.InsertCells? then s + c == a else s == b
  }

  // It has not been written over: it reads as it did at first.
  lemma StripUnread(was: seq<byte>, now: seq<byte>, offset: nat, w: nat, edit: Edit, a: nat, b: nat, s: nat, c: nat)
    requires Reshaped(was, now, offset, w, edit, a, b) && RowStart(offset, w, s + c) <= |was|
    requires NextStrip(edit, a, b, s, c)
    ensures RowStart(offset, w, s) <= RowStart(offset, w, s + c)
    ensures now[RowStart(offset, w, s)..RowStart(offset, w, s + c)]
         == was[RowStart(offset, w, s)..RowStart(offset, w, s + c)]
  {
    hide RowBytes, RowStart, EditedRow;
    var nw := NewWidth(edit, w);
    var lo, hi := RowStart(offset, nw, a), RowStart(offset, nw, b);
    RowsGrow(offset, w, s, s + c);
    if edit.InsertCells? {
      WiderRows(offset, w, nw, a);
    } else {
      WiderRows(offset, nw, w, b);
    }
    SameSlice(was, now, lo, hi, RowStart(offset, w, s), RowStart(offset, w, s + c));
  }

  lemma PatchedOutside(s: seq<byte>, pos: nat, data: seq<byte>, p: nat, q: nat)
    requires pos + |data| <= |s| && p <= q <= |s| && (q <= pos || pos + |data| <= p)
    ensures Patched(s, pos, data)[p..q] == s[p..q]
  {
  }

  lemma PatchedInside(s: seq<byte>, pos: nat, data: seq<byte>, p: nat, q: nat)
    requires pos + |data| <= |s| && p <= q <= |data|
    ensures Patched(s, pos, data)[pos + p..pos + q] == data[p..q]
  {
  }

  // Rows of a file with a strip of rows written into it.
  lemma PatchedRows(now: seq<byte>, offset: nat, nw: nat, s: nat, c: nat, strip: seq<byte>, r: nat)
    requires |strip| == RowStart(0, nw, c) && RowStart(offset, nw, s + c) <= |now|
    requires RowStart(offset, nw, r + 1) <= |now|
    ensures RowStart(offset, nw, s) + |strip| == RowStart(offset, nw, s + c)
    ensures RowBytes(Patched(now, RowStart(offset, nw, s), strip), offset, nw, r)
         == if s <= r < s + c then BufferRow(strip, nw, r - s) else RowBytes(now, offset, nw, r)
  {
    hide RowBytes, RowStart, Patched;
    var pos := RowStart(offset, nw, s);
    RowsGrow(offset, nw, s, s + c);
    var next := Patched(now, pos, strip);
    RowSlice(now, offset, nw, r);
    RowSlice(next, offset, nw, r);
    var at := RowStart(offset, nw, r);
    if r < s {
      RowsGrow(offset, nw, r + 1, s);
      PatchedOutside(now, pos, strip, at, at + nw);
    } else if r >= s + c {
      RowsGrow(offset, nw, s + c, r);
      PatchedOutside(now, pos, strip, at, at + nw);
    } else {
      RowsGrow(offset, nw, s, r);
      RowsGrow(0, nw, r - s + 1, c);
      RowSlice(strip, 0, nw, r - s);
      PatchedInside(now, pos, strip, RowStart(0, nw, r - s), RowStart(0, nw, r - s) + nw);
    }
  }

  lemma OutsidePatch(was: seq<byte>, now: seq<byte>, lo: nat, hi: nat, pos: nat, strip: seq<byte>, lo': nat, hi': nat)
    requires |now| == |was| && lo <= hi <= |was| && now[..lo] == was[..lo] && now[hi..] == was[hi..]
    requires lo' <= lo && lo' <= pos && hi <= hi' && pos + |strip| <= hi' <= |was|
    ensures Patched(now, pos, strip)[..lo'] == was[..lo'] && Patched(now, pos, strip)[hi'..] == was[hi'..]
  {
    SameSlice(was, now, lo, hi, 0, lo');
    SameSlice(was, now, lo, hi, hi', |was|);
    assert Patched(now, pos, strip)[..lo'] == now[..lo'] == now[0..lo'];
    assert Patched(now, pos, strip)[hi'..] == now[hi'..] == now[hi'..|was|];
  }

  // The strip written back in its new shape, next to those already there.
  lemma StripReshaped(was: seq<byte>, now: seq<byte>, offset: nat, w: nat, edit: Edit, n: nat, a: nat, b: nat, s: nat,
                      c: nat, strip: seq<byte>)
    requires Suits(edit, n, w) && a <= b <= n && s + c <= n && NextStrip(edit, a, b, s, c)
    requires Reshaped(was, now, offset, w, edit, a, b)
    requires RowStart(offset, w, s) <= RowStart(offset, w, s + c) <= |was|
    requires RowStart(offset, NewWidth(edit, w), n) <= |was|
    requires StripEdited(edit, w, s, c, was[RowStart(offset, w, s)..RowStart(offset, w, s + c)], strip)
    ensures RowStart(offset, NewWidth(edit, w), s) + |strip| <= |now|
    ensures Reshaped(was, Patched(now, RowStart(offset, NewWidth(edit, w), s), strip), offset, w, edit, Min(a, s),
                     Max(b, s + c))
  {
    hide RowBytes, RowStart, EditedRow, BufferRow, NewWidth, Suits;
    var nw := NewWidth(edit, w);
    var pos, lo, hi := RowStart(offset, nw, s), RowStart(offset, nw, Min(a, s)), RowStart(offset, nw, Max(b, s + c));
    RowsGrow(offset, nw, s, s + c);
    RowsGrow(offset, nw, s + c, n);
    RowsGrow(offset, nw, Max(b, s + c), n);
    RowsGrow(offset, nw, Min(a, s), Max(b, s + c));
    RowsGrow(offset, nw, Min(a, s), s);
    RowsGrow(offset, nw, s + c, Max(b, s + c));
    var next := Patched(now, pos, strip);
    RowsGrow(offset, nw, Min(a, s), a);
    RowsGrow(offset, nw, b, Max(b, s + c));
    OutsidePatch(was, now, RowStart(offset, nw, a), RowStart(offset, nw, b), pos, strip, lo, hi);
    forall r | Min(a, s) <= r < Max(b, s + c)
      ensures RowBytes(next, offset, nw, r) == EditedRow(edit, r, RowBytes(was, offset, w, r))
    {
      RowsGrow(offset, nw, r + 1, n);
      PatchedRows(now, offset, nw, s, c, strip, r);
      if s <= r < s + c {
        StripRow(was, offset, w, s, c, r - s);
      }
    }
  }

  // Reads, edits and writes one strip.  Only a failed read, write or flush
  // taints the file; an unprintable cell is reported before the strip is
  // written.
  method ShuffleStrip(file: Storage, ghost was: seq<byte>, offset: nat, w: nat, edit: Edit, ghost n: nat,
                      ghost a: nat, ghost b: nat, s: nat, c: nat)
    returns (ok: bool, tainted: bool)
    requires Suits(edit, n, w) && a <= b <= n && s + c <= n && NextStrip(edit, a, b, s, c)
    requires Reshaped(was, file.bytes, offset, w, edit, a, b)
    requires RowStart(offset, w, n) <= |was| && RowStart(offset, NewWidth(edit, w), n) <= |was|
    modifies file
    ensures ok ==> Printable(edit, s, s + c) && Reshaped(was, file.bytes, offset, w, edit, Min(a, s), Max(b, s + c))
    ensures !ok && !tainted ==> !Printable(edit, s, s + c) && file.bytes == old(file.bytes)
    ensures tainted ==> !ok && file.mayFail
  {
    hide RowStart, NewWidth, Reshaped, Suits, StripEdited, Printable, Overwrite, Torn, NextStrip;
    tainted := false;
    RowsGrow(offset, w, s + c, n);
    RowsGrow(offset, w, s, s + c);
    StripUnread(was, file.bytes, offset, w, edit, a, b, s, c);
    SameLength(was, file.bytes, offset, w, edit, a, b);
    var old_, new_;
    ok, old_ := file.Read(RowStart(offset, w, s), RowStart(0, w, c));
    if !ok {
      return false, true;
    }
    ok, new_ := EditStrip(edit, n, w, s, c, old_);
    if !ok {
      return;
    }
    var pos := RowStart(offset, NewWidth(edit, w), s);
    StripReshaped(was, file.bytes, offset, w, edit, n, a, b, s, c, new_);
    PatchedIs(file.bytes, pos, new_);
    ok := file.Write(pos, new_);
    if ok {
      ok := file.Flush();
    }
    tainted := !ok;
  }

  lemma SameLength(was: seq<byte>, now: seq<byte>, offset: nat, w: nat, edit: Edit, a: nat, b: nat)
    requires Reshaped(was, now, offset, w, edit, a, b)
    ensures |now| == |was|
  {
  }

  lemma NothingReshaped(was: seq<byte>, offset: nat, w: nat, edit: Edit, a: nat)
    requires RowStart(offset, NewWidth(edit, w), a) <= |was|
    ensures Reshaped(was, was, offset, w, edit, a, a)
  {
  }

  // shuffle_main_for_insert: the last strip first, because rows grow.  What a
  // failure leaves: the rows from `left` on in their new places, the rows
  // before them in their old ones.
  method ShuffleForInsert(file: Storage, offset: nat, n: nat, w: nat, edit: Edit, stripRows: nat)
    returns (ok: bool, tainted: bool, ghost left: nat)
    requires edit.InsertCells? && Suits(edit, n, w) && stripRows > 0
    requires RowStart(offset, NewWidth(edit, w), n) <= |file.bytes|
    modifies file
    ensures tainted ==> !ok && file.mayFail
    ensures !tainted ==>
      left <= n && Printable(edit, left, n) && Reshaped(old(file.bytes), file.bytes, offset, w, edit, left, n)
    ensures ok ==> left == 0
    ensures !ok && !tainted ==> !Printable(edit, 0, n)
  {
    hide RowStart, Reshaped, Suits, Printable;
    ghost var was := file.bytes;
    WiderRows(offset, w, NewWidth(edit, w), n);
    NothingReshaped(was, offset, w, edit, n);
    NonePrinted(edit, n, w);
    var rowEnd := n;
    left, tainted := n, false;
    while rowEnd > 0
      invariant left == rowEnd <= n && !tainted && Printable(edit, rowEnd, n)
      invariant Reshaped(was, file.bytes, offset, w, edit, rowEnd, n)
    {
      var chunk := Min(rowEnd, stripRows);
      var rowStart := rowEnd - chunk;
      ok, tainted := ShuffleStrip(file, was, offset, w, edit, n, rowEnd, n, rowStart, chunk);
      PrintableParts(edit, rowStart, rowEnd, n);
      if !ok {
        PrintableParts(edit, 0, rowStart, n);
        return;
      }
      rowEnd := rowStart;
      left := rowEnd;
    }
    ok := true;
  }

  lemma NonePrinted(edit: Edit, n: nat, w: nat)
    requires Suits(edit, n, w)
    ensures Printable(edit, n, n)
    ensures Printable(edit, 0, 0)
  {
  }

  lemma PrintableParts(edit: Edit, lo: nat, mid: nat, hi: nat)
    requires lo <= mid <= hi && (edit.InsertCells? ==> hi <= |edit.cells|)
    ensures Printable(edit, lo, hi) <==> Printable(edit, lo, mid) && Printable(edit, mid, hi)
  {
  }

  // shuffle_main_for_delete: the first strip first, because rows shrink.
  method ShuffleForDelete(file: Storage, offset: nat, n: nat, w: nat, edit: Edit, stripRows: nat)
    returns (ok: bool)
    requires edit.DeleteBytes? && Suits(edit, n, w) && stripRows > 0
    requires RowStart(offset, w, n) <= |file.bytes|
    modifies file
    ensures ok ==> Reshaped(old(file.bytes), file.bytes, offset, w, edit, 0, n)
    ensures !file.mayFail ==> ok
  {
    hide RowStart, Reshaped, Suits, Printable, EditedRow;
    ghost var was := file.bytes;
    WiderRows(offset, NewWidth(edit, w), w, n);
    RowsGrow(offset, NewWidth(edit, w), 0, n);
    NothingReshaped(was, offset, w, edit, 0);
    if n == 0 || NewWidth(edit, w) == w {
      NothingDeleted(was, offset, w, edit, n);
      return true;
    }
    var rowStart := 0;
    while rowStart < n
      invariant 0 <= rowStart <= n
      invariant Reshaped(was, file.bytes, offset, w, edit, 0, rowStart)
    {
      var chunk := Min(n - rowStart, stripRows);
      var tainted;
      AlwaysPrintable(edit, rowStart, rowStart + chunk);
      ok, tainted := ShuffleStrip(file, was, offset, w, edit, n, 0, rowStart, rowStart, chunk);
      if !ok {
        return;
      }
      rowStart := rowStart + chunk;
    }
    ok := true;
  }

  lemma AlwaysPrintable(edit: Edit, lo: nat, hi: nat)
    requires edit.DeleteBytes?
    ensures Printable(edit, lo, hi)
  {
  }

  lemma NothingDeleted(was: seq<byte>, offset: nat, w: nat, edit: Edit, n: nat)
    requires edit.DeleteBytes? && Suits(edit, n, w) && (n == 0 || NewWidth(edit, w) == w)
    requires RowStart(offset, w, n) <= |was|
    ensures Reshaped(was, was, offset, w, edit, 0, n)
  {
    hide RowStart, RowBytes;
    RowsGrow(offset, w, 0, n);
    RowsGrow(offset, NewWidth(edit, w), 0, n);
    WiderRows(offset, NewWidth(edit, w), w, n);
    forall r | 0 <= r < n
      ensures RowBytes(was, offset, w, r) == EditedRow(edit, r, RowBytes(was, offset, w, r))
    {
      RowsGrow(offset, w, r + 1, n);
      RowSlice(was, offset, w, r);
      var row := RowBytes(was, offset, w, r);
      assert row[..edit.pre] + row[edit.pre..] == row;
    }
  }
}
