// The overlapping moves inside the file: the tail moved up back to front, the
// tail moved down front to back, ranges zeroed and copied, chunk by chunk.
module FileMoves {
  import opened FitsBytes
  import opened FileStorage
  import opened LayoutModel

  // How much of what is left one pass moves.
  function NextChunk(left: nat, chunk: nat): (n: nat)
    requires left > 0 && chunk > 0
    ensures 1 <= n <= left
  {
    Min(left, chunk)
  }

  // n bytes at src written at dst.
  function Copied(s: seq<byte>, src: nat, dst: nat, n: nat): (r: seq<byte>)
    requires src + n <= |s|
    ensures |r| == Max(|s|, dst + n)
  {
    Overwrite(s, dst, s[src..src + n])
  }

  // Reads n bytes and writes them elsewhere in the file.
  method MoveChunk(f: Storage, src: nat, dst: nat, n: nat) returns (ok: bool)
    modifies f
    ensures ok ==> src + n <= old(|f.bytes|) && f.bytes == Copied(old(f.bytes), src, dst, n)
    ensures !f.mayFail && src + n <= old(|f.bytes|) ==> ok
  {
    hide Overwrite;
    var data;
    ok, data := f.Read(src, n);
    if ok {
      ok := f.Write(dst, data);
    }
  }

  // The file grown for a shift, before anything is moved.
  function GrownFor(disk: seq<byte>, after: nat, delta: nat): (bytes: seq<byte>) {
    Resized(disk, Max(|disk| + delta, after + delta))
  }

  // Halfway through a shift up: all but the first r bytes of the tail are in
  // their new place.
  function ShiftingUp(disk: seq<byte>, after: nat, delta: nat, r: nat): (bytes: seq<byte>)
    requires after + r <= |disk|
  {
    GrownFor(disk, after, delta)[..after + r + delta] + disk[after + r..]
  }

  // The file after a shift up by delta.
  function ShiftedUp(disk: seq<byte>, after: nat, delta: nat): (bytes: seq<byte>) {
    if delta == 0 then disk
    else if after <= |disk| then ShiftingUp(disk, after, delta, 0)
    else GrownFor(disk, after, delta)
  }

  // What lies in the hole a shift up leaves: stale bytes or zeros.
  function ShiftGap(disk: seq<byte>, after: nat, delta: nat): (gap: seq<byte>)
    requires after <= |disk|
    ensures |gap| == delta
  {
    GrownFor(disk, after, delta)[after..after + delta]
  }

  lemma ShiftedUpInserts(disk: seq<byte>, after: nat, delta: nat)
    requires after <= |disk|
    ensures ShiftedUp(disk, after, delta) == Inserted(disk, after, ShiftGap(disk, after, delta))
  {
    var g := GrownFor(disk, after, delta);
    if delta > 0 {
      assert g[..after + delta] == disk[..after] + g[after..after + delta];
    }
  }

  // Moving one chunk from the end of what is left to move.
  lemma ShiftUpChunk(disk: seq<byte>, after: nat, delta: nat, r: nat, n: nat)
    requires delta > 0 && 1 <= n <= r && after + r <= |disk|
    ensures |ShiftingUp(disk, after, delta, r)| == |disk| + delta
    ensures Copied(ShiftingUp(disk, after, delta, r), after + r - n, after + r - n + delta, n)
         == ShiftingUp(disk, after, delta, r - n)
  {
    assert ShiftingUp(disk, after, delta, r)[after + r - n..after + r] == disk[after + r - n..after + r];
  }

  // Halfway through a shift down: the first m bytes of the tail are in place.
  function ShiftingDown(disk: seq<byte>, after: nat, delta: nat, m: nat): (bytes: seq<byte>)
    requires delta <= after && after + m <= |disk|
  {
    disk[..after - delta] + disk[after..after + m] + disk[after + m - delta..]
  }

  lemma ShiftDownChunk(disk: seq<byte>, after: nat, delta: nat, m: nat, n: nat)
    requires 0 < delta <= after && 1 <= n && after + m + n <= |disk|
    ensures |ShiftingDown(disk, after, delta, m)| == |disk|
    ensures Copied(ShiftingDown(disk, after, delta, m), after + m, after + m - delta, n)
         == ShiftingDown(disk, after, delta, m + n)
  {
    assert ShiftingDown(disk, after, delta, m)[after + m..after + m + n] == disk[after + m..after + m + n];
  }

  method MoveUpStep(f: Storage, ghost disk: seq<byte>, after: nat, delta: nat, remaining: nat, n: nat)
    returns (ok: bool)
    requires delta > 0 && 1 <= n <= remaining && after + remaining <= |disk|
    requires f.bytes == ShiftingUp(disk, after, delta, remaining)
    modifies f
    ensures ok ==> f.bytes == ShiftingUp(disk, after, delta, remaining - n)
    ensures !f.mayFail ==> ok
  {
    hide *;
    var src := after + remaining - n;
    ShiftUpChunk(disk, after, delta, remaining, n);
    ok := MoveChunk(f, src, src + delta, n);
  }

  // The loop of the shift up: the last chunk first.
  method MoveTailUp(f: Storage, ghost disk: seq<byte>, after: nat, delta: nat, tail: nat, chunk: nat) returns (ok: bool)
    requires chunk > 0 && delta > 0 && after + tail == |disk|
    requires f.bytes == ShiftingUp(disk, after, delta, tail)
    modifies f
    ensures ok ==> f.bytes == ShiftingUp(disk, after, delta, 0)
    ensures !f.mayFail ==> ok
  {
    hide *;
    var remaining := tail;
    ok := true;
    while remaining > 0
      invariant ok && 0 <= remaining <= tail
      invariant f.bytes == ShiftingUp(disk, after, delta, remaining)
    {
      var n := NextChunk(remaining, chunk);
      ok := MoveUpStep(f, disk, after, delta, remaining, n);
      if !ok { return; }
      remaining := remaining - n;
    }
  }

  lemma ShiftUpStarts(disk: seq<byte>, after: nat, delta: nat)
    ensures after <= |disk| ==> GrownFor(disk, after, delta) == ShiftingUp(disk, after, delta, |disk| - after)
    ensures delta == 0 ==> ShiftedUp(disk, after, delta) == disk
    ensures delta > 0 && after <= |disk| ==> ShiftedUp(disk, after, delta) == ShiftingUp(disk, after, delta, 0)
    ensures delta > 0 && after > |disk| ==> ShiftedUp(disk, after, delta) == GrownFor(disk, after, delta)
    ensures GrownFor(disk, after, delta) == Resized(disk, Max(|disk| + delta, after + delta))
  {
  }

  // The shift up of shift_file_tail_and_update_offsets.  A failure before the
  // first byte moves leaves the file as it was.
  method ShiftTailUp(f: Storage, after: nat, delta: nat, chunk: nat) returns (ok: bool, untouched: bool)
    requires chunk > 0
    modifies f
    ensures ok ==> f.bytes == ShiftedUp(old(f.bytes), after, delta)
    ensures !ok && untouched ==> f.bytes == old(f.bytes)
    ensures !f.mayFail ==> ok
  {
    hide ShiftingUp, ShiftedUp, GrownFor, Resized;
    ghost var disk := f.bytes;
    ShiftUpStarts(disk, after, delta);
    if delta == 0 {
      return true, true;
    }
    var tail := Max(|f.bytes| - after, 0);
    ok := f.SetLen(Max(|f.bytes| + delta, after + delta));
    if !ok {
      return false, true;
    }
    untouched := false;
    if tail > 0 {
      ok := MoveTailUp(f, disk, after, delta, tail, chunk);
      if ok {
        ok := f.Flush();
      }
    }
  }

  method MoveDownStep(f: Storage, ghost disk: seq<byte>, after: nat, delta: nat, moved: nat, n: nat) returns (ok: bool)
    requires 0 < delta <= after && 1 <= n && after + moved + n <= |disk|
    requires f.bytes == ShiftingDown(disk, after, delta, moved)
    modifies f
    ensures ok ==> f.bytes == ShiftingDown(disk, after, delta, moved + n)
    ensures !f.mayFail ==> ok
  {
    hide *;
    var src := after + moved;
    ShiftDownChunk(disk, after, delta, moved, n);
    ok := MoveChunk(f, src, src - delta, n);
  }

  // The loop of the shift down: the first chunk first.
  method MoveTailDown(f: Storage, ghost disk: seq<byte>, after: nat, delta: nat, tail: nat, chunk: nat)
    returns (ok: bool)
    requires chunk > 0 && 0 < delta <= after && after + tail == |disk|
    requires f.bytes == disk
    modifies f
    ensures ok ==> f.bytes == ShiftingDown(disk, after, delta, tail)
    ensures !f.mayFail ==> ok
  {
    ShiftDownEnds(disk, after, delta);
    hide *;
    var moved := 0;
    ok := true;
    while moved < tail
      invariant ok && 0 <= moved <= tail
      invariant f.bytes == ShiftingDown(disk, after, delta, moved)
    {
      var n := NextChunk(tail - moved, chunk);
      ok := MoveDownStep(f, disk, after, delta, moved, n);
      if !ok { return; }
      moved := moved + n;
    }
  }

  lemma ShiftDownEnds(disk: seq<byte>, after: nat, delta: nat)
    requires delta <= after <= |disk|
    ensures ShiftingDown(disk, after, delta, 0) == disk
    ensures |ShiftingDown(disk, after, delta, |disk| - after)| == |disk|
    ensures Resized(ShiftingDown(disk, after, delta, |disk| - after), |disk| - delta) == Removed(disk, after, delta)
    ensures Removed(disk, after, 0) == disk
  {
  }

  // The file after a shift down by delta.
  function ShiftedDown(disk: seq<byte>, after: nat, delta: nat): (bytes: seq<byte>)
    requires delta <= after && delta <= |disk|
  {
    if after <= |disk| then Removed(disk, after, delta) else Resized(disk, |disk| - delta)
  }

  // The shift down of shift_file_tail_backward_and_update_offsets.
  method ShiftTailDown(f: Storage, after: nat, delta: nat, chunk: nat) returns (ok: bool, untouched: bool)
    requires chunk > 0 && delta <= |f.bytes|
    modifies f
    ensures ok ==> delta <= after && f.bytes == ShiftedDown(old(f.bytes), after, delta)
    ensures !ok && untouched ==> f.bytes == old(f.bytes)
    ensures !f.mayFail && delta <= after ==> ok
  {
    hide ShiftingDown, Copied, Removed, Resized;
    ghost var disk := f.bytes;
    if delta > after {
      return false, true;
    }
    if after <= |disk| {
      ShiftDownEnds(disk, after, delta);
    }
    if delta == 0 {
      assert Resized(disk, |disk|) == disk;
      return true, true;
    }
    untouched := false;
    var length := |f.bytes|;
    var tail := Max(length - after, 0);
    if tail > 0 {
      ok := MoveTailDown(f, disk, after, delta, tail, chunk);
      if !ok { return; }
      ok := f.Flush();
      if !ok { return; }
    }
    ok := f.SetLen(length - delta);
  }

  function Zeros(n: nat): (z: seq<byte>)
    ensures |z| == n && forall i :: 0 <= i < n ==> z[i] == 0
  {
    seq(n, _ => 0)
  }

  // zero_fill_range
  method ZeroFillRange(f: Storage, start: nat, length: nat, chunk: nat) returns (ok: bool)
    requires chunk > 0 && start + length <= |f.bytes|
    modifies f
    ensures ok ==> f.bytes == Overwrite(old(f.bytes), start, Zeros(length))
    ensures !f.mayFail ==> ok
  {
    ghost var disk := f.bytes;
    var remaining := length;
    while remaining > 0
      invariant 0 <= remaining <= length
      invariant f.bytes == Overwrite(disk, start, Zeros(length - remaining))
    {
      var n := NextChunk(remaining, chunk);
      ok := f.Write(start + (length - remaining), Zeros(n));
      if !ok { return; }
      assert f.bytes == Overwrite(disk, start, Zeros(length - remaining + n));
      remaining := remaining - n;
    }
    if length == 0 {
      return true;
    }
    ok := f.Flush();
  }

  method CopyStep(f: Storage, ghost disk: seq<byte>, src: nat, dst: nat, processed: nat, n: nat) returns (ok: bool)
    requires n > 0 && src + processed + n <= |disk|
    requires dst <= src || src + processed + n <= dst <= |disk|
    requires f.bytes == Copied(disk, src, dst, processed)
    modifies f
    ensures ok ==> f.bytes == Copied(disk, src, dst, processed + n)
    ensures !f.mayFail ==> ok
  {
    hide Copied;
    CopyChunk(disk, src, dst, processed, n);
    ok := MoveChunk(f, src + processed, dst + processed, n);
  }

  // stream_copy_in_file: a copy down the file, or into fresh space past it,
  // never reads what it has already overwritten.
  method StreamCopyInFile(f: Storage, src: nat, dst: nat, length: nat, chunk: nat) returns (ok: bool)
    requires chunk > 0 && src + length <= |f.bytes|
    requires dst <= src || src + length <= dst <= |f.bytes|
    modifies f
    ensures ok ==> f.bytes == Copied(old(f.bytes), src, dst, length)
    ensures !f.mayFail ==> ok
  {
    ghost var disk := f.bytes;
    hide *;
    var processed := 0;
    ok := true;
    NothingCopied(disk, src, dst);
    while processed < length
      invariant ok && 0 <= processed <= length
      invariant f.bytes == Copied(disk, src, dst, processed)
    {
      var n := NextChunk(length - processed, chunk);
      ok := CopyStep(f, disk, src, dst, processed, n);
      if !ok { return; }
      processed := processed + n;
    }
  }

  lemma NothingCopied(disk: seq<byte>, src: nat, dst: nat)
    requires src <= |disk| && dst <= |disk|
    ensures Copied(disk, src, dst, 0) == disk
  {
  }

  lemma CopyChunk(disk: seq<byte>, src: nat, dst: nat, p: nat, n: nat)
    requires n > 0 && src + p + n <= |disk|
    requires dst <= src || src + p + n <= dst <= |disk|
    ensures Copied(Copied(disk, src, dst, p), src + p, dst + p, n) == Copied(disk, src, dst, p + n)
  {
    assert Copied(disk, src, dst, p)[src + p..src + p + n] == disk[src + p..src + p + n];
  }
}
