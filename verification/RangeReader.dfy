// A read-only view of a remote file: reads are served from a cache of
// blocks, and the blocks that are missing are fetched in runs, one range
// request (section 14 of RFC 9110) each.
module RangeReads {
  import opened FitsBytes
  import opened LruCaches
  import opened SliceMath
  import opened SpanCaches

  const U64_LIMIT: nat := 0x1_0000_0000_0000_0000

  // ----- which blocks to fetch -----

  datatype Run = Run(start: nat, count: nat)

  predicate InRun(run: Run, b: nat) {
    run.start <= b < run.start + run.count
  }

  predicate Missing(first: nat, have: seq<bool>, b: nat) {
    first <= b < first + |have| && !have[b - first]
  }

  // Non-empty runs of missing blocks in increasing order, no two touching.
  ghost predicate RunsOfMissing(first: nat, have: seq<bool>, runs: seq<Run>) {
    && (forall k :: 0 <= k < |runs| ==> runs[k].count > 0)
    && (forall k, b :: 0 <= k < |runs| && InRun(runs[k], b) ==> Missing(first, have, b))
    && (forall j, k :: 0 <= j < k < |runs| ==> runs[j].start + runs[j].count < runs[k].start)
  }

  predicate Fetched(runs: seq<Run>, b: nat) {
    exists k :: 0 <= k < |runs| && InRun(runs[k], b)
  }

  ghost predicate IsPlan(first: nat, have: seq<bool>, runs: seq<Run>) {
    RunsOfMissing(first, have, runs) && forall b: nat :: Missing(first, have, b) ==> Fetched(runs, b)
  }

  method PlanBlockFetches(first: nat, have: seq<bool>) returns (runs: seq<Run>)
    ensures IsPlan(first, have, runs)
  {
    runs := [];
    var i := 0;
    while i < |have|
      invariant 0 <= i <= |have|
      invariant RunsOfMissing(first, have, runs)
      invariant forall b: nat :: Missing(first, have, b) && b < first + i ==> Fetched(runs, b)
      invariant forall k :: 0 <= k < |runs| ==> runs[k].start + runs[k].count <= first + i
      invariant i < |have| && !have[i] ==> forall k :: 0 <= k < |runs| ==> runs[k].start + runs[k].count < first + i
    {
      if have[i] {
        i := i + 1;
        continue;
      }
      var start := i;
      while i < |have| && !have[i]
        invariant start <= i <= |have|
        invariant forall j :: start <= j < i ==> !have[j]
        decreases |have| - i
      {
        i := i + 1;
      }
      ghost var before := runs;
      runs := runs + [Run(first + start, i - start)];
      StillFetched(before, Run(first + start, i - start));
    }
  }

  lemma StillFetched(runs: seq<Run>, last: Run)
    ensures forall b: nat :: Fetched(runs, b) ==> Fetched(runs + [last], b)
    ensures forall b: nat :: InRun(last, b) ==> Fetched(runs + [last], b)
  {
    var all := runs + [last];
    forall b: nat | Fetched(runs, b) ensures Fetched(all, b) {
      var k :| 0 <= k < |runs| && InRun(runs[k], b);
      assert InRun(all[k], b);
    }
    forall b: nat | InRun(last, b) ensures Fetched(all, b) {
      assert InRun(all[|runs|], b);
    }
  }

  // No run can be made longer.
  lemma RunsAreMaximal(first: nat, have: seq<bool>, runs: seq<Run>, k: nat)
    requires IsPlan(first, have, runs) && k < |runs|
    ensures runs[k].start > 0 ==> !Missing(first, have, runs[k].start - 1)
    ensures !Missing(first, have, runs[k].start + runs[k].count)
  {
  }

  lemma RunOf(first: nat, have: seq<bool>, runs: seq<Run>, b: nat) returns (k: nat)
    requires IsPlan(first, have, runs) && Missing(first, have, b)
    ensures k < |runs| && InRun(runs[k], b)
  {
    assert Fetched(runs, b);
    k :| 0 <= k < |runs| && InRun(runs[k], b);
  }

  // The blocks held already decide the plan.
  lemma {:induction false} PlanIsUnique(first: nat, have: seq<bool>, runs: seq<Run>, other: seq<Run>)
    requires IsPlan(first, have, runs) && IsPlan(first, have, other)
    ensures runs == other
  {
    var k := 0;
    while k < |runs|
      invariant 0 <= k <= |runs| && k <= |other| && runs[..k] == other[..k]
    {
      SameRun(first, have, runs, other, k);
      assert runs[..k + 1] == runs[..k] + [runs[k]];
      k := k + 1;
    }
    if k < |other| {
      assert InRun(other[k], other[k].start);
      var j := RunOf(first, have, runs, other[k].start);
      assert false;
    }
  }

  lemma SameRun(first: nat, have: seq<bool>, runs: seq<Run>, other: seq<Run>, k: nat)
    requires IsPlan(first, have, runs) && IsPlan(first, have, other)
    requires k < |runs| && k <= |other| && runs[..k] == other[..k]
    ensures k < |other| && runs[k] == other[k]
  {
    hide *;
    StartsNoLater(first, have, runs, other, k);
    assert other[..k] == runs[..k];
    StartsNoLater(first, have, other, runs, k);
    EndsNoLater(first, have, runs, other, k);
    EndsNoLater(first, have, other, runs, k);
  }

  lemma StartsNoLater(first: nat, have: seq<bool>, runs: seq<Run>, other: seq<Run>, k: nat)
    requires IsPlan(first, have, runs) && IsPlan(first, have, other)
    requires k < |runs| && k <= |other| && runs[..k] == other[..k]
    ensures k < |other| && other[k].start <= runs[k].start
  {
    assert InRun(runs[k], runs[k].start);
    var j := RunOf(first, have, other, runs[k].start);
    if j < k {
      assert false;
    }
  }

  lemma EndsNoLater(first: nat, have: seq<bool>, runs: seq<Run>, other: seq<Run>, k: nat)
    requires IsPlan(first, have, runs) && IsPlan(first, have, other)
    requires k < |runs| && k < |other| && runs[k].start == other[k].start
    ensures other[k].count <= runs[k].count
  {
    var end := runs[k].start + runs[k].count;
    if other[k].count > runs[k].count {
      assert InRun(other[k], end);
      RunsAreMaximal(first, have, runs, k);
      assert false;
    }
  }

  // ----- blocks of the remote file -----

  function BlockStart(size: nat, b: nat): (start: nat) {
    b * size
  }

  function BlockAt(size: nat, pos: nat): (b: nat)
    requires size > 0
  {
    pos / size
  }

  predicate BlockExists(remote: seq<byte>, size: nat, b: nat) {
    BlockStart(size, b) < |remote|
  }

  // Block b of the file; the last one may be short.
  function BlockOf(remote: seq<byte>, size: nat, b: nat): (block: seq<byte>) {
    remote[Min(BlockStart(size, b), |remote|)..Min(BlockStart(size, b + 1), |remote|)]
  }

  predicate Honest(remote: seq<byte>, size: nat, list: seq<Entry<nat>>) {
    forall i :: 0 <= i < |list| ==>
      BlockExists(remote, size, list[i].key) && list[i].bytes == BlockOf(remote, size, list[i].key)
  }

  lemma HitIsHonest(remote: seq<byte>, size: nat, list: seq<Entry<nat>>, b: nat)
    requires Honest(remote, size, list) && Lookup(list, b).Some?
    ensures BlockExists(remote, size, b) && Lookup(list, b).value == BlockOf(remote, size, b)
    ensures Honest(remote, size, Touched(list, b))
  {
    hide BlockOf, BlockExists;
    var i := LookupGivesEntry(list, b);
  }

  lemma MissIsHonest(remote: seq<byte>, size: nat, list: seq<Entry<nat>>, b: nat)
    requires Honest(remote, size, list) && Lookup(list, b).None?
    ensures Honest(remote, size, Touched(list, b))
  {
    hide BlockOf, BlockExists;
  }

  lemma StoreIsHonest(remote: seq<byte>, size: nat, list: seq<Entry<nat>>, capacity: nat, b: nat)
    requires Honest(remote, size, list) && BlockExists(remote, size, b)
    ensures Honest(remote, size, Stored(list, capacity, b, BlockOf(remote, size, b)))
  {
    hide BlockOf, BlockExists, Evicted, Find, TotalBytes;
    var block := BlockOf(remote, size, b);
    if Accepts(capacity, |block|) {
      var rest := Without(list, b);
      var k := EvictsShortestRun(rest, capacity - |block|);
    }
  }

  // ----- positions -----

  type u64 = n: nat | n < U64_LIMIT
  type i64 = v: int | -0x8000_0000_0000_0000 <= v <= 0x7FFF_FFFF_FFFF_FFFF

  datatype SeekFrom = Start(position: u64) | End(delta: i64) | Current(delta: i64)

  function CheckedAdd(a: u64, b: u64): (sum: Option<u64>) {
    if a + b < U64_LIMIT then Some(a + b) else None
  }

  function CheckedSub(a: u64, b: u64): (difference: Option<u64>) {
    if b <= a then Some(a - b) else None
  }

  // add_offset: a negative offset is taken off by its magnitude.
  function AddOffset(base: u64, delta: i64): (p: Option<u64>) {
    if delta >= 0 then CheckedAdd(base, delta) else CheckedSub(base, -(delta as int))
  }

  // The two branches are one exact sum, refused when it leaves the range.
  lemma AddOffsetIsExact(base: u64, delta: i64)
    ensures AddOffset(base, delta) == if 0 <= base + delta < U64_LIMIT then Some(base + delta) else None
  {
  }

  // A relative seek that works can be taken back.
  lemma SeekBack(base: u64, delta: i64)
    requires AddOffset(base, delta).Some? && delta != -0x8000_0000_0000_0000
    ensures AddOffset(AddOffset(base, delta).value, -delta) == Some(base)
  {
    AddOffsetIsExact(base, delta);
    hide AddOffset;
    AddOffsetIsExact(base + delta, -delta);
  }

  function BlocksOf(remote: seq<byte>, size: nat, start: nat, n: nat): (blocks: seq<seq<byte>>)
    ensures |blocks| == n
  {
    seq(n, i requires 0 <= i => BlockOf(remote, size, start + i))
  }

  lemma BlockBefore(remote: seq<byte>, size: nat, a: nat, b: nat)
    requires BlockExists(remote, size, b) && a <= b
    ensures BlockExists(remote, size, a)
  {
    assert a * size <= b * size;
  }

  class HttpRangeStore {
    const remote: seq<byte>
    const blockBytes: nat
    const mayFail: bool
    const cache: BytesBoundLruCache<nat>
    var pos: nat
    var bytesFetched: nat
    var requests: nat

    predicate Valid()
      reads this, cache
    {
      blockBytes > 0 && cache.Valid() && Honest(remote, blockBytes, cache.list)
    }

    constructor (remote: seq<byte>, blockBytes: nat, cacheBytes: nat, mayFail: bool)
      requires blockBytes > 0
      ensures Valid() && fresh(cache) && pos == 0
      ensures this.remote == remote && this.blockBytes == blockBytes && this.mayFail == mayFail
      ensures cache.maxBytes == cacheBytes
    {
      this.remote, this.blockBytes, this.mayFail := remote, blockBytes, mayFail;
      cache := new BytesBoundLruCache(cacheBytes);
      pos, bytesFetched, requests := 0, 0, 1;
    }

    method Fault() returns (fault: bool)
      ensures fault ==> mayFail
    {
      fault := *;
      fault := fault && mayFail;
    }

    // Pure position arithmetic; a position past the end is allowed, and a
    // refused one moves nothing.
    method Seek(to: SeekFrom) returns (position: Option<u64>)
      requires |remote| < U64_LIMIT && pos < U64_LIMIT
      modifies this`pos
      ensures to.Start? ==> position == Some(to.position)
      ensures to.End? ==>
        position == if 0 <= |remote| + to.delta < U64_LIMIT then Some(|remote| + to.delta) else None
      ensures to.Current? ==>
        position == if 0 <= old(pos) + to.delta < U64_LIMIT then Some(old(pos) + to.delta) else None
      ensures position.Some? ==> pos == position.value
      ensures position.None? ==> pos == old(pos)
      ensures pos < U64_LIMIT
    {
      hide AddOffset;
      match to {
        case Start(p) => position := Some(p);
        case End(d) =>
          AddOffsetIsExact(|remote|, d);
          position := AddOffset(|remote|, d);
        case Current(d) =>
          AddOffsetIsExact(pos, d);
          position := AddOffset(pos, d);
      }
      if position.Some? {
        pos := position.value;
      }
    }

    // One range request; the body may end early or not come at all.
    method FetchBlocks(start: nat, n: nat) returns (ok: bool, blocks: seq<seq<byte>>)
      requires blockBytes > 0 && n > 0 && BlockExists(remote, blockBytes, start + n - 1)
      modifies this`bytesFetched, this`requests
      ensures ok ==> blocks == BlocksOf(remote, blockBytes, start, n) && requests == old(requests) + 1
      ensures !ok ==> mayFail && requests == old(requests)
    {
      hide BlockOf;
      blocks := [];
      var refused := Fault();
      if refused {
        return false, [];
      }
      for i := 0 to n
        invariant blocks == BlocksOf(remote, blockBytes, start, i)
        invariant requests == old(requests)
      {
        var short := Fault();
        if short {
          return false, blocks;
        }
        var block := BlockOf(remote, blockBytes, start + i);
        bytesFetched := bytesFetched + |block|;
        blocks := blocks + [block];
      }
      requests := requests + 1;
      ok := true;
    }

    // The blocks of a span that are cached, each touched on the way.
    method GatherCached(first: nat, last: nat) returns (blocks: seq<Option<seq<byte>>>)
      requires Valid() && first <= last
      modifies cache
      ensures Valid() && cache.maxBytes == old(cache.maxBytes)
      ensures blocks == CachedBlocks(old(cache.list), first, last + 1 - first)
      ensures SpanKept(cache.list, first, last + 1 - first, Filled(first, blocks))
    {
      hide BlockOf, BlockExists, Distinct, TotalBytes, Touched, Lookup, Honest, SpanKept, Span;
      blocks := [];
      NothingKept(cache.list, first, last + 1 - first);
      assert Filled(first, []) == {};
      for b := first to last + 1
        invariant Valid() && cache.maxBytes == old(cache.maxBytes)
        invariant blocks == CachedBlocks(old(cache.list), first, b - first)
        invariant forall k: nat :: Lookup(cache.list, k) == Lookup(old(cache.list), k)
        invariant SpanKept(cache.list, first, last + 1 - first, Filled(first, blocks))
      {
        TouchKeeps(cache.list, first, last + 1 - first, Filled(first, blocks), b);
        FilledMore(first, blocks, Lookup(cache.list, b));
        TouchKeepsLookups(remote, blockBytes, cache.list, b);
        var found := cache.Get(b);
        blocks := blocks + [found];
      }
    }

    // Fetched blocks go to the cache and to the reader.
    method StoreRun(first: nat, start: nat, fetched: seq<seq<byte>>, blocks: seq<Option<seq<byte>>>)
      returns (filled: seq<Option<seq<byte>>>)
      requires Valid() && first <= start && start + |fetched| <= first + |blocks|
      requires fetched == BlocksOf(remote, blockBytes, start, |fetched|)
      requires fetched != [] && BlockExists(remote, blockBytes, start + |fetched| - 1)
      modifies cache
      ensures Valid() && cache.maxBytes == old(cache.maxBytes)
      ensures |filled| == |blocks|
      ensures forall i :: 0 <= i < |blocks| ==>
        filled[i] == if InRun(Run(start, |fetched|), first + i)
                     then Some(BlockOf(remote, blockBytes, first + i)) else blocks[i]
      ensures Roomy(|blocks|, blockBytes, cache.maxBytes) ==>
        SpanKept(old(cache.list), first, |blocks|, Filled(first, blocks)) ==>
        SpanKept(cache.list, first, |blocks|, Filled(first, filled))
    {
      hide BlockOf, BlockExists, Distinct, TotalBytes, Stored, Honest, SpanKept, Span, Roomy, Filled;
      filled := blocks;
      for i := 0 to |fetched|
        invariant Valid() && cache.maxBytes == old(cache.maxBytes)
        invariant |filled| == |blocks|
        invariant forall j :: 0 <= j < |blocks| ==>
          filled[j] == if InRun(Run(start, i), first + j)
                       then Some(BlockOf(remote, blockBytes, first + j)) else blocks[j]
        invariant Roomy(|blocks|, blockBytes, cache.maxBytes) ==>
          SpanKept(old(cache.list), first, |blocks|, Filled(first, blocks)) ==>
          SpanKept(cache.list, first, |blocks|, Filled(first, filled))
      {
        BlockBefore(remote, blockBytes, start + i, start + |fetched| - 1);
        StoreKeepsSpan(remote, blockBytes, cache.list, cache.maxBytes, first, filled, start + i);
        StoreIsHonest(remote, blockBytes, cache.list, cache.maxBytes, start + i);
        cache.Put(start + i, fetched[i]);
        filled := filled[start + i - first := Some(fetched[i])];
      }
    }

    // The missing blocks of a span, one request for each run of them.
    method FetchMissing(first: nat, cached: seq<Option<seq<byte>>>, runs: seq<Run>)
      returns (ok: bool, blocks: seq<Option<seq<byte>>>)
      requires Valid() && IsPlan(first, Have(cached), runs)
      requires cached != [] && BlockExists(remote, blockBytes, first + |cached| - 1)
      requires RightBlocks(remote, blockBytes, first, cached)
      modifies this`bytesFetched, this`requests, cache
      ensures Valid() && cache.maxBytes == old(cache.maxBytes)
      ensures ok ==> requests == old(requests) + |runs|
      ensures ok ==> blocks == Wrapped(BlocksOf(remote, blockBytes, first, |cached|))
      ensures ok && Roomy(|cached|, blockBytes, cache.maxBytes) ==>
        SpanKept(old(cache.list), first, |cached|, Filled(first, cached)) ==>
        SpanKept(cache.list, first, |cached|, Filled(first, blocks))
      ensures !ok ==> mayFail
    {
      hide BlockOf, BlockExists, Honest, IsPlan, RightBlocks, SpanKept, Roomy, Filled;
      blocks := cached;
      for k := 0 to |runs|
        invariant Valid() && cache.maxBytes == old(cache.maxBytes)
        invariant requests == old(requests) + k
        invariant |blocks| == |cached| && RightBlocks(remote, blockBytes, first, blocks)
        invariant forall i :: 0 <= i < |blocks| && (cached[i].Some? || Fetched(runs[..k], first + i)) ==>
          blocks[i].Some?
        invariant Roomy(|cached|, blockBytes, cache.maxBytes) ==>
          SpanKept(old(cache.list), first, |cached|, Filled(first, cached)) ==>
          SpanKept(cache.list, first, |cached|, Filled(first, blocks))
      {
        RunInside(first, Have(cached), runs, k);
        BlockBefore(remote, blockBytes, runs[k].start + runs[k].count - 1, first + |cached| - 1);
        var fetched;
        ok, fetched := FetchBlocks(runs[k].start, runs[k].count);
        if !ok {
          return;
        }
        ghost var before := blocks;
        blocks := StoreRun(first, runs[k].start, fetched, blocks);
        OneMoreRun(remote, blockBytes, first, before, blocks, runs, k);
      }
      ok := true;
      AllFetched(remote, blockBytes, first, cached, blocks, runs);
    }

    // Bytes [start, end) of the file, out of the blocks that hold them.
    method CopyOut(buf: array<byte>, first: nat, blocks: seq<seq<byte>>, start: nat, end: nat)
      requires blockBytes > 0 && start < end <= |remote| && end - start <= buf.Length
      requires first == BlockAt(blockBytes, start) && first + |blocks| == BlockAt(blockBytes, end - 1) + 1
      requires blocks == BlocksOf(remote, blockBytes, first, |blocks|)
      modifies buf
      ensures buf[..end - start] == remote[start..end]
      ensures buf[end - start..] == old(buf[end - start..])
    {
      hide *;
      ghost var was := buf[..];
      NothingCopied(remote, blockBytes, start, end, was);
      for i := 0 to |blocks|
        invariant Copied(remote, start, CopiedBefore(blockBytes, start, end, i), was, buf[..])
      {
        BlocksAt(remote, blockBytes, first, |blocks|, i);
        CopyBlock(buf, first, i, blocks[i], start, end, was);
      }
      SpanEnds(blockBytes, start, end, |blocks|);
      AllCopied(remote, start, end, was, buf[..]);
    }

    method CopyBlock(buf: array<byte>, first: nat, i: nat, block: seq<byte>, start: nat, end: nat,
                     ghost was: seq<byte>)
      requires blockBytes > 0 && start < end <= |remote| && end - start <= buf.Length
      requires first == BlockAt(blockBytes, start) && first + i <= BlockAt(blockBytes, end - 1)
      requires block == BlockOf(remote, blockBytes, first + i)
      requires |was| == buf.Length && Copied(remote, start, CopiedBefore(blockBytes, start, end, i), was, buf[..])
      modifies buf
      ensures Copied(remote, start, CopiedBefore(blockBytes, start, end, i + 1), was, buf[..])
    {
      hide BlockOf, Copied, CopiedBefore, BlockStart;
      SpanOfBlock(remote, blockBytes, start, end, i);
      var blockStart := BlockStart(blockBytes, first + i);
      var copyFrom := Max(start, blockStart);
      var copyTo := Min(end, blockStart + |block|);
      ghost var before := buf[..];
      CopyAt(buf, copyFrom - start, block[copyFrom - blockStart..copyTo - blockStart]);
      assert start + (copyFrom - start) == copyFrom && start + (copyTo - start) == copyTo;
      CopiedMore(remote, start, copyFrom - start, copyTo - start, was, before, buf[..]);
    }

    // Reads stop short at the end of the file only.  The blocks the cache
    // lacks, and no others, are fetched; a failed read moves nothing.
    method Read(buf: array<byte>) returns (ok: bool, n: nat, ghost runs: seq<Run>)
      requires Valid()
      modifies this`pos, this`bytesFetched, this`requests, cache, buf
      ensures Valid() && cache.maxBytes == old(cache.maxBytes)
      ensures !ok ==> mayFail && pos == old(pos) && buf[..] == old(buf[..])
      ensures ok ==> n == Readable(|remote|, old(pos), buf.Length) && pos == old(pos) + n
      ensures ok ==> n <= buf.Length && (n < buf.Length ==> pos >= |remote|) && (n > 0 ==> pos <= |remote|)
      ensures ok && n > 0 ==> buf[..n] == remote[old(pos)..pos]
      ensures ok ==> buf[n..] == old(buf[..])[n..] && requests == old(requests) + |runs|
      ensures ok && n > 0 ==>
        IsPlan(BlockAt(blockBytes, old(pos)), HeldOf(old(cache.list), blockBytes, old(pos), n), runs)
      ensures ok && n > 0 && SpanFits(blockBytes, old(pos), n, cache.maxBytes) ==>
        SpanHeld(cache.list, blockBytes, old(pos), n)
      ensures n == 0 ==> runs == []
    {
      hide IsPlan, HeldOf, Honest, Distinct, TotalBytes, SpanFits, SpanHeld;
      if buf.Length == 0 || pos >= |remote| {
        return true, 0, [];
      }
      n := Min(buf.Length, |remote| - pos);
      ok, runs := ReadSpan(buf, pos, n);
      if ok {
        pos := pos + n;
      } else {
        n, runs := 0, [];
      }
    }

    method ReadSpan(buf: array<byte>, start: nat, want: nat) returns (ok: bool, ghost runs: seq<Run>)
      requires Valid() && 0 < want <= buf.Length && start + want <= |remote|
      modifies this`bytesFetched, this`requests, cache, buf
      ensures Valid() && cache.maxBytes == old(cache.maxBytes)
      ensures !ok ==> mayFail && buf[..] == old(buf[..])
      ensures ok ==> buf[..want] == remote[start..start + want] && buf[want..] == old(buf[..])[want..]
      ensures ok ==> requests == old(requests) + |runs|
      ensures ok ==> IsPlan(BlockAt(blockBytes, start), HeldOf(old(cache.list), blockBytes, start, want), runs)
      ensures ok && SpanFits(blockBytes, start, want, cache.maxBytes) ==>
        SpanHeld(cache.list, blockBytes, start, want)
    {
      hide IsPlan, Honest, Distinct, TotalBytes, BlockOf, BlocksOf, CachedBlocks, RightBlocks, BlockExists, Wrapped;
      hide SpanKept, Filled, Roomy, SpanHeld;
      var first, last := BlockAt(blockBytes, start), BlockAt(blockBytes, start + want - 1);
      SpanInFile(remote, blockBytes, start, start + want);
      CachedAreRight(remote, blockBytes, cache.list, first, last + 1 - first);
      var cached := GatherCached(first, last);
      var plan := PlanBlockFetches(first, Have(cached));
      var blocks;
      ok, blocks := FetchMissing(first, cached, plan);
      runs := plan;
      if ok {
        WrappedBack(BlocksOf(remote, blockBytes, first, |cached|));
        KeptSpanIsHeld(cache.list, blockBytes, start, want, blocks);
        CopyOut(buf, first, Unwrapped(blocks), start, start + want);
      }
    }

    static method CopyAt(buf: array<byte>, d: nat, piece: seq<byte>)
      requires d + |piece| <= buf.Length
      modifies buf
      ensures buf[..] == old(buf[..])[..d] + piece + old(buf[..])[d + |piece|..]
    {
      forall i | 0 <= i < |piece| {
        buf[d + i] := piece[i];
      }
    }
  }

  // How many bytes of a span precede its i-th block.
  function CopiedBefore(size: nat, start: nat, end: nat, i: nat): (n: nat)
    requires size > 0 && start < end
    ensures n <= end - start
  {
    if i == 0 then 0 else Max(0, Min(end, BlockStart(size, BlockAt(size, start) + i)) - start)
  }

  // The first n bytes of the buffer come from the file, the rest is as it was.
  predicate Copied(remote: seq<byte>, start: nat, n: nat, was: seq<byte>, now: seq<byte>) {
    && n <= |was| && |now| == |was| && start + n <= |remote|
    && now[..n] == remote[start..start + n] && now[n..] == was[n..]
  }

  lemma NothingCopied(remote: seq<byte>, size: nat, start: nat, end: nat, was: seq<byte>)
    requires size > 0 && start < end <= |remote|
    ensures Copied(remote, start, CopiedBefore(size, start, end, 0), was, was)
  {
  }

  lemma CopiedMore(remote: seq<byte>, start: nat, n: nat, m: nat, was: seq<byte>, now: seq<byte>, next: seq<byte>)
    requires Copied(remote, start, n, was, now) && n <= m <= |was| && start + m <= |remote|
    requires next == now[..n] + remote[start + n..start + m] + now[m..]
    ensures Copied(remote, start, m, was, next)
  {
    assert remote[start..start + m] == remote[start..start + n] + remote[start + n..start + m];
    assert now[m..] == now[n..][m - n..] == was[n..][m - n..] == was[m..];
    assert next[..m] == now[..n] + remote[start + n..start + m];
    assert next[m..] == now[m..];
  }

  lemma AllCopied(remote: seq<byte>, start: nat, end: nat, was: seq<byte>, now: seq<byte>)
    requires start <= end && Copied(remote, start, end - start, was, now)
    ensures now[..end - start] == remote[start..end] && now[end - start..] == was[end - start..]
  {
  }

  lemma BlocksAt(remote: seq<byte>, size: nat, start: nat, n: nat, i: nat)
    requires i < n
    ensures BlocksOf(remote, size, start, n)[i] == BlockOf(remote, size, start + i)
  {
  }

  // Block i of the span holds the bytes that follow those before it.
  lemma SpanOfBlock(remote: seq<byte>, size: nat, start: nat, end: nat, i: nat)
    requires size > 0 && start < end <= |remote| && i <= BlockAt(size, end - 1) - BlockAt(size, start)
    ensures var blockStart := BlockStart(size, BlockAt(size, start) + i);
            var copyFrom := Max(start, blockStart);
            var block := BlockOf(remote, size, BlockAt(size, start) + i);
            var copyTo := Min(end, blockStart + |block|);
            && blockStart <= copyFrom <= copyTo
            && copyFrom == start + CopiedBefore(size, start, end, i)
            && copyTo == start + CopiedBefore(size, start, end, i + 1)
            && block[copyFrom - blockStart..copyTo - blockStart] == remote[copyFrom..copyTo]
  {
    hide *;
    var b := BlockAt(size, start) + i;
    BlockBounds(size, start, end, i);
    BlockPart(remote, size, b, start, end);
    CopiedBounds(size, start, end, i);
  }

  lemma BlockPart(remote: seq<byte>, size: nat, b: nat, start: nat, end: nat)
    requires start < end <= |remote| && BlockStart(size, b) < end && start < BlockStart(size, b + 1)
    requires BlockStart(size, b) < BlockStart(size, b + 1)
    ensures var lo, block := BlockStart(size, b), BlockOf(remote, size, b);
            var from, to := Max(start, lo), Min(end, lo + |block|);
            && to == Min(end, BlockStart(size, b + 1)) && lo <= from <= to
            && block[from - lo..to - lo] == remote[from..to]
  {
    hide BlockOf, BlockStart;
    BlockBytes(remote, size, b, Max(start, BlockStart(size, b)), Min(end, BlockStart(size, b + 1)));
  }

  lemma BlockBounds(size: nat, start: nat, end: nat, i: nat)
    requires size > 0 && start < end && i <= BlockAt(size, end - 1) - BlockAt(size, start)
    ensures var b := BlockAt(size, start) + i;
            && BlockStart(size, b) < end && BlockStart(size, b) < BlockStart(size, b + 1) == BlockStart(size, b) + size
            && start < BlockStart(size, b + 1)
            && (if i == 0 then BlockStart(size, b) <= start else start < BlockStart(size, b))
            && (b == BlockAt(size, end - 1) ==> end <= BlockStart(size, b + 1))
  {
    var b := BlockAt(size, start) + i;
    QuotientBounds(start, size);
    QuotientBounds(end - 1, size);
    MulMonotone(BlockAt(size, end - 1), b, size);
    MulMonotone(b, BlockAt(size, start), size);
    assert BlockStart(size, b + 1) == BlockStart(size, b) + size;
  }

  lemma QuotientBounds(n: nat, size: nat)
    requires size > 0
    ensures BlockStart(size, BlockAt(size, n)) <= n < BlockStart(size, BlockAt(size, n)) + size
  {
  }

  lemma BlockBytes(remote: seq<byte>, size: nat, b: nat, from: nat, to: nat)
    requires BlockStart(size, b) <= from <= to <= |remote| && to <= BlockStart(size, b + 1)
    ensures var lo, block := BlockStart(size, b), BlockOf(remote, size, b);
            && |block| == Min(BlockStart(size, b + 1), |remote|) - lo
            && to - lo <= |block| && block[from - lo..to - lo] == remote[from..to]
  {
    hide BlockStart;
    var lo, hi := BlockStart(size, b), Min(BlockStart(size, b + 1), |remote|);
    SliceOfSlice(remote, lo, hi, from - lo, to - lo);
  }

  lemma CopiedBounds(size: nat, start: nat, end: nat, i: nat)
    requires size > 0 && start < end && i <= BlockAt(size, end - 1) - BlockAt(size, start)
    ensures start + CopiedBefore(size, start, end, i) == Max(start, BlockStart(size, BlockAt(size, start) + i))
    ensures start + CopiedBefore(size, start, end, i + 1) == Min(end, BlockStart(size, BlockAt(size, start) + i + 1))
  {
    hide BlockStart, BlockAt;
    BlockBounds(size, start, end, i);
  }

  lemma SpanEnds(size: nat, start: nat, end: nat, n: nat)
    requires size > 0 && start < end && n == BlockAt(size, end - 1) - BlockAt(size, start) + 1
    ensures n > 0 && CopiedBefore(size, start, end, n) == end - start
  {
    QuotientGrows(size, start, end - 1);
    BlockBounds(size, start, end, n - 1);
    CopiedBounds(size, start, end, n - 1);
  }

  lemma QuotientGrows(size: nat, a: nat, b: nat)
    requires size > 0 && a <= b
    ensures BlockAt(size, a) <= BlockAt(size, b)
  {
    QuotientBounds(a, size);
    QuotientBounds(b, size);
    MulMonotone(BlockAt(size, a), BlockAt(size, b), size);
  }

  // The bytes a read can return, and which blocks of their span are held.
  function Readable(total: nat, pos: nat, wanted: nat): (n: nat) {
    Min(wanted, Max(0, total - pos))
  }

  function HeldOf(list: seq<Entry<nat>>, size: nat, start: nat, n: nat): (have: seq<bool>)
    requires size > 0 && n > 0
  {
    QuotientGrows(size, start, start + n - 1);
    Have(CachedBlocks(list, BlockAt(size, start), BlockAt(size, start + n - 1) + 1 - BlockAt(size, start)))
  }

  // Room for every block of a span, and none of them missing from the cache.
  predicate SpanFits(size: nat, start: nat, n: nat, capacity: nat)
    requires size > 0 && n > 0
  {
    QuotientGrows(size, start, start + n - 1);
    Roomy(BlockAt(size, start + n - 1) + 1 - BlockAt(size, start), size, capacity)
  }

  predicate SpanHeld(list: seq<Entry<nat>>, size: nat, start: nat, n: nat)
    requires size > 0 && n > 0
  {
    forall b: nat :: BlockAt(size, start) <= b <= BlockAt(size, start + n - 1) ==> Lookup(list, b).Some?
  }

  // A read inside a span that is held asks the server for nothing.
  lemma HeldSpanNeedsNoRequest(list: seq<Entry<nat>>, size: nat, start: nat, n: nat, from: nat, m: nat,
                               runs: seq<Run>)
    requires size > 0 && m > 0 && start <= from && from + m <= start + n && SpanHeld(list, size, start, n)
    requires IsPlan(BlockAt(size, from), HeldOf(list, size, from, m), runs)
    ensures runs == []
  {
    hide Lookup, BlockAt, IsPlan;
    QuotientGrows(size, start, from);
    QuotientGrows(size, from, from + m - 1);
    QuotientGrows(size, from + m - 1, start + n - 1);
    NothingMissing(BlockAt(size, from), HeldOf(list, size, from, m), runs);
  }

  lemma NothingMissing(first: nat, have: seq<bool>, runs: seq<Run>)
    requires IsPlan(first, have, runs) && forall i :: 0 <= i < |have| ==> have[i]
    ensures runs == []
  {
    if runs != [] {
      RunStartIsMissing(first, have, runs, 0);
      assert false;
    }
  }

  lemma RunStartIsMissing(first: nat, have: seq<bool>, runs: seq<Run>, k: nat)
    requires IsPlan(first, have, runs) && k < |runs|
    ensures Missing(first, have, runs[k].start)
  {
    assert InRun(runs[k], runs[k].start);
  }

  function Filled(first: nat, blocks: seq<Option<seq<byte>>>): (keys: set<nat>) {
    set i | 0 <= i < |blocks| && blocks[i].Some? :: first + i
  }

  lemma FilledMore(first: nat, blocks: seq<Option<seq<byte>>>, block: Option<seq<byte>>)
    ensures Filled(first, blocks + [block])
         == if block.Some? then Filled(first, blocks) + {first + |blocks|} else Filled(first, blocks)
  {
    var all := blocks + [block];
    forall b: nat | b in Filled(first, blocks) ensures b in Filled(first, all) {
      assert all[b - first] == blocks[b - first];
    }
    assert block.Some? ==> all[|blocks|].Some?;
  }

  lemma FilledAt(first: nat, blocks: seq<Option<seq<byte>>>, i: nat, block: seq<byte>)
    requires i < |blocks|
    ensures Filled(first, blocks[i := Some(block)]) == Filled(first, blocks) + {first + i}
  {
    var all := blocks[i := Some(block)];
    forall b: nat | b in Filled(first, blocks) + {first + i} ensures b in Filled(first, all) {
      assert all[b - first].Some?;
    }
  }

  lemma BlockSize(remote: seq<byte>, size: nat, b: nat)
    requires BlockExists(remote, size, b) && size > 0
    ensures 0 < |BlockOf(remote, size, b)| <= size
  {
    assert BlockStart(size, b + 1) == BlockStart(size, b) + size;
  }

  lemma HonestIsSmall(remote: seq<byte>, size: nat, list: seq<Entry<nat>>)
    requires Honest(remote, size, list) && size > 0
    ensures SmallEntries(list, size)
  {
    hide BlockOf, BlockExists;
    forall i | 0 <= i < |list| ensures |list[i].bytes| <= size {
      BlockSize(remote, size, list[i].key);
    }
  }

  // The file's blocks stored one by one all stay, where the span has room.
  lemma StoreKeepsSpan(remote: seq<byte>, size: nat, list: seq<Entry<nat>>, capacity: nat, first: nat,
                       blocks: seq<Option<seq<byte>>>, b: nat)
    requires Honest(remote, size, list) && Distinct(list) && BlockExists(remote, size, b) && size > 0
    requires first <= b < first + |blocks|
    ensures Roomy(|blocks|, size, capacity) && SpanKept(list, first, |blocks|, Filled(first, blocks)) ==>
      SpanKept(Stored(list, capacity, b, BlockOf(remote, size, b)), first, |blocks|,
               Filled(first, blocks[b - first := Some(BlockOf(remote, size, b))]))
  {
    hide *;
    HonestIsSmall(remote, size, list);
    BlockSize(remote, size, b);
    var block := BlockOf(remote, size, b);
    FilledAt(first, blocks, b - first, block);
    if Roomy(|blocks|, size, capacity) && SpanKept(list, first, |blocks|, Filled(first, blocks)) {
      StoreKeeps(list, capacity, first, |blocks|, Filled(first, blocks), b, block, size);
    }
  }

  lemma KeptSpanIsHeld(list: seq<Entry<nat>>, size: nat, start: nat, n: nat, blocks: seq<Option<seq<byte>>>)
    requires size > 0 && n > 0 && BlockAt(size, start) + |blocks| == BlockAt(size, start + n - 1) + 1
    requires forall i :: 0 <= i < |blocks| ==> blocks[i].Some?
    ensures SpanKept(list, BlockAt(size, start), |blocks|, Filled(BlockAt(size, start), blocks)) ==>
      SpanHeld(list, size, start, n)
  {
    hide SpanKept, Lookup, BlockAt;
    var first := BlockAt(size, start);
    if SpanKept(list, first, |blocks|, Filled(first, blocks)) {
      forall b: nat | first <= b <= BlockAt(size, start + n - 1) ensures Lookup(list, b).Some? {
        assert blocks[b - first].Some?;
        KeptIsHeld(list, first, |blocks|, Filled(first, blocks), b);
      }
    }
  }

  lemma SpanInFile(remote: seq<byte>, size: nat, start: nat, end: nat)
    requires size > 0 && start < end <= |remote|
    ensures BlockAt(size, start) <= BlockAt(size, end - 1) && BlockExists(remote, size, BlockAt(size, end - 1))
  {
    QuotientGrows(size, start, end - 1);
    QuotientBounds(end - 1, size);
  }

  lemma CachedAreRight(remote: seq<byte>, size: nat, list: seq<Entry<nat>>, first: nat, n: nat)
    requires Honest(remote, size, list)
    ensures |CachedBlocks(list, first, n)| == n
    ensures RightBlocks(remote, size, first, CachedBlocks(list, first, n))
  {
    hide BlockOf, BlockExists, Honest, Lookup;
    var blocks := CachedBlocks(list, first, n);
    forall i | 0 <= i < n && blocks[i].Some?
      ensures blocks[i].value == BlockOf(remote, size, first + i)
    {
      HitIsHonest(remote, size, list, first + i);
    }
  }

  function Unwrapped<T>(s: seq<Option<T>>): (r: seq<T>)
    requires forall i :: 0 <= i < |s| ==> s[i].Some?
  {
    seq(|s|, i requires 0 <= i < |s| => s[i].value)
  }

  lemma WrappedBack<T>(s: seq<T>)
    ensures forall i :: 0 <= i < |Wrapped(s)| ==> Wrapped(s)[i].Some?
    ensures Unwrapped(Wrapped(s)) == s
  {
  }

  function Wrapped<T>(s: seq<T>): (r: seq<Option<T>>) {
    seq(|s|, i requires 0 <= i < |s| => Some(s[i]))
  }

  // Every block present is the file's.
  predicate RightBlocks(remote: seq<byte>, size: nat, first: nat, blocks: seq<Option<seq<byte>>>) {
    forall i :: 0 <= i < |blocks| && blocks[i].Some? ==> blocks[i].value == BlockOf(remote, size, first + i)
  }

  lemma RunInside(first: nat, have: seq<bool>, runs: seq<Run>, k: nat)
    requires IsPlan(first, have, runs) && k < |runs|
    ensures runs[k].count > 0 && first <= runs[k].start && runs[k].start + runs[k].count <= first + |have|
  {
    assert InRun(runs[k], runs[k].start) && Missing(first, have, runs[k].start);
    var last := runs[k].start + runs[k].count - 1;
    assert InRun(runs[k], last) && Missing(first, have, last);
  }

  lemma OneMoreRun(remote: seq<byte>, size: nat, first: nat, before: seq<Option<seq<byte>>>,
                   after: seq<Option<seq<byte>>>, runs: seq<Run>, k: nat)
    requires k < |runs| && |before| == |after| && RightBlocks(remote, size, first, before)
    requires forall i :: 0 <= i < |before| ==>
      after[i] == if InRun(runs[k], first + i) then Some(BlockOf(remote, size, first + i)) else before[i]
    ensures RightBlocks(remote, size, first, after)
    ensures forall i :: 0 <= i < |after| && before[i].Some? ==> after[i].Some?
    ensures forall b: nat :: Fetched(runs[..k + 1], b) <==> Fetched(runs[..k], b) || InRun(runs[k], b)
  {
    hide BlockOf;
    assert runs[..k + 1] == runs[..k] + [runs[k]];
    StillFetched(runs[..k], runs[k]);
    forall b: nat | Fetched(runs[..k + 1], b)
      ensures Fetched(runs[..k], b) || InRun(runs[k], b)
    {
      var j :| 0 <= j <= k && InRun(runs[..k + 1][j], b);
      if j < k {
        assert InRun(runs[..k][j], b);
      }
    }
  }

  lemma AllFetched(remote: seq<byte>, size: nat, first: nat, cached: seq<Option<seq<byte>>>,
                   blocks: seq<Option<seq<byte>>>, runs: seq<Run>)
    requires IsPlan(first, Have(cached), runs) && |blocks| == |cached|
    requires RightBlocks(remote, size, first, blocks)
    requires forall i :: 0 <= i < |blocks| && (cached[i].Some? || Fetched(runs, first + i)) ==> blocks[i].Some?
    ensures blocks == Wrapped(BlocksOf(remote, size, first, |cached|))
  {
    hide BlockOf;
    forall i | 0 <= i < |blocks|
      ensures blocks[i] == Some(BlockOf(remote, size, first + i))
    {
      if cached[i].None? {
        assert Missing(first, Have(cached), first + i);
        assert Fetched(runs, first + i);
      }
    }
  }

  // What the cache holds of n blocks, and which of them those are.
  function CachedBlocks(list: seq<Entry<nat>>, first: nat, n: nat): (blocks: seq<Option<seq<byte>>>) {
    seq(n, i requires 0 <= i => Lookup(list, first + i))
  }

  function Have(blocks: seq<Option<seq<byte>>>): (have: seq<bool>) {
    seq(|blocks|, i requires 0 <= i < |blocks| => blocks[i].Some?)
  }

  lemma TouchKeepsLookups(remote: seq<byte>, size: nat, list: seq<Entry<nat>>, b: nat)
    requires Honest(remote, size, list) && Distinct(list)
    ensures Honest(remote, size, Touched(list, b))
    ensures forall k: nat :: Lookup(Touched(list, b), k) == Lookup(list, k)
  {
    hide BlockOf, BlockExists, Honest, Distinct, TotalBytes, Touched, Lookup, Find;
    if Lookup(list, b).Some? {
      HitIsHonest(remote, size, list, b);
    } else {
      MissIsHonest(remote, size, list, b);
    }
    forall k: nat
      ensures Lookup(Touched(list, b), k) == Lookup(list, k)
    {
      TouchKeepsLookup(list, b, k);
    }
  }
}
