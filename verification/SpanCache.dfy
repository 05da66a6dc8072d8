// The cached blocks of one span of a file: look-ups and stores of a span that
// fits the cache keep all of it.
module SpanCaches {
  import opened FitsBytes
  import opened SliceMath
  import opened LruCaches

  predicate KeysIn(list: seq<Entry<nat>>, keys: set<nat>) {
    forall i :: 0 <= i < |list| ==> list[i].key in keys
  }

  predicate HoldsAll(list: seq<Entry<nat>>, keys: set<nat>) {
    forall k :: k in keys ==> Holds(list, k)
  }

  // No entry is larger than a block.
  predicate SmallEntries(list: seq<Entry<nat>>, size: nat) {
    forall i :: 0 <= i < |list| ==> |list[i].bytes| <= size
  }

  // The blocks of a span of n.
  function Span(first: nat, n: nat): (keys: set<nat>)
    ensures |keys| == n
    ensures forall k: nat :: k in keys <==> first <= k < first + n
  {
    if n == 0 then {} else Span(first, n - 1) + {first + n - 1}
  }

  lemma {:induction false} DistinctFit(list: seq<Entry<nat>>, keys: set<nat>)
    requires Distinct(list) && KeysIn(list, keys)
    ensures |list| <= |keys|
  {
    if list != [] {
      var m := |list| - 1;
      DistinctFit(list[..m], keys - {list[m].key});
    }
  }

  lemma {:induction false} SmallTotal(list: seq<Entry<nat>>, size: nat)
    requires SmallEntries(list, size)
    ensures TotalBytes(list) <= |list| * size
  {
    if list != [] {
      SmallTotal(list[1..], size);
      assert |list| * size == (|list| - 1) * size + size;
    }
  }

  // The most recently used entries, from p on, are blocks of the span, all of
  // `kept` among them.
  predicate RecentFrom(list: seq<Entry<nat>>, p: nat, first: nat, n: nat, kept: set<nat>) {
    p <= |list| && KeysIn(list[p..], Span(first, n)) && HoldsAll(list[p..], kept)
  }

  ghost predicate SpanKept(list: seq<Entry<nat>>, first: nat, n: nat, kept: set<nat>) {
    exists p: nat :: RecentFrom(list, p, first, n, kept)
  }

  lemma NothingKept(list: seq<Entry<nat>>, first: nat, n: nat)
    ensures SpanKept(list, first, n, {})
  {
    assert RecentFrom(list, |list|, first, n, {});
  }

  lemma KeptIsHeld(list: seq<Entry<nat>>, first: nat, n: nat, kept: set<nat>, b: nat)
    requires SpanKept(list, first, n, kept) && b in kept
    ensures Lookup(list, b).Some?
  {
    var p: nat :| RecentFrom(list, p, first, n, kept);
    assert Holds(list[p..], b);
    var i :| 0 <= i < |list[p..]| && list[p..][i].key == b;
    assert list[p + i].key == b;
  }

  // Taking out entry i and putting it last keeps a tail's keys.
  lemma LastAgain(tail: seq<Entry<nat>>, i: nat, keys: set<nat>, kept: set<nat>)
    requires i < |tail| && KeysIn(tail, keys) && HoldsAll(tail, kept)
    ensures var r := tail[..i] + tail[i + 1..] + [tail[i]]; KeysIn(r, keys) && HoldsAll(r, kept + {tail[i].key})
  {
    var r := tail[..i] + tail[i + 1..] + [tail[i]];
    assert r[|r| - 1] == tail[i];
    forall k | k in kept + {tail[i].key} ensures Holds(r, k) {
      if k in kept {
        assert Holds(tail, k);
        var j :| 0 <= j < |tail| && tail[j].key == k;
        assert if j < i then r[j] == tail[j] else if j == i then r[|r| - 1] == tail[j] else r[j - 1] == tail[j];
      }
    }
  }

  lemma OneMoreKey(tail: seq<Entry<nat>>, e: Entry<nat>, keys: set<nat>, kept: set<nat>)
    requires KeysIn(tail, keys) && HoldsAll(tail, kept) && e.key in keys
    ensures KeysIn(tail + [e], keys) && HoldsAll(tail + [e], kept + {e.key})
  {
    var r := tail + [e];
    assert r[|tail|] == e;
    forall k | k in kept + {e.key} ensures Holds(r, k) {
      if k in kept {
        assert Holds(tail, k);
        var j :| 0 <= j < |tail| && tail[j].key == k;
        assert r[j] == tail[j];
      }
    }
  }

  // A look-up that hits keeps what was kept, and its own block.
  lemma TouchKeeps(list: seq<Entry<nat>>, first: nat, n: nat, kept: set<nat>, b: nat)
    requires SpanKept(list, first, n, kept) && b in Span(first, n)
    ensures SpanKept(Touched(list, b), first, n, if Lookup(list, b).Some? then kept + {b} else kept)
  {
    hide RecentFrom, Find, Span;
    var p: nat :| RecentFrom(list, p, first, n, kept);
    var i := Find(list, b);
    if i < |list| {
      var q := MovedLast(list, p, first, n, kept, i);
    }
  }

  lemma MovedLast(list: seq<Entry<nat>>, p: nat, first: nat, n: nat, kept: set<nat>, i: nat) returns (q: nat)
    requires RecentFrom(list, p, first, n, kept) && i < |list| && list[i].key in Span(first, n)
    ensures RecentFrom(list[..i] + list[i + 1..] + [list[i]], q, first, n, kept + {list[i].key})
  {
    hide KeysIn, HoldsAll, Span;
    var r, tail := list[..i] + list[i + 1..] + [list[i]], list[p..];
    if i < p {
      q := p - 1;
      assert r[q..] == tail + [list[i]];
      OneMoreKey(tail, list[i], Span(first, n), kept);
    } else {
      q := p;
      assert r[q..] == tail[..i - p] + tail[i - p + 1..] + [tail[i - p]];
      LastAgain(tail, i - p, Span(first, n), kept);
    }
  }

  // The list without b, and where the span's entries start in it.
  lemma WithoutKeeps(list: seq<Entry<nat>>, first: nat, n: nat, kept: set<nat>, b: nat) returns (q: nat)
    requires SpanKept(list, first, n, kept) && Distinct(list)
    ensures RecentFrom(Without(list, b), q, first, n, kept - {b})
    ensures Distinct(Without(list, b)) && forall i :: 0 <= i < |Without(list, b)| ==> Without(list, b)[i].key != b
  {
    var p: nat :| RecentFrom(list, p, first, n, kept);
    WithoutIsDistinct(list, b);
    var i, r := Find(list, b), Without(list, b);
    hide Distinct, Find, Span, KeysIn, HoldsAll;
    q := if i < p then p - 1 else p;
    if i == |list| || i < p {
      assert r[q..] == list[p..];
      FewerHeld(list[p..], kept, b);
    } else {
      assert r[q..] == list[p..][..i - p] + list[p..][i - p + 1..];
      OneTakenOut(list[p..], i - p, Span(first, n), kept);
    }
  }

  lemma FewerHeld(tail: seq<Entry<nat>>, kept: set<nat>, b: nat)
    requires HoldsAll(tail, kept)
    ensures HoldsAll(tail, kept - {b})
  {
  }

  lemma OneTakenOut(tail: seq<Entry<nat>>, i: nat, keys: set<nat>, kept: set<nat>)
    requires i < |tail| && KeysIn(tail, keys) && HoldsAll(tail, kept)
    ensures var r := tail[..i] + tail[i + 1..]; KeysIn(r, keys) && HoldsAll(r, kept - {tail[i].key})
  {
    var r := tail[..i] + tail[i + 1..];
    forall k | k in kept - {tail[i].key} ensures Holds(r, k) {
      assert Holds(tail, k);
      var j :| 0 <= j < |tail| && tail[j].key == k;
      assert if j < i then r[j] == tail[j] else r[j - 1] == tail[j];
    }
  }

  // The capacity holds n blocks.
  predicate Roomy(n: nat, size: nat, capacity: nat) {
    n * size <= capacity
  }

  lemma TailFits(tail: seq<Entry<nat>>, first: nat, n: nat, b: nat, size: nat, capacity: nat)
    requires Distinct(tail) && KeysIn(tail, Span(first, n)) && b in Span(first, n) && SmallEntries(tail, size)
    requires (forall i :: 0 <= i < |tail| ==> tail[i].key != b) && Roomy(n, size, capacity)
    ensures TotalBytes(tail) + size <= capacity
  {
    hide Distinct, TotalBytes;
    DistinctFit(tail, Span(first, n) - {b});
    SmallTotal(tail, size);
    MulMonotone(n - 1, |tail|, size);
    assert n * size == (n - 1) * size + size;
  }

  // A store of one of its blocks evicts nothing of a span that fits.
  lemma StoreKeeps(list: seq<Entry<nat>>, capacity: nat, first: nat, n: nat, kept: set<nat>, b: nat, bytes: seq<byte>,
                   size: nat)
    requires SpanKept(list, first, n, kept) && Distinct(list) && SmallEntries(list, size) && b in Span(first, n)
    requires 0 < |bytes| <= size && Roomy(n, size, capacity)
    ensures SpanKept(Stored(list, capacity, b, bytes), first, n, kept + {b})
  {
    hide Distinct, Span, KeysIn, HoldsAll, Find, TotalBytes, Evicted, Without, Roomy;
    var q := WithoutKeeps(list, first, n, kept, b);
    var rest := Without(list, b);
    StillSmall(list, b, size);
    SuffixFacts(rest, q, b, size);
    TailFits(rest[q..], first, n, b, size, capacity);
    var k := EvictsShortestRun(rest, capacity - |bytes|);
    if k > q {
      assert false;
    }
    var r := rest[k..] + [Entry(b, bytes)];
    assert r[q - k..] == rest[q..] + [Entry(b, bytes)];
    OneMoreKey(rest[q..], Entry(b, bytes), Span(first, n), kept - {b});
    assert kept - {b} + {b} == kept + {b};
    assert RecentFrom(r, q - k, first, n, kept + {b});
  }

  lemma StillSmall(list: seq<Entry<nat>>, b: nat, size: nat)
    requires SmallEntries(list, size)
    ensures SmallEntries(Without(list, b), size)
  {
    hide Find;
  }

  lemma SuffixFacts(list: seq<Entry<nat>>, q: nat, b: nat, size: nat)
    requires q <= |list| && Distinct(list) && SmallEntries(list, size)
    requires forall i :: 0 <= i < |list| ==> list[i].key != b
    ensures Distinct(list[q..]) && SmallEntries(list[q..], size)
    ensures forall i :: 0 <= i < |list[q..]| ==> list[q..][i].key != b
  {
  }
}
