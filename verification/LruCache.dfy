// A cache of byte strings bounded by their total size.  Entries are kept in
// order of use, the least recently used first.
module LruCaches {
  import opened FitsBytes

  datatype Entry<K> = Entry(key: K, bytes: seq<byte>)

  function TotalBytes<K>(list: seq<Entry<K>>): (n: nat) {
    if list == [] then 0 else |list[0].bytes| + TotalBytes(list[1..])
  }

  predicate Distinct<K(==)>(list: seq<Entry<K>>) {
    forall i, j :: 0 <= i < j < |list| ==> list[i].key != list[j].key
  }

  predicate Holds<K(==)>(list: seq<Entry<K>>, key: K) {
    exists i :: 0 <= i < |list| && list[i].key == key
  }

  // The entry under `key`, and the list without it.
  function Find<K(==)>(list: seq<Entry<K>>, key: K): (i: nat)
    ensures i <= |list|
    ensures i < |list| ==> list[i].key == key
    ensures forall j :: 0 <= j < i ==> list[j].key != key
  {
    if list == [] || list[0].key == key then 0 else 1 + Find(list[1..], key)
  }

  function Without<K(==)>(list: seq<Entry<K>>, key: K): (rest: seq<Entry<K>>) {
    var i := Find(list, key);
    if i < |list| then list[..i] + list[i + 1..] else list
  }

  function Lookup<K(==)>(list: seq<Entry<K>>, key: K): (found: Option<seq<byte>>) {
    var i := Find(list, key);
    if i < |list| then Some(list[i].bytes) else None
  }

  // The list after a look-up: a hit becomes the most recently used.
  function Touched<K(==)>(list: seq<Entry<K>>, key: K): (r: seq<Entry<K>>) {
    var i := Find(list, key);
    if i < |list| then list[..i] + list[i + 1..] + [list[i]] else list
  }

  // What is left when entries go, least recently used first, until the rest
  // fits in `room`.
  function Evicted<K>(list: seq<Entry<K>>, room: nat): (rest: seq<Entry<K>>)
    ensures TotalBytes(rest) <= room
  {
    if TotalBytes(list) <= room then list else Evicted(list[1..], room)
  }

  predicate Accepts(capacity: nat, size: nat) {
    0 < capacity && size <= capacity
  }

  function Stored<K(==)>(list: seq<Entry<K>>, capacity: nat, key: K, bytes: seq<byte>): (r: seq<Entry<K>>) {
    if Accepts(capacity, |bytes|)
    then Evicted(Without(list, key), capacity - |bytes|) + [Entry(key, bytes)]
    else list
  }

  // ----- sizes -----

  lemma {:induction false} TotalOfParts<K>(a: seq<Entry<K>>, b: seq<Entry<K>>)
    ensures TotalBytes(a + b) == TotalBytes(a) + TotalBytes(b)
  {
    if a == [] {
      assert a + b == b;
    } else {
      assert (a + b)[1..] == a[1..] + b;
      TotalOfParts(a[1..], b);
    }
  }

  lemma TotalOfOne<K>(e: Entry<K>)
    ensures TotalBytes([e]) == |e.bytes|
  {
    assert [e][1..] == [];
  }

  lemma TotalOfSplit<K>(list: seq<Entry<K>>, i: nat)
    requires i < |list|
    ensures TotalBytes(list) == TotalBytes(list[..i]) + |list[i].bytes| + TotalBytes(list[i + 1..])
    ensures TotalBytes(list[..i] + list[i + 1..]) == TotalBytes(list) - |list[i].bytes|
    ensures TotalBytes(list[..i] + list[i + 1..] + [list[i]]) == TotalBytes(list)
  {
    hide *;
    assert list == list[..i] + ([list[i]] + list[i + 1..]);
    TotalOfParts(list[..i], [list[i]] + list[i + 1..]);
    TotalOfParts([list[i]], list[i + 1..]);
    TotalOfOne(list[i]);
    TotalOfParts(list[..i], list[i + 1..]);
    TotalOfParts(list[..i] + list[i + 1..], [list[i]]);
  }

  // ----- eviction takes the shortest least recently used run -----

  lemma {:induction false} EvictsShortestRun<K>(list: seq<Entry<K>>, room: nat) returns (k: nat)
    ensures k <= |list| && Evicted(list, room) == list[k..]
    ensures TotalBytes(list[k..]) <= room
    ensures forall j :: 0 <= j < k ==> TotalBytes(list[j..]) > room
  {
    if TotalBytes(list) <= room {
      k := 0;
      assert list[0..] == list;
    } else {
      var k' := EvictsShortestRun(list[1..], room);
      k := k' + 1;
      assert list[1..][k'..] == list[k..];
      forall j | 0 <= j < k ensures TotalBytes(list[j..]) > room {
        if j == 0 {
          assert list[0..] == list;
        } else {
          assert list[1..][j - 1..] == list[j..];
        }
      }
    }
  }

  // Nothing is evicted that could have stayed: keeping one more of the
  // evicted entries would pass the bound.
  lemma EvictionIsForced<K>(list: seq<Entry<K>>, room: nat, k: nat)
    requires k <= |list|
    ensures Evicted(list, room) == list[k..] <==>
            (TotalBytes(list[k..]) <= room && (k > 0 ==> TotalBytes(list[k - 1..]) > room))
  {
    hide *;
    var e := EvictsShortestRun(list, room);
    if k < e {
      SuffixesDiffer(list, e, k);
    } else if e < k {
      SuffixesDiffer(list, e, k);
      TotalShrinks(list, e, k - 1);
    }
  }

  lemma SuffixesDiffer<T>(list: seq<T>, i: nat, j: nat)
    requires i <= |list| && j <= |list| && i != j
    ensures list[i..] != list[j..]
  {
    assert |list[i..]| != |list[j..]|;
  }

  lemma TotalShrinks<K>(list: seq<Entry<K>>, i: nat, j: nat)
    requires i <= j <= |list|
    ensures TotalBytes(list[j..]) <= TotalBytes(list[i..])
  {
    assert list[i..] == list[i..j] + list[j..];
    TotalOfParts(list[i..j], list[j..]);
  }

  lemma WithoutIsDistinct<K>(list: seq<Entry<K>>, key: K)
    requires Distinct(list)
    ensures Distinct(Without(list, key))
    ensures forall i :: 0 <= i < |Without(list, key)| ==> Without(list, key)[i].key != key
    ensures TotalBytes(Without(list, key)) <= TotalBytes(list)
  {
    hide Distinct, TotalBytes, Find;
    var i := Find(list, key);
    if i < |list| {
      TotalOfSplit(list, i);
      TakenOut(list, i, Without(list, key));
    }
  }

  // Taking one entry out leaves its key nowhere.
  lemma TakenOut<K>(list: seq<Entry<K>>, i: nat, rest: seq<Entry<K>>)
    requires i < |list| && Distinct(list) && rest == list[..i] + list[i + 1..]
    ensures Distinct(rest)
    ensures forall j :: 0 <= j < |rest| ==> rest[j].key != list[i].key
  {
  }

  // Moving one entry to the end.
  lemma Rotated<K>(list: seq<Entry<K>>, i: nat)
    requires i < |list| && Distinct(list)
    ensures Distinct(list[..i] + list[i + 1..] + [list[i]])
  {
  }

  lemma {:induction false} FindUnique<K>(list: seq<Entry<K>>, i: nat)
    requires i < |list| && Distinct(list)
    ensures Find(list, list[i].key) == i
  {
  }

  lemma TouchedIsDistinct<K>(list: seq<Entry<K>>, key: K)
    requires Distinct(list)
    ensures Distinct(Touched(list, key))
    ensures TotalBytes(Touched(list, key)) == TotalBytes(list)
    ensures Lookup(Touched(list, key), key) == Lookup(list, key)
  {
    hide Distinct, TotalBytes, Find;
    var i := Find(list, key);
    if i < |list| {
      TotalOfSplit(list, i);
      Rotated(list, i);
      var r := Touched(list, key);
      FindUnique(r, |r| - 1);
    }
  }

  lemma StoredKeepsBound<K>(list: seq<Entry<K>>, capacity: nat, key: K, bytes: seq<byte>)
    requires Distinct(list) && TotalBytes(list) <= capacity
    ensures Distinct(Stored(list, capacity, key, bytes))
    ensures TotalBytes(Stored(list, capacity, key, bytes)) <= capacity
  {
    hide Distinct, TotalBytes, Find, Without, Evicted;
    if Accepts(capacity, |bytes|) {
      WithoutIsDistinct(list, key);
      AppendedAfterEviction(Without(list, key), capacity, Entry(key, bytes));
    }
  }

  lemma AppendedAfterEviction<K>(rest: seq<Entry<K>>, capacity: nat, e: Entry<K>)
    requires Distinct(rest) && |e.bytes| <= capacity
    requires forall i :: 0 <= i < |rest| ==> rest[i].key != e.key
    ensures Distinct(Evicted(rest, capacity - |e.bytes|) + [e])
    ensures TotalBytes(Evicted(rest, capacity - |e.bytes|) + [e]) <= capacity
  {
    hide Evicted, TotalBytes;
    var k := EvictsShortestRun(rest, capacity - |e.bytes|);
    TotalOfParts(rest[k..], [e]);
    TotalOfOne(e);
  }

  // ----- the cache -----

  datatype CacheState<K> = CacheState(list: seq<Entry<K>>, capacity: nat)

  datatype Op<K> =
    | Get(key: K)
    | Put(key: K, bytes: seq<byte>)
    | SetCapacity(capacity: nat)
    | Clear

  function Step<K(==)>(s: CacheState<K>, op: Op<K>): (r: CacheState<K>) {
    match op
    case Get(key) => s.(list := Touched(s.list, key))
    case Put(key, bytes) => s.(list := Stored(s.list, s.capacity, key, bytes))
    case SetCapacity(capacity) => CacheState(Evicted(s.list, capacity), capacity)
    case Clear => s.(list := [])
  }

  function SaturatingSub(a: nat, b: nat): (r: nat) {
    if b <= a then a - b else 0
  }

  class BytesBoundLruCache<K(==)> {
    var list: seq<Entry<K>>
    var curBytes: nat
    var maxBytes: nat

    predicate Valid()
      reads this
    {
      Distinct(list) && curBytes == TotalBytes(list) && curBytes <= maxBytes
    }

    function State(): (s: CacheState<K>)
      reads this
    {
      CacheState(list, maxBytes)
    }

    constructor (maxBytes: nat)
      ensures Valid() && State() == CacheState([], maxBytes)
    {
      list, curBytes, this.maxBytes := [], 0, maxBytes;
    }

    method Get(key: K) returns (found: Option<seq<byte>>)
      requires Valid()
      modifies this`list
      ensures Valid() && State() == Step(old(State()), Op.Get(key))
      ensures found == Lookup(old(list), key)
    {
      hide Distinct, TotalBytes;
      TouchedIsDistinct(list, key);
      var i := Find(list, key);
      if i == |list| {
        return None;
      }
      found := Some(list[i].bytes);
      list := list[..i] + list[i + 1..] + [list[i]];
    }

    method Put(key: K, bytes: seq<byte>)
      requires Valid()
      modifies this`list, this`curBytes
      ensures Valid() && State() == Step(old(State()), Op.Put(key, bytes))
      ensures Lookup(list, key)
           == if 0 < maxBytes && |bytes| <= maxBytes then Some(bytes) else Lookup(old(list), key)
    {
      hide Distinct, TotalBytes, Find, Without, Evicted, Lookup;
      StoreThenLookup(list, maxBytes, key, bytes, key);
      StoredKeepsBound(list, maxBytes, key, bytes);
      if maxBytes == 0 || |bytes| > maxBytes {
        return;
      }
      Pop(key);
      EvictTo(maxBytes - |bytes|);
      TotalOfParts(list, [Entry(key, bytes)]);
      TotalOfOne(Entry(key, bytes));
      list := list + [Entry(key, bytes)];
      curBytes := curBytes + |bytes|;
    }

    method SetCapacity(maxBytes: nat)
      requires Valid()
      modifies this
      ensures Valid() && State() == Step(old(State()), Op.SetCapacity(maxBytes))
    {
      hide Distinct, TotalBytes, Evicted;
      this.maxBytes := maxBytes;
      EvictedIsDistinct(list, maxBytes);
      EvictTo(maxBytes);
    }

    method Clear()
      requires Valid()
      modifies this`list, this`curBytes
      ensures Valid() && State() == Step(old(State()), Op<K>.Clear)
    {
      list, curBytes := [], 0;
    }

    // The subtractions are the source's saturating ones; the exact total
    // they leave shows that none of them saturates.
    method Pop(key: K)
      requires curBytes == TotalBytes(list)
      modifies this`list, this`curBytes
      ensures list == Without(old(list), key) && curBytes == TotalBytes(list)
    {
      hide TotalBytes;
      var i := Find(list, key);
      if i < |list| {
        TotalOfSplit(list, i);
        curBytes := SaturatingSub(curBytes, |list[i].bytes|);
        list := list[..i] + list[i + 1..];
      }
    }

    method EvictTo(room: nat)
      requires curBytes == TotalBytes(list)
      modifies this`list, this`curBytes
      ensures list == Evicted(old(list), room) && curBytes == TotalBytes(list)
    {
      while curBytes > room
        invariant curBytes == TotalBytes(list)
        invariant Evicted(list, room) == Evicted(old(list), room)
        decreases |list|
      {
        if list == [] {
          break;
        }
        curBytes := SaturatingSub(curBytes, |list[0].bytes|);
        list := list[1..];
      }
    }
  }

  lemma EvictedIsDistinct<K>(list: seq<Entry<K>>, room: nat)
    requires Distinct(list)
    ensures Distinct(Evicted(list, room))
  {
    hide TotalBytes, Evicted;
    var k := EvictsShortestRun(list, room);
  }

  // ----- whole runs -----

  function After<K(==)>(capacity: nat, ops: seq<Op<K>>): (s: CacheState<K>) {
    if ops == [] then CacheState([], capacity)
    else Step(After(capacity, ops[..|ops| - 1]), ops[|ops| - 1])
  }

  predicate Uses<K(==)>(s: CacheState<K>, op: Op<K>, key: K) {
    match op
    case Get(k) => k == key && Lookup(s.list, k).Some?
    case Put(k, bytes) => k == key && Accepts(s.capacity, |bytes|)
    case _ => false
  }

  // The number of operations up to the last hit on, or accepted store
  // under, the key.
  function LastUse<K(==)>(capacity: nat, ops: seq<Op<K>>, key: K): (n: nat)
    ensures n <= |ops|
  {
    if ops == [] then 0
    else
      var before := ops[..|ops| - 1];
      if Uses(After(capacity, before), ops[|ops| - 1], key) then |ops| else LastUse(capacity, before, key)
  }

  // The bytes last accepted under the key.
  function LastStored<K(==)>(capacity: nat, ops: seq<Op<K>>, key: K): (bytes: Option<seq<byte>>) {
    if ops == [] then None
    else
      var before, op := ops[..|ops| - 1], ops[|ops| - 1];
      if op.Put? && Uses(After(capacity, before), op, key) then Some(op.bytes)
      else LastStored(capacity, before, key)
  }

  // No entry is stale, and the entries stand in the order of their last use.
  predicate InOrderOfUse<K(==)>(capacity: nat, ops: seq<Op<K>>, list: seq<Entry<K>>) {
    && (forall i :: 0 <= i < |list| ==> LastStored(capacity, ops, list[i].key) == Some(list[i].bytes))
    && (forall i, j :: 0 <= i < j < |list| ==>
          LastUse(capacity, ops, list[i].key) < LastUse(capacity, ops, list[j].key))
  }

  lemma {:induction false} RunStaysBounded<K>(capacity: nat, ops: seq<Op<K>>)
    ensures Distinct(After(capacity, ops).list)
    ensures TotalBytes(After(capacity, ops).list) <= After(capacity, ops).capacity
  {
    hide Distinct, TotalBytes, Touched, Stored, Evicted, Lookup;
    if ops == [] {
      NothingHeld<K>();
    } else {
      RunStaysBounded(capacity, ops[..|ops| - 1]);
      StepStaysBounded(After(capacity, ops[..|ops| - 1]), ops[|ops| - 1]);
    }
  }

  lemma NothingHeld<K>()
    ensures var none: seq<Entry<K>> := []; Distinct(none) && TotalBytes(none) == 0
  {
  }

  lemma StepStaysBounded<K>(s: CacheState<K>, op: Op<K>)
    requires Distinct(s.list) && TotalBytes(s.list) <= s.capacity
    ensures Distinct(Step(s, op).list) && TotalBytes(Step(s, op).list) <= Step(s, op).capacity
  {
    hide Distinct, TotalBytes, Touched, Stored, Evicted, Lookup;
    NothingHeld<K>();
    match op
    case Get(key) => TouchedIsDistinct(s.list, key);
    case Put(key, bytes) => StoredKeepsBound(s.list, s.capacity, key, bytes);
    case SetCapacity(capacity) => EvictedIsDistinct(s.list, capacity);
    case Clear =>
  }

  lemma {:induction false} RunKeepsOrderOfUse<K>(capacity: nat, ops: seq<Op<K>>)
    ensures InOrderOfUse(capacity, ops, After(capacity, ops).list)
  {
    hide Distinct, TotalBytes, Touched, Stored, Evicted, Lookup, InOrderOfUse;
    if ops == [] {
      NothingInOrder<K>(capacity, ops);
    } else {
      RunKeepsOrderOfUse(capacity, ops[..|ops| - 1]);
      RunStaysBounded(capacity, ops[..|ops| - 1]);
      var list := After(capacity, ops[..|ops| - 1]).list;
      match ops[|ops| - 1]
      case Get(key) => GetKeepsOrder(capacity, ops);
      case Put(key, bytes) => PutKeepsOrder(capacity, ops);
      case SetCapacity(n) => EvictedInOrder(capacity, ops, list, n);
      case Clear => NothingInOrder<K>(capacity, ops);
    }
  }

  lemma NothingInOrder<K>(capacity: nat, ops: seq<Op<K>>)
    ensures InOrderOfUse(capacity, ops, [])
  {
  }

  // Entries the last operation did not use keep their standing.
  lemma UnusedStayInOrder<K>(capacity: nat, ops: seq<Op<K>>, list: seq<Entry<K>>)
    requires ops != [] && InOrderOfUse(capacity, ops[..|ops| - 1], list)
    requires forall i :: 0 <= i < |list| ==>
      !Uses(After(capacity, ops[..|ops| - 1]), ops[|ops| - 1], list[i].key)
    ensures InOrderOfUse(capacity, ops, list)
    ensures forall i :: 0 <= i < |list| ==> LastUse(capacity, ops, list[i].key) < |ops|
  {
    hide Uses, After;
    var before := ops[..|ops| - 1];
    forall i | 0 <= i < |list|
      ensures LastUse(capacity, ops, list[i].key) == LastUse(capacity, before, list[i].key)
      ensures LastStored(capacity, ops, list[i].key) == LastStored(capacity, before, list[i].key)
    {
      assert !Uses(After(capacity, before), ops[|ops| - 1], list[i].key);
    }
  }

  lemma SomeStayInOrder<K>(capacity: nat, ops: seq<Op<K>>, list: seq<Entry<K>>, i: nat, j: nat)
    requires i <= j <= |list| && InOrderOfUse(capacity, ops, list)
    ensures InOrderOfUse(capacity, ops, list[..i] + list[j..])
  {
    hide LastUse, LastStored;
  }

  lemma EvictedInOrder<K>(capacity: nat, ops: seq<Op<K>>, list: seq<Entry<K>>, room: nat)
    requires ops != [] && InOrderOfUse(capacity, ops[..|ops| - 1], list)
    requires forall i :: 0 <= i < |list| ==>
      !Uses(After(capacity, ops[..|ops| - 1]), ops[|ops| - 1], list[i].key)
    ensures InOrderOfUse(capacity, ops, Evicted(list, room))
    ensures forall i :: 0 <= i < |Evicted(list, room)| ==>
      LastUse(capacity, ops, Evicted(list, room)[i].key) < |ops|
  {
    hide InOrderOfUse, LastUse, LastStored, Uses, After, TotalBytes, Evicted;
    var k := EvictsShortestRun(list, room);
    SomeStayInOrder(capacity, ops[..|ops| - 1], list, 0, k);
    assert list[..0] + list[k..] == list[k..];
    UnusedStayInOrder(capacity, ops, list[k..]);
  }

  lemma LatestComesLast<K>(capacity: nat, ops: seq<Op<K>>, list: seq<Entry<K>>, e: Entry<K>)
    requires InOrderOfUse(capacity, ops, list)
    requires forall i :: 0 <= i < |list| ==> LastUse(capacity, ops, list[i].key) < |ops|
    requires LastUse(capacity, ops, e.key) == |ops| && LastStored(capacity, ops, e.key) == Some(e.bytes)
    ensures InOrderOfUse(capacity, ops, list + [e])
  {
    hide LastUse, LastStored;
    var r := list + [e];
    forall i, j | 0 <= i < j < |r|
      ensures LastUse(capacity, ops, r[i].key) < LastUse(capacity, ops, r[j].key)
    {
      if j < |list| {
        assert LastUse(capacity, ops, list[i].key) < LastUse(capacity, ops, list[j].key);
      } else {
        assert LastUse(capacity, ops, list[i].key) < |ops|;
      }
    }
  }

  lemma GetKeepsOrder<K>(capacity: nat, ops: seq<Op<K>>)
    requires ops != [] && ops[|ops| - 1].Get?
    requires InOrderOfUse(capacity, ops[..|ops| - 1], After(capacity, ops[..|ops| - 1]).list)
    requires Distinct(After(capacity, ops[..|ops| - 1]).list)
    ensures InOrderOfUse(capacity, ops, After(capacity, ops).list)
  {
    hide Distinct, InOrderOfUse, Find;
    var before, op := ops[..|ops| - 1], ops[|ops| - 1];
    var list := After(capacity, before).list;
    var i := Find(list, op.key);
    if i == |list| {
      UnusedStayInOrder(capacity, ops, list);
    } else {
      var rest := list[..i] + list[i + 1..];
      TakenOut(list, i, rest);
      SomeStayInOrder(capacity, before, list, i, i + 1);
      UnusedStayInOrder(capacity, ops, rest);
      StoredUnder(capacity, before, list, i);
      LatestComesLast(capacity, ops, rest, list[i]);
    }
  }

  lemma StoredUnder<K>(capacity: nat, ops: seq<Op<K>>, list: seq<Entry<K>>, i: nat)
    requires InOrderOfUse(capacity, ops, list) && i < |list|
    ensures LastStored(capacity, ops, list[i].key) == Some(list[i].bytes)
  {
    hide LastUse, LastStored;
  }

  lemma PutKeepsOrder<K>(capacity: nat, ops: seq<Op<K>>)
    requires ops != [] && ops[|ops| - 1].Put?
    requires InOrderOfUse(capacity, ops[..|ops| - 1], After(capacity, ops[..|ops| - 1]).list)
    requires Distinct(After(capacity, ops[..|ops| - 1]).list)
    ensures InOrderOfUse(capacity, ops, After(capacity, ops).list)
  {
    hide Distinct, InOrderOfUse, Find, Accepts, Evicted, TotalBytes, Without;
    var before, op := ops[..|ops| - 1], ops[|ops| - 1];
    var s := After(capacity, before);
    if !Accepts(s.capacity, |op.bytes|) {
      UnusedStayInOrder(capacity, ops, s.list);
    } else {
      WithoutInOrder(capacity, before, s.list, op.key);
      RoomFor(s.capacity, |op.bytes|);
      EvictedInOrder(capacity, ops, Without(s.list, op.key), s.capacity - |op.bytes|);
      LatestComesLast(capacity, ops, Evicted(Without(s.list, op.key), s.capacity - |op.bytes|),
                      Entry(op.key, op.bytes));
    }
  }

  lemma RoomFor(capacity: nat, size: nat)
    requires Accepts(capacity, size)
    ensures size <= capacity
  {
  }

  lemma WithoutInOrder<K>(capacity: nat, ops: seq<Op<K>>, list: seq<Entry<K>>, key: K)
    requires Distinct(list) && InOrderOfUse(capacity, ops, list)
    ensures InOrderOfUse(capacity, ops, Without(list, key))
    ensures forall i :: 0 <= i < |Without(list, key)| ==> Without(list, key)[i].key != key
  {
    hide Distinct, InOrderOfUse, TotalBytes, After;
    WithoutIsDistinct(list, key);
    var i := Find(list, key);
    if i < |list| {
      SomeStayInOrder(capacity, ops, list, i, i + 1);
    }
  }

  // A hit returns what was last accepted under the key.
  lemma HitIsLastStored<K>(capacity: nat, ops: seq<Op<K>>, key: K)
    ensures Lookup(After(capacity, ops).list, key).Some? ==>
      Lookup(After(capacity, ops).list, key) == LastStored(capacity, ops, key)
  {
    hide InOrderOfUse, After, LastStored;
    RunKeepsOrderOfUse(capacity, ops);
    var list := After(capacity, ops).list;
    var i := Find(list, key);
    if i < |list| {
      StoredUnder(capacity, ops, list, i);
    }
  }

  // An accepted store drops exactly the entries that must go: those before
  // place k, where one entry more would pass the capacity.
  lemma StoreDropsLeast<K>(list: seq<Entry<K>>, capacity: nat, key: K, bytes: seq<byte>, k: nat)
    requires Accepts(capacity, |bytes|) && k <= |Without(list, key)|
    ensures Stored(list, capacity, key, bytes) == Without(list, key)[k..] + [Entry(key, bytes)] <==>
            (&& TotalBytes(Without(list, key)[k..]) + |bytes| <= capacity
             && (k > 0 ==> TotalBytes(Without(list, key)[k - 1..]) + |bytes| > capacity))
  {
    hide TotalBytes, Evicted, Without;
    var rest := Without(list, key);
    EvictionIsForced(rest, capacity - |bytes|, k);
    SameFront(Evicted(rest, capacity - |bytes|), rest[k..], Entry(key, bytes));
  }

  lemma SameFront<T>(a: seq<T>, b: seq<T>, last: T)
    ensures a + [last] == b + [last] <==> a == b
  {
    if a + [last] == b + [last] {
      assert a == (a + [last])[..|a|] == (b + [last])[..|b|] == b;
    }
  }

  // So does a change of the capacity, which drops nothing that still fits.
  lemma ResizeDropsLeast<K>(s: CacheState<K>, capacity: nat, k: nat)
    requires k <= |s.list|
    ensures Step(s, Op<K>.SetCapacity(capacity)) == CacheState(s.list[k..], capacity) <==>
            TotalBytes(s.list[k..]) <= capacity && (k > 0 ==> TotalBytes(s.list[k - 1..]) > capacity)
  {
    hide TotalBytes, Evicted;
    EvictionIsForced(s.list, capacity, k);
  }

  // A store leaves every other key its bytes or nothing.
  lemma StoreThenLookup<K>(list: seq<Entry<K>>, capacity: nat, key: K, bytes: seq<byte>, other: K)
    requires Distinct(list)
    ensures Lookup(Stored(list, capacity, key, bytes), key)
         == if 0 < capacity && |bytes| <= capacity then Some(bytes) else Lookup(list, key)
    ensures other != key && Lookup(Stored(list, capacity, key, bytes), other).Some? ==>
      Lookup(Stored(list, capacity, key, bytes), other) == Lookup(list, other)
  {
    hide Distinct, TotalBytes, Evicted, Find, Without, Lookup;
    if Accepts(capacity, |bytes|) {
      WithoutIsDistinct(list, key);
      var rest := Without(list, key);
      var k := EvictsShortestRun(rest, capacity - |bytes|);
      AppendedAfterEviction(rest, capacity, Entry(key, bytes));
      HeldIsFound(rest[k..] + [Entry(key, bytes)], |rest| - k, key);
      if other != key && Lookup(rest[k..] + [Entry(key, bytes)], other).Some? {
        var i := LookupGivesEntry(rest[k..] + [Entry(key, bytes)], other);
        assert rest[k..][i] == rest[k + i];
        var j := FromWithout(list, key, k + i);
        HeldIsFound(list, j, other);
      }
    }
  }

  lemma HeldIsFound<K>(list: seq<Entry<K>>, i: nat, key: K)
    requires Distinct(list) && i < |list| && list[i].key == key
    ensures Lookup(list, key) == Some(list[i].bytes)
  {
    FindUnique(list, i);
  }

  lemma LookupGivesEntry<K>(list: seq<Entry<K>>, key: K) returns (i: nat)
    requires Lookup(list, key).Some?
    ensures i < |list| && list[i] == Entry(key, Lookup(list, key).value)
  {
    i := Find(list, key);
  }

  lemma FromWithout<K>(list: seq<Entry<K>>, key: K, k: nat) returns (j: nat)
    requires k < |Without(list, key)|
    ensures j < |list| && list[j] == Without(list, key)[k]
  {
    hide Find;
    var i := Find(list, key);
    j := if i <= k && i < |list| then k + 1 else k;
  }

  // A store too large to be accepted leaves what the key held before: the
  // next look-up hits on the old bytes.
  lemma RefusedStoreLeavesOldBytes<K>(capacity: nat, key: K, first: seq<byte>, second: seq<byte>)
    requires Accepts(capacity, |first|) && !Accepts(capacity, |second|)
    ensures var s := After(capacity, [Put(key, first), Put(key, second)]);
            Lookup(s.list, key) == Some(first)
  {
    hide Evicted, TotalBytes, Find, Lookup, Without;
    var ops := [Put(key, first), Put(key, second)];
    assert ops[..1] == [Put(key, first)];
    assert [Put(key, first)][..0] == [];
    assert After<K>(capacity, []) == CacheState([], capacity);
    assert After(capacity, ops[..1]) == Step(CacheState([], capacity), Put(key, first));
    NothingHeld<K>();
    StoreThenLookup([], capacity, key, first, key);
  }

  // A look-up changes no other look-up.
  lemma TouchKeepsLookup<K>(list: seq<Entry<K>>, key: K, other: K)
    requires Distinct(list)
    ensures Lookup(Touched(list, key), other) == Lookup(list, other)
  {
    hide Distinct, TotalBytes, Find, Lookup;
    TouchedIsDistinct(list, key);
    var i := Find(list, key);
    var r := Touched(list, key);
    if i < |list| {
      if Lookup(list, other).Some? {
        var j := LookupGivesEntry(list, other);
        HeldIsFound(r, if j < i then j else if j == i then |r| - 1 else j - 1, other);
      } else if Lookup(r, other).Some? {
        var j := LookupGivesEntry(r, other);
        HeldIsFound(list, if j < i then j else if j == |r| - 1 then i else j + 1, other);
      }
    }
  }
}
