// The version-stamped cache of a header's parsed metadata, under any
// interleaving of readers and card commits.
//
// A reader loads the version without a lock, looks in the cache under the
// cache lock, and on a miss copies the cards under the cards lock, parses the
// copy, and stores the result under the cache lock with the version it loaded
// at the start.  A writer replaces the cards and then bumps the version, both
// while it holds the cards lock.  Every step below is one of those atomic
// actions; a schedule is any sequence of them.
module MetaCaches {
  import opened FitsBytes

  type Cards = seq<string>

  datatype Cached<M> = Cached(version: nat, meta: M)

  // Where a reader stands in its call.
  datatype Reader<M> =
    | Idle
    | Loaded(version: nat)
    | Missed(version: nat)
    | Copied(version: nat, cards: Cards)
    | Returned(version: nat, meta: M)
    | Failed

  // Where the holder of the cards lock stands.
  datatype Writer = Free | Holding | Replaced | Bumped

  // `history` is not in the program: it lists every card list so far, in the
  // order the version bumps made them current.
  datatype World<M> = World(
    history: seq<Cards>,
    cards: Cards,
    version: nat,
    writer: Writer,
    cache: Option<Cached<M>>,
    readers: map<nat, Reader<M>>)

  datatype Action =
    | Begin(reader: nat)
    | LookUp(reader: nat)
    | CopyCards(reader: nat, refused: bool)
    | Store(reader: nat)
    | Forget(reader: nat)
    | LockCards
    | ReplaceCards(cards: Cards)
    | BumpVersion
    | UnlockCards

  function ReaderAt<M>(w: World<M>, r: nat): (reader: Reader<M>) {
    if r in w.readers then w.readers[r] else Idle
  }

  function Put<M>(w: World<M>, r: nat, reader: Reader<M>): (after: World<M>) {
    w.(readers := w.readers[r := reader])
  }

  // When an action can be taken, and what it leaves.
  predicate Enabled<M>(w: World<M>, a: Action) {
    match a
    case Begin(r) => ReaderAt(w, r).Idle?
    case LookUp(r) => ReaderAt(w, r).Loaded?
    case CopyCards(r, refused) => ReaderAt(w, r).Missed? && (refused || w.writer.Free?)
    case Store(r) => ReaderAt(w, r).Copied?
    case Forget(r) => ReaderAt(w, r).Returned? || ReaderAt(w, r).Failed?
    case LockCards => w.writer.Free?
    case ReplaceCards(cards) => w.writer.Holding?
    case BumpVersion => w.writer.Replaced?
    case UnlockCards => w.writer.Holding? || w.writer.Bumped?
  }

  function Act<M(==)>(parse: Cards -> Option<M>, w: World<M>, a: Action): (after: World<M>)
    requires Enabled(w, a)
  {
    match a
    case Begin(r) => Put(w, r, Loaded(w.version))
    case LookUp(r) =>
      var v := ReaderAt(w, r).version;
      if w.cache.Some? && w.cache.value.version == v then Put(w, r, Returned(v, w.cache.value.meta))
      else Put(w, r, Missed(v))
    case CopyCards(r, refused) =>
      if refused then Put(w, r, Failed) else Put(w, r, Copied(ReaderAt(w, r).version, w.cards))
    case Store(r) =>
      var reader := ReaderAt(w, r);
      var meta := parse(reader.cards);
      if meta.None? then Put(w, r, Failed)
      else Put(w.(cache := Some(Cached(reader.version, meta.value))), r, Returned(reader.version, meta.value))
    case Forget(r) => Put(w, r, Idle)
    case LockCards => w.(writer := Holding)
    case ReplaceCards(cards) => w.(cards := cards, writer := Replaced)
    case BumpVersion => w.(history := w.history + [w.cards], version := w.version + 1, writer := Bumped)
    case UnlockCards => w.(writer := Free)
  }

  function Start<M>(cards: Cards): (w: World<M>) {
    World([cards], cards, 0, Free, None, map[])
  }

  // ----- the invariant -----

  // The list was current at some version from `since` on.
  predicate CurrentSince<M>(w: World<M>, since: nat, cards: Cards) {
    exists k :: since <= k < |w.history| && w.history[k] == cards
  }

  // So was a list with this metadata.
  predicate ParsedSince<M(==)>(parse: Cards -> Option<M>, w: World<M>, since: nat, meta: M) {
    exists k :: since <= k < |w.history| && parse(w.history[k]) == Some(meta)
  }

  predicate ReaderHonest<M(==)>(parse: Cards -> Option<M>, w: World<M>, reader: Reader<M>) {
    match reader
    case Loaded(v) => v <= w.version
    case Missed(v) => v <= w.version
    case Copied(v, cards) => v <= w.version && CurrentSince(w, v, cards)
    case Returned(v, meta) => v <= w.version && ParsedSince(parse, w, v, meta)
    case _ => true
  }

  predicate Honest<M(==)>(parse: Cards -> Option<M>, w: World<M>) {
    && |w.history| == w.version + 1
    && (w.writer.Replaced? || w.cards == w.history[w.version])
    && (w.cache.Some? ==> ParsedSince(parse, w, w.cache.value.version, w.cache.value.meta))
    && (forall r :: r in w.readers ==> ReaderHonest(parse, w, w.readers[r]))
  }

  // A reader's standing survives what others do: the history only grows.
  lemma StandingKept<M>(parse: Cards -> Option<M>, w: World<M>, after: World<M>, reader: Reader<M>)
    requires w.history <= after.history && w.version <= after.version && ReaderHonest(parse, w, reader)
    ensures ReaderHonest(parse, after, reader)
  {
    match reader
    case Copied(v, cards) =>
      var k :| v <= k < |w.history| && w.history[k] == cards;
      assert after.history[k] == cards;
    case Returned(v, meta) =>
      ParsedKept(parse, w, after, v, meta);
    case _ =>
  }

  lemma ParsedKept<M>(parse: Cards -> Option<M>, w: World<M>, after: World<M>, since: nat, meta: M)
    requires w.history <= after.history && ParsedSince(parse, w, since, meta)
    ensures ParsedSince(parse, after, since, meta)
  {
    var k :| since <= k < |w.history| && parse(w.history[k]) == Some(meta);
    assert after.history[k] == w.history[k];
  }

  // The acting reader's new standing; everyone else's is kept.
  lemma OneReaderMoves<M>(parse: Cards -> Option<M>, w: World<M>, after: World<M>, r: nat, reader: Reader<M>)
    requires Honest(parse, w) && ReaderHonest(parse, w, reader)
    requires after == Put(w, r, reader) || (after.cache.Some? && after == Put(w.(cache := after.cache), r, reader)
                && ParsedSince(parse, w, after.cache.value.version, after.cache.value.meta))
    ensures Honest(parse, after)
  {
    hide ParsedSince, ReaderHonest;
    SameHistory(parse, w, after);
    forall q | q in after.readers ensures ReaderHonest(parse, after, after.readers[q]) {
      if q == r {
        StandingKept(parse, w, after, reader);
      } else {
        StandingKept(parse, w, after, w.readers[q]);
      }
    }
  }

  lemma SameHistory<M>(parse: Cards -> Option<M>, w: World<M>, after: World<M>)
    requires w.history == after.history
    ensures forall since: nat, meta: M :: ParsedSince(parse, w, since, meta) ==> ParsedSince(parse, after, since, meta)
  {
  }

  lemma WriterMoves<M>(parse: Cards -> Option<M>, w: World<M>, a: Action)
    requires Honest(parse, w) && Enabled(w, a)
    requires a.LockCards? || a.ReplaceCards? || a.BumpVersion? || a.UnlockCards?
    ensures Honest(parse, Act(parse, w, a))
  {
    hide ParsedSince, ReaderHonest;
    var after := Act(parse, w, a);
    if w.cache.Some? {
      ParsedKept(parse, w, after, w.cache.value.version, w.cache.value.meta);
    }
    forall q | q in after.readers ensures ReaderHonest(parse, after, after.readers[q]) {
      StandingKept(parse, w, after, w.readers[q]);
    }
  }

  lemma StandingOf<M>(parse: Cards -> Option<M>, w: World<M>, r: nat)
    requires Honest(parse, w)
    ensures ReaderHonest(parse, w, ReaderAt(w, r))
  {
    hide ParsedSince, CurrentSince;
  }

  lemma StepStaysHonest<M>(parse: Cards -> Option<M>, w: World<M>, a: Action)
    requires Honest(parse, w) && Enabled(w, a)
    ensures Honest(parse, Act(parse, w, a))
  {
    hide Honest;
    match a
    case Begin(r) =>
      OneReaderMoves(parse, w, Act(parse, w, a), r, Loaded(w.version));
    case LookUp(r) => LookUpStaysHonest(parse, w, r);
    case CopyCards(r, refused) => CopyStaysHonest(parse, w, r, refused);
    case Store(r) => StoreStaysHonest(parse, w, r);
    case Forget(r) =>
      OneReaderMoves(parse, w, Act(parse, w, a), r, Idle);
    case _ => WriterMoves(parse, w, a);
  }

  // A hit: the entry's stamp is the version the reader loaded.
  lemma LookUpStaysHonest<M>(parse: Cards -> Option<M>, w: World<M>, r: nat)
    requires Honest(parse, w) && ReaderAt(w, r).Loaded?
    ensures Honest(parse, Act(parse, w, LookUp(r)))
  {
    hide ParsedSince;
    StandingOf(parse, w, r);
    var after := Act(parse, w, LookUp(r));
    OneReaderMoves(parse, w, after, r, after.readers[r]);
  }

  lemma CopyStaysHonest<M>(parse: Cards -> Option<M>, w: World<M>, r: nat, refused: bool)
    requires Honest(parse, w) && Enabled(w, CopyCards(r, refused))
    ensures Honest(parse, Act(parse, w, CopyCards(r, refused)))
  {
    hide ParsedSince;
    StandingOf(parse, w, r);
    var after := Act(parse, w, CopyCards(r, refused));
    OneReaderMoves(parse, w, after, r, after.readers[r]);
  }

  lemma StoreStaysHonest<M>(parse: Cards -> Option<M>, w: World<M>, r: nat)
    requires Honest(parse, w) && ReaderAt(w, r).Copied?
    ensures Honest(parse, Act(parse, w, Store(r)))
  {
    StandingOf(parse, w, r);
    var after := Act(parse, w, Store(r));
    var Copied(v, cards) := ReaderAt(w, r);
    if parse(cards).Some? {
      var k :| v <= k < |w.history| && w.history[k] == cards;
      assert ParsedSince(parse, w, v, parse(cards).value);
    }
    StoreStep(parse, w, after, r);
  }

  lemma StoreStep<M>(parse: Cards -> Option<M>, w: World<M>, after: World<M>, r: nat)
    requires Honest(parse, w) && ReaderAt(w, r).Copied? && after == Act(parse, w, Store(r))
    requires ReaderHonest(parse, w, after.readers[r])
    ensures Honest(parse, after)
  {
    hide ParsedSince, Honest;
    OneReaderMoves(parse, w, after, r, after.readers[r]);
  }

  // ----- schedules -----

  // A schedule of actions and the worlds it passes through.
  predicate Behaviour<M(==)>(parse: Cards -> Option<M>, actions: seq<Action>, worlds: seq<World<M>>) {
    && |worlds| == |actions| + 1
    && worlds[0] == Start(worlds[0].cards)
    && (forall t :: 0 <= t < |actions| ==>
          Enabled(worlds[t], actions[t]) && worlds[t + 1] == Act(parse, worlds[t], actions[t]))
  }

  lemma {:induction false} WorldsStayHonest<M>(parse: Cards -> Option<M>, actions: seq<Action>, worlds: seq<World<M>>,
                                               t: nat)
    requires Behaviour(parse, actions, worlds) && t < |worlds|
    ensures Honest(parse, worlds[t])
  {
    hide ParsedSince, ReaderHonest;
    if t > 0 {
      WorldsStayHonest(parse, actions, worlds, t - 1);
      StepStaysHonest(parse, worlds[t - 1], actions[t - 1]);
    }
  }

  // The card list made current last: what any holder of the cards lock finds.
  function Published<M>(w: World<M>): (cards: Cards)
    requires w.history != []
  {
    w.history[|w.history| - 1]
  }

  lemma LockedCardsArePublished<M>(parse: Cards -> Option<M>, actions: seq<Action>, worlds: seq<World<M>>, t: nat)
    requires Behaviour(parse, actions, worlds) && t < |worlds|
    ensures worlds[t].history != []
    ensures worlds[t].writer.Free? ==> worlds[t].cards == Published(worlds[t])
  {
    WorldsStayHonest(parse, actions, worlds, t);
  }

  lemma {:induction false} HistoryGrows<M>(
    parse: Cards -> Option<M>, actions: seq<Action>, worlds: seq<World<M>>, i: nat, j: nat)
    requires Behaviour(parse, actions, worlds) && i <= j < |worlds|
    ensures worlds[i].history <= worlds[j].history
  {
    if i < j {
      HistoryGrows(parse, actions, worlds, i, j - 1);
    }
  }

  // Every list published between two moments was current at one of them.
  lemma {:induction false} MomentOfVersion<M>(
    parse: Cards -> Option<M>, actions: seq<Action>, worlds: seq<World<M>>, i: nat, j: nat, k: nat)
    returns (t: nat)
    requires Behaviour(parse, actions, worlds) && i <= j < |worlds|
    requires |worlds[i].history| - 1 <= k < |worlds[j].history| && worlds[i].history != []
    ensures i <= t <= j && worlds[t].history != [] && Published(worlds[t]) == worlds[j].history[k]
  {
    if k == |worlds[j].history| - 1 {
      t := j;
    } else {
      HistoryGrows(parse, actions, worlds, i, j);
      t := MomentOfVersion(parse, actions, worlds, i, j - 1, k);
    }
  }

  // Reader r is in the call that it began with action i, up to moment j.
  predicate InCall<M>(actions: seq<Action>, worlds: seq<World<M>>, r: nat, i: nat, j: nat) {
    && i < |actions| && i < j < |worlds| && actions[i] == Begin(r)
    && forall t :: i < t <= j ==> !ReaderAt(worlds[t], r).Idle?
  }

  lemma {:induction false} LoadedAtBegin<M>(
    parse: Cards -> Option<M>, actions: seq<Action>, worlds: seq<World<M>>, r: nat, i: nat, j: nat)
    requires Behaviour(parse, actions, worlds) && InCall(actions, worlds, r, i, j)
    ensures ReaderAt(worlds[j], r).Failed? || ReaderAt(worlds[j], r).version == worlds[i].version
  {
    if j > i + 1 {
      LoadedAtBegin(parse, actions, worlds, r, i, j - 1);
      assert Enabled(worlds[j - 1], actions[j - 1]);
    }
  }

  // What a call returns is the metadata of a card list that was current at
  // some moment of the call, however the stores of other readers overlap it.
  lemma ReturnedMetaWasCurrent<M>(
    parse: Cards -> Option<M>, actions: seq<Action>, worlds: seq<World<M>>, r: nat, i: nat, j: nat)
    returns (t: nat)
    requires Behaviour(parse, actions, worlds) && InCall(actions, worlds, r, i, j)
    requires ReaderAt(worlds[j], r).Returned?
    ensures i <= t <= j && worlds[t].history != []
    ensures parse(Published(worlds[t])) == Some(ReaderAt(worlds[j], r).meta)
  {
    LoadedAtBegin(parse, actions, worlds, r, i, j);
    WorldsStayHonest(parse, actions, worlds, i);
    WorldsStayHonest(parse, actions, worlds, j);
    StandingOf(parse, worlds[j], r);
    var v, meta := worlds[i].version, ReaderAt(worlds[j], r).meta;
    var k :| v <= k < |worlds[j].history| && parse(worlds[j].history[k]) == Some(meta);
    t := MomentOfVersion(parse, actions, worlds, i, j, k);
  }

  // Which list of the history is current.
  function Newest<M>(w: World<M>): (k: nat)
    requires w.history != []
  {
    |w.history| - 1
  }

  lemma NeverEmpty<M>(parse: Cards -> Option<M>, actions: seq<Action>, worlds: seq<World<M>>, t: nat)
    requires Behaviour(parse, actions, worlds) && t < |worlds|
    ensures worlds[t].history != []
  {
    WorldsStayHonest(parse, actions, worlds, t);
  }

  lemma NewestGrows<M>(parse: Cards -> Option<M>, actions: seq<Action>, worlds: seq<World<M>>, i: nat, j: nat)
    requires Behaviour(parse, actions, worlds) && i <= j < |worlds|
    ensures worlds[i].history != [] && worlds[j].history != [] && Newest(worlds[i]) <= Newest(worlds[j])
    ensures forall k :: 0 <= k < |worlds[i].history| ==> worlds[i].history[k] == worlds[j].history[k]
  {
    NeverEmpty(parse, actions, worlds, i);
    HistoryGrows(parse, actions, worlds, i, j);
  }

  // A later call never returns older metadata: the two lists were current in
  // the order of the calls, each of them at some moment of its own call.
  lemma CallsDoNotGoBack<M>(
    parse: Cards -> Option<M>, actions: seq<Action>, worlds: seq<World<M>>,
    r: nat, i: nat, j: nat, r': nat, i': nat, j': nat)
    returns (k: nat, k': nat)
    requires Behaviour(parse, actions, worlds) && j <= i'
    requires InCall(actions, worlds, r, i, j) && ReaderAt(worlds[j], r).Returned?
    requires InCall(actions, worlds, r', i', j') && ReaderAt(worlds[j'], r').Returned?
    ensures worlds[i].history != [] && worlds[j].history != []
    ensures worlds[i'].history != [] && worlds[j'].history != []
    ensures Newest(worlds[i]) <= k <= Newest(worlds[j]) <= Newest(worlds[i']) <= k' <= Newest(worlds[j'])
    ensures parse(worlds[j'].history[k]) == Some(ReaderAt(worlds[j], r).meta)
    ensures parse(worlds[j'].history[k']) == Some(ReaderAt(worlds[j'], r').meta)
  {
    hide ReaderAt, InCall, Behaviour, Newest;
    Ordered(actions, worlds, r, i, j, r', i', j');
    k := CurrentInCall(parse, actions, worlds, r, i, j);
    k' := CurrentInCall(parse, actions, worlds, r', i', j');
    NewestGrows(parse, actions, worlds, j, i');
    NewestGrows(parse, actions, worlds, j, j');
    ListAt(worlds[j], k);
  }

  lemma ListAt<M>(w: World<M>, k: nat)
    requires w.history != [] && k <= Newest(w)
    ensures k < |w.history|
  {
  }

  // Which list a call's metadata is that of.
  lemma CurrentInCall<M>(
    parse: Cards -> Option<M>, actions: seq<Action>, worlds: seq<World<M>>, r: nat, i: nat, j: nat)
    returns (k: nat)
    requires Behaviour(parse, actions, worlds) && InCall(actions, worlds, r, i, j)
    requires ReaderAt(worlds[j], r).Returned?
    ensures worlds[i].history != [] && worlds[j].history != []
    ensures Newest(worlds[i]) <= k <= Newest(worlds[j])
    ensures parse(worlds[j].history[k]) == Some(ReaderAt(worlds[j], r).meta)
  {
    hide ReaderAt, Behaviour;
    var t := ReturnedMetaWasCurrent(parse, actions, worlds, r, i, j);
    NewestGrows(parse, actions, worlds, i, t);
    NewestGrows(parse, actions, worlds, t, j);
    k := Newest(worlds[t]);
  }

  lemma Ordered<M>(actions: seq<Action>, worlds: seq<World<M>>, r: nat, i: nat, j: nat, r': nat, i': nat, j': nat)
    requires InCall(actions, worlds, r, i, j) && InCall(actions, worlds, r', i', j')
    ensures i < j < |worlds| && i' < j' < |worlds|
  {
  }

  // A reader that began before the last version bump stores its copy.
  predicate StoresStale<M>(w: World<M>, a: Action) {
    a.Store? && ReaderAt(w, a.reader).Copied? && ReaderAt(w, a.reader).version != w.version
  }

  // Between the two moments no version is published and no stale copy stored.
  predicate Quiet<M>(actions: seq<Action>, worlds: seq<World<M>>, i: nat, j: nat) {
    && i <= j <= |actions| && |worlds| == |actions| + 1
    && forall t :: i <= t < j ==> !actions[t].BumpVersion? && !StoresStale(worlds[t], actions[t])
  }

  predicate FreshEntry<M>(w: World<M>) {
    w.cache.Some? && w.cache.value.version == w.version
  }

  lemma {:induction false} EntryStaysFresh<M>(
    parse: Cards -> Option<M>, actions: seq<Action>, worlds: seq<World<M>>, i: nat, j: nat)
    requires Behaviour(parse, actions, worlds) && Quiet(actions, worlds, i, j) && FreshEntry(worlds[i])
    ensures FreshEntry(worlds[j]) && worlds[j].version == worlds[i].version
  {
    if i < j {
      EntryStaysFresh(parse, actions, worlds, i, j - 1);
      assert Enabled(worlds[j - 1], actions[j - 1]);
    }
  }

  // A look-up answers from the cache exactly when the entry carries the
  // version that was current when its call began.
  lemma LookUpHitsIff<M>(
    parse: Cards -> Option<M>, actions: seq<Action>, worlds: seq<World<M>>, r: nat, i: nat, j: nat)
    requires Behaviour(parse, actions, worlds) && InCall(actions, worlds, r, i, j)
    requires j < |actions| && actions[j] == LookUp(r)
    ensures ReaderAt(worlds[j + 1], r).Returned? <==>
            worlds[j].cache.Some? && worlds[j].cache.value.version == worlds[i].version
    ensures ReaderAt(worlds[j + 1], r).Returned? ==>
            ReaderAt(worlds[j + 1], r).meta == worlds[j].cache.value.meta
  {
    LoadedAtBegin(parse, actions, worlds, r, i, j);
    assert Enabled(worlds[j], actions[j]);
  }

  // While no list is published, every later call is answered from the cache.
  lemma FreshEntryServes<M>(
    parse: Cards -> Option<M>, actions: seq<Action>, worlds: seq<World<M>>, from: nat, r: nat, i: nat, j: nat)
    requires Behaviour(parse, actions, worlds) && InCall(actions, worlds, r, i, j)
    requires j < |actions| && actions[j] == LookUp(r)
    requires from <= i && Quiet(actions, worlds, from, j) && FreshEntry(worlds[from])
    ensures ReaderAt(worlds[j + 1], r).Returned? && worlds[j + 1].cache == worlds[j].cache
  {
    hide ReaderAt;
    EntryStaysFresh(parse, actions, worlds, from, i);
    EntryStaysFresh(parse, actions, worlds, from, j);
    LookUpHitsIff(parse, actions, worlds, r, i, j);
  }

  // The worlds of the schedule below.
  function Scene<M>(parse: Cards -> Option<M>, before: Cards, after: Cards, t: nat): (w: World<M>)
    requires parse(after).Some? && t <= 12
  {
    var history := if t < 5 then [before] else [before, after];
    var writer := if t == 3 then Holding else if t == 4 then Replaced else if t == 5 then Bumped else Free;
    var meta := parse(after).value;
    var cache := if t < 11 then None else if t == 11 then Some(Cached(1, meta)) else Some(Cached(0, meta));
    var first :=
      if t == 1 then Loaded(0) else if t < 7 then Missed(0) else if t < 12 then Copied(0, after) else Returned(0, meta);
    var second :=
      if t == 8 then Loaded(1) else if t == 9 then Missed(1) else if t == 10 then Copied(1, after)
        else Returned(1, meta);
    World(history, if t < 4 then before else after, if t < 5 then 0 else 1, writer, cache,
          if t == 0 then map[] else if t < 8 then map[0 := first] else map[0 := first, 1 := second])
  }

  function Schedule(after: Cards): (actions: seq<Action>) {
    [Begin(0), LookUp(0), LockCards, ReplaceCards(after), BumpVersion, UnlockCards,
     CopyCards(0, false), Begin(1), LookUp(1), CopyCards(1, false), Store(1), Store(0)]
  }

  lemma SceneStep<M>(parse: Cards -> Option<M>, before: Cards, after: Cards, t: nat)
    requires parse(after).Some? && t < 12
    ensures Enabled(Scene(parse, before, after, t), Schedule(after)[t])
    ensures Scene(parse, before, after, t + 1) == Act(parse, Scene(parse, before, after, t), Schedule(after)[t])
  {
  }

  lemma SceneEnds<M>(parse: Cards -> Option<M>, before: Cards, after: Cards)
    requires parse(after).Some?
    ensures Scene(parse, before, after, 0) == Start(before)
    ensures Scene(parse, before, after, 11).cache == Some(Cached(1, parse(after).value))
    ensures Scene(parse, before, after, 12).cache == Some(Cached(0, parse(after).value))
  {
  }

  // A slow reader does store an older stamp over a newer one; the metadata
  // under the older stamp is the newer list's all the same.
  lemma SlowReaderStoresOlderStamp<M>(parse: Cards -> Option<M>, before: Cards, after: Cards)
    returns (actions: seq<Action>, worlds: seq<World<M>>)
    requires parse(after).Some?
    ensures Behaviour(parse, actions, worlds) && |actions| == 12
    ensures worlds[11].cache == Some(Cached(1, parse(after).value))
    ensures worlds[12].cache == Some(Cached(0, parse(after).value))
  {
    hide Scene, Enabled, Act;
    actions := Schedule(after);
    worlds := seq(13, t requires 0 <= t <= 12 => Scene(parse, before, after, t));
    forall t | 0 <= t < 12
      ensures Enabled(worlds[t], actions[t]) && worlds[t + 1] == Act(parse, worlds[t], actions[t])
    {
      SceneStep(parse, before, after, t);
    }
    SceneEnds(parse, before, after);
  }
}
