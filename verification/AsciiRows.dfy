// Reading chosen rows of a table: the rows asked for are sorted and joined
// into runs of consecutive rows, each run is read in chunks, and every row is
// delivered to the place the caller asked for it in.
module AsciiRows {
  import opened FitsBytes
  import opened SliceMath
  import opened FileStorage

  predicate Distinct(rows: seq<nat>) {
    forall i, j :: 0 <= i < j < |rows| ==> rows[i] != rows[j]
  }

  // ----- which rows -----

  function Normalized(v: int, nRows: nat): (r: int) {
    if v < 0 then nRows + v else v
  }

  predicate InTable(v: int, nRows: nat) {
    0 <= Normalized(v, nRows) < nRows
  }

  // The rows in the order they were first asked for, each once.
  function FirstMentions(requested: seq<int>, nRows: nat): (rows: seq<nat>)
    requires forall i :: 0 <= i < |requested| ==> InTable(requested[i], nRows)
  {
    if requested == [] then []
    else
      var before := FirstMentions(requested[..|requested| - 1], nRows);
      assert InTable(requested[|requested| - 1], nRows);
      var row: nat := Normalized(requested[|requested| - 1], nRows);
      if row in before then before else before + [row]
  }

  lemma {:induction false} MentionsAreDistinct(requested: seq<int>, nRows: nat)
    requires forall i :: 0 <= i < |requested| ==> InTable(requested[i], nRows)
    ensures var rows := FirstMentions(requested, nRows);
            && Distinct(rows) && (forall i :: 0 <= i < |rows| ==> rows[i] < nRows)
            && (forall i :: 0 <= i < |requested| ==> Normalized(requested[i], nRows) in rows)
            && (forall row :: row in rows ==>
                  exists i :: 0 <= i < |requested| && Normalized(requested[i], nRows) == row)
  {
    if requested != [] {
      var last := |requested| - 1;
      MentionsAreDistinct(requested[..last], nRows);
      var before, rows := FirstMentions(requested[..last], nRows), FirstMentions(requested, nRows);
      forall row | row in rows
        ensures exists i :: 0 <= i < |requested| && Normalized(requested[i], nRows) == row
      {
        if row in before {
          var i :| 0 <= i < last && Normalized(requested[..last][i], nRows) == row;
          assert Normalized(requested[i], nRows) == row;
        } else {
          assert Normalized(requested[last], nRows) == row;
        }
      }
      forall i | 0 <= i < |requested| ensures Normalized(requested[i], nRows) in rows {
        if i < last {
          assert requested[..last][i] == requested[i];
        }
      }
    }
  }

  // A request names a row by its number, or by its number from the end less
  // one table.
  predicate Asks(v: int, nRows: nat, row: int) {
    0 <= row < nRows && (row == v || row == v + nRows)
  }

  // `rows` are the rows asked for, each once, in the order of their first
  // mention: row i is asked for at first[i] and not before.
  ghost predicate FirstAsked(requested: seq<int>, nRows: nat, rows: seq<nat>, first: seq<nat>) {
    && FirstPlaces(requested, nRows, rows, first) && Rising(first) && AllAnswered(requested, nRows, rows)
  }

  ghost predicate FirstPlaces(requested: seq<int>, nRows: nat, rows: seq<nat>, first: seq<nat>) {
    |first| == |rows| && forall i :: 0 <= i < |rows| ==> AskedFirstAt(requested, nRows, rows[i], first[i])
  }

  ghost predicate AskedFirstAt(requested: seq<int>, nRows: nat, row: nat, p: nat) {
    && p < |requested| && Asks(requested[p], nRows, row)
    && forall q :: 0 <= q < p ==> !Asks(requested[q], nRows, row)
  }

  predicate Rising(first: seq<nat>) {
    forall i, j :: 0 <= i < j < |first| ==> first[i] < first[j]
  }

  ghost predicate AllAnswered(requested: seq<int>, nRows: nat, rows: seq<nat>) {
    forall p :: 0 <= p < |requested| ==> Answered(requested[p], nRows, rows)
  }

  ghost predicate Answered(v: int, nRows: nat, rows: seq<nat>) {
    exists i :: 0 <= i < |rows| && Asks(v, nRows, rows[i])
  }

  ghost predicate AnswersRows(requested: seq<int>, nRows: nat, rows: seq<nat>) {
    exists first :: FirstAsked(requested, nRows, rows, first)
  }

  lemma AskedIsNormalized(v: int, nRows: nat, row: int)
    ensures Asks(v, nRows, row) <==> InTable(v, nRows) && row == Normalized(v, nRows)
    ensures InTable(v, nRows) <==> 0 <= v + nRows && v < nRows
  {
  }

  lemma {:induction false} MentionsAnswer(requested: seq<int>, nRows: nat) returns (first: seq<nat>)
    requires forall i :: 0 <= i < |requested| ==> InTable(requested[i], nRows)
    ensures FirstAsked(requested, nRows, FirstMentions(requested, nRows), first)
  {
    hide FirstMentions, FirstAsked, Normalized, InTable;
    if requested == [] {
      first := [];
      NothingAsked(nRows);
    } else {
      var n := |requested| - 1;
      var front, v := requested[..n], requested[n];
      first := MentionsAnswer(front, nRows);
      LastMention(front, v, nRows, first);
      assert requested == front + [v];
      if Normalized(v, nRows) !in FirstMentions(front, nRows) {
        first := first + [n];
      }
    }
  }

  lemma NothingAsked(nRows: nat)
    ensures FirstMentions([], nRows) == [] && FirstAsked([], nRows, [], [])
  {
  }

  lemma LastMention(front: seq<int>, v: int, nRows: nat, first: seq<nat>)
    requires InTable(v, nRows) && forall i :: 0 <= i < |front| ==> InTable(front[i], nRows)
    requires FirstAsked(front, nRows, FirstMentions(front, nRows), first)
    ensures forall i :: 0 <= i < |front + [v]| ==> InTable((front + [v])[i], nRows)
    ensures var before := FirstMentions(front, nRows);
      FirstAsked(front + [v], nRows, FirstMentions(front + [v], nRows),
                 if Normalized(v, nRows) in before then first else first + [|front|])
  {
    var before, row := FirstMentions(front, nRows), Normalized(v, nRows);
    AskedIsNormalized(v, nRows, row);
    MentionsAreDistinct(front, nRows);
    MentionsNext(front, v, nRows);
    hide Normalized, InTable, Asks, FirstMentions, FirstAsked;
    if row in before {
      var i :| 0 <= i < |before| && before[i] == row;
      assert Answered(v, nRows, before);
      SameAnswer(front, v, nRows, before, first);
    } else {
      forall q | 0 <= q < |front| ensures !Asks(front[q], nRows, row) {
        AskedIsNormalized(front[q], nRows, row);
      }
      OneMoreAnswer(front, v, nRows, before, first, row);
    }
  }

  lemma MentionsNext(front: seq<int>, v: int, nRows: nat)
    requires InTable(v, nRows) && forall i :: 0 <= i < |front| ==> InTable(front[i], nRows)
    ensures forall i :: 0 <= i < |front + [v]| ==> InTable((front + [v])[i], nRows)
    ensures var before, row := FirstMentions(front, nRows), Normalized(v, nRows);
      row >= 0 && FirstMentions(front + [v], nRows) == if row in before then before else before + [row]
  {
    assert (front + [v])[..|front|] == front;
  }

  lemma StillAskedFirst(front: seq<int>, v: int, nRows: nat, row: nat, p: nat)
    requires AskedFirstAt(front, nRows, row, p)
    ensures AskedFirstAt(front + [v], nRows, row, p)
  {
    hide Asks;
    var all := front + [v];
    assert forall q :: 0 <= q < |front| ==> all[q] == front[q];
  }

  lemma StillAnswered(v: int, nRows: nat, rows: seq<nat>, more: seq<nat>)
    requires Answered(v, nRows, rows)
    ensures Answered(v, nRows, rows + more)
  {
    hide Asks;
    var i :| 0 <= i < |rows| && Asks(v, nRows, rows[i]);
    assert (rows + more)[i] == rows[i];
  }

  lemma AnswersGrow(front: seq<int>, v: int, nRows: nat, rows: seq<nat>, more: seq<nat>)
    requires AllAnswered(front, nRows, rows) && Answered(v, nRows, rows + more)
    ensures AllAnswered(front + [v], nRows, rows + more)
  {
    hide Answered;
    forall p | 0 <= p < |front + [v]| ensures Answered((front + [v])[p], nRows, rows + more) {
      if p < |front| {
        StillAnswered(front[p], nRows, rows, more);
      }
    }
  }

  lemma SameAnswer(front: seq<int>, v: int, nRows: nat, rows: seq<nat>, first: seq<nat>)
    requires FirstAsked(front, nRows, rows, first) && Answered(v, nRows, rows)
    ensures FirstAsked(front + [v], nRows, rows, first)
  {
    hide Asks, AskedFirstAt, Answered, AllAnswered, Rising;
    assert rows + [] == rows;
    AnswersGrow(front, v, nRows, rows, []);
    forall i | 0 <= i < |rows| ensures AskedFirstAt(front + [v], nRows, rows[i], first[i]) {
      StillAskedFirst(front, v, nRows, rows[i], first[i]);
    }
  }

  lemma OneMoreAnswer(front: seq<int>, v: int, nRows: nat, rows: seq<nat>, first: seq<nat>, row: nat)
    requires FirstAsked(front, nRows, rows, first) && Asks(v, nRows, row)
    requires forall q :: 0 <= q < |front| ==> !Asks(front[q], nRows, row)
    ensures FirstAsked(front + [v], nRows, rows + [row], first + [|front|])
  {
    LastIsFirst(front, v, nRows, row);
    Newest(rows, v, nRows, row);
    FirstInFront(front, nRows, rows, first);
    hide Asks, AskedFirstAt, Answered, AllAnswered;
    AnswersGrow(front, v, nRows, rows, [row]);
    var rows', first' := rows + [row], first + [|front|];
    forall i | 0 <= i < |rows'| ensures AskedFirstAt(front + [v], nRows, rows'[i], first'[i]) {
      if i < |rows| {
        StillAskedFirst(front, v, nRows, rows[i], first[i]);
      }
    }
    assert Rising(first');
  }

  lemma LastIsFirst(front: seq<int>, v: int, nRows: nat, row: nat)
    requires Asks(v, nRows, row) && forall q :: 0 <= q < |front| ==> !Asks(front[q], nRows, row)
    ensures AskedFirstAt(front + [v], nRows, row, |front|)
  {
    hide Asks;
  }

  lemma Newest(rows: seq<nat>, v: int, nRows: nat, row: nat)
    requires Asks(v, nRows, row)
    ensures Answered(v, nRows, rows + [row])
  {
    hide Asks;
    assert (rows + [row])[|rows|] == row;
  }

  lemma FirstInFront(front: seq<int>, nRows: nat, rows: seq<nat>, first: seq<nat>)
    requires FirstPlaces(front, nRows, rows, first)
    ensures forall i :: 0 <= i < |first| ==> first[i] < |front|
  {
    hide Asks;
    forall i | 0 <= i < |first| ensures first[i] < |front| {
      assert AskedFirstAt(front, nRows, rows[i], first[i]);
    }
  }

  method ResolveRows(requested: seq<int>, nRows: nat) returns (rows: Option<seq<nat>>)
    ensures rows.Some? <==>
      requested != [] && forall i :: 0 <= i < |requested| ==> 0 <= requested[i] + nRows && requested[i] < nRows
    ensures rows.Some? ==>
      (forall i :: 0 <= i < |requested| ==> InTable(requested[i], nRows))
      && rows.value == FirstMentions(requested, nRows) && AnswersRows(requested, nRows, rows.value)
  {
    rows := MentionedRows(requested, nRows);
    forall i | 0 <= i < |requested|
      ensures InTable(requested[i], nRows) <==> 0 <= requested[i] + nRows && requested[i] < nRows
    {
      AskedIsNormalized(requested[i], nRows, 0);
    }
    if rows.Some? {
      hide InTable, FirstMentions, FirstAsked;
      ghost var first := MentionsAnswer(requested, nRows);
    }
  }

  method MentionedRows(requested: seq<int>, nRows: nat) returns (rows: Option<seq<nat>>)
    ensures rows.Some? <==> requested != [] && forall i :: 0 <= i < |requested| ==> InTable(requested[i], nRows)
    ensures rows.Some? ==> rows.value == FirstMentions(requested, nRows)
  {
    for i := 0 to |requested|
      invariant forall j :: 0 <= j < i ==> InTable(requested[j], nRows)
    {
      if !InTable(requested[i], nRows) {
        return None;
      }
    }
    if requested == [] {
      return None;
    }
    var found := [];
    for i := 0 to |requested|
      invariant found == FirstMentions(requested[..i], nRows)
    {
      assert requested[..i + 1][..i] == requested[..i];
      var row: nat := Normalized(requested[i], nRows);
      if row !in found {
        found := found + [row];
      }
    }
    assert requested[..|requested|] == requested;
    rows := Some(found);
  }

  // ----- slices -----

  // A negative bound counts from the end; what lies outside is clamped.
  function Clamped(v: int, nRows: nat, low: int, high: int): (r: int) {
    if v < 0 then Max(v + nRows, low) else Min(v, high)
  }

  function SliceStart(start: Option<int>, step: int, nRows: nat): (r: int) {
    var low, high := if step < 0 then -1 else 0, if step < 0 then nRows - 1 else nRows;
    match start
    case None => if step < 0 then high else low
    case Some(v) => Clamped(v, nRows, low, high)
  }

  function SliceStop(stop: Option<int>, step: int, nRows: nat): (r: int) {
    var low, high := if step < 0 then -1 else 0, if step < 0 then nRows - 1 else nRows;
    match stop
    case None => if step < 0 then low else high
    case Some(v) => Clamped(v, nRows, low, high)
  }

  // Whether the walk has not reached its end.
  predicate Goes(i: int, stop: int, step: int) {
    (step > 0 && i < stop) || (step < 0 && i > stop)
  }

  function Walk(i: int, stop: int, step: int): (rows: seq<int>)
    decreases if step > 0 then stop - i else i - stop
  {
    if Goes(i, stop, step) then [i] + Walk(i + step, stop, step) else []
  }

  function SliceRows(start: Option<int>, stop: Option<int>, step: int, nRows: nat): (rows: seq<int>) {
    Walk(SliceStart(start, step, nRows), SliceStop(stop, step, nRows), step)
  }

  // The walk takes every step that does not reach its end, and no other.
  lemma {:induction false} WalkAt(i: int, stop: int, step: int, k: nat)
    requires step != 0
    ensures k < |Walk(i, stop, step)| <==> Goes(i + k * step, stop, step)
    ensures k < |Walk(i, stop, step)| ==> Walk(i, stop, step)[k] == i + k * step
    decreases k
  {
    if k > 0 {
      assert k * step == (k - 1) * step + step;
      if Goes(i, stop, step) {
        WalkAt(i + step, stop, step, k - 1);
      } else {
        StillStopped(i, stop, step, k);
      }
    }
  }

  lemma StillStopped(i: int, stop: int, step: int, k: nat)
    requires step != 0 && !Goes(i, stop, step)
    ensures !Goes(i + k * step, stop, step)
  {
    if step > 0 {
      assert k * step >= 0;
    } else {
      assert k * step <= 0;
    }
  }

  predicate RowsFrom(rows: seq<int>, i: int, step: int, nRows: nat) {
    && (forall k :: 0 <= k < |rows| ==> 0 <= rows[k] < nRows)
    && (forall k :: 0 <= k < |rows| ==> if step > 0 then rows[k] >= i else rows[k] <= i)
    && (forall j, k :: 0 <= j < k < |rows| ==> rows[j] != rows[k])
  }

  // The bounds as the caller means them, negative ones from the end.
  function BoundAt(v: int, nRows: nat): (r: int) {
    if v >= 0 then v else v + nRows
  }

  // A row of the table between the bounds of a slice, `stop` excluded.
  predicate InBounds(start: Option<int>, stop: Option<int>, step: int, nRows: nat, r: int) {
    && 0 <= r < nRows
    && (start.Some? ==> if step > 0 then r >= BoundAt(start.value, nRows) else r <= BoundAt(start.value, nRows))
    && (stop.Some? ==> if step > 0 then r < BoundAt(stop.value, nRows) else r > BoundAt(stop.value, nRows))
  }

  lemma BoundsAre(start: Option<int>, stop: Option<int>, step: int, nRows: nat, r: int)
    requires step != 0
    ensures InBounds(start, stop, step, nRows, r)
       <==> var f, e := SliceStart(start, step, nRows), SliceStop(stop, step, nRows);
            if step > 0 then f <= r < e else e < r <= f
  {
  }

  // A slice starts at the first row between its bounds, takes every step-th
  // one from there, and leaves none out before it ends.
  lemma SliceSelects(start: Option<int>, stop: Option<int>, step: int, nRows: nat)
    requires step != 0
    ensures var rows := SliceRows(start, stop, step, nRows);
      && (rows == [] <==> forall r :: !InBounds(start, stop, step, nRows, r))
      && (forall k :: 0 <= k < |rows| ==> InBounds(start, stop, step, nRows, rows[k]) && rows[k] == rows[0] + k * step)
      && (rows != [] ==>
            && (forall r :: InBounds(start, stop, step, nRows, r) ==> if step > 0 then r >= rows[0] else r <= rows[0])
            && !InBounds(start, stop, step, nRows, rows[|rows| - 1] + step))
  {
    var rows := SliceRows(start, stop, step, nRows);
    var f, e := SliceStart(start, step, nRows), SliceStop(stop, step, nRows);
    hide SliceStart, SliceStop, InBounds, Walk;
    forall r
      ensures InBounds(start, stop, step, nRows, r) <==> if step > 0 then f <= r < e else e < r <= f
    {
      BoundsAre(start, stop, step, nRows, r);
    }
    WalkAt(f, e, step, 0);
    forall k | 0 <= k < |rows|
      ensures InBounds(start, stop, step, nRows, rows[k]) && rows[k] == rows[0] + k * step
    {
      WalkAt(f, e, step, k);
      StepsAhead(step, k);
    }
    if rows != [] {
      WalkAt(f, e, step, |rows| - 1);
      WalkAt(f, e, step, |rows|);
      assert |rows| * step == (|rows| - 1) * step + step;
    } else {
      assert !InBounds(start, stop, step, nRows, f);
    }
  }

  lemma StepsAhead(step: int, k: nat)
    ensures step > 0 ==> k * step >= 0
    ensures step < 0 ==> k * step <= 0
  {
  }

  // Clamping keeps every row of a slice in the table, and no row comes twice.
  lemma {:induction false} WalkStaysInside(i: int, stop: int, step: int, nRows: nat)
    requires step > 0 ==> 0 <= i && stop <= nRows
    requires step < 0 ==> i < nRows && -1 <= stop
    ensures RowsFrom(Walk(i, stop, step), i, step, nRows)
    decreases if step > 0 then stop - i else i - stop
  {
    if Goes(i, stop, step) {
      WalkStaysInside(i + step, stop, step, nRows);
      FrontRow(i, step, nRows, Walk(i + step, stop, step));
    }
  }

  lemma FrontRow(i: int, step: int, nRows: nat, tail: seq<int>)
    requires RowsFrom(tail, i + step, step, nRows) && step != 0 && 0 <= i < nRows
    ensures RowsFrom([i] + tail, i, step, nRows)
  {
    var rows := [i] + tail;
    assert forall k :: 0 < k < |rows| ==> rows[k] == tail[k - 1];
  }

  lemma SliceBounds(start: Option<int>, stop: Option<int>, step: int, nRows: nat)
    ensures step > 0 ==> 0 <= SliceStart(start, step, nRows) && SliceStop(stop, step, nRows) <= nRows
    ensures step < 0 ==> SliceStart(start, step, nRows) < nRows && -1 <= SliceStop(stop, step, nRows)
  {
  }

  lemma SliceInTable(start: Option<int>, stop: Option<int>, step: int, nRows: nat)
    ensures forall k :: 0 <= k < |SliceRows(start, stop, step, nRows)| ==>
      InTable(SliceRows(start, stop, step, nRows)[k], nRows)
    ensures FirstMentions(SliceRows(start, stop, step, nRows), nRows) == SliceRows(start, stop, step, nRows)
  {
    hide Walk, SliceStart, SliceStop, InTable, RowsFrom;
    SliceBounds(start, stop, step, nRows);
    WalkStaysInside(SliceStart(start, step, nRows), SliceStop(stop, step, nRows), step, nRows);
    MentionedOnce(SliceRows(start, stop, step, nRows), SliceStart(start, step, nRows), step, nRows);
  }

  lemma {:induction false} MentionedOnce(requested: seq<int>, i: int, step: int, nRows: nat)
    requires RowsFrom(requested, i, step, nRows)
    ensures forall k :: 0 <= k < |requested| ==> InTable(requested[k], nRows)
    ensures FirstMentions(requested, nRows) == requested
  {
    if requested != [] {
      var n := |requested| - 1;
      MentionedOnce(requested[..n], i, step, nRows);
      assert requested[n] !in requested[..n];
    }
  }

  // A slice of rows: refused exactly when its step is zero or it selects none.
  method ResolveSlice(start: Option<int>, stop: Option<int>, step: int, nRows: nat) returns (rows: Option<seq<nat>>)
    ensures rows.Some? <==> step != 0 && SliceRows(start, stop, step, nRows) != []
    ensures rows.Some? ==> rows.value == SliceRows(start, stop, step, nRows)
  {
    if step == 0 {
      return None;
    }
    SliceBounds(start, stop, step, nRows);
    var requested := WalkRows(SliceStart(start, step, nRows), SliceStop(stop, step, nRows), step, nRows);
    assert requested == SliceRows(start, stop, step, nRows);
    hide SliceStart, SliceStop, Walk, FirstMentions, InTable, SliceRows;
    SliceInTable(start, stop, step, nRows);
    rows := ResolveRows(requested, nRows);
  }

  // The walk over a slice; clamping keeps it inside the table.
  method WalkRows(start: int, end: int, step: int, nRows: nat) returns (requested: seq<int>)
    requires step > 0 ==> 0 <= start && end <= nRows
    requires step < 0 ==> start < nRows && -1 <= end
    ensures requested == Walk(start, end, step)
  {
    hide Walk;
    var i := start;
    requested := [];
    while Goes(i, end, step)
      invariant step > 0 ==> 0 <= i
      invariant step < 0 ==> i < nRows
      invariant requested + Walk(i, end, step) == Walk(start, end, step)
      decreases if step > 0 then end - i else i - end
    {
      WalkStep(i, end, step);
      assert 0 <= i < nRows;
      requested := requested + [i];
      i := i + step;
    }
    WalkStep(i, end, step);
  }

  lemma WalkStep(i: int, stop: int, step: int)
    ensures Walk(i, stop, step) == if Goes(i, stop, step) then [i] + Walk(i + step, stop, step) else []
  {
  }

  // ----- sorting by row -----

  // A row to read, and the place in the output it was asked for.
  datatype Pick = Pick(row: nat, output: nat)

  predicate Sorted(picks: seq<Pick>) {
    forall i, j :: 0 <= i < j < |picks| ==> picks[i].row < picks[j].row
  }

  // Every pick is one the caller asked for, and every place is picked.
  predicate PicksOf(rows: seq<nat>, n: nat, picks: seq<Pick>)
    requires n <= |rows|
  {
    && |picks| == n
    && (forall i :: 0 <= i < |picks| ==> picks[i].output < n && picks[i].row == rows[picks[i].output])
    && (forall o: nat :: o < n ==> Pick(rows[o], o) in picks)
  }

  function InsertPick(picks: seq<Pick>, pick: Pick): (r: seq<Pick>) {
    if picks == [] || pick.row < picks[0].row then [pick] + picks
    else [picks[0]] + InsertPick(picks[1..], pick)
  }

  function SortedPicks(rows: seq<nat>, n: nat): (picks: seq<Pick>)
    requires n <= |rows|
  {
    if n == 0 then [] else InsertPick(SortedPicks(rows, n - 1), Pick(rows[n - 1], n - 1))
  }

  lemma {:induction false} InsertSorts(picks: seq<Pick>, pick: Pick)
    requires Sorted(picks) && forall i :: 0 <= i < |picks| ==> picks[i].row != pick.row
    ensures var r := InsertPick(picks, pick);
            && Sorted(r) && |r| == |picks| + 1
            && (forall p :: p in r <==> p in picks || p == pick)
  {
    if !(picks == [] || pick.row < picks[0].row) {
      InsertSorts(picks[1..], pick);
      var tail := InsertPick(picks[1..], pick);
      forall j | 0 <= j < |tail| ensures picks[0].row < tail[j].row {
        assert tail[j] in picks[1..] || tail[j] == pick;
      }
    }
  }

  lemma {:induction false} PicksAreSorted(rows: seq<nat>, n: nat)
    requires n <= |rows| && Distinct(rows)
    ensures Sorted(SortedPicks(rows, n)) && PicksOf(rows, n, SortedPicks(rows, n))
  {
    if n > 0 {
      PicksAreSorted(rows, n - 1);
      PickStep(rows, n);
      hide SortedPicks;
      OneMorePick(rows, n, SortedPicks(rows, n - 1));
    }
  }

  lemma OneMorePick(rows: seq<nat>, n: nat, before: seq<Pick>)
    requires 0 < n <= |rows| && Distinct(rows) && Sorted(before) && PicksOf(rows, n - 1, before)
    ensures var picks := InsertPick(before, Pick(rows[n - 1], n - 1)); Sorted(picks) && PicksOf(rows, n, picks)
  {
    var pick := Pick(rows[n - 1], n - 1);
    InsertSorts(before, pick);
    hide InsertPick, Sorted, Distinct;
    var picks := InsertPick(before, pick);
    forall i | 0 <= i < |picks| ensures picks[i].output < n && picks[i].row == rows[picks[i].output] {
      assert picks[i] in before || picks[i] == pick;
    }
    forall o: nat | o < n ensures Pick(rows[o], o) in picks {
      assert o < n - 1 ==> Pick(rows[o], o) in before;
    }
  }

  lemma PickStep(rows: seq<nat>, n: nat)
    requires 0 < n <= |rows|
    ensures SortedPicks(rows, n) == InsertPick(SortedPicks(rows, n - 1), Pick(rows[n - 1], n - 1))
  {
  }

  // ----- the run plan -----

  datatype RunPlan = RunPlan(start: nat, len: nat, outputs: seq<nat>)

  // Non-empty runs of consecutive rows, in increasing order and never
  // touching; each run's outputs are where its rows were asked for, and every
  // place in the output belongs to a run.
  ghost predicate IsPlan(rows: seq<nat>, runs: seq<RunPlan>) {
    && (forall k :: 0 <= k < |runs| ==> RunOf(rows, runs[k]))
    && (forall j, k :: 0 <= j < k < |runs| ==> runs[j].start + runs[j].len < runs[k].start)
    && (forall o :: 0 <= o < |rows| ==> InSomeRun(runs, rows[o]))
  }

  predicate RunOf(rows: seq<nat>, run: RunPlan) {
    && 0 < run.len == |run.outputs|
    && forall t :: 0 <= t < run.len ==> run.outputs[t] < |rows| && rows[run.outputs[t]] == run.start + t
  }

  predicate InSomeRun(runs: seq<RunPlan>, row: nat) {
    exists k :: 0 <= k < |runs| && runs[k].start <= row < runs[k].start + runs[k].len
  }

  method PlanRuns(rows: seq<nat>) returns (runs: seq<RunPlan>)
    requires Distinct(rows)
    ensures IsPlan(rows, runs)
  {
    hide SortedPicks, Planned, PicksOf, IsPlan;
    PicksAreSorted(rows, |rows|);
    var picks := SortedPicks(rows, |rows|);
    runs := [];
    NothingPlanned(rows, picks);
    var i := 0;
    while i < |picks|
      invariant 0 <= i <= |picks| && Planned(rows, picks, i, runs)
    {
      var j := i + 1;
      while j < |picks| && picks[j].row == picks[j - 1].row + 1
        invariant i < j <= |picks|
        invariant forall k :: i <= k < j ==> picks[k].row == picks[i].row + (k - i)
      {
        j := j + 1;
      }
      var run := RunPlan(picks[i].row, j - i, Outputs(picks[i..j]));
      RunPlanned(rows, picks, i, j, runs, run);
      runs := runs + [run];
      i := j;
    }
    AllPlanned(rows, picks, runs);
  }

  // The first i picks are in runs, and the next one begins a run of its own.
  ghost predicate Planned(rows: seq<nat>, picks: seq<Pick>, i: nat, runs: seq<RunPlan>)
    requires i <= |picks|
  {
    && (forall k :: 0 <= k < |runs| ==> RunOf(rows, runs[k]))
    && (forall j, k :: 0 <= j < k < |runs| ==> runs[j].start + runs[j].len < runs[k].start)
    && (forall k :: 0 <= k < i ==> InSomeRun(runs, picks[k].row))
    && (i < |picks| ==> forall k :: 0 <= k < |runs| ==> runs[k].start + runs[k].len < picks[i].row)
  }

  lemma NothingPlanned(rows: seq<nat>, picks: seq<Pick>)
    ensures Planned(rows, picks, 0, [])
  {
  }

  lemma RunPlanned(rows: seq<nat>, picks: seq<Pick>, i: nat, j: nat, runs: seq<RunPlan>, run: RunPlan)
    requires Sorted(picks) && PicksOf(rows, |rows|, picks)
    requires i < j <= |picks| && Planned(rows, picks, i, runs)
    requires forall k :: i <= k < j ==> picks[k].row == picks[i].row + (k - i)
    requires j < |picks| ==> picks[j].row != picks[j - 1].row + 1
    requires run == RunPlan(picks[i].row, j - i, Outputs(picks[i..j]))
    ensures Planned(rows, picks, j, runs + [run])
  {
    hide InSomeRun;
    assert RunOf(rows, run) by {
      forall t | 0 <= t < run.len ensures run.outputs[t] < |rows| && rows[run.outputs[t]] == run.start + t {
        assert run.outputs[t] == picks[i + t].output;
      }
    }
    RunsGrow(runs, run);
    if j < |picks| {
      assert picks[j - 1].row < picks[j].row;
    }
  }

  lemma AllPlanned(rows: seq<nat>, picks: seq<Pick>, runs: seq<RunPlan>)
    requires PicksOf(rows, |rows|, picks) && Planned(rows, picks, |picks|, runs)
    ensures IsPlan(rows, runs)
  {
    hide InSomeRun;
    forall o | 0 <= o < |rows| ensures InSomeRun(runs, rows[o]) {
      assert Pick(rows[o], o) in picks;
    }
  }

  function Outputs(picks: seq<Pick>): (outputs: seq<nat>) {
    seq(|picks|, i requires 0 <= i < |picks| => picks[i].output)
  }

  lemma RunsGrow(runs: seq<RunPlan>, run: RunPlan)
    ensures forall row: nat :: InSomeRun(runs, row) ==> InSomeRun(runs + [run], row)
    ensures forall row: nat :: run.start <= row < run.start + run.len ==> InSomeRun(runs + [run], row)
  {
    var all := runs + [run];
    forall row: nat | InSomeRun(runs, row) ensures InSomeRun(all, row) {
      var k :| 0 <= k < |runs| && runs[k].start <= row < runs[k].start + runs[k].len;
      assert all[k] == runs[k];
    }
    forall row: nat | run.start <= row < run.start + run.len ensures InSomeRun(all, row) {
      assert all[|runs|] == run;
    }
  }

  // No run can be made longer.
  lemma RunsAreMaximal(rows: seq<nat>, runs: seq<RunPlan>, k: nat)
    requires IsPlan(rows, runs) && k < |runs|
    ensures runs[k].start + runs[k].len !in rows
    ensures runs[k].start > 0 ==> runs[k].start - 1 !in rows
  {
  }

  // ----- delivery -----

  // Where a row begins: behind the rows before it.
  function RowStart(offset: nat, width: nat, row: nat): (start: nat)
    decreases row
  {
    if row == 0 then offset else RowStart(offset, width, row - 1) + width
  }

  lemma {:induction false} RowStartIs(offset: nat, width: nat, row: nat)
    ensures RowStart(offset, width, row) == offset + row * width
  {
    if row > 0 {
      RowStartIs(offset, width, row - 1);
      assert row * width == (row - 1) * width + width;
    }
  }

  lemma {:induction false} RowsGrow(offset: nat, w: nat, a: nat, b: nat)
    requires a <= b
    ensures offset <= RowStart(offset, w, a) <= RowStart(offset, w, b)
    ensures RowStart(offset, w, b) == RowStart(offset, w, a) + RowStart(0, w, b - a)
    ensures RowStart(offset, w, a + 1) == RowStart(offset, w, a) + w
    decreases b
  {
    if a < b {
      RowsGrow(offset, w, a, b - 1);
    } else if a > 0 {
      RowsGrow(offset, w, a - 1, a - 1);
    }
  }

  // The bytes of a row in the file.

  function RowBytes(disk: seq<byte>, offset: nat, width: nat, row: nat): (bytes: seq<byte>) {
    var start, end := RowStart(offset, width, row), RowStart(offset, width, row + 1);
    if start <= end <= |disk| then disk[start..end] else []
  }

  // Every row below `bound` that was asked for has been delivered, once and
  // to its own place; nothing else has.
  ghost predicate Delivered(rows: seq<nat>, disk: seq<byte>, offset: nat, width: nat, bound: nat, out: seq<seq<byte>>,
                            log: seq<nat>)
  {
    && |out| == |rows| && Distinct(log)
    && (forall o: nat :: o in log <==> o < |rows| && rows[o] < bound)
    && (forall o :: 0 <= o < |rows| && rows[o] < bound ==> out[o] == RowBytes(disk, offset, width, rows[o]))
  }

  lemma NothingDelivered(rows: seq<nat>, disk: seq<byte>, offset: nat, width: nat, runs: seq<RunPlan>,
                         out: seq<seq<byte>>)
    requires IsPlan(rows, runs) && |out| == |rows|
    ensures Delivered(rows, disk, offset, width, if runs == [] then 0 else runs[0].start, out, [])
  {
    if runs != [] {
      forall o | 0 <= o < |rows| ensures rows[o] >= runs[0].start {
        assert InSomeRun(runs, rows[o]);
      }
    }
  }

  // Between two runs no row was asked for.
  lemma NextRun(rows: seq<nat>, disk: seq<byte>, offset: nat, width: nat, runs: seq<RunPlan>, k: nat,
                out: seq<seq<byte>>, log: seq<nat>)
    requires IsPlan(rows, runs) && k + 1 < |runs|
    requires Delivered(rows, disk, offset, width, runs[k].start + runs[k].len, out, log)
    ensures Delivered(rows, disk, offset, width, runs[k + 1].start, out, log)
  {
    hide RowBytes, RunOf;
    forall o: nat | o < |rows| && rows[o] < runs[k + 1].start
      ensures rows[o] < runs[k].start + runs[k].len
    {
      assert InSomeRun(runs, rows[o]);
    }
  }

  // Delivering the row at the bound.
  lemma OneDelivered(rows: seq<nat>, disk: seq<byte>, offset: nat, width: nat, bound: nat, out: seq<seq<byte>>,
                     log: seq<nat>, o: nat)
    requires Distinct(rows) && o < |rows| && rows[o] == bound
    requires Delivered(rows, disk, offset, width, bound, out, log)
    ensures Delivered(rows, disk, offset, width, bound + 1,
                      out[o := RowBytes(disk, offset, width, bound)], log + [o])
  {
    hide RowBytes;
  }

  // Row r of a chunk.
  lemma RowOfChunk(disk: seq<byte>, offset: nat, width: nat, first: nat, n: nat, chunk: seq<byte>, r: nat)
    requires r < n && RowStart(offset, width, first) + RowStart(0, width, n) <= |disk|
    requires chunk == disk[RowStart(offset, width, first)..RowStart(offset, width, first) + RowStart(0, width, n)]
    ensures RowStart(0, width, r) <= RowStart(0, width, r + 1) <= |chunk|
    ensures chunk[RowStart(0, width, r)..RowStart(0, width, r + 1)] == RowBytes(disk, offset, width, first + r)
  {
    hide RowStart;
    var lo := RowStart(offset, width, first);
    RowsGrow(0, width, r, r + 1);
    RowsGrow(0, width, r + 1, n);
    RowsGrow(offset, width, first, first + r);
    RowsGrow(offset, width, first, first + r + 1);
    SliceOfSlice(disk, lo, lo + RowStart(0, width, n), RowStart(0, width, r), RowStart(0, width, r + 1));
  }

  method DeliverChunk(ghost rows: seq<nat>, disk: seq<byte>, offset: nat, width: nat, run: RunPlan, at: nat, n: nat,
                      chunk: seq<byte>, out: array<seq<byte>>, log: seq<nat>)
    returns (longer: seq<nat>)
    requires Distinct(rows) && RunOf(rows, run) && at + n <= run.len
    requires var start := RowStart(offset, width, run.start + at);
             start + RowStart(0, width, n) <= |disk| && chunk == disk[start..start + RowStart(0, width, n)]
    requires Delivered(rows, disk, offset, width, run.start + at, out[..], log)
    modifies out
    ensures Delivered(rows, disk, offset, width, run.start + at + n, out[..], longer)
  {
    hide RowBytes, RowStart, Delivered, Distinct;
    longer := log;
    for r := 0 to n
      invariant Delivered(rows, disk, offset, width, run.start + at + r, out[..], longer)
    {
      RowOfChunk(disk, offset, width, run.start + at, n, chunk, r);
      var output := run.outputs[at + r];
      OneDelivered(rows, disk, offset, width, run.start + at + r, out[..], longer, output);
      OutputInRange(rows, disk, offset, width, run.start + at + r, out[..], longer);
      out[output] := chunk[RowStart(0, width, r)..RowStart(0, width, r + 1)];
      longer := longer + [output];
    }
  }

  lemma OutputInRange(rows: seq<nat>, disk: seq<byte>, offset: nat, width: nat, bound: nat, out: seq<seq<byte>>,
                      log: seq<nat>)
    requires Delivered(rows, disk, offset, width, bound, out, log)
    ensures |out| == |rows|
  {
  }

  // One read per chunk of rows; `disk` is the storage's contents.
  method ProcessRun(file: Storage, ghost rows: seq<nat>, offset: nat, width: nat, rowsPerChunk: nat, run: RunPlan,
                    out: array<seq<byte>>, log: seq<nat>)
    returns (ok: bool, longer: seq<nat>)
    requires Distinct(rows) && RunOf(rows, run) && rowsPerChunk > 0
    requires Delivered(rows, file.bytes, offset, width, run.start, out[..], log)
    modifies out
    ensures ok ==> Delivered(rows, file.bytes, offset, width, run.start + run.len, out[..], longer)
    ensures !file.mayFail && RowStart(offset, width, run.start + run.len) <= |file.bytes| ==> ok
  {
    hide RowBytes, RowStart, Delivered, Distinct, RunOf;
    longer := log;
    var at := 0;
    while at < run.len
      invariant 0 <= at <= run.len
      invariant Delivered(rows, file.bytes, offset, width, run.start + at, out[..], longer)
    {
      var n := Min(rowsPerChunk, run.len - at);
      ChunkInside(offset, width, run.start + at, n, run.start + run.len);
      var start, size := RowStart(offset, width, run.start + at), RowStart(0, width, n);
      var chunk;
      ok, chunk := file.Read(start, size);
      if !ok {
        return;
      }
      longer := DeliverChunk(rows, file.bytes, offset, width, run, at, n, chunk, out, longer);
      at := at + n;
    }
    ok := true;
  }

  lemma ChunkInside(offset: nat, width: nat, first: nat, n: nat, end: nat)
    requires first + n <= end
    ensures RowStart(offset, width, first) + RowStart(0, width, n) <= RowStart(offset, width, end)
  {
    hide RowStart;
    RowsGrow(offset, width, first, first + n);
    RowsGrow(offset, width, first + n, end);
  }

  // Every run in turn: the rows arrive once each, at the places they were
  // asked for.
  method ProcessRuns(file: Storage, ghost rows: seq<nat>, runs: seq<RunPlan>, offset: nat, width: nat,
                     rowsPerChunk: nat, out: array<seq<byte>>)
    returns (ok: bool, log: seq<nat>)
    requires Distinct(rows) && IsPlan(rows, runs) && rowsPerChunk > 0 && out.Length == |rows|
    modifies out
    ensures ok ==> Distinct(log) && forall o: nat :: o in log <==> o < |rows|
    ensures ok ==> forall o :: 0 <= o < |rows| ==> out[o] == RowBytes(file.bytes, offset, width, rows[o])
    ensures !file.mayFail && RowsInside(rows, offset, width, |file.bytes|) ==> ok
  {
    hide RowBytes, RowStart, Delivered, IsPlan;
    log := [];
    NothingDelivered(rows, file.bytes, offset, width, runs, out[..]);
    for k := 0 to |runs|
      invariant Delivered(rows, file.bytes, offset, width, NextBound(runs, k), out[..], log)
    {
      RunInPlan(rows, runs, k);
      RunEndsInRow(rows, runs[k], offset, width, |file.bytes|);
      ok, log := ProcessRun(file, rows, offset, width, rowsPerChunk, runs[k], out, log);
      if !ok {
        return;
      }
      if k + 1 < |runs| {
        NextRun(rows, file.bytes, offset, width, runs, k, out[..], log);
      }
    }
    ok := true;
    AllDelivered(rows, file.bytes, offset, width, runs, out[..], log);
  }

  // Where the rows still to come begin.
  function NextBound(runs: seq<RunPlan>, k: nat): (bound: nat)
    requires k <= |runs|
  {
    if k < |runs| then runs[k].start
    else if k == 0 then 0
    else runs[k - 1].start + runs[k - 1].len
  }

  predicate RowsInside(rows: seq<nat>, offset: nat, width: nat, size: nat) {
    forall o :: 0 <= o < |rows| ==> RowStart(offset, width, rows[o] + 1) <= size
  }

  lemma RunEndsInRow(rows: seq<nat>, run: RunPlan, offset: nat, width: nat, size: nat)
    requires RunOf(rows, run)
    ensures RowsInside(rows, offset, width, size) ==> RowStart(offset, width, run.start + run.len) <= size
  {
    hide RowStart;
    var o := run.outputs[run.len - 1];
    assert rows[o] == run.start + (run.len - 1);
  }

  lemma RunInPlan(rows: seq<nat>, runs: seq<RunPlan>, k: nat)
    requires IsPlan(rows, runs) && k < |runs|
    ensures RunOf(rows, runs[k])
  {
  }

  lemma AllDelivered(rows: seq<nat>, disk: seq<byte>, offset: nat, width: nat, runs: seq<RunPlan>,
                     out: seq<seq<byte>>, log: seq<nat>)
    requires IsPlan(rows, runs)
    requires Delivered(rows, disk, offset, width, NextBound(runs, |runs|), out, log)
    ensures Distinct(log) && (forall o: nat :: o in log <==> o < |rows|)
    ensures |out| == |rows| && forall o :: 0 <= o < |rows| ==> out[o] == RowBytes(disk, offset, width, rows[o])
  {
    hide RowBytes;
    forall o | 0 <= o < |rows| ensures rows[o] < NextBound(runs, |runs|) {
      assert InSomeRun(runs, rows[o]);
    }
  }

  // A whole table is one run.
  method PlanTable(nRows: nat) returns (runs: seq<RunPlan>)
    ensures IsPlan(AllRows(nRows), runs)
  {
    if nRows == 0 {
      return [];
    }
    runs := [RunPlan(0, nRows, AllRows(nRows))];
    forall o | 0 <= o < nRows ensures InSomeRun(runs, AllRows(nRows)[o]) {
      assert runs[0].start <= o < runs[0].start + runs[0].len;
    }
  }

  function AllRows(nRows: nat): (rows: seq<nat>) {
    seq(nRows, i => i)
  }

  // The rows a request stands for: all of them when it names none.
  predicate GoodRequest(requested: Option<seq<int>>, nRows: nat) {
    requested.Some? ==>
      requested.value != [] && forall i :: 0 <= i < |requested.value| ==> InTable(requested.value[i], nRows)
  }

  function WantedRows(requested: Option<seq<int>>, nRows: nat): (rows: seq<nat>)
    requires GoodRequest(requested, nRows)
  {
    if requested.Some? then FirstMentions(requested.value, nRows) else AllRows(nRows)
  }

  // Output o holds the o-th row wanted, for any order, any chunk size.
  method ReadRows(file: Storage, requested: Option<seq<int>>, nRows: nat, offset: nat, width: nat, rowsPerChunk: nat)
    returns (ok: bool, out: array<seq<byte>>)
    requires rowsPerChunk > 0
    ensures ok ==> GoodRequest(requested, nRows) && out.Length == |WantedRows(requested, nRows)|
    ensures ok ==> forall o :: 0 <= o < out.Length ==>
      out[o] == RowBytes(file.bytes, offset, width, WantedRows(requested, nRows)[o])
    ensures ok && requested.Some? ==> AnswersRows(requested.value, nRows, WantedRows(requested, nRows))
    ensures ok && requested.None? ==>
      out.Length == nRows && forall o :: 0 <= o < nRows ==> out[o] == RowBytes(file.bytes, offset, width, o)
    ensures GoodRequest(requested, nRows) && !file.mayFail ==>
      RowsInside(WantedRows(requested, nRows), offset, width, |file.bytes|) ==> ok
  {
    hide IsPlan, RowBytes, FirstMentions, RowsInside, AnswersRows;
    out := new seq<byte>[0];
    var runs, n;
    if requested.Some? {
      var resolved := ResolveRows(requested.value, nRows);
      if resolved.None? {
        return false, out;
      }
      MentionsAreDistinct(requested.value, nRows);
      runs := PlanRuns(resolved.value);
      n := |resolved.value|;
    } else {
      runs := PlanTable(nRows);
      n := nRows;
    }
    out := new seq<byte>[n](_ => []);
    var log;
    ok, log := ProcessRuns(file, WantedRows(requested, nRows), runs, offset, width, rowsPerChunk, out);
  }
}
