// The strip walk over a slice: how many inner axes are read in one go, where
// each strip starts, and the odometer over the outer axes.
module StripLayout {
  import opened FitsBytes
  import opened SliceMath

  function Zeros(n: nat): (s: seq<nat>)
    ensures |s| == n && forall k :: 0 <= k < n ==> s[k] == 0
  {
    seq(n, _ => 0)
  }

  // From axis `outer` on the selection is one contiguous run of pixels.
  predicate StripFrom(shape: seq<nat>, slices: seq<AxisSlice>, outer: nat) {
    && |shape| == |slices| && outer <= |shape|
    && (outer < |shape| ==> slices[outer].step == 1)
    && forall k :: outer < k < |shape| ==> FullAxis(slices[k], shape[k])
  }

  function StripPixels(slices: seq<AxisSlice>, outer: nat): (n: nat)
    requires outer <= |slices|
    decreases |slices|
  {
    if outer == |slices| then 1
    else StripPixels(slices[..|slices| - 1], outer) * slices[|slices| - 1].count
  }

  lemma {:induction false} StripsCoverSelection(slices: seq<AxisSlice>, outer: nat)
    requires outer <= |slices|
    ensures PixelCount(slices) == PixelCount(slices[..outer]) * StripPixels(slices, outer)
    decreases |slices|
  {
    if outer == |slices| {
      assert slices[..outer] == slices;
    } else {
      var m := |slices| - 1;
      StripsCoverSelection(slices[..m], outer);
      assert slices[..m][..outer] == slices[..outer];
      var a, b, c := PixelCount(slices[..outer]), StripPixels(slices[..m], outer), slices[m].count;
      assert (a * b) * c == a * (b * c);
    }
  }

  lemma StripInside(slices: seq<AxisSlice>, outer: nat, t: nat, j: nat)
    requires outer <= |slices| && t < PixelCount(slices[..outer]) && j < StripPixels(slices, outer)
    ensures t * StripPixels(slices, outer) + j < PixelCount(slices)
  {
    StripsCoverSelection(slices, outer);
    MulMonotone(PixelCount(slices[..outer]), t, StripPixels(slices, outer));
  }

  // Strip t holds consecutive pixels of the image.
  lemma {:induction false} StripIsContiguous(shape: seq<nat>, slices: seq<AxisSlice>, outer: nat, t: nat, j: nat)
    requires StripFrom(shape, slices, outer)
    requires t < PixelCount(slices[..outer]) && j < StripPixels(slices, outer)
    ensures t * StripPixels(slices, outer) + j < PixelCount(slices)
    ensures t * StripPixels(slices, outer) < PixelCount(slices)
    ensures SourcePixel(shape, slices, t * StripPixels(slices, outer) + j)
         == SourcePixel(shape, slices, t * StripPixels(slices, outer)) + j
    decreases |shape|
  {
    hide *;
    StripShape(shape, slices, outer, t, j);
    StripInside(slices, outer, t, j);
    StripInside(slices, outer, t, 0);
    if outer < |shape| {
      var m := |shape| - 1;
      assert slices[..m][..outer] == slices[..outer];
      var n0 := t * StripPixels(slices, outer);
      LastAxis(shape, slices, n0 + j);
      LastAxis(shape, slices, n0);
      LastCount(slices, outer);
      StripQuotients(t, StripPixels(slices[..m], outer), slices[m].count, n0, j);
      if outer < m {
        LastAxisFull(shape, slices, outer);
        QuotientBelow(j, StripPixels(slices[..m], outer), slices[m].count);
        StripIsContiguous(shape[..m], slices[..m], outer, t, j / slices[m].count);
        AlongRow(SourcePixel(shape[..m], slices[..m], t * StripPixels(slices[..m], outer)), j, slices[m].count);
      } else {
        LastAxisAlone(shape, slices, outer, j);
      }
    }
  }

  lemma StripShape(shape: seq<nat>, slices: seq<AxisSlice>, outer: nat, t: nat, j: nat)
    requires StripFrom(shape, slices, outer)
    ensures |shape| == |slices| && outer <= |shape|
    ensures outer == |shape| ==> StripPixels(slices, outer) == 1
  {
  }

  lemma LastCount(slices: seq<AxisSlice>, outer: nat)
    requires outer < |slices|
    ensures StripPixels(slices, outer) == StripPixels(slices[..|slices| - 1], outer) * slices[|slices| - 1].count
  {
  }

  lemma LastAxisFull(shape: seq<nat>, slices: seq<AxisSlice>, outer: nat)
    requires StripFrom(shape, slices, outer) && outer < |shape| - 1
    ensures var m := |shape| - 1;
      StripFrom(shape[..m], slices[..m], outer) && slices[m].start == 0 && slices[m].step == 1
        && slices[m].count == shape[m]
  {
  }

  lemma LastAxisAlone(shape: seq<nat>, slices: seq<AxisSlice>, outer: nat, j: nat)
    requires StripFrom(shape, slices, outer) && outer == |shape| - 1 && j < StripPixels(slices, outer)
    ensures slices[outer].step == 1 && j / slices[outer].count == 0 && j % slices[outer].count == j
  {
    assert StripPixels(slices[..outer], outer) == 1;
    SmallQuotient(j, slices[outer].count);
  }

  lemma StripQuotients(t: nat, s: nat, c: nat, n: nat, j: nat)
    requires c > 0 && n == t * (s * c)
    ensures n / c == t * s && n % c == 0
    ensures (n + j) / c == t * s + j / c && (n + j) % c == j % c
  {
    DivideAdvance(t, s, c, 0);
    DivideAdvance(t, s, c, j);
  }

  lemma LastAxis(shape: seq<nat>, slices: seq<AxisSlice>, n: nat)
    requires |shape| == |slices| > 0 && n < PixelCount(slices)
    ensures slices[|shape| - 1].count > 0
    ensures n / slices[|shape| - 1].count < PixelCount(slices[..|shape| - 1])
    ensures SourcePixel(shape, slices, n)
         == SourcePixel(shape[..|shape| - 1], slices[..|shape| - 1], n / slices[|shape| - 1].count) * shape[|shape| - 1]
            + slices[|shape| - 1].start + (n % slices[|shape| - 1].count) * slices[|shape| - 1].step
  {
    CountPositive(slices, n);
  }

  lemma AlongRow(p: nat, j: nat, c: nat)
    requires c > 0
    ensures (p + j / c) * c + j % c == p * c + j
  {
    assert (p + j / c) * c == p * c + (j / c) * c;
  }

  lemma SmallQuotient(j: nat, c: nat)
    requires j < c
    ensures j / c == 0 && j % c == j
  {
    QuotientUnique(j, 0, c, j);
  }

  // ----- the layout loop -----

  // compute_read_strip_layout: the longest such run of inner axes.
  method ComputeReadStripLayout(shape: seq<nat>, slices: seq<AxisSlice>) returns (outer: nat, stripPixels: nat)
    requires |shape| == |slices|
    ensures StripFrom(shape, slices, outer)
    ensures stripPixels == StripPixels(slices, outer)
    ensures outer > 0 ==> !StripFrom(shape, slices, outer - 1)
  {
    stripPixels := 1;
    var axis := |shape|;
    while axis > 0
      invariant 0 <= axis <= |shape|
      invariant forall k :: axis <= k < |shape| ==> FullAxis(slices[k], shape[k])
      invariant stripPixels == StripPixels(slices, axis)
    {
      axis := axis - 1;
      if slices[axis].step != 1 {
        return axis + 1, stripPixels;
      }
      StripGrows(slices, axis);
      stripPixels := stripPixels * slices[axis].count;
      if slices[axis].start != 0 || slices[axis].count != shape[axis] {
        return axis, stripPixels;
      }
    }
    return 0, stripPixels;
  }

  lemma {:induction false} StripGrows(slices: seq<AxisSlice>, axis: nat)
    requires axis < |slices|
    ensures StripPixels(slices, axis) == StripPixels(slices, axis + 1) * slices[axis].count
    decreases |slices|
  {
    var m := |slices| - 1;
    if axis < m {
      StripGrows(slices[..m], axis);
      var a, b, c := StripPixels(slices[..m], axis + 1), slices[axis].count, slices[m].count;
      assert (a * b) * c == (a * c) * b;
    } else {
      assert StripPixels(slices[..m], axis) == 1;
    }
  }

  // How far apart two neighbours along an axis lie, in pixels.
  predicate IsStrides(strides: seq<nat>, shape: seq<nat>) {
    |strides| == |shape| && forall k :: 0 <= k < |shape| ==> strides[k] == Product(shape[k + 1..])
  }

  // row_major_strides
  method RowMajorStrides(shape: seq<nat>) returns (out: seq<nat>)
    ensures |out| == |shape|
    ensures IsStrides(out, shape)
  {
    var n := |shape|;
    if n == 0 {
      return [];
    }
    var strides := new nat[n](_ => 1);
    assert shape[n..] == [];
    for k := n - 1 downto 0
      invariant forall i :: k <= i < n ==> strides[i] == Product(shape[i + 1..])
    {
      assert shape[k + 1..][1..] == shape[k + 2..];
      strides[k] := strides[k + 1] * shape[k + 1];
    }
    out := strides[..];
  }

  // ----- the odometer -----

  method AdvanceOdometer(idx: array<nat>, slices: seq<AxisSlice>)
    requires idx.Length == |slices| && InCounts(slices, idx[..])
    modifies idx
    ensures InCounts(slices, idx[..])
    ensures old(Rank(slices, idx[..])) + 1 < PixelCount(slices) ==>
      Rank(slices, idx[..]) == old(Rank(slices, idx[..])) + 1
  {
    ghost var before := idx[..];
    var axis := |slices|;
    while axis > 0
      invariant 0 <= axis <= |slices|
      invariant forall k :: 0 <= k < axis ==> idx[k] == before[k]
      invariant forall k :: axis <= k < |slices| ==> idx[k] == 0 && before[k] + 1 == slices[k].count
    {
      axis := axis - 1;
      idx[axis] := idx[axis] + 1;
      if idx[axis] < slices[axis].count {
        RankCarry(slices, before, idx[..], axis);
        return;
      }
      idx[axis] := 0;
    }
    RankOfLast(slices, before);
  }

  lemma {:induction false} RankCarry(slices: seq<AxisSlice>, before: seq<nat>, after: seq<nat>, axis: nat)
    requires |before| == |after| == |slices| && axis < |slices|
    requires forall k :: 0 <= k < axis ==> after[k] == before[k]
    requires after[axis] == before[axis] + 1
    requires forall k :: axis < k < |slices| ==> after[k] == 0 && before[k] + 1 == slices[k].count
    ensures Rank(slices, after) == Rank(slices, before) + 1
    decreases |slices|
  {
    var m := |slices| - 1;
    if axis == m {
      assert after[..m] == before[..m];
    } else {
      RankCarry(slices[..m], before[..m], after[..m], axis);
      var c, r := slices[m].count, Rank(slices[..m], before[..m]);
      assert (r + 1) * c == r * c + c;
    }
  }

  lemma {:induction false} RankOfLast(slices: seq<AxisSlice>, idx: seq<nat>)
    requires |idx| == |slices|
    requires forall k :: 0 <= k < |slices| ==> idx[k] + 1 == slices[k].count
    ensures Rank(slices, idx) + 1 == PixelCount(slices)
  {
    if idx != [] {
      var m := |idx| - 1;
      RankOfLast(slices[..m], idx[..m]);
      var c, r := slices[m].count, Rank(slices[..m], idx[..m]);
      assert (r + 1) * c == r * c + c;
    }
  }

  // ----- where a strip starts -----

  lemma {:induction false} RankWithZeros(slices: seq<AxisSlice>, idx: seq<nat>, outer: nat)
    requires outer <= |slices| && |idx| == outer
    ensures Rank(slices, idx + Zeros(|slices| - outer)) == Rank(slices[..outer], idx) * StripPixels(slices, outer)
    decreases |slices|
  {
    var full := idx + Zeros(|slices| - outer);
    if outer == |slices| {
      assert full == idx && slices[..outer] == slices;
    } else {
      var m := |slices| - 1;
      assert slices[..m][..outer] == slices[..outer];
      assert full[..m] == idx + Zeros(m - outer) && full[m] == 0;
      RankWithZeros(slices[..m], idx, outer);
      var r, s', c := Rank(slices[..outer], idx), StripPixels(slices[..m], outer), slices[m].count;
      assert r * s' * c == r * (s' * c);
    }
  }

  lemma {:induction false} ZerosInCounts(slices: seq<AxisSlice>, idx: seq<nat>, outer: nat)
    requires outer <= |slices| && |idx| == outer && InCounts(slices[..outer], idx)
    requires StripPixels(slices, outer) > 0
    ensures InCounts(slices, idx + Zeros(|slices| - outer))
  {
    forall k | outer <= k < |slices|
      ensures slices[k].count > 0
    {
      PositiveCounts(slices, outer, k);
    }
  }

  lemma {:induction false} PositiveCounts(slices: seq<AxisSlice>, outer: nat, k: nat)
    requires outer <= k < |slices| && StripPixels(slices, outer) > 0
    ensures slices[k].count > 0
    decreases |slices|
  {
    var m := |slices| - 1;
    if k < m {
      assert StripPixels(slices[..m], outer) > 0;
      PositiveCounts(slices[..m], outer, k);
    }
  }

  // The running sum of the read loop is the first pixel of strip t.
  lemma StripStart(shape: seq<nat>, slices: seq<AxisSlice>, outer: nat, idx: seq<nat>, t: nat)
    requires |shape| == |slices| && outer <= |shape| && StripPixels(slices, outer) > 0
    requires |idx| == outer && InCounts(slices[..outer], idx) && t == Rank(slices[..outer], idx)
    ensures t * StripPixels(slices, outer) < PixelCount(slices)
    ensures SourcePixel(shape, slices, t * StripPixels(slices, outer))
         == StrideSum(shape, slices, idx + Zeros(|shape| - outer))
  {
    RankWithZeros(slices, idx, outer);
    ZerosInCounts(slices, idx, outer);
    hide *;
    PixelAtIndex(shape, slices, idx + Zeros(|shape| - outer));
  }

  // inner_start_pixels
  method InnerStart(shape: seq<nat>, slices: seq<AxisSlice>, strides: seq<nat>, outer: nat) returns (sum: nat)
    requires |shape| == |slices| && IsStrides(strides, shape) && outer <= |shape|
    ensures sum == StrideSum(shape[outer..], slices[outer..], Zeros(|shape| - outer))
  {
    sum := 0;
    ghost var zeros := Zeros(|shape|);
    assert shape[|shape|..] == [];
    for k := |shape| downto outer
      invariant sum == StrideSum(shape[k..], slices[k..], zeros[k..])
    {
      StrideSumStep(shape, slices, zeros, k);
      sum := sum + slices[k].start * strides[k];
    }
    assert zeros[outer..] == Zeros(|shape| - outer);
  }

  lemma StrideSumStep(shape: seq<nat>, slices: seq<AxisSlice>, idx: seq<nat>, k: nat)
    requires |shape| == |slices| == |idx| && k < |shape|
    ensures StrideSum(shape[k..], slices[k..], idx[k..])
         == AxisOffset(slices[k], idx[k], Product(shape[k + 1..])) + StrideSum(shape[k + 1..], slices[k + 1..],
             idx[k + 1..])
  {
    assert shape[k..][1..] == shape[k + 1..] && slices[k..][1..] == slices[k + 1..] && idx[k..][1..] == idx[k + 1..];
  }

  // src_pixel, for the outer indices the odometer shows.
  method StripSource(shape: seq<nat>, slices: seq<AxisSlice>, strides: seq<nat>, idx: seq<nat>, inner: nat)
    returns (pixel: nat)
    requires |idx| <= |shape| == |slices| && IsStrides(strides, shape)
    requires inner == StrideSum(shape[|idx|..], slices[|idx|..], Zeros(|shape| - |idx|))
    ensures pixel == StrideSum(shape, slices, idx + Zeros(|shape| - |idx|))
  {
    hide StrideSum, Product, AxisOffset;
    pixel := inner;
    ghost var full := idx + Zeros(|shape| - |idx|);
    assert shape[0..] == shape && slices[0..] == slices && full[0..] == full;
    for k := 0 to |idx|
      invariant pixel - inner + StrideSum(shape[k..], slices[k..], full[k..]) == StrideSum(shape, slices, full)
    {
      StrideSumStep(shape, slices, full, k);
      pixel := pixel + AxisOffset(slices[k], idx[k], strides[k]);
    }
    assert full[|idx|..] == Zeros(|shape| - |idx|);
  }
}
