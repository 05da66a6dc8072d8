// Row-major index arithmetic: the position of the n-th pixel of a strided
// slice, and the same position as a sum of strides.
module SliceMath {
  import opened FitsBytes

  // One axis of a slice: `count` indices from `start`, `step` apart.
  datatype AxisSlice = AxisSlice(start: nat, step: nat, count: nat)

  predicate ValidAxis(s: AxisSlice, dim: nat) {
    s.step >= 1 && (s.count > 0 ==> s.start + (s.count - 1) * s.step < dim)
  }

  predicate ValidSlices(shape: seq<nat>, slices: seq<AxisSlice>) {
    |shape| == |slices| && forall k :: 0 <= k < |shape| ==> ValidAxis(slices[k], shape[k])
  }

  predicate FullAxis(s: AxisSlice, dim: nat) {
    s.start == 0 && s.step == 1 && s.count == dim
  }

  function Product(dims: seq<nat>): (n: nat) {
    if dims == [] then 1 else dims[0] * Product(dims[1..])
  }

  // How many pixels the slices select.
  function PixelCount(slices: seq<AxisSlice>): (n: nat) {
    if slices == [] then 1 else PixelCount(slices[..|slices| - 1]) * slices[|slices| - 1].count
  }

  // A multi-index into the selection, and its place in row-major order.
  predicate InCounts(slices: seq<AxisSlice>, idx: seq<nat>) {
    |idx| == |slices| && forall k :: 0 <= k < |idx| ==> idx[k] < slices[k].count
  }

  function Rank(slices: seq<AxisSlice>, idx: seq<nat>): (n: nat)
    requires |idx| == |slices|
  {
    if idx == [] then 0
    else var m := |idx| - 1; Rank(slices[..m], idx[..m]) * slices[m].count + idx[m]
  }

  // The pixel of the image that is n-th in the selection.
  function SourcePixel(shape: seq<nat>, slices: seq<AxisSlice>, n: nat): (r: nat)
    requires |shape| == |slices| && n < PixelCount(slices)
    decreases |shape|
  {
    if shape == [] then 0
    else
      var m := |shape| - 1;
      CountPositive(slices, n);
      SourcePixel(shape[..m], slices[..m], n / slices[m].count) * shape[m]
      + slices[m].start + (n % slices[m].count) * slices[m].step
  }

  lemma CountPositive(slices: seq<AxisSlice>, n: nat)
    requires slices != [] && n < PixelCount(slices)
    ensures slices[|slices| - 1].count > 0
    ensures n / slices[|slices| - 1].count < PixelCount(slices[..|slices| - 1])
  {
    var c, p := slices[|slices| - 1].count, PixelCount(slices[..|slices| - 1]);
    if c > 0 {
      QuotientBelow(n, p, c);
    }
  }

  // ----- division by a variable -----

  lemma MulMonotone(a: int, b: int, m: nat)
    ensures a >= b ==> a * m >= b * m
    ensures a > b ==> a * m >= b * m + m
  {
    if a >= b { assert (a - b) * m >= 0; }
    if a > b { assert (a - b - 1) * m >= 0; }
  }

  lemma QuotientUnique(n: int, q: int, m: nat, r: int)
    requires n == q * m + r && 0 <= r < m
    ensures n / m == q && n % m == r
  {
    assert n == (n / m) * m + n % m;
    MulMonotone(n / m, q, m);
    MulMonotone(q, n / m, m);
  }

  lemma QuotientBelow(n: nat, p: nat, c: nat)
    requires c > 0 && n < p * c
    ensures n / c < p
  {
    MulMonotone(n / c, p, c);
  }

  lemma DivideAdvance(t: nat, p: nat, c: nat, j: nat)
    requires c > 0
    ensures (t * (p * c) + j) / c == t * p + j / c
    ensures (t * (p * c) + j) % c == j % c
  {
    assert t * (p * c) == (t * p) * c;
    assert j == (j / c) * c + j % c;
    assert (t * p) * c + (j / c) * c == (t * p + j / c) * c;
    QuotientUnique(t * (p * c) + j, t * p + j / c, c, j % c);
  }

  // ----- the selection is in the image, in increasing order -----

  lemma {:induction false} SourcePixelInside(shape: seq<nat>, slices: seq<AxisSlice>, n: nat)
    requires ValidSlices(shape, slices) && n < PixelCount(slices)
    ensures SourcePixel(shape, slices, n) < Volume(shape)
  {
    if shape != [] {
      var m := |shape| - 1;
      var c := slices[m].count;
      CountPositive(slices, n);
      SourcePixelInside(shape[..m], slices[..m], n / c);
      AxisInside(slices[m], shape[m], n % c);
      MulMonotone(Volume(shape[..m]), SourcePixel(shape[..m], slices[..m], n / c), shape[m]);
    }
  }

  // The number of pixels of an image, last axis last.
  function Volume(shape: seq<nat>): (n: nat) {
    if shape == [] then 1 else Volume(shape[..|shape| - 1]) * shape[|shape| - 1]
  }

  lemma AxisInside(s: AxisSlice, dim: nat, i: nat)
    requires ValidAxis(s, dim) && i < s.count
    ensures s.start + i * s.step < dim
  {
    MulMonotone(s.count - 1, i, s.step);
  }

  lemma {:induction false} SourcePixelIncreases(shape: seq<nat>, slices: seq<AxisSlice>, n: nat, n': nat)
    requires ValidSlices(shape, slices) && n < n' < PixelCount(slices)
    ensures SourcePixel(shape, slices, n) < SourcePixel(shape, slices, n')
  {
    if shape != [] {
      var m := |shape| - 1;
      var c := slices[m].count;
      CountPositive(slices, n);
      CountPositive(slices, n');
      QuotientOrder(n, n', c);
      AxisInside(slices[m], shape[m], n % c);
      if n / c < n' / c {
        SourcePixelIncreases(shape[..m], slices[..m], n / c, n' / c);
        HigherRow(SourcePixel(shape[..m], slices[..m], n / c), SourcePixel(shape[..m], slices[..m], n' / c), shape[m],
                  slices[m].start + (n % c) * slices[m].step, slices[m].start + (n' % c) * slices[m].step);
      } else {
        MulMonotone(n' % c, n % c, slices[m].step);
      }
    }
  }

  lemma QuotientOrder(n: nat, n': nat, c: nat)
    requires c > 0 && n < n'
    ensures n / c < n' / c || (n / c == n' / c && n % c < n' % c)
  {
    assert n == (n / c) * c + n % c && n' == (n' / c) * c + n' % c;
    MulMonotone(n / c, n' / c, c);
  }

  lemma HigherRow(row: nat, row': nat, width: nat, x: nat, x': nat)
    requires row < row' && x < width
    ensures row * width + x < row' * width + x'
  {
    MulMonotone(row', row, width);
  }

  // ----- the same position as a sum over the axes -----

  // The sum the read loop computes: every axis index times its stride.
  function StrideSum(shape: seq<nat>, slices: seq<AxisSlice>, idx: seq<nat>): (n: nat)
    requires |shape| == |slices| == |idx|
  {
    if shape == [] then 0
    else AxisOffset(slices[0], idx[0], Product(shape[1..])) + StrideSum(shape[1..], slices[1..], idx[1..])
  }

  function AxisOffset(s: AxisSlice, i: nat, stride: nat): (n: nat) {
    (s.start + i * s.step) * stride
  }

  // Of an image of rows of w pixels: the last axis runs fastest.
  lemma TwoAxes(h: nat, w: nat, rows: AxisSlice, columns: AxisSlice, n: nat)
    requires n < PixelCount([rows, columns])
    ensures columns.count > 0 && n / columns.count < rows.count
    ensures SourcePixel([h, w], [rows, columns], n)
         == (rows.start + (n / columns.count) * rows.step) * w + columns.start + (n % columns.count) * columns.step
  {
    var s := [rows, columns];
    CountPositive(s, n);
    assert s[..1] == [rows] && [rows][..0] == [] && [h, w][..1] == [h] && [h][..0] == [];
    assert PixelCount([]) == 1;
    assert PixelCount([rows]) == rows.count;
    var r := n / columns.count;
    CountPositive([rows], r);
    assert r % rows.count == r && r / rows.count == 0;
    assert SourcePixel([], [], 0) == 0;
    assert SourcePixel([h], [rows], r) == rows.start + r * rows.step;
  }

  lemma {:induction false} RankInside(slices: seq<AxisSlice>, idx: seq<nat>)
    requires InCounts(slices, idx)
    ensures Rank(slices, idx) < PixelCount(slices)
  {
    if idx != [] {
      var m := |idx| - 1;
      RankInside(slices[..m], idx[..m]);
      MulMonotone(PixelCount(slices[..m]), Rank(slices[..m], idx[..m]), slices[m].count);
    }
  }

  lemma {:induction false} ProductSnoc(dims: seq<nat>, d: nat)
    ensures Product(dims + [d]) == Product(dims) * d
  {
    if dims == [] {
      assert ([] + [d])[1..] == [];
      assert Product([]) == 1;
    } else {
      ProductSnoc(dims[1..], d);
      assert (dims + [d])[1..] == dims[1..] + [d];
      assert dims[0] * (Product(dims[1..]) * d) == (dims[0] * Product(dims[1..])) * d;
    }
  }

  lemma {:induction false} StrideSumSnoc(shape: seq<nat>, slices: seq<AxisSlice>, idx: seq<nat>, d: nat, s: AxisSlice,
                                         i: nat)
    requires |shape| == |slices| == |idx|
    ensures StrideSum(shape + [d], slices + [s], idx + [i]) == StrideSum(shape, slices, idx) * d + s.start + i * s.step
  {
    if shape == [] {
      assert ([] + [d])[1..] == [] && ([] + [s])[1..] == [] && ([] + [i])[1..] == [];
      assert Product([]) == 1;
    } else {
      StrideSumSnoc(shape[1..], slices[1..], idx[1..], d, s, i);
      ProductSnoc(shape[1..], d);
      assert (shape + [d])[1..] == shape[1..] + [d] && (slices + [s])[1..] == slices[1..] + [s]
        && (idx + [i])[1..] == idx[1..] + [i];
      var a, b := slices[0].start + idx[0] * slices[0].step, StrideSum(shape[1..], slices[1..], idx[1..]);
      Distribute(a, Product(shape[1..]), b, d);
    }
  }

  lemma Distribute(a: nat, p: nat, b: nat, d: nat)
    ensures (a * p + b) * d == a * (p * d) + b * d
  {
    assert (a * p) * d == a * (p * d);
  }

  // The pixel at multi-index idx of the selection is the file pixel at the sum
  // over the axes of (start + idx * step) * stride.
  lemma {:induction false} PixelAtIndex(shape: seq<nat>, slices: seq<AxisSlice>, idx: seq<nat>)
    requires |shape| == |slices| && InCounts(slices, idx)
    ensures Rank(slices, idx) < PixelCount(slices)
    ensures SourcePixel(shape, slices, Rank(slices, idx)) == StrideSum(shape, slices, idx)
  {
    RankInside(slices, idx);
    if idx != [] {
      var m := |idx| - 1;
      PixelAtIndex(shape[..m], slices[..m], idx[..m]);
      StrideSumSnoc(shape[..m], slices[..m], idx[..m], shape[m], slices[m], idx[m]);
      assert shape[..m] + [shape[m]] == shape && slices[..m] + [slices[m]] == slices && idx[..m] + [idx[m]] == idx;
      QuotientUnique(Rank(slices, idx), Rank(slices[..m], idx[..m]), slices[m].count, idx[m]);
    }
  }
}
