// byteswap_in_place: big-endian FITS numbers to native order and back.
module Byteswap {
  import opened FitsBytes
  import opened SliceMath

  function Reversed(s: seq<byte>): (r: seq<byte>)
    ensures |r| == |s|
    ensures forall i :: 0 <= i < |s| ==> r[i] == s[|s| - 1 - i]
  {
    seq(|s|, i requires 0 <= i < |s| => s[|s| - 1 - i])
  }

  // Every whole unit reversed; a rest shorter than a unit stays as it is.
  function Swapped(s: seq<byte>, unit: nat): (r: seq<byte>)
    ensures |r| == |s|
  {
    if unit <= 1 || |s| < unit then s else Reversed(s[..unit]) + Swapped(s[unit..], unit)
  }

  // A 16-byte item is a complex number: each 8-byte part is swapped alone.
  function SwapUnit(itemsize: nat): (n: nat) {
    if itemsize == 16 then 8 else itemsize
  }

  lemma {:induction false} SwapInvolution(s: seq<byte>, unit: nat)
    ensures Swapped(Swapped(s, unit), unit) == s
  {
    if unit > 1 && |s| >= unit {
      var r := Swapped(s, unit);
      assert r[..unit] == Reversed(s[..unit]);
      assert r[unit..] == Swapped(s[unit..], unit);
      SwapInvolution(s[unit..], unit);
      assert Reversed(Reversed(s[..unit])) == s[..unit];
    }
  }

  // Byte k of item j.
  function ByteOf(j: nat, item: nat, k: nat): (p: nat) {
    j * item + k
  }

  // Every whole item has its bytes in the opposite order; a rest shorter than
  // an item is as it was.
  ghost predicate ItemsReversed(before: seq<byte>, after: seq<byte>, item: nat) {
    && |after| == |before|
    && (forall j: nat, k: nat :: k < item && ByteOf(j, item, k) + (item - k) <= |before| ==>
          after[ByteOf(j, item, k)] == before[ByteOf(j, item, item - 1 - k)])
    && (forall p :: 0 <= p < |before| && item > 0 && |before| - |before| % item <= p ==> after[p] == before[p])
  }

  lemma {:induction false} SwappedAt(s: seq<byte>, item: nat, j: nat, k: nat)
    requires k < item && ByteOf(j, item, k) + (item - k) <= |s|
    ensures Swapped(s, item)[ByteOf(j, item, k)] == s[ByteOf(j, item, item - 1 - k)]
  {
    if item > 1 && j > 0 {
      NextItem(j, item, k);
      NextItem(j, item, item - 1 - k);
      SwappedAt(s[item..], item, j - 1, k);
    }
  }

  lemma NextItem(j: nat, item: nat, k: nat)
    requires j > 0
    ensures ByteOf(j, item, k) == ByteOf(j - 1, item, k) + item
  {
  }

  lemma {:induction false} SwappedRest(s: seq<byte>, item: nat, p: nat)
    requires item > 0 && |s| - |s| % item <= p < |s|
    ensures Swapped(s, item)[p] == s[p]
  {
    if item > 1 && |s| >= item {
      RestOfLess(|s|, item);
      SwappedRest(s[item..], item, p - item);
    }
  }

  lemma RestOfLess(n: nat, item: nat)
    requires 0 < item <= n
    ensures (n - item) % item == n % item && n - n % item >= item
  {
    var q := n / item;
    assert n == q * item + n % item;
    assert n - item == (q - 1) * item + n % item;
    QuotientUnique(n - item, q - 1, item, n % item);
  }

  lemma SwappedReverses(s: seq<byte>, item: nat)
    requires item > 0
    ensures ItemsReversed(s, Swapped(s, item), item)
  {
    hide Swapped;
    forall j: nat, k: nat | k < item && ByteOf(j, item, k) + (item - k) <= |s|
      ensures Swapped(s, item)[ByteOf(j, item, k)] == s[ByteOf(j, item, item - 1 - k)]
    {
      SwappedAt(s, item, j, k);
    }
    forall p | 0 <= p < |s| && |s| - |s| % item <= p
      ensures Swapped(s, item)[p] == s[p]
    {
      SwappedRest(s, item, p);
    }
  }

  // Swapping piece by piece, in pieces of whole units, is swapping all.
  lemma {:induction false} SwapPieces(a: seq<byte>, b: seq<byte>, unit: nat, units: nat)
    requires |a| == units * unit
    ensures Swapped(a + b, unit) == Swapped(a, unit) + Swapped(b, unit)
  {
    if unit > 1 && units > 0 {
      assert |a| >= unit by { assert (units - 1) * unit >= 0; }
      var s := a + b;
      assert s[..unit] == a[..unit] && s[unit..] == a[unit..] + b;
      SwapPieces(a[unit..], b, unit, units - 1);
      SeqAssoc(Reversed(a[..unit]), Swapped(a[unit..], unit), Swapped(b, unit));
    } else if unit > 1 {
      assert a + b == b;
    }
  }

  // `swap_bytes` on one unit.
  method ReverseUnit(buf: array<byte>, pos: nat, unit: nat)
    requires pos + unit <= buf.Length
    modifies buf
    ensures buf[..] == old(buf[..pos]) + Reversed(old(buf[pos..pos + unit])) + old(buf[pos + unit..])
  {
    forall k | 0 <= k < unit {
      buf[pos + k] := buf[pos + unit - 1 - k];
    }
  }

  lemma SwapNextUnit(done: seq<byte>, s: seq<byte>, pos: nat, unit: nat)
    requires unit > 1 && pos + unit <= |s|
    ensures done + Swapped(s[pos..], unit) == (done + Reversed(s[pos..pos + unit])) + Swapped(s[pos + unit..], unit)
  {
    assert s[pos..][..unit] == s[pos..pos + unit] && s[pos..][unit..] == s[pos + unit..];
    SeqAssoc(done, Reversed(s[pos..pos + unit]), Swapped(s[pos + unit..], unit));
  }

  method ByteswapInPlace(buf: array<byte>, itemsize: nat)
    modifies buf
    ensures buf[..] == Swapped(old(buf[..]), SwapUnit(itemsize))
    ensures itemsize <= 1 ==> buf[..] == old(buf[..])
    ensures itemsize in {2, 4, 8} ==> ItemsReversed(old(buf[..]), buf[..], itemsize)
    ensures itemsize == 16 ==> ItemsReversed(old(buf[..]), buf[..], 8)
  {
    var unit := SwapUnit(itemsize);
    if unit <= 1 {
      return;
    }
    SwapUnits(buf, unit);
    SwappedReverses(old(buf[..]), unit);
  }

  method SwapUnits(buf: array<byte>, unit: nat)
    requires unit > 1
    modifies buf
    ensures buf[..] == Swapped(old(buf[..]), unit)
  {
    var pos := 0;
    ghost var all := buf[..];
    assert buf[..0] + Swapped(all[0..], unit) == Swapped(all, unit) by { assert all[0..] == all; }
    while pos + unit <= buf.Length
      invariant pos <= buf.Length
      invariant buf[pos..] == all[pos..]
      invariant buf[..pos] + Swapped(all[pos..], unit) == Swapped(all, unit)
    {
      hide Swapped;
      ghost var done := buf[..pos];
      SwapNextUnit(done, all, pos, unit);
      assert buf[pos..pos + unit] == buf[pos..][..unit] && all[pos..pos + unit] == all[pos..][..unit];
      assert buf[pos + unit..] == buf[pos..][unit..] && all[pos + unit..] == all[pos..][unit..];
      ReverseUnit(buf, pos, unit);
      pos := pos + unit;
      assert buf[..pos] == buf[..][..pos] && buf[pos..] == buf[..][pos..];
    }
    assert buf[..] == buf[..pos] + buf[pos..];
  }
}
