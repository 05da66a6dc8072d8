// Bytes, blocks and cards: the units every other module counts in.
module FitsBytes {
  const BLOCK_SIZE: nat := 2880
  const CARD_SIZE: nat := 80
  const CARDS_PER_BLOCK: nat := 36

  type byte = b: int | 0 <= b < 256

  datatype Option<T> = None | Some(value: T)

  // The number of `unit`-sized pieces needed to hold n.
  function DivCeil(n: nat, unit: nat): (q: nat)
    requires unit > 0
    ensures q * unit >= n
    ensures q > 0 ==> (q - 1) * unit < n
  {
    (n + unit - 1) / unit
  }

  function RoundUpToBlock(n: nat): (r: nat) {
    DivCeil(n, BLOCK_SIZE) * BLOCK_SIZE
  }

  function Repeat<T>(x: T, n: nat): (s: seq<T>)
    ensures |s| == n
    ensures forall i :: 0 <= i < n ==> s[i] == x
  {
    seq(n, _ => x)
  }

  function Min(a: int, b: int): (v: int) {
    if a <= b then a else b
  }

  function Max(a: int, b: int): (v: int) {
    if a <= b then b else a
  }

  lemma SeqAssoc<T>(a: seq<T>, b: seq<T>, c: seq<T>)
    ensures (a + b) + c == a + (b + c)
  {
  }

  lemma SliceOfSlice<T>(s: seq<T>, lo: nat, hi: nat, a: nat, b: nat)
    requires lo <= hi <= |s| && a <= b <= hi - lo
    ensures s[lo..hi][a..b] == s[lo + a..lo + b]
  {
    var x, y := s[lo..hi][a..b], s[lo + a..lo + b];
    assert forall k :: 0 <= k < |x| ==> x[k] == y[k];
  }
}
