// The 32-bit ones' complement checksum of the FITS Standard 4.0,
// section 4.4.2.7 and Appendix J, as the library accumulates it.
module Checksum {
  import opened FitsBytes

  const WRAP: nat := 0x1_0000_0000
  const ALL_ONES: nat := 0xFFFF_FFFF

  type u32 = n: int | 0 <= n < 0x1_0000_0000

  // ----- what is being computed -----

  // The bytes are read as big-endian 32-bit words, the last one padded on the
  // right with zeros.  Byte i of the data is worth Upper(i, b) in the upper
  // half-word and Lower(i, b) in the lower half-word.
  function Upper(i: nat, b: byte): (n: nat) {
    if i % 4 == 0 then 256 * (b as int) else if i % 4 == 1 then b else 0
  }

  function Lower(i: nat, b: byte): (n: nat) {
    if i % 4 == 2 then 256 * (b as int) else if i % 4 == 3 then b else 0
  }

  // u16::from_be_bytes
  function Half(high: byte, low: byte): (h: nat)
    ensures h < 65536
  {
    256 * (high as int) + low as int
  }

  function UpperSum(s: seq<byte>): (n: nat) {
    if s == [] then 0 else UpperSum(s[..|s| - 1]) + Upper(|s| - 1, s[|s| - 1])
  }

  function LowerSum(s: seq<byte>): (n: nat) {
    if s == [] then 0 else LowerSum(s[..|s| - 1]) + Lower(|s| - 1, s[|s| - 1])
  }

  // The exact, unbounded sum of the words of s.
  function WordSum(s: seq<byte>): (n: nat) {
    65536 * UpperSum(s) + LowerSum(s)
  }

  // The ones' complement reading of an exact sum: 2^32 - 1 counts as nothing,
  // except that only 0 itself is read as 0.
  function OnesSum(n: nat): (r: u32) {
    if n <= ALL_ONES then n else OnesSum(n - ALL_ONES)
  }

  // OnesSum(n) is congruent to n modulo 2^32 - 1 and is 0 only for 0 ...
  lemma {:induction false} OnesSumDecomposes(n: nat) returns (q: nat)
    ensures n == OnesSum(n) + q * ALL_ONES
    ensures OnesSum(n) == 0 <==> n == 0
  {
    if n <= ALL_ONES {
      q := 0;
    } else {
      q := OnesSumDecomposes(n - ALL_ONES);
      q := q + 1;
    }
  }

  // ... and is the only such value in 0 .. 2^32 - 1.
  lemma OnesSumUnique(n: nat, v: u32, q: int)
    requires n == v + q * ALL_ONES
    requires v == 0 <==> n == 0
    ensures v == OnesSum(n)
  {
    var q' := OnesSumDecomposes(n);
  }

  // Accumulating twice is accumulating the exact sum once.
  lemma OnesSumAdds(a: nat, b: nat)
    ensures OnesSum(OnesSum(a) + b) == OnesSum(a + b)
  {
    var qa := OnesSumDecomposes(a);
    var qs := OnesSumDecomposes(OnesSum(a) + b);
    var v := OnesSum(OnesSum(a) + b);
    assert a + b == v + (qa + qs) * ALL_ONES;
    OnesSumUnique(a + b, v, qa + qs);
  }

  // ----- the accumulator -----

  // What the u32 halves hold: they wrap at 2^32 and carries are only folded
  // at the end.
  function WrappedUpper(seed: u32, s: seq<byte>): (r: u32) {
    (seed / 65536 + UpperSum(s)) % WRAP
  }

  function WrappedLower(seed: u32, s: seq<byte>): (r: u32) {
    (seed % 65536 + LowerSum(s)) % WRAP
  }

  function WrappedChecksum(seed: u32, s: seq<byte>): (r: u32) {
    OnesSum(65536 * WrappedUpper(seed, s) + WrappedLower(seed, s))
  }

  lemma NextByte(s: seq<byte>, i: nat)
    requires i < |s|
    ensures UpperSum(s[..i + 1]) == UpperSum(s[..i]) + Upper(i, s[i])
    ensures LowerSum(s[..i + 1]) == LowerSum(s[..i]) + Lower(i, s[i])
  {
    assert s[..i + 1][..i] == s[..i];
  }

  lemma WordPlaces(n: nat, b0: byte, b1: byte, b2: byte, b3: byte)
    requires n % 4 == 0
    ensures Upper(n, b0) + Upper(n + 1, b1) == Half(b0, b1)
    ensures Upper(n + 2, b2) == 0 && Upper(n + 3, b3) == 0
    ensures Lower(n, b0) == 0 && Lower(n + 1, b1) == 0
    ensures Lower(n + 2, b2) + Lower(n + 3, b3) == Half(b2, b3)
  {
  }

  lemma PlacesRepeat(n: nat, i: nat, b: byte)
    requires n % 4 == 0
    ensures Upper(n + i, b) == Upper(i, b) && Lower(n + i, b) == Lower(i, b)
  {
    assert (n + i) % 4 == i % 4;
  }

  lemma NextWord(s: seq<byte>, n: nat)
    requires n % 4 == 0 && n + 4 <= |s|
    ensures UpperSum(s[..n + 4]) == UpperSum(s[..n]) + Half(s[n], s[n + 1])
    ensures LowerSum(s[..n + 4]) == LowerSum(s[..n]) + Half(s[n + 2], s[n + 3])
  {
    hide Upper, Lower, UpperSum, LowerSum;
    WordPlaces(n, s[n], s[n + 1], s[n + 2], s[n + 3]);
    NextByte(s, n);
    NextByte(s, n + 1);
    NextByte(s, n + 2);
    NextByte(s, n + 3);
  }

  // A partial last word counts as if it were padded with zeros.
  lemma LastPartialWord(s: seq<byte>, n: nat, pad: seq<byte>)
    requires n % 4 == 0 && n < |s| < n + 4
    requires pad == s[n..] + Repeat(0, 4 - (|s| - n))
    ensures UpperSum(s) == UpperSum(s[..n]) + Half(pad[0], pad[1])
    ensures LowerSum(s) == LowerSum(s[..n]) + Half(pad[2], pad[3])
  {
    ZeroBytes(s, 4 - (|s| - n));
    var t := s + Repeat(0, 4 - (|s| - n));
    NextWord(t, n);
    assert t[..n + 4] == t && t[..n] == s[..n];
    assert pad == t[n..];
  }

  lemma {:induction false} ZeroBytes(s: seq<byte>, k: nat)
    ensures UpperSum(s + Repeat(0, k)) == UpperSum(s)
    ensures LowerSum(s + Repeat(0, k)) == LowerSum(s)
  {
    hide *;
    if k == 0 {
      assert s + Repeat(0, k) == s;
    } else {
      ZeroBytes(s, k - 1);
      OneZeroByte(s + Repeat(0, k - 1));
      assert s + Repeat(0, k) == (s + Repeat(0, k - 1)) + [0];
    }
  }

  lemma OneZeroByte(s: seq<byte>)
    ensures UpperSum(s + [0]) == UpperSum(s) && LowerSum(s + [0]) == LowerSum(s)
  {
    var t := s + [0];
    assert t[..|t| - 1] == s;
  }

  // Wrapping after every addition is wrapping once at the end.
  lemma WrapAdds(x: nat, y: nat)
    ensures (x % WRAP + y) % WRAP == (x + y) % WRAP
  {
  }

  lemma WrappedNextWord(seed: u32, s: seq<byte>, n: nat)
    requires n % 4 == 0 && n + 4 <= |s|
    ensures WrappedUpper(seed, s[..n + 4]) == (WrappedUpper(seed, s[..n]) + Half(s[n], s[n + 1])) % WRAP
    ensures WrappedLower(seed, s[..n + 4]) == (WrappedLower(seed, s[..n]) + Half(s[n + 2], s[n + 3])) % WRAP
  {
    NextWord(s, n);
    WrapAdds(seed / 65536 + UpperSum(s[..n]), Half(s[n], s[n + 1]));
    WrapAdds(seed % 65536 + LowerSum(s[..n]), Half(s[n + 2], s[n + 3]));
  }

  lemma WrappedLastWord(seed: u32, s: seq<byte>, n: nat, pad: seq<byte>)
    requires n % 4 == 0 && n < |s| < n + 4
    requires pad == s[n..] + Repeat(0, 4 - (|s| - n))
    ensures WrappedUpper(seed, s) == (WrappedUpper(seed, s[..n]) + Half(pad[0], pad[1])) % WRAP
    ensures WrappedLower(seed, s) == (WrappedLower(seed, s[..n]) + Half(pad[2], pad[3])) % WRAP
  {
    LastPartialWord(s, n, pad);
    WrapAdds(seed / 65536 + UpperSum(s[..n]), Half(pad[0], pad[1]));
    WrapAdds(seed % 65536 + LowerSum(s[..n]), Half(pad[2], pad[3]));
  }

  method ComputeChecksum(seed: u32, bytes: seq<byte>) returns (sum: u32)
    ensures sum == WrappedChecksum(seed, bytes)
  {
    NoWords(seed);
    hide WrappedUpper, WrappedLower, Half, OnesSum;
    var hi: u32 := seed / 65536;
    var lo: u32 := seed % 65536;
    var n := 0;
    assert bytes[..n] == [];
    while n + 4 <= |bytes|
      invariant 0 <= n <= |bytes| && n % 4 == 0
      invariant hi == WrappedUpper(seed, bytes[..n])
      invariant lo == WrappedLower(seed, bytes[..n])
    {
      WrappedNextWord(seed, bytes, n);
      hi, lo := AddWord(hi, lo, bytes[n], bytes[n + 1], bytes[n + 2], bytes[n + 3]);
      n := n + 4;
    }
    if n < |bytes| {
      var pad := bytes[n..] + Repeat(0, 4 - (|bytes| - n));
      WrappedLastWord(seed, bytes, n, pad);
      hi, lo := AddWord(hi, lo, pad[0], pad[1], pad[2], pad[3]);
    } else {
      assert bytes[..n] == bytes;
    }
    sum := FoldCarries(hi, lo);
  }

  lemma NoWords(seed: u32)
    ensures WrappedUpper(seed, []) == seed / 65536 && WrappedLower(seed, []) == seed % 65536
  {
  }

  // `hi += upper; lo += lower` on u32, which wrap in a release build.
  method AddWord(hi: u32, lo: u32, b0: byte, b1: byte, b2: byte, b3: byte) returns (hi': u32, lo': u32)
    ensures hi' == (hi + Half(b0, b1)) % WRAP
    ensures lo' == (lo + Half(b2, b3)) % WRAP
  {
    hi' := (hi + Half(b0, b1)) % WRAP;
    lo' := (lo + Half(b2, b3)) % WRAP;
  }

  // The end-around carry: what overflows one half is added to the other.
  method FoldCarries(hi0: u32, lo0: u32) returns (sum: u32)
    ensures sum == OnesSum(65536 * hi0 + lo0)
  {
    var hi: u32, lo: u32 := hi0, lo0;
    ghost var q := 0;
    while true
      invariant 65536 * hi0 + lo0 == 65536 * hi + lo + q * ALL_ONES
      invariant hi0 + lo0 > 0 ==> hi + lo > 0
      decreases hi + lo
    {
      var hicarry := hi / 65536;
      var locarry := lo / 65536;
      if hicarry == 0 && locarry == 0 {
        break;
      }
      q := q + hicarry;
      hi, lo := hi % 65536 + locarry, lo % 65536 + hicarry;
    }
    sum := 65536 * hi + lo;
    OnesSumUnique(65536 * hi0 + lo0, sum, q);
  }

  // ----- when the accumulated value is the ones' complement sum -----

  lemma OnesSumEqual(a: nat, b: nat)
    ensures OnesSum(a) == OnesSum(b) <==> (a - b) % ALL_ONES == 0 && (a == 0 <==> b == 0)
  {
    var qa := OnesSumDecomposes(a);
    var qb := OnesSumDecomposes(b);
    assert a - b == OnesSum(a) - OnesSum(b) + (qa - qb) * ALL_ONES;
  }

  // How far the wrapped halves fall short of the exact sum: each wrap of the
  // upper half loses 2^48, each wrap of the lower half 2^32.
  function WrapError(seed: u32, s: seq<byte>): (n: nat) {
    65536 * ((seed / 65536 + UpperSum(s)) / WRAP) + (seed % 65536 + LowerSum(s)) / WRAP
  }

  lemma SameRemainder(d: int, e: nat, q: int)
    requires d == q * ALL_ONES - e
    ensures d % ALL_ONES == 0 <==> e % ALL_ONES == 0
  {
    if e % ALL_ONES == 0 {
      assert d == (q - e / ALL_ONES) * ALL_ONES;
    }
    if d % ALL_ONES == 0 {
      assert e == (q - d / ALL_ONES) * ALL_ONES;
    }
  }

  // The same facts about two plain half sums u and l.
  lemma WrappedHalves(u: nat, l: nat) returns (wrapped: nat, error: nat)
    ensures wrapped == 65536 * (u % WRAP) + l % WRAP
    ensures error == 65536 * (u / WRAP) + l / WRAP
    ensures wrapped == 65536 * u + l - error * WRAP
    ensures OnesSum(wrapped) == OnesSum(65536 * u + l)
       <==> error % ALL_ONES == 0 && (wrapped == 0 <==> 65536 * u + l == 0)
  {
    wrapped := 65536 * (u % WRAP) + l % WRAP;
    error := 65536 * (u / WRAP) + l / WRAP;
    OnesSumEqual(wrapped, 65536 * u + l);
    var d: int := wrapped - (65536 * u + l);
    SameRemainder(d, error, -(error as int));
  }

  lemma WrappedTotal(seed: u32, s: seq<byte>)
    ensures 65536 * WrappedUpper(seed, s) + WrappedLower(seed, s) == seed + WordSum(s) - WrapError(seed, s) * WRAP
  {
    var _, _ := WrappedHalves(seed / 65536 + UpperSum(s), seed % 65536 + LowerSum(s));
  }

  // The exact condition, for every seed and every buffer.
  lemma CorrectIffWrapErrorVanishes(seed: u32, s: seq<byte>)
    ensures WrappedChecksum(seed, s) == OnesSum(seed + WordSum(s))
       <==> WrapError(seed, s) % ALL_ONES == 0
            && (65536 * WrappedUpper(seed, s) + WrappedLower(seed, s) == 0 <==> seed + WordSum(s) == 0)
  {
    var u, l := seed / 65536 + UpperSum(s), seed % 65536 + LowerSum(s);
    assert 65536 * u + l == seed + WordSum(s);
    var wrapped, error := WrappedHalves(u, l);
  }

  lemma {:induction false} HalfSumBounds(s: seq<byte>)
    ensures UpperSum(s) <= 65535 * DivCeil(|s|, 4)
    ensures LowerSum(s) <= 65535 * DivCeil(|s|, 4)
  {
    var n := |s|;
    if n <= 4 {
      HalfSumBoundsShort(s);
    } else {
      var m := n - (if n % 4 == 0 then 4 else n % 4);
      HalfSumBounds(s[..m]);
      assert DivCeil(n, 4) == DivCeil(m, 4) + 1;
      if n % 4 == 0 {
        NextWord(s, m);
        assert s[..m + 4] == s;
      } else {
        LastPartialWord(s, m, s[m..] + Repeat(0, 4 - (n - m)));
      }
    }
  }

  lemma HalfSumBoundsShort(s: seq<byte>)
    requires |s| <= 4
    ensures UpperSum(s) <= 65535 * DivCeil(|s|, 4)
    ensures LowerSum(s) <= 65535 * DivCeil(|s|, 4)
  {
    if 0 < |s| < 4 {
      LastPartialWord(s, 0, s[0..] + Repeat(0, 4 - |s|));
    } else if |s| == 4 {
      NextWord(s, 0);
      assert s[..4] == s;
    }
  }

  // Buffers of at most 65,536 words never wrap, whatever they hold.
  lemma ShortBuffersAreExact(seed: u32, s: seq<byte>)
    requires |s| <= 4 * 65536
    ensures WrapError(seed, s) == 0
    ensures WrappedChecksum(seed, s) == OnesSum(seed + WordSum(s))
  {
    hide UpperSum, LowerSum, OnesSum;
    HalfSumBounds(s);
    CorrectIffWrapErrorVanishes(seed, s);
    WrappedTotal(seed, s);
  }

  // Up to 8 GiB in one call, the answer is right exactly when neither half
  // wrapped: too few wraps fit for their errors to cancel.
  lemma CorrectIffNeitherHalfWraps(seed: u32, s: seq<byte>)
    requires |s| <= 0x2_0000_0000
    ensures WrappedChecksum(seed, s) == OnesSum(seed + WordSum(s))
       <==> HalvesFit(seed, s)
  {
    hide UpperSum, LowerSum, OnesSum;
    HalfSumBounds(s);
    CorrectIffWrapErrorVanishes(seed, s);
    WrappedTotal(seed, s);
    assert WrapError(seed, s) < ALL_ONES;
  }

  // A buffer of w words loses no more than w to wrapping.
  lemma WrapErrorBound(seed: u32, s: seq<byte>)
    ensures WrapError(seed, s) <= DivCeil(|s|, 4)
  {
    hide UpperSum, LowerSum, DivCeil;
    HalfSumBounds(s);
    HalvesBound(seed / 65536 + UpperSum(s), seed % 65536 + LowerSum(s), DivCeil(|s|, 4));
  }

  lemma HalvesBound(u: nat, l: nat, words: nat)
    requires u <= 65535 + 65535 * words && l <= 65535 + 65535 * words
    ensures 65536 * (u / WRAP) + l / WRAP <= words
  {
    var k, j := u / WRAP, l / WRAP;
    assert k * WRAP <= u && j * WRAP <= l;
  }

  // Nothing is lost exactly when neither half wraps.
  lemma NoErrorIffNoWrap(seed: u32, s: seq<byte>)
    ensures WrapError(seed, s) == 0 <==> HalvesFit(seed, s)
    ensures HalvesFit(seed, s) ==> WrappedChecksum(seed, s) == OnesSum(seed + WordSum(s))
  {
    hide UpperSum, LowerSum, OnesSum;
    CorrectIffWrapErrorVanishes(seed, s);
    WrappedTotal(seed, s);
  }

  // Neither 32-bit half of the accumulator runs over.
  predicate HalvesFit(seed: u32, s: seq<byte>) {
    seed / 65536 + UpperSum(s) < WRAP && seed % 65536 + LowerSum(s) < WRAP
  }

  // The chunk size of the library's own data-section loop is 1 MiB, and such a
  // chunk can wrap: one full of 0xFF bytes sums to 0xFFFCFFFC, not 0xFFFFFFFF.
  predicate Saturated(s: seq<byte>) {
    forall i :: 0 <= i < |s| ==> s[i] == 255
  }

  lemma {:induction false} SaturatedSums(s: seq<byte>, words: nat)
    requires Saturated(s) && |s| == 4 * words
    ensures UpperSum(s) == 65535 * words
    ensures LowerSum(s) == 65535 * words
  {
    if words > 0 {
      SaturatedSums(s[..|s| - 4], words - 1);
      NextWord(s, |s| - 4);
      assert s[..|s|] == s;
    }
  }

  lemma MebibyteChunkGoesWrong(s: seq<byte>)
    requires Saturated(s) && |s| == 1048576
    ensures OnesSum(WordSum(s)) == 0xFFFF_FFFF
    ensures WrappedChecksum(0, s) == 0xFFFC_FFFC
  {
    SaturatedSums(s, 262144);
    SaturatedTotals(UpperSum(s), LowerSum(s));
  }

  lemma SaturatedTotals(u: nat, l: nat)
    requires u == l == 65535 * 262144
    ensures OnesSum(65536 * u + l) == 0xFFFF_FFFF
    ensures OnesSum(65536 * (u % WRAP) + l % WRAP) == 0xFFFC_FFFC
  {
    OnesSumUnique(65536 * u + l, 0xFFFF_FFFF, 262143);
    OnesSumUnique(65536 * (u % WRAP) + l % WRAP, 0xFFFC_FFFC, 65532);
  }
}
