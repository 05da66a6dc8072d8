// The 16-character form of a checksum (FITS Standard 4.0, Appendix J): each
// byte is spread over four characters, punctuation is avoided, and the string
// is rotated by one place.
module ChecksumEncoding {
  import opened FitsBytes
  import opened Checksum

  const EXCLUDE: seq<int> := [0x3A, 0x3B, 0x3C, 0x3D, 0x3E, 0x3F, 0x40, 0x5B, 0x5C, 0x5D, 0x5E, 0x5F, 0x60]

  predicate Punctuation(c: int) {
    0x3A <= c <= 0x40 || 0x5B <= c <= 0x60
  }

  predicate LetterOrDigit(c: int) {
    0x30 <= c <= 0x39 || 0x41 <= c <= 0x5A || 0x61 <= c <= 0x7A
  }

  lemma ExcludeIsPunctuation(c: int)
    ensures c in EXCLUDE <==> Punctuation(c)
  {
    assert EXCLUDE == [0x3A, 0x3B, 0x3C, 0x3D, 0x3E, 0x3F, 0x40] + [0x5B, 0x5C, 0x5D, 0x5E, 0x5F, 0x60];
    if Punctuation(c) {
      if c <= 0x40 { assert EXCLUDE[c - 0x3A] == c; } else { assert EXCLUDE[c - 0x5B + 7] == c; }
    }
  }

  // The pair starts at (q + r, q); the number of +1/-1 adjustments after which
  // neither character is punctuation for the first time.
  function Adjustments(q: nat, r: nat): (n: nat) {
    if (58 <= q + r && q <= 64) then Max(0, Max(q - 57, 65 - q - r))
    else if (91 <= q + r && q <= 96) then Max(0, Max(q - 90, 97 - q - r))
    else 0
  }

  lemma AdjustmentsAreLeast(q: nat, r: nat, d: nat)
    requires 48 <= q <= 111 && r <= 3
    ensures d < Adjustments(q, r) ==> Punctuation(q + r + d) || Punctuation(q - d)
    ensures d == Adjustments(q, r) ==> LetterOrDigit(q + r + d) && LetterOrDigit(q - d)
  {
  }

  // The state of the four characters after d0 and d1 adjustments of the pairs.
  predicate Adjusted(ch: seq<int>, q: nat, r: nat, d0: nat, d1: nat) {
    && |ch| == 4
    && ch[0] == q + r + d0 && ch[1] == q - d0 && ch[2] == q + d1 && ch[3] == q - d1
    && d0 <= Adjustments(q, r) && d1 <= Adjustments(q, 0)
  }

  // `(ch as u32) & 0xFF`
  function LowByte(c: int): (v: int) {
    c % 256
  }

  // One pair against one excluded character.
  method AdjustPair(ch: array<int>, jj: nat, excluded: int) returns (adjusted: bool)
    requires ch.Length == 4 && (jj == 0 || jj == 2)
    modifies ch
    ensures adjusted <==> LowByte(old(ch[jj])) == excluded || LowByte(old(ch[jj + 1])) == excluded
    ensures ch[jj] == old(ch[jj]) + (if adjusted then 1 else 0)
    ensures ch[jj + 1] == old(ch[jj + 1]) - (if adjusted then 1 else 0)
    ensures forall k :: 0 <= k < 4 && k != jj && k != jj + 1 ==> ch[k] == old(ch[k])
  {
    adjusted := LowByte(ch[jj]) == excluded || LowByte(ch[jj + 1]) == excluded;
    if adjusted {
      ch[jj] := ch[jj] + 1;
      ch[jj + 1] := ch[jj + 1] - 1;
    }
  }

  // Both pairs against one excluded character.
  method AdjustAgainst(ch: array<int>, excluded: int, ghost q: nat, ghost r: nat, ghost d0: nat, ghost d1: nat)
    returns (adjusted: bool, ghost d0': nat, ghost d1': nat)
    requires ch.Length == 4 && Adjusted(ch[..], q, r, d0, d1)
    requires 48 <= q <= 111 && r <= 3 && Punctuation(excluded)
    modifies ch
    ensures Adjusted(ch[..], q, r, d0', d1') && d0 <= d0' && d1 <= d1'
    ensures adjusted <==> d0 + d1 < d0' + d1'
    ensures !adjusted ==> ch[..] == old(ch[..]) && excluded !in ch[..]
  {
    CharacterRange(ch[..], q, r, d0, d1);
    PunctuationMeansMore(q, r, d0);
    PunctuationMeansMore(q, 0, d1);
    hide Adjustments, Punctuation, LowByte;
    assert LowByte(ch[0]) == ch[0] && LowByte(ch[1]) == ch[1] && LowByte(ch[2]) == ch[2] && LowByte(ch[3]) == ch[3];
    var first := AdjustPair(ch, 0, excluded);
    d0' := if first then d0 + 1 else d0;
    var second := AdjustPair(ch, 2, excluded);
    d1' := if second then d1 + 1 else d1;
    adjusted := first || second;
    assert !adjusted ==> ch[..] == old(ch[..]);
  }

  lemma PunctuationMeansMore(q: nat, r: nat, d: nat)
    requires 48 <= q <= 111 && r <= 3 && d <= Adjustments(q, r)
    ensures Punctuation(q + r + d) || Punctuation(q - d) ==> d < Adjustments(q, r)
  {
    AdjustmentsAreLeast(q, r, d);
  }

  // One pass over the excluded characters.
  method AdjustPass(ch: array<int>, ghost q: nat, ghost r: nat, ghost d0: nat, ghost d1: nat)
    returns (adjusted: bool, ghost d0': nat, ghost d1': nat)
    requires ch.Length == 4 && Adjusted(ch[..], q, r, d0, d1)
    requires 48 <= q <= 111 && r <= 3
    modifies ch
    ensures Adjusted(ch[..], q, r, d0', d1') && d0 <= d0' && d1 <= d1'
    ensures adjusted <==> d0 + d1 < d0' + d1'
    ensures !adjusted ==> forall k :: 0 <= k < |EXCLUDE| ==> EXCLUDE[k] !in ch[..]
  {
    hide Adjustments, Punctuation, Adjusted;
    adjusted, d0', d1' := false, d0, d1;
    for kk := 0 to |EXCLUDE|
      invariant Adjusted(ch[..], q, r, d0', d1') && d0 <= d0' && d1 <= d1'
      invariant adjusted <==> d0 + d1 < d0' + d1'
      invariant !adjusted ==> forall k :: 0 <= k < kk ==> EXCLUDE[k] !in ch[..]
    {
      ExcludeIsPunctuation(EXCLUDE[kk]);
      var again;
      again, d0', d1' := AdjustAgainst(ch, EXCLUDE[kk], q, r, d0', d1');
      adjusted := adjusted || again;
    }
  }

  method AvoidPunctuation(ch: array<int>, ghost q: nat, ghost r: nat)
    requires ch.Length == 4 && ch[..] == [q + r, q, q, q]
    requires 48 <= q <= 111 && r <= 3
    modifies ch
    ensures forall jj :: 0 <= jj < 4 ==> LetterOrDigit(ch[jj])
    ensures ch[0] + ch[1] + ch[2] + ch[3] == 4 * q + r
  {
    hide Adjustments, Punctuation, LetterOrDigit, Adjusted;
    ghost var d0, d1 := 0, 0;
    NotYetAdjusted(ch[..], q, r);
    while true
      invariant Adjusted(ch[..], q, r, d0, d1)
      decreases Adjustments(q, r) + Adjustments(q, 0) - d0 - d1
    {
      var adjusted;
      AtMostAdjustments(ch[..], q, r, d0, d1);
      adjusted, d0, d1 := AdjustPass(ch, q, r, d0, d1);
      AtMostAdjustments(ch[..], q, r, d0, d1);
      if !adjusted {
        break;
      }
    }
    Settled(ch[..], q, r, d0, d1);
    assert ch[0] == ch[..][0] && ch[1] == ch[..][1] && ch[2] == ch[..][2] && ch[3] == ch[..][3];
  }

  lemma NotYetAdjusted(ch: seq<int>, q: nat, r: nat)
    requires ch == [q + r, q, q, q]
    ensures Adjusted(ch, q, r, 0, 0)
  {
  }

  lemma AtMostAdjustments(ch: seq<int>, q: nat, r: nat, d0: nat, d1: nat)
    requires Adjusted(ch, q, r, d0, d1)
    ensures d0 <= Adjustments(q, r) && d1 <= Adjustments(q, 0)
  {
  }

  lemma CharacterRange(ch: seq<int>, q: nat, r: nat, d0: nat, d1: nat)
    requires Adjusted(ch, q, r, d0, d1) && 48 <= q <= 111 && r <= 3
    ensures forall jj :: 0 <= jj < 4 ==> LowByte(ch[jj]) == ch[jj]
  {
  }

  // A pass that finds nothing to adjust leaves letters and digits only.
  lemma Settled(ch: seq<int>, q: nat, r: nat, d0: nat, d1: nat)
    requires Adjusted(ch, q, r, d0, d1) && 48 <= q <= 111 && r <= 3
    requires forall k :: 0 <= k < |EXCLUDE| ==> EXCLUDE[k] !in ch
    ensures |ch| == 4 && forall jj :: 0 <= jj < 4 ==> LetterOrDigit(ch[jj])
    ensures ch[0] + ch[1] + ch[2] + ch[3] == 4 * q + r
  {
    forall jj | 0 <= jj < 4
      ensures !Punctuation(ch[jj])
    {
      ExcludeIsPunctuation(ch[jj]);
      assert ch[jj] in ch;
    }
    AdjustmentsAreLeast(q, r, d0);
    AdjustmentsAreLeast(q, 0, d1);
  }

  // ===== encoding =====

  // Byte ii of a 32-bit value, most significant first.
  function ByteOf(value: u32, ii: nat): (r: byte)
    requires ii < 4
  {
    if ii == 0 then value / 0x100_0000
    else if ii == 1 then value / 0x1_0000 % 256
    else if ii == 2 then value / 0x100 % 256
    else value % 256
  }

  lemma BytesMakeValue(value: u32)
    ensures 256 * ByteOf(value, 0) as int + ByteOf(value, 1) as int == value / 65536
    ensures 256 * ByteOf(value, 2) as int + ByteOf(value, 3) as int == value % 65536
  {
    assert value / 0x100_0000 == value / 65536 / 256;
    assert value % 256 == value % 65536 % 256;
    assert value / 0x100 % 256 == value % 65536 / 256;
  }

  function Complement(value: u32): (r: u32) {
    ALL_ONES - value
  }

  // The four characters, of the sixteen before rotation, that carry byte ii.
  function Column(asc: seq<int>, ii: nat): (v: int)
    requires |asc| == 16 && ii < 4
  {
    asc[ii] + asc[4 + ii] + asc[8 + ii] + asc[12 + ii]
  }

  // The rotation undone: the first character of the printed form was the last.
  function Unrotate(ascii: seq<int>): (r: seq<int>)
    requires |ascii| == 16
  {
    ascii[1..] + ascii[..1]
  }

  // A printed form of value: letters and digits only, and each byte of value
  // is what its four characters hold above '0'.
  predicate Encodes(ascii: seq<int>, value: u32) {
    && |ascii| == 16
    && (forall i :: 0 <= i < 16 ==> LetterOrDigit(ascii[i]))
    && (forall ii :: 0 <= ii < 4 ==> Column(Unrotate(ascii), ii) == ByteOf(value, ii) + 4 * 0x30)
  }

  method SpreadByte(b: byte) returns (ch: array<int>)
    ensures fresh(ch) && ch.Length == 4
    ensures forall jj :: 0 <= jj < 4 ==> LetterOrDigit(ch[jj])
    ensures ch[0] + ch[1] + ch[2] + ch[3] == b as int + 4 * 0x30
  {
    var quotient := b as int / 4 + 0x30;
    var remainder := b as int % 4;
    ch := new int[4](_ => quotient);
    ch[0] := ch[0] + remainder;
    assert ch[..] == [quotient + remainder, quotient, quotient, quotient];
    AvoidPunctuation(ch, quotient, remainder);
  }

  method EncodeChecksum(sum: u32, complement: bool) returns (ascii: seq<int>)
    ensures Encodes(ascii, if complement then Complement(sum) else sum)
  {
    var value: u32 := if complement then Complement(sum) else sum;
    var asc := new int[16](_ => 0x30);
    for ii := 0 to 4
      invariant forall i :: 0 <= i < 16 ==> LetterOrDigit(asc[i])
      invariant forall i :: 0 <= i < ii ==> Column(asc[..], i) == ByteOf(value, i) as int + 4 * 0x30
    {
      hide LetterOrDigit, ByteOf;
      var ch := SpreadByte(ByteOf(value, ii));
      asc[ii], asc[4 + ii], asc[8 + ii], asc[12 + ii] := ch[0], ch[1], ch[2], ch[3];
    }
    ascii := seq(16, i requires 0 <= i < 16 reads asc => asc[(i + 15) % 16]);
    assert Unrotate(ascii) == asc[..] by {
      assert ascii[0] == asc[15];
      assert forall i :: 1 <= i < 16 ==> ascii[i] == asc[i - 1];
    }
  }

  // ===== decoding =====

  function AsU32(c: int): (r: u32) {
    c % WRAP
  }

  // `(c as u32) << 8`, which drops what leaves the word.
  function Shifted(c: int): (r: u32) {
    256 * AsU32(c) % WRAP
  }

  lemma SmallIsItself(c: int)
    requires 0 <= c < 256
    ensures AsU32(c) == c && Shifted(c) == 256 * c
  {
  }

  // `half += (high << 8) + low` on u32.
  method AddDigits(half: u32, high: int, low: int) returns (half': u32)
    ensures half < 1000000 && 0 <= high < 256 && 0 <= low < 256 ==> half' == half + 256 * high + low
  {
    half' := (half + (Shifted(high) + AsU32(low)) % WRAP) % WRAP;
    if half < 1000000 && 0 <= high < 256 && 0 <= low < 256 {
      SmallIsItself(high);
      SmallIsItself(low);
      NoWrapSum(half, 256 * high, low);
    }
  }

  // Undo the rotation and the offset of '0'.
  method Unshift(ascii: seq<int>) returns (cbuf: array<int>)
    requires |ascii| >= 16
    ensures fresh(cbuf) && cbuf.Length == 16
    ensures forall k :: 0 <= k < 16 ==> cbuf[k] == ascii[(k + 1) % 16] - 0x30
  {
    cbuf := new int[16](_ => 0);
    for ii := 0 to 16
      invariant forall k :: 0 <= k < ii ==> cbuf[k] == ascii[(k + 1) % 16] - 0x30
    {
      cbuf[ii] := ascii[(ii + 1) % 16] - 0x30;
    }
  }

  predicate SmallDigits(c: seq<int>) {
    forall k :: 0 <= k < |c| ==> 0 <= c[k] < 256
  }

  method SumHalves(cbuf: array<int>) returns (hi: u32, lo: u32)
    requires cbuf.Length == 16
    ensures SmallDigits(cbuf[..]) ==> hi == PartialHalf(cbuf[..], 0, 4) && lo == PartialHalf(cbuf[..], 2, 4)
  {
    hi, lo := 0, 0;
    ghost var c := cbuf[..];
    for jj := 0 to 4
      invariant SmallDigits(c) ==> hi == PartialHalf(c, 0, jj) && lo == PartialHalf(c, 2, jj)
    {
      if SmallDigits(c) {
        PartialHalfSmall(c, 0, jj);
        PartialHalfSmall(c, 2, jj);
      }
      assert c[4 * jj] == cbuf[4 * jj] && c[4 * jj + 1] == cbuf[4 * jj + 1];
      assert c[4 * jj + 2] == cbuf[4 * jj + 2] && c[4 * jj + 3] == cbuf[4 * jj + 3];
      hi := AddDigits(hi, cbuf[4 * jj], cbuf[4 * jj + 1]);
      lo := AddDigits(lo, cbuf[4 * jj + 2], cbuf[4 * jj + 3]);
    }
  }

  method DecodeChecksum(ascii: seq<int>, complement: bool) returns (sum: u32)
    requires |ascii| >= 16
    ensures forall value: u32 :: Encodes(ascii[..16], value) ==> sum == if complement then Complement(value) else value
  {
    hide Encodes, PartialHalf, SmallDigits;
    var cbuf := Unshift(ascii);
    var hi, lo := SumHalves(cbuf);
    sum := FoldCarries(hi, lo);
    ghost var text := ascii[..16];
    forall value: u32 | Encodes(text, value)
      ensures sum == value
    {
      DecodedHalves(text, value, cbuf[..]);
    }
    if complement {
      sum := Complement(sum);
    }
  }

  lemma NoWrapSum(a: nat, b: nat, c: nat)
    requires a < 1000000 && b < 100000 && c < 100000
    ensures (a + (b + c) % WRAP) % WRAP == a + b + c
  {
  }

  // The half-word that columns a and a + 1 add up to over the first n rows.
  function PartialHalf(c: seq<int>, a: nat, n: nat): (v: int)
    requires |c| == 16 && a <= 2 && n <= 4
  {
    if n == 0 then 0 else PartialHalf(c, a, n - 1) + 256 * c[4 * (n - 1) + a] + c[4 * (n - 1) + a + 1]
  }

  lemma {:induction false} PartialHalfSmall(c: seq<int>, a: nat, n: nat)
    requires |c| == 16 && a <= 2 && n <= 4 && SmallDigits(c)
    ensures 0 <= PartialHalf(c, a, n) <= n * 65535
  {
    if n > 0 {
      PartialHalfSmall(c, a, n - 1);
    }
  }

  lemma PartialHalfIsColumns(c: seq<int>, a: nat)
    requires |c| == 16 && a <= 2
    ensures PartialHalf(c, a, 4) == 256 * Column(c, a) + Column(c, a + 1)
  {
    assert PartialHalf(c, a, 1) == 256 * c[a] + c[a + 1];
    assert PartialHalf(c, a, 2) == PartialHalf(c, a, 1) + 256 * c[4 + a] + c[5 + a];
    assert PartialHalf(c, a, 3) == PartialHalf(c, a, 2) + 256 * c[8 + a] + c[9 + a];
  }

  lemma DecodedHalves(ascii: seq<int>, value: u32, c: seq<int>)
    requires Encodes(ascii, value) && |c| == 16
    requires forall k :: 0 <= k < 16 ==> c[k] == ascii[(k + 1) % 16] - 0x30
    ensures SmallDigits(c)
    ensures 65536 * PartialHalf(c, 0, 4) + PartialHalf(c, 2, 4) == value
    ensures OnesSum(value) == value
  {
    var asc := Unrotate(ascii);
    assert forall k :: 0 <= k < 16 ==> asc[k] == ascii[(k + 1) % 16] && LetterOrDigit(asc[k]);
    forall ii | 0 <= ii < 4
      ensures Column(c, ii) == ByteOf(value, ii)
    {
    }
    PartialHalfIsColumns(c, 0);
    PartialHalfIsColumns(c, 2);
    BytesMakeValue(value);
  }
}
