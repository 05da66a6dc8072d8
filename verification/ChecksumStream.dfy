// The streaming form of the checksum: `ChecksumStream` and the loop that
// feeds it a data section chunk by chunk.
module ChecksumStreaming {
  import opened FitsBytes
  import opened Checksum

  const SAFE_FEED: nat := 262144
  const SECTION_CHUNK: nat := 1048576

  lemma {:induction false} WordSumSplits(a: seq<byte>, b: seq<byte>)
    requires |a| % 4 == 0
    ensures UpperSum(a + b) == UpperSum(a) + UpperSum(b)
    ensures LowerSum(a + b) == LowerSum(a) + LowerSum(b)
    ensures WordSum(a + b) == WordSum(a) + WordSum(b)
  {
    if b == [] {
      assert a + b == a;
    } else {
      var n := |b| - 1;
      WordSumSplits(a, b[..n]);
      hide Upper, Lower;
      assert (a + b)[..|a| + n] == a + b[..n];
      PlacesRepeat(|a|, n, b[n]);
    }
  }

  class ChecksumStream {
    var seed: u32
    var carry: seq<byte>
    ghost const start: u32
    // All the bytes fed so far, and the prefix of them already summed.
    ghost var fed: seq<byte>
    ghost var summed: seq<byte>

    ghost predicate Valid()
      reads this
    {
      fed == summed + carry && |summed| % 4 == 0 && |carry| < 4
    }

    ghost predicate Sound()
      reads this
    {
      seed == OnesSum(start + WordSum(summed))
    }

    constructor (seed0: u32)
      ensures Valid() && Sound()
      ensures start == seed0 && fed == [] && carry == [] && seed == seed0
    {
      seed, carry, start := seed0, [], seed0;
      fed, summed := [], [];
      StartsSound(seed0);
    }

    method Feed(bytes: seq<byte>)
      requires Valid()
      modifies this
      ensures Valid()
      ensures fed == old(fed) + bytes
      ensures old(Sound()) && |bytes| <= SAFE_FEED ==> Sound()
      ensures old(carry) == [] && |bytes| % 4 == 0 ==> carry == [] && seed == WrappedChecksum(old(seed), bytes)
    {
      hide OnesSum, WordSum, WrappedChecksum;
      fed := fed + bytes;
      if carry != [] {
        var need := 4 - |carry|;
        if |bytes| < need {
          carry := carry + bytes;
          assert fed == summed + carry;
          return;
        }
        carry := carry + bytes[..need];
        assert fed == summed + carry + bytes[need..];
        SumWords(carry);
        SumAndKeepTail(bytes[need..]);
      } else {
        assert fed == summed + bytes;
        SumAndKeepTail(bytes);
      }
    }

    // Sum the whole words of what is left and keep the rest as the carry.
    method SumAndKeepTail(rest: seq<byte>)
      requires |summed| % 4 == 0 && fed == summed + rest
      modifies this`seed, this`carry, this`summed
      ensures Valid()
      ensures old(Sound()) && |rest| <= SAFE_FEED ==> Sound()
      ensures |rest| % 4 == 0 ==> carry == [] && seed == WrappedChecksum(old(seed), rest)
    {
      hide OnesSum, WordSum, WrappedChecksum;
      var full := |rest| / 4 * 4;
      var words := rest[..full];
      if full > 0 {
        SumWords(words);
      } else {
        EmptyFeed(seed);
        assert words == [] && summed + words == summed;
      }
      carry := rest[full..];
      assert fed == summed + carry;
      assert |rest| % 4 == 0 ==> words == rest;
    }

    method SumWords(words: seq<byte>)
      requires |summed| % 4 == 0 && |words| % 4 == 0
      modifies this`seed, this`summed
      ensures summed == old(summed) + words && seed == WrappedChecksum(old(seed), words)
      ensures old(Sound()) && |words| <= SAFE_FEED ==> Sound()
    {
      hide OnesSum, WordSum, WrappedChecksum;
      SafeStep(start, summed, seed, words);
      seed := ComputeChecksum(seed, words);
      summed := summed + words;
    }

    method Finish() returns (sum: u32)
      requires Valid()
      modifies this`seed
      ensures old(Sound()) ==> sum == OnesSum(start + WordSum(fed))
      ensures carry == [] ==> sum == old(seed)
    {
      hide OnesSum, WordSum, WrappedChecksum;
      SafeStep(start, summed, seed, carry);
      if carry != [] {
        seed := ComputeChecksum(seed, carry);
      } else {
        assert fed == summed;
      }
      sum := seed;
    }
  }

  lemma StartsSound(seed: u32)
    ensures OnesSum(seed + WordSum([])) == seed
  {
  }

  lemma EmptyFeed(seed: u32)
    ensures WrappedChecksum(seed, []) == seed
  {
  }

  // One call on a short buffer carries the running sum forward exactly.
  lemma SafeStep(start: u32, before: seq<byte>, seed: u32, s: seq<byte>)
    requires |before| % 4 == 0
    ensures seed == OnesSum(start + WordSum(before)) && |s| <= SAFE_FEED
            ==> WrappedChecksum(seed, s) == OnesSum(start + WordSum(before + s))
  {
    WordSumSplits(before, s);
    if |s| <= SAFE_FEED {
      ShortBuffersAreExact(seed, s);
      OnesSumAdds(start + WordSum(before), WordSum(s));
    }
  }

  // ----- a whole data section, one chunk at a time -----

  function Chunked(seed: u32, data: seq<byte>, chunk: nat): (r: u32)
    requires chunk > 0
    decreases |data|
  {
    if data == [] then seed
    else
      var n := Min(|data|, chunk);
      Chunked(WrappedChecksum(seed, data[..n]), data[n..], chunk)
  }

  lemma ChunkedStep(seed: u32, data: seq<byte>, done: nat, n: nat, chunk: nat)
    requires chunk > 0 && done < |data| && n == Min(|data| - done, chunk)
    ensures Chunked(seed, data[done..], chunk)
         == Chunked(WrappedChecksum(seed, data[done..done + n]), data[done + n..], chunk)
    ensures data[..done] + data[done..done + n] == data[..done + n]
  {
    hide WrappedChecksum;
    assert data[done..][..n] == data[done..done + n];
    assert data[done..][n..] == data[done + n..];
  }

  lemma ChunkedEmpty(seed: u32, data: seq<byte>, chunk: nat)
    requires chunk > 0 && data == []
    ensures Chunked(seed, data, chunk) == seed
  {
  }

  method StreamDataSection(seed: u32, data: seq<byte>, chunk: nat) returns (sum: u32)
    requires chunk > 0
    ensures chunk <= SAFE_FEED ==> sum == OnesSum(seed + WordSum(data))
    ensures chunk % 4 == 0 && |data| % 4 == 0 ==> sum == Chunked(seed, data, chunk)
  {
    hide OnesSum, WordSum, WrappedChecksum, Chunked;
    var stream := new ChecksumStream(seed);
    var done := 0;
    assert data[done..] == data;
    while done < |data|
      invariant 0 <= done <= |data|
      invariant stream.Valid() && fresh(stream) && stream.start == seed
      invariant stream.fed == data[..done]
      invariant chunk <= SAFE_FEED ==> stream.Sound()
      invariant chunk % 4 == 0 && |data| % 4 == 0 ==>
        stream.carry == [] && Chunked(stream.seed, data[done..], chunk) == Chunked(seed, data, chunk)
    {
      var n := Min(|data| - done, chunk);
      ChunkedStep(stream.seed, data, done, n, chunk);
      stream.Feed(data[done..done + n]);
      done := done + n;
    }
    assert data[..done] == data && data[done..] == [];
    ChunkedEmpty(stream.seed, data[done..], chunk);
    sum := stream.Finish();
  }

  // What all the chunks together lose to wrapping.
  function TotalWrapError(seed: u32, data: seq<byte>, chunk: nat): (n: nat)
    requires chunk > 0
    decreases |data|
  {
    if data == [] then 0
    else
      var n := Min(|data|, chunk);
      WrapError(seed, data[..n]) + TotalWrapError(WrappedChecksum(seed, data[..n]), data[n..], chunk)
  }

  lemma {:induction false} ChunkedCongruence(seed: u32, data: seq<byte>, chunk: nat) returns (q: int)
    requires chunk > 0 && chunk % 4 == 0
    ensures Chunked(seed, data, chunk) == seed + WordSum(data) - TotalWrapError(seed, data, chunk) + q * ALL_ONES
    decreases |data|
  {
    if data == [] {
      q := 0;
    } else {
      var n := Min(|data|, chunk);
      var head, rest := data[..n], data[n..];
      var seed' := WrappedChecksum(seed, head);
      var q1 := ChunkedCongruence(seed', rest, chunk);
      WrappedTotal(seed, head);
      var q2 := OnesSumDecomposes(65536 * WrappedUpper(seed, head) + WrappedLower(seed, head));
      assert data == head + rest;
      if rest != [] {
        WordSumSplits(head, rest);
      } else {
        assert data == head;
      }
      q := q1 - q2 - WrapError(seed, head);
    }
  }

  // The streamed sum is the ones' complement sum of the section exactly when
  // the wrapping errors of all chunks add up to a multiple of 2^32 - 1.
  lemma StreamedSumCorrectIff(seed: u32, data: seq<byte>, chunk: nat)
    requires chunk > 0 && chunk % 4 == 0
    ensures Chunked(seed, data, chunk) == OnesSum(seed + WordSum(data))
       <==> TotalWrapError(seed, data, chunk) % ALL_ONES == 0
            && (Chunked(seed, data, chunk) == 0 <==> seed + WordSum(data) == 0)
  {
    hide Chunked, OnesSum, WordSum, TotalWrapError;
    var q := ChunkedCongruence(seed, data, chunk);
    var qt := OnesSumDecomposes(seed + WordSum(data));
    SameWord(Chunked(seed, data, chunk), OnesSum(seed + WordSum(data)), TotalWrapError(seed, data, chunk), q + qt);
  }

  lemma SameWord(v: u32, t: u32, e: nat, q: int)
    requires v - t == q * ALL_ONES - e
    ensures v == t <==> e % ALL_ONES == 0 && (v == 0 <==> t == 0)
  {
    SameRemainder(v - t, e, q);
  }

  // No chunk makes a half of the accumulator run over, when each starts from
  // the true sum of what came before it.
  predicate NoChunkWraps(seed: u32, data: seq<byte>, chunk: nat)
    requires chunk > 0
    decreases |data|
  {
    data == [] || (
      var n := Min(|data|, chunk);
      HalvesFit(seed, data[..n]) && NoChunkWraps(OnesSum(seed + WordSum(data[..n])), data[n..], chunk))
  }

  lemma {:induction false} NoErrorIffNoChunkWraps(seed: u32, data: seq<byte>, chunk: nat)
    requires chunk > 0
    ensures TotalWrapError(seed, data, chunk) == 0 <==> NoChunkWraps(seed, data, chunk)
    decreases |data|
  {
    if data != [] {
      var n := Min(|data|, chunk);
      hide WrapError, HalvesFit, OnesSum, WrappedChecksum, WordSum;
      NoErrorIffNoWrap(seed, data[..n]);
      NoErrorIffNoChunkWraps(WrappedChecksum(seed, data[..n]), data[n..], chunk);
    }
  }

  lemma WordsOfPieces(n: nat, rest: nat)
    requires n % 4 == 0
    ensures DivCeil(n, 4) + DivCeil(rest, 4) == DivCeil(n + rest, 4)
  {
  }

  lemma {:induction false} TotalWrapErrorBound(seed: u32, data: seq<byte>, chunk: nat)
    requires chunk > 0 && chunk % 4 == 0
    ensures TotalWrapError(seed, data, chunk) <= DivCeil(|data|, 4)
    decreases |data|
  {
    if data != [] {
      var n := Min(|data|, chunk);
      hide WrapError, WrappedChecksum, DivCeil;
      WrapErrorBound(seed, data[..n]);
      TotalWrapErrorBound(WrappedChecksum(seed, data[..n]), data[n..], chunk);
      if n == |data| {
        assert data[n..] == [];
        assert TotalWrapError(WrappedChecksum(seed, data[..n]), [], chunk) == 0;
      } else {
        WordsOfPieces(n, |data| - n);
      }
    }
  }

  // Where nothing wraps the chunks add up to the exact sum.
  lemma {:induction false} UnwrappedChunksAreExact(seed: u32, data: seq<byte>, chunk: nat)
    requires chunk > 0 && chunk % 4 == 0 && NoChunkWraps(seed, data, chunk)
    ensures Chunked(seed, data, chunk) == OnesSum(seed + WordSum(data))
    decreases |data|
  {
    if data == [] {
      OnesSumOfWord(seed);
    } else {
      var n := Min(|data|, chunk);
      hide HalvesFit, OnesSum, WrappedChecksum, WordSum;
      NoErrorIffNoWrap(seed, data[..n]);
      UnwrappedChunksAreExact(OnesSum(seed + WordSum(data[..n])), data[n..], chunk);
      PiecesSum(data, n);
      OnesSumAdds(seed + WordSum(data[..n]), WordSum(data[n..]));
    }
  }

  lemma PiecesSum(data: seq<byte>, n: nat)
    requires n <= |data| && (n % 4 == 0 || n == |data|)
    ensures WordSum(data) == WordSum(data[..n]) + WordSum(data[n..])
  {
    hide WordSum;
    assert data == data[..n] + data[n..];
    if n == |data| {
      assert data[..n] == data;
      NoWordsSum(data[n..]);
    } else {
      WordSumSplits(data[..n], data[n..]);
    }
  }

  lemma NoWordsSum(data: seq<byte>)
    requires data == []
    ensures WordSum(data) == 0
  {
  }

  lemma OnesSumOfWord(v: u32)
    ensures OnesSum(v + WordSum([])) == v
  {
    NoWordsSum([]);
    OnesSumUnique(v, v, 0);
  }

  // The whole guard for the chunked sum: for any data section of up to 16 GiB
  // it is the ones' complement sum exactly when no chunk wraps either half.
  lemma StreamedSumCorrectIffNoChunkWraps(seed: u32, data: seq<byte>, chunk: nat)
    requires chunk > 0 && chunk % 4 == 0 && |data| <= 0x3_FFFF_FFF8
    ensures Chunked(seed, data, chunk) == OnesSum(seed + WordSum(data)) <==> NoChunkWraps(seed, data, chunk)
  {
    hide Chunked, OnesSum, WordSum, TotalWrapError, NoChunkWraps;
    NoErrorIffNoChunkWraps(seed, data, chunk);
    if NoChunkWraps(seed, data, chunk) {
      UnwrappedChunksAreExact(seed, data, chunk);
    } else {
      TotalWrapErrorBound(seed, data, chunk);
      StreamedSumCorrectIff(seed, data, chunk);
    }
  }

  // With the library's chunk of 1 MiB: one section that is stored wrongly.
  lemma MebibyteSectionGoesWrong(data: seq<byte>)
    requires Saturated(data) && |data| == SECTION_CHUNK
    ensures Chunked(0, data, SECTION_CHUNK) == 0xFFFC_FFFC
    ensures OnesSum(WordSum(data)) == 0xFFFF_FFFF
  {
    MebibyteChunkGoesWrong(data);
    var n := |data|;
    assert data[..n] == data && data[n..] == [];
    assert Chunked(WrappedChecksum(0, data), data[n..], SECTION_CHUNK) == WrappedChecksum(0, data);
  }
}
