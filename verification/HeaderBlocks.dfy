// A card list as it lies on disk: 80-column cards, 36 to a block, the rest of
// the last block blank.
module HeaderBlocks {
  import opened FitsBytes
  import opened CardText

  const BLANK_BYTE: byte := 32

  // Header text is printable ASCII, so one character is one byte.
  function AsciiByte(c: char): (r: byte) {
    c as int % 256
  }

  function AsciiBytes(s: string): (b: seq<byte>)
    ensures |b| == |s|
    ensures forall i :: 0 <= i < |s| ==> b[i] == AsciiByte(s[i])
  {
    seq(|s|, i requires 0 <= i < |s| => AsciiByte(s[i]))
  }

  function CardBytes(card: string): (b: seq<byte>)
    ensures |b| == CARD_SIZE
  {
    AsciiBytes(PadToCard(card))
  }

  function CardsBytes(cards: seq<string>): (b: seq<byte>)
    ensures |b| == 80 * |cards|
  {
    if cards == [] then [] else CardsBytes(cards[..|cards| - 1]) + CardBytes(cards[|cards| - 1])
  }

  function BlocksFor(cards: seq<string>): (n: nat) {
    DivCeil(|cards|, CARDS_PER_BLOCK)
  }

  // The contents of a header that has `blocks` blocks reserved for it.
  function HeaderImage(cards: seq<string>, blocks: nat): (b: seq<byte>)
    requires |cards| <= 36 * blocks
    ensures |b| == 2880 * blocks
  {
    CardsBytes(cards) + Repeat(BLANK_BYTE, 2880 * blocks - 80 * |cards|)
  }

  function HeaderBytes(cards: seq<string>): (bytes: seq<byte>) {
    HeaderImage(cards, BlocksFor(cards))
  }

  // The printing loop shared by serialize_header_to_disk_bytes and
  // rewrite_header_to_disk.
  method PrintHeader(cards: seq<string>, blocks: nat) returns (out: seq<byte>)
    requires |cards| <= 36 * blocks
    ensures out == HeaderImage(cards, blocks)
  {
    out := [];
    for i := 0 to |cards|
      invariant out == CardsBytes(cards[..i])
    {
      assert cards[..i + 1][..i] == cards[..i];
      out := out + CardBytes(cards[i]);
    }
    assert cards[..|cards|] == cards;
    ghost var printed := out;
    while |out| < blocks * BLOCK_SIZE
      invariant |printed| <= |out| <= blocks * BLOCK_SIZE
      invariant out == printed + Repeat(BLANK_BYTE, |out| - |printed|)
    {
      out := out + [BLANK_BYTE];
    }
  }

  method SerializeHeader(cards: seq<string>) returns (out: seq<byte>)
    ensures out == HeaderBytes(cards)
  {
    out := PrintHeader(cards, BlocksFor(cards));
  }

  lemma {:induction false} CardsBytesConcat(a: seq<string>, b: seq<string>)
    ensures CardsBytes(a + b) == CardsBytes(a) + CardsBytes(b)
  {
    hide *;
    if b == [] {
      NoMoreCards(a);
    } else {
      var n := |b| - 1;
      CardsBytesConcat(a, b[..n]);
      OneMoreCard(a, b[..n], b[n]);
      assert b[..n] + [b[n]] == b;
    }
  }

  lemma NoMoreCards(a: seq<string>)
    ensures CardsBytes(a + []) == CardsBytes(a) + CardsBytes([])
  {
    assert a + [] == a;
  }

  lemma OneMoreCard(a: seq<string>, b: seq<string>, card: string)
    requires CardsBytes(a + b) == CardsBytes(a) + CardsBytes(b)
    ensures CardsBytes(a + (b + [card])) == CardsBytes(a) + CardsBytes(b + [card])
  {
    hide *;
    assert a + (b + [card]) == (a + b) + [card];
    LastCard(a + b, card);
    LastCard(b, card);
    SeqAssoc(CardsBytes(a), CardsBytes(b), CardBytes(card));
  }

  lemma LastCard(cards: seq<string>, card: string)
    ensures CardsBytes(cards + [card]) == CardsBytes(cards) + CardBytes(card)
  {
    hide CardBytes;
    assert (cards + [card])[..|cards|] == cards;
  }

  // One card among the others.
  lemma CardsAround(before: seq<string>, card: string, after: seq<string>)
    ensures CardsBytes(before + [card] + after) == CardsBytes(before) + CardBytes(card) + CardsBytes(after)
  {
    hide CardsBytes, CardBytes;
    CardsBytesConcat(before + [card], after);
    LastCard(before, card);
  }

  function BlankCard(): (b: seq<byte>)
    ensures |b| == CARD_SIZE
  {
    Repeat(BLANK_BYTE, CARD_SIZE)
  }

  lemma {:induction false} CardAt(cards: seq<string>, k: nat)
    requires k < |cards|
    ensures CardsBytes(cards)[80 * k..80 * k + 80] == CardBytes(cards[k])
  {
    var n := |cards| - 1;
    assert cards[..n] + [cards[n]] == cards;
    LastCard(cards[..n], cards[n]);
    if k < n {
      CardAt(cards[..n], k);
      hide CardsBytes, CardBytes;
      var a, b := CardsBytes(cards[..n]), CardsBytes(cards);
      assert b[80 * k..80 * k + 80] == a[80 * k..80 * k + 80];
    }
  }

  // The k-th card of a header, or a blank one behind the last.
  lemma CardOnDisk(cards: seq<string>, blocks: nat, k: nat)
    requires |cards| <= 36 * blocks && k < 36 * blocks
    ensures HeaderImage(cards, blocks)[80 * k..80 * k + 80] == if k < |cards| then CardBytes(cards[k]) else BlankCard()
  {
    var a := CardsBytes(cards);
    var image := HeaderImage(cards, blocks);
    if k < |cards| {
      CardAt(cards, k);
      hide CardsBytes, CardBytes;
      assert image[80 * k..80 * k + 80] == a[80 * k..80 * k + 80];
    } else {
      hide CardsBytes, CardBytes;
    }
  }
}
