// parse_hdus_from_file: the file read back header by header, and when that
// gives the records and cards the writer holds.
module Reparse {
  import opened FitsBytes
  import opened CardText
  import opened FileStorage
  import opened HeaderBlocks
  import opened LayoutModel
  import opened FileMoves
  import opened FileRuns
  import opened SoundRuns
  import opened DataSize

  predicate PrintableByte(b: byte) {
    0x20 <= b <= 0x7E
  }

  // A byte as header text; a lenient open reads what is not printable as '_'.
  function CharOf(b: byte): (r: char) {
    if PrintableByte(b) then b as int as char else '_'
  }

  function Decoded(bytes: seq<byte>): (s: string)
    ensures |s| == |bytes|
  {
    seq(|bytes|, i requires 0 <= i < |bytes| => CharOf(bytes[i]))
  }

  function TextOf(bytes: seq<byte>): (text: string) {
    TrimEnd(Decoded(bytes))
  }

  predicate PrintableBlock(disk: seq<byte>, pos: nat)
    requires pos + 2880 <= |disk|
  {
    forall i :: pos <= i < pos + 2880 ==> PrintableByte(disk[i])
  }

  function Slot(disk: seq<byte>, at: nat): (card: seq<byte>)
    requires at + 80 <= |disk|
  {
    disk[at..at + 80]
  }

  function CardTextAt(disk: seq<byte>, pos: nat, k: nat): (text: string)
    requires pos + 80 * k + 80 <= |disk|
  {
    TextOf(Slot(disk, pos + 80 * k))
  }

  function BlockCards(disk: seq<byte>, pos: nat): (cards: seq<string>)
    requires pos + 2880 <= |disk|
    ensures |cards| == 36
  {
    seq(36, k requires 0 <= k < 36 => CardTextAt(disk, pos, k))
  }

  const END_CARD := "END"

  // The position of the first END card, or |cards|.
  function FirstEnd(cards: seq<string>): (e: nat)
    ensures e <= |cards|
  {
    if cards == [] || cards[0] == END_CARD then 0 else 1 + FirstEnd(cards[1..])
  }

  datatype HeaderRead = NoHeader | HeaderCards(cards: seq<string>) | Broken

  // The header whose next block is at pos, when the blocks before it held
  // `soFar`.
  function ReadHeaderFrom(disk: seq<byte>, pos: nat, soFar: seq<string>, lenient: bool): (r: HeaderRead)
    ensures r.HeaderCards? ==> |r.cards| > |soFar|
    decreases |disk| - pos
  {
    if pos + 2880 > |disk| then if soFar == [] then NoHeader else Broken
    else if !lenient && !PrintableBlock(disk, pos) then Broken
    else
      var block := BlockCards(disk, pos);
      var e := FirstEnd(block);
      if e < 36 then HeaderCards(soFar + block[..e + 1])
      else ReadHeaderFrom(disk, pos + 2880, soFar + block, lenient)
  }

  datatype Parsed = Parsed(hdus: seq<Extent>, cards: seq<seq<string>>) | Malformed

  function Prepended(hdus: seq<Extent>, cards: seq<seq<string>>, rest: Parsed): (r: Parsed) {
    match rest
    case Malformed => Malformed
    case Parsed(h, c) => Parsed(hdus + h, cards + c)
  }

  function ExtentOf(offset: nat, cards: seq<string>): (r: Extent) {
    Extent(offset, BlocksFor(cards), offset + 2880 * BlocksFor(cards))
  }

  function NextOffset(offset: nat, cards: seq<string>): (n: nat) {
    offset + 2880 * BlocksFor(cards) + RoundUpToBlock(DeclaredSize(cards))
  }

  // The HDUs from `offset` to the end of the file.
  function ParseFrom(disk: seq<byte>, offset: nat, lenient: bool): (r: Parsed)
    decreases |disk| - offset
  {
    match ReadHeaderFrom(disk, offset, [], lenient)
    case NoHeader => Parsed([], [])
    case Broken => Malformed
    case HeaderCards(cards) =>
      Advances(offset, cards);
      if !HeaderValid(cards, offset == 0) then Malformed
      else if NextOffset(offset, cards) >= |disk| then Parsed([ExtentOf(offset, cards)], [cards])
      else Prepended([ExtentOf(offset, cards)], [cards], ParseFrom(disk, NextOffset(offset, cards), lenient))
  }

  lemma Advances(offset: nat, cards: seq<string>)
    requires cards != []
    ensures NextOffset(offset, cards) > offset && BlocksFor(cards) > 0
  {
  }

  // ===== the two loops =====

  // The checks and the card loop on one block.
  method ReadBlock(block: seq<byte>, lenient: bool, ghost disk: seq<byte>, ghost pos: nat)
    returns (printable: bool, cards: seq<string>, ended: bool)
    requires pos + 2880 <= |disk| && block == disk[pos..pos + 2880]
    ensures printable <==> lenient || PrintableBlock(disk, pos)
    ensures printable ==> ended == (FirstEnd(BlockCards(disk, pos)) < 36)
    ensures printable ==>
      cards == if ended then BlockCards(disk, pos)[..FirstEnd(BlockCards(disk, pos)) + 1] else BlockCards(disk, pos)
  {
    cards, ended := [], false;
    printable := CheckBlock(block, lenient, disk, pos);
    if !printable { return; }
    ghost var all := BlockCards(disk, pos);
    for k := 0 to 36
      invariant cards == all[..k] && !ended
      invariant forall j :: 0 <= j < k ==> all[j] != END_CARD
    {
      hide TextOf, FirstEnd;
      SliceOfSlice(disk, pos, pos + 2880, 80 * k, 80 * k + 80);
      var card := TextOf(block[80 * k..80 * k + 80]);
      assert card == CardTextAt(disk, pos, k) == all[k];
      cards := cards + [card];
      if card == END_CARD {
        ended := true;
        EndAt(all, k);
        return;
      }
    }
    assert all[..36] == all;
    NoEnd(all);
  }

  lemma {:induction false} EndAt(cards: seq<string>, k: nat)
    requires k < |cards| && cards[k] == END_CARD && forall j :: 0 <= j < k ==> cards[j] != END_CARD
    ensures FirstEnd(cards) == k
  {
    if k > 0 {
      EndAt(cards[1..], k - 1);
    }
  }

  lemma {:induction false} NoEnd(cards: seq<string>)
    requires forall j :: 0 <= j < |cards| ==> cards[j] != END_CARD
    ensures FirstEnd(cards) == |cards|
  {
    if cards != [] {
      NoEnd(cards[1..]);
    }
  }

  method CheckBlock(block: seq<byte>, lenient: bool, ghost disk: seq<byte>, ghost pos: nat) returns (printable: bool)
    requires pos + 2880 <= |disk| && block == disk[pos..pos + 2880]
    ensures printable <==> lenient || PrintableBlock(disk, pos)
  {
    if lenient {
      return true;
    }
    for j := 0 to |block|
      invariant forall i :: pos <= i < pos + j ==> PrintableByte(disk[i])
    {
      assert block[j] == disk[pos + j];
      if !PrintableByte(block[j]) {
        return false;
      }
    }
    printable := true;
  }

  // The block loop: one header, or why there is none.
  method ReadHeader(f: Storage, offset: nat, lenient: bool) returns (ok: bool, read: HeaderRead)
    ensures ok ==> read == ReadHeaderFrom(f.bytes, offset, [], lenient)
    ensures !f.mayFail ==> ok
  {
    hide PrintableBlock, CardTextAt, FirstEnd;
    var cards: seq<string> := [];
    var pos := offset;
    while true
      invariant ReadHeaderFrom(f.bytes, pos, cards, lenient) == ReadHeaderFrom(f.bytes, offset, [], lenient)
      decreases |f.bytes| - pos
    {
      if pos + BLOCK_SIZE > |f.bytes| {
        return true, if cards == [] then NoHeader else Broken;
      }
      var block;
      ok, block := f.Read(pos, BLOCK_SIZE);
      if !ok {
        return false, Broken;
      }
      var printable, more, ended := ReadBlock(block, lenient, f.bytes, pos);
      if !printable {
        return true, Broken;
      }
      if ended {
        return true, HeaderCards(cards + more);
      }
      cards := cards + more;
      pos := pos + BLOCK_SIZE;
    }
  }

  // parse_hdus_from_file: offsets and cards; the kinds of HDU are not part of
  // this.
  method ParseHdus(f: Storage, lenient: bool) returns (ok: bool, parsed: Parsed)
    ensures ok ==> parsed == ParseFrom(f.bytes, 0, lenient)
    ensures !f.mayFail ==> ok
  {
    hide ReadHeaderFrom, RoundUpToBlock, DeclaredSize, BlocksFor, Prepended, HeaderValid;
    var hdus: seq<Extent>, cards: seq<seq<string>> := [], [];
    var offset := 0;
    PrependNothing(ParseFrom(f.bytes, 0, lenient));
    while true
      invariant hdus == [] <==> offset == 0
      invariant Prepended(hdus, cards, ParseFrom(f.bytes, offset, lenient)) == ParseFrom(f.bytes, 0, lenient)
      decreases |f.bytes| - offset
    {
      var read;
      ok, read := ReadHeader(f, offset, lenient);
      if !ok {
        return false, Malformed;
      }
      match read {
        case NoHeader =>
          PrependToNothing(hdus, cards);
          return true, Parsed(hdus, cards);
        case Broken =>
          PrependToNothing(hdus, cards);
          return true, Malformed;
        case HeaderCards(header) =>
          Advances(offset, header);
          var valid := ValidateHeader(header, hdus == []);
          if !valid {
            PrependToNothing(hdus, cards);
            return true, Malformed;
          }
          var size := CalculateDataSize(header);
          var data := offset + 2880 * BlocksFor(header);
          PrependTwice(hdus, cards, [ExtentOf(offset, header)], [header], ParseFrom(f.bytes, data + size, lenient));
          PrependLast(hdus, cards, ExtentOf(offset, header), header);
          hdus := hdus + [Extent(offset, BlocksFor(header), data)];
          cards := cards + [header];
          offset := data + size;
          if offset >= |f.bytes| {
            return true, Parsed(hdus, cards);
          }
      }
    }
  }

  lemma PrependNothing(p: Parsed)
    ensures Prepended([], [], p) == p
  {
    if p.Parsed? {
      assert [] + p.hdus == p.hdus && [] + p.cards == p.cards;
    }
  }

  lemma PrependToNothing(hdus: seq<Extent>, cards: seq<seq<string>>)
    ensures Prepended(hdus, cards, Parsed([], [])) == Parsed(hdus, cards)
    ensures Prepended(hdus, cards, Malformed) == Malformed
  {
  }

  lemma PrependLast(hdus: seq<Extent>, cards: seq<seq<string>>, h: Extent, c: seq<string>)
    ensures Prepended(hdus, cards, Parsed([h], [c])) == Parsed(hdus + [h], cards + [c])
  {
  }

  lemma PrependTwice(h1: seq<Extent>, c1: seq<seq<string>>, h2: seq<Extent>, c2: seq<seq<string>>, rest: Parsed)
    ensures Prepended(h1 + h2, c1 + c2, rest) == Prepended(h1, c1, Prepended(h2, c2, rest))
  {
    if rest.Parsed? {
      assert h1 + h2 + rest.hdus == h1 + (h2 + rest.hdus) && c1 + c2 + rest.cards == c1 + (c2 + rest.cards);
    }
  }

  // ===== what the writer wrote, read back =====

  predicate PrintableText(s: string) {
    forall i :: 0 <= i < |s| ==> ' ' <= s[i] <= '~'
  }

  // Cards as they are kept in memory, END last and only there.
  predicate WellFormedCards(cards: seq<string>) {
    && cards != [] && cards[|cards| - 1] == END_CARD
    && (forall k :: 0 <= k < |cards| - 1 ==> cards[k] != END_CARD)
    && forall k :: 0 <= k < |cards| ==> PrintableText(cards[k]) && EndsInk(cards[k]) && |cards[k]| <= CARD_SIZE
  }

  lemma CardReadsBack(card: string)
    requires PrintableText(card) && EndsInk(card) && |card| <= CARD_SIZE
    ensures TextOf(CardBytes(card)) == card
  {
    TrimPadded(card);
    assert TrimEnd(card) == card;
    PaddedIsPrintable(card);
    CardBytesAre(card);
    hide PadToCard, TrimEnd, CardBytes, Decoded, AsciiBytes, PrintableText;
    AsciiReadsBack(PadToCard(card));
  }

  lemma AsciiReadsBack(s: string)
    requires PrintableText(s)
    ensures Decoded(AsciiBytes(s)) == s
  {
  }

  lemma CardBytesAre(card: string)
    ensures CardBytes(card) == AsciiBytes(PadToCard(card))
  {
  }

  lemma PaddedIsPrintable(card: string)
    requires PrintableText(card)
    ensures PrintableText(PadToCard(card))
  {
  }

  lemma BlankReadsBack()
    ensures TextOf(BlankCard()) == ""
  {
    CardReadsBack("");
    assert CardBytes("") == BlankCard();
  }

  predicate PrintableBytes(bytes: seq<byte>) {
    forall i :: 0 <= i < |bytes| ==> PrintableByte(bytes[i])
  }

  lemma PrintableCard(card: string)
    requires PrintableText(card)
    ensures PrintableBytes(CardBytes(card))
  {
    PaddedIsPrintable(card);
    CardBytesAre(card);
    hide PadToCard;
  }

  lemma PrintableJoin(a: seq<byte>, b: seq<byte>)
    requires PrintableBytes(a) && PrintableBytes(b)
    ensures PrintableBytes(a + b)
  {
  }

  lemma {:induction false} PrintableCards(cards: seq<string>)
    requires forall k :: 0 <= k < |cards| ==> PrintableText(cards[k])
    ensures PrintableBytes(CardsBytes(cards))
  {
    hide PrintableText, PrintableBytes, CardBytes;
    if cards == [] {
      NothingPrintable();
    } else {
      var n := |cards| - 1;
      PrintableCards(cards[..n]);
      PrintableCard(cards[n]);
      PrintableJoin(CardsBytes(cards[..n]), CardBytes(cards[n]));
    }
  }

  lemma NothingPrintable()
    ensures PrintableBytes([])
  {
  }

  // The cards of block b of a header, then blanks.
  function BlockShare(cards: seq<string>, b: nat): (share: seq<string>)
    ensures |share| == 36
  {
    seq(36, k requires 0 <= k < 36 => CardOrBlank(cards, 36 * b + k))
  }

  function CardOrBlank(cards: seq<string>, n: nat): (text: string) {
    if n < |cards| then cards[n] else ""
  }

  lemma BlockOnDisk(disk: seq<byte>, h: Extent, cards: seq<string>, b: nat)
    requires HeaderOnDisk(disk, h, cards) && WellFormedCards(cards) && b < h.blocks
    ensures h.header + 2880 * b + 2880 <= |disk|
    ensures PrintableBlock(disk, h.header + 2880 * b)
    ensures BlockCards(disk, h.header + 2880 * b) == BlockShare(cards, b)
  {
    var pos := h.header + 2880 * b;
    PrintableHeader(disk, h, cards);
    hide HeaderImage, WellFormedCards, CardTextAt;
    forall k | 0 <= k < 36
      ensures BlockCards(disk, pos)[k] == BlockShare(cards, b)[k]
    {
      TextOnDisk(disk, h, cards, b, k);
    }
  }

  lemma PrintableImage(cards: seq<string>, blocks: nat)
    requires |cards| <= 36 * blocks && forall k :: 0 <= k < |cards| ==> PrintableText(cards[k])
    ensures PrintableBytes(HeaderImage(cards, blocks))
  {
    PrintableCards(cards);
    hide CardsBytes, PrintableText;
    PrintableJoin(CardsBytes(cards), Repeat(BLANK_BYTE, 2880 * blocks - 80 * |cards|));
  }

  lemma PrintableHeader(disk: seq<byte>, h: Extent, cards: seq<string>)
    requires HeaderOnDisk(disk, h, cards) && WellFormedCards(cards)
    ensures forall i :: h.header <= i < h.data ==> PrintableByte(disk[i])
  {
    PrintableImage(cards, h.blocks);
    hide HeaderImage, PrintableByte;
    forall i | h.header <= i < h.data
      ensures PrintableByte(disk[i])
    {
      assert disk[i] == disk[h.header..h.data][i - h.header];
    }
  }

  lemma TextOnDisk(disk: seq<byte>, h: Extent, cards: seq<string>, b: nat, k: nat)
    requires HeaderOnDisk(disk, h, cards) && WellFormedCards(cards) && b < h.blocks && k < 36
    ensures h.header + 2880 * b + 80 * k + 80 <= |disk|
    ensures CardTextAt(disk, h.header + 2880 * b, k) == CardOrBlank(cards, 36 * b + k)
  {
    hide *;
    var n, pos, at := 36 * b + k, h.header + 2880 * b, h.header + 80 * (36 * b + k);
    assert pos + 80 * k == at;
    SlotOnDisk(disk, h, cards, n);
    SlotReadsBack(cards, n);
    TextAtSlot(disk, pos, k, at);
    assert CardTextAt(disk, pos, k) == CardOrBlank(cards, n);
  }

  lemma TextAtSlot(disk: seq<byte>, pos: nat, k: nat, at: nat)
    requires at == pos + 80 * k && at + 80 <= |disk|
    ensures CardTextAt(disk, pos, k) == TextOf(Slot(disk, at))
  {
  }

  lemma SlotOnDisk(disk: seq<byte>, h: Extent, cards: seq<string>, n: nat)
    requires HeaderOnDisk(disk, h, cards) && n < 36 * h.blocks
    ensures h.header + 80 * n + 80 <= |disk|
    ensures Slot(disk, h.header + 80 * n) == if n < |cards| then CardBytes(cards[n]) else BlankCard()
  {
    SlotInImage(disk, h, cards, n);
    hide *;
    CardOnDisk(cards, h.blocks, n);
  }

  lemma SlotInImage(disk: seq<byte>, h: Extent, cards: seq<string>, n: nat)
    requires HeaderOnDisk(disk, h, cards) && n < 36 * h.blocks
    ensures h.header + 80 * n + 80 <= |disk| && |cards| <= 36 * h.blocks
    ensures disk[h.header + 80 * n..h.header + 80 * n + 80] == HeaderImage(cards, h.blocks)[80 * n..80 * n + 80]
  {
    hide HeaderImage;
    SliceOfSlice(disk, h.header, h.data, 80 * n, 80 * n + 80);
  }

  lemma SlotReadsBack(cards: seq<string>, n: nat)
    requires WellFormedCards(cards)
    ensures TextOf(if n < |cards| then CardBytes(cards[n]) else BlankCard()) == CardOrBlank(cards, n)
  {
    hide TextOf, CardBytes, BlankCard;
    if n < |cards| {
      CardReadsBack(cards[n]);
    } else {
      BlankReadsBack();
    }
  }

  lemma ShareIs(cards: seq<string>, b: nat)
    requires 36 * b < |cards|
    ensures |cards| >= 36 * b + 36 ==> BlockShare(cards, b) == cards[36 * b..36 * b + 36]
    ensures |cards| < 36 * b + 36 ==> BlockShare(cards, b)[..|cards| - 36 * b] == cards[36 * b..]
  {
    var share := BlockShare(cards, b);
    assert forall k :: 0 <= k < 36 ==> share[k] == CardOrBlank(cards, 36 * b + k);
  }

  // The END card is in the last block that holds cards.
  lemma EndInShare(cards: seq<string>, b: nat)
    requires WellFormedCards(cards) && 36 * b < |cards|
    ensures |cards| > 36 * b + 36 ==> FirstEnd(BlockShare(cards, b)) == 36
    ensures |cards| <= 36 * b + 36 ==> FirstEnd(BlockShare(cards, b)) == |cards| - 1 - 36 * b
  {
    var share := BlockShare(cards, b);
    var e := |cards| - 1 - 36 * b;
    hide FirstEnd;
    if e < 36 {
      forall k | 0 <= k <= e
        ensures share[k] == cards[36 * b + k]
      {
        assert share[k] == CardOrBlank(cards, 36 * b + k);
      }
      EndAt(share, e);
    } else {
      forall k | 0 <= k < 36
        ensures share[k] != END_CARD
      {
        assert share[k] == CardOrBlank(cards, 36 * b + k);
      }
      NoEnd(share);
    }
  }

  lemma SharesJoin(cards: seq<string>, b: nat)
    requires 36 * b < |cards|
    ensures |cards| > 36 * b + 36 ==> cards[..36 * b] + BlockShare(cards, b) == cards[..36 * (b + 1)]
    ensures |cards| <= 36 * b + 36 ==> cards[..36 * b] + BlockShare(cards, b)[..|cards| - 36 * b] == cards
  {
    ShareIs(cards, b);
    hide BlockShare;
    if |cards| > 36 * b + 36 {
      assert cards[..36 * b] + cards[36 * b..36 * b + 36] == cards[..36 * (b + 1)];
    } else {
      assert cards[..36 * b] + cards[36 * b..] == cards;
    }
  }

  lemma NextBlock(disk: seq<byte>, pos: nat, soFar: seq<string>, share: seq<string>, e: nat, lenient: bool)
    requires pos + 2880 <= |disk| && PrintableBlock(disk, pos) && share == BlockCards(disk, pos)
    requires e == FirstEnd(share)
    ensures ReadHeaderFrom(disk, pos, soFar, lenient)
         == if e < 36 then HeaderCards(soFar + share[..e + 1])
           else ReadHeaderFrom(disk, pos + 2880, soFar + share, lenient)
  {
    hide PrintableBlock, BlockCards, FirstEnd;
  }

  lemma {:induction false} BlocksRead(disk: seq<byte>, h: Extent, cards: seq<string>, b: nat, lenient: bool)
    requires HeaderOnDisk(disk, h, cards) && WellFormedCards(cards) && 36 * b < |cards|
    ensures ReadHeaderFrom(disk, h.header + 2880 * b, cards[..36 * b], lenient) == HeaderCards(cards)
    decreases |cards| - 36 * b
  {
    hide *;
    if |cards| > 36 * b + 36 {
      FullBlockRead(disk, h, cards, b, lenient);
      BlocksRead(disk, h, cards, b + 1, lenient);
    } else {
      LastBlockRead(disk, h, cards, b, lenient);
    }
  }

  lemma LastBlockRead(disk: seq<byte>, h: Extent, cards: seq<string>, b: nat, lenient: bool)
    requires HeaderOnDisk(disk, h, cards) && WellFormedCards(cards) && 36 * b < |cards| <= 36 * b + 36
    ensures ReadHeaderFrom(disk, h.header + 2880 * b, cards[..36 * b], lenient) == HeaderCards(cards)
  {
    EnoughBlocks(disk, h, cards, b);
    hide *;
    BlockOnDisk(disk, h, cards, b);
    EndInShare(cards, b);
    SharesJoin(cards, b);
    NextBlock(disk, h.header + 2880 * b, cards[..36 * b], BlockShare(cards, b), |cards| - 1 - 36 * b, lenient);
  }

  lemma FullBlockRead(disk: seq<byte>, h: Extent, cards: seq<string>, b: nat, lenient: bool)
    requires HeaderOnDisk(disk, h, cards) && WellFormedCards(cards) && |cards| > 36 * b + 36
    ensures ReadHeaderFrom(disk, h.header + 2880 * b, cards[..36 * b], lenient)
         == ReadHeaderFrom(disk, h.header + 2880 * (b + 1), cards[..36 * (b + 1)], lenient)
  {
    EnoughBlocks(disk, h, cards, b);
    hide *;
    BlockOnDisk(disk, h, cards, b);
    EndInShare(cards, b);
    SharesJoin(cards, b);
    var pos := h.header + 2880 * b;
    assert pos + 2880 == h.header + 2880 * (b + 1);
    OnToNextBlock(disk, pos, cards[..36 * b], BlockShare(cards, b), cards[..36 * (b + 1)], lenient);
    assert ReadHeaderFrom(disk, pos, cards[..36 * b], lenient)
        == ReadHeaderFrom(disk, pos + 2880, cards[..36 * (b + 1)], lenient);
  }

  lemma OnToNextBlock(disk: seq<byte>, pos: nat, soFar: seq<string>, share: seq<string>, joined: seq<string>,
                      lenient: bool)
    requires pos + 2880 <= |disk| && PrintableBlock(disk, pos) && share == BlockCards(disk, pos)
    requires FirstEnd(share) == 36 && soFar + share == joined
    ensures ReadHeaderFrom(disk, pos, soFar, lenient) == ReadHeaderFrom(disk, pos + 2880, joined, lenient)
  {
    hide *;
    NextBlock(disk, pos, soFar, share, 36, lenient);
  }

  lemma EnoughBlocks(disk: seq<byte>, h: Extent, cards: seq<string>, b: nat)
    requires HeaderOnDisk(disk, h, cards) && 36 * b < |cards|
    ensures b < h.blocks
  {
  }

  // A header read back block by block gives its cards.
  lemma HeaderReadsBack(disk: seq<byte>, h: Extent, cards: seq<string>, lenient: bool)
    requires HeaderOnDisk(disk, h, cards) && WellFormedCards(cards)
    ensures ReadHeaderFrom(disk, h.header, [], lenient) == HeaderCards(cards)
  {
    assert cards[..0] == [];
    assert 36 * 0 < |cards|;
    hide *;
    BlocksRead(disk, h, cards, 0, lenient);
  }

  // HDU i is what a writer makes of its cards: they are well formed, pass
  // validation and declare its data.
  predicate Plain(s: FileState, i: nat) {
    && i < |s.hdus| && i < |s.cards| && i < |s.sizes|
    && WellFormedCards(s.cards[i]) && HeaderValid(s.cards[i], i == 0)
    && RoundUpToBlock(s.sizes[i]) == RoundUpToBlock(DeclaredSize(s.cards[i]))
  }

  predicate AllPlain(s: FileState) {
    forall j :: 0 <= j < |s.hdus| ==> Plain(s, j)
  }

  // No HDU has spare header blocks.
  predicate NoSpareBlocks(s: FileState)
    requires |s.hdus| == |s.cards|
  {
    forall j :: 0 <= j < |s.hdus| ==> s.hdus[j].blocks == BlocksFor(s.cards[j])
  }

  lemma PlainAt(s: FileState, i: nat)
    requires Consistent(s) && i < |s.hdus| && AllPlain(s) && NoSpareBlocks(s)
    ensures |s.hdus| == |s.cards|
    ensures HeaderOnDisk(s.disk, s.hdus[i], s.cards[i]) && WellFormedCards(s.cards[i])
      && s.hdus[i].blocks == BlocksFor(s.cards[i])
    ensures HeaderValid(s.cards[i], s.hdus[i].header == 0)
    ensures EndOf(|s.disk|, s.hdus, i) == s.hdus[i].data + RoundUpToBlock(DeclaredSize(s.cards[i]))
    ensures i + 1 < |s.hdus| ==> EndOf(|s.disk|, s.hdus, i) == s.hdus[i + 1].header < |s.disk|
    ensures i + 1 == |s.hdus| ==> EndOf(|s.disk|, s.hdus, i) == |s.disk|
  {
    HduAt(s, i);
    assert Plain(s, i);
    if i + 1 < |s.hdus| {
      HduAt(s, i + 1);
    }
    OnlyFirstAtZero(s, i);
  }

  lemma OnlyFirstAtZero(s: FileState, i: nat)
    requires Consistent(s) && i < |s.hdus|
    ensures s.hdus[i].header == 0 <==> i == 0
  {
    HduAt(s, 0);
    if i > 0 {
      Ordered(|s.disk|, s.hdus, 0, i);
    }
  }

  lemma {:induction false} TailReadsBack(s: FileState, i: nat, lenient: bool)
    requires Consistent(s) && i < |s.hdus| == |s.cards| && AllPlain(s) && NoSpareBlocks(s)
    ensures ParseFrom(s.disk, s.hdus[i].header, lenient) == Parsed(s.hdus[i..], s.cards[i..])
    decreases |s.hdus| - i
  {
    hide *;
    PlainAt(s, i);
    HduReadsBack(s.disk, s.hdus[i], s.cards[i], EndOf(|s.disk|, s.hdus, i), lenient);
    if i + 1 < |s.hdus| {
      TailReadsBack(s, i + 1, lenient);
      TailFrom(s.hdus, s.cards, i);
    } else {
      assert s.hdus[i..] == [s.hdus[i]] && s.cards[i..] == [s.cards[i]];
    }
  }

  lemma TailFrom(hdus: seq<Extent>, cards: seq<seq<string>>, i: nat)
    requires i < |hdus| == |cards|
    ensures Prepended([hdus[i]], [cards[i]], Parsed(hdus[i + 1..], cards[i + 1..])) == Parsed(hdus[i..], cards[i..])
  {
    assert [hdus[i]] + hdus[i + 1..] == hdus[i..] && [cards[i]] + cards[i + 1..] == cards[i..];
  }

  lemma ParseStep(disk: seq<byte>, offset: nat, cards: seq<string>, h: Extent, next: nat, lenient: bool)
    requires ReadHeaderFrom(disk, offset, [], lenient) == HeaderCards(cards) && cards != []
    requires h == ExtentOf(offset, cards) && next == NextOffset(offset, cards) && HeaderValid(cards, offset == 0)
    ensures ParseFrom(disk, offset, lenient)
         == if next >= |disk| then Parsed([h], [cards]) else Prepended([h], [cards], ParseFrom(disk, next, lenient))
  {
    hide ReadHeaderFrom, ExtentOf, NextOffset, Prepended, HeaderValid;
  }

  lemma HduReadsBack(disk: seq<byte>, h: Extent, cards: seq<string>, next: nat, lenient: bool)
    requires HeaderOnDisk(disk, h, cards) && WellFormedCards(cards) && h.blocks == BlocksFor(cards)
    requires HeaderValid(cards, h.header == 0)
    requires next == h.data + RoundUpToBlock(DeclaredSize(cards))
    ensures ParseFrom(disk, h.header, lenient)
         == if next >= |disk| then Parsed([h], [cards]) else Prepended([h], [cards], ParseFrom(disk, next, lenient))
  {
    assert cards != [] && h == ExtentOf(h.header, cards) && next == NextOffset(h.header, cards);
    hide *;
    HeaderReadsBack(disk, h, cards, lenient);
    ParseStep(disk, h.header, cards, h, next, lenient);
  }

  // ----- the results -----

  // A strict open refuses a header block with a byte outside 0x20 to 0x7E; a
  // lenient one reads an underscore there.
  lemma StrictRefuses(disk: seq<byte>, pos: nat, i: nat)
    requires pos <= i < pos + 2880 <= |disk| && !(0x20 <= disk[i] <= 0x7E)
    ensures ParseFrom(disk, pos, false) == Malformed
    ensures i < pos + 80 ==> Decoded(Slot(disk, pos))[i - pos] == '_'
  {
    assert !PrintableByte(disk[i]);
    assert !PrintableBlock(disk, pos);
  }

  lemma PrintableIsKept(disk: seq<byte>, pos: nat, i: nat)
    requires pos <= i < pos + 80 <= |disk| && 0x20 <= disk[i] <= 0x7E
    ensures Decoded(Slot(disk, pos))[i - pos] as int == disk[i]
  {
  }

  // A file that ends inside a header is refused; one that ends behind an HDU
  // with less than a block to go is not.
  lemma CutHeaderIsRefused(disk: seq<byte>, pos: nat, lenient: bool)
    requires pos + 2880 <= |disk| < pos + 5760 && FirstEnd(BlockCards(disk, pos)) == 36
    ensures ParseFrom(disk, pos, lenient) == Malformed
  {
    hide PrintableBlock, FirstEnd;
    assert ReadHeaderFrom(disk, pos + 2880, BlockCards(disk, pos), lenient) == Broken;
    assert [] + BlockCards(disk, pos) == BlockCards(disk, pos);
  }

  lemma ShortRestIsNoHeader(disk: seq<byte>, pos: nat, lenient: bool)
    requires pos + 2880 > |disk|
    ensures ParseFrom(disk, pos, lenient) == Parsed([], [])
  {
  }

  // Whatever a parse gives, its block counts are those of its cards.
  lemma {:induction false} ParsedBlocks(disk: seq<byte>, offset: nat, lenient: bool)
    ensures var p := ParseFrom(disk, offset, lenient);
      p.Parsed? ==> |p.hdus| == |p.cards| && forall j :: 0 <= j < |p.hdus| ==> p.hdus[j].blocks == BlocksFor(p.cards[j])
    decreases |disk| - offset
  {
    var read := ReadHeaderFrom(disk, offset, [], lenient);
    hide ReadHeaderFrom, BlocksFor, RoundUpToBlock, DeclaredSize, HeaderValid;
    if read.HeaderCards? {
      Advances(offset, read.cards);
      if NextOffset(offset, read.cards) < |disk| {
        ParsedBlocks(disk, NextOffset(offset, read.cards), lenient);
      }
    }
  }

  // Reopening a consistent file gives the records and cards held in memory
  // exactly when no HDU has spare header blocks.
  lemma ReopenIff(s: FileState, lenient: bool)
    requires Consistent(s) && |s.hdus| == |s.cards| && AllPlain(s)
    ensures ParseFrom(s.disk, 0, lenient) == Parsed(s.hdus, s.cards) <==> NoSpareBlocks(s)
  {
    ParsedBlocks(s.disk, 0, lenient);
    if NoSpareBlocks(s) {
      if s.hdus == [] {
        EmptyReopens(s, lenient);
      } else {
        FirstStartsFile(s);
        hide *;
        TailReadsBack(s, 0, lenient);
        assert s.hdus[0..] == s.hdus && s.cards[0..] == s.cards;
      }
    }
  }

  lemma FirstStartsFile(s: FileState)
    requires Consistent(s) && s.hdus != []
    ensures s.hdus[0].header == 0
  {
  }

  lemma EmptyReopens(s: FileState, lenient: bool)
    requires Consistent(s) && s.hdus == []
    ensures ParseFrom(s.disk, 0, lenient) == Parsed([], [])
    ensures s.cards == []
  {
  }

  // Cards as a creation call passes them, with the size it sets aside; the
  // first HDU is a primary one.
  predicate PlainAppend(op: Op, first: bool) {
    && op.Append? && WellFormedCards(TrimmedAll(op.cards)) && HeaderValid(TrimmedAll(op.cards), first)
    && RoundUpToBlock(op.size) == RoundUpToBlock(DeclaredSize(TrimmedAll(op.cards)))
  }

  lemma TrimmedBlocks(cards: seq<string>)
    ensures BlocksFor(TrimmedAll(cards)) == BlocksFor(cards)
  {
  }

  lemma AppendStaysPlain(s: FileState, op: Op)
    requires |s.hdus| == |s.cards| == |s.sizes| && AllPlain(s) && NoSpareBlocks(s) && PlainAppend(op, s.hdus == [])
    ensures var s' := Appended(s, op.cards, op.size);
      |s'.hdus| == |s'.cards| == |s'.sizes| && AllPlain(s') && NoSpareBlocks(s')
  {
    TrimmedBlocks(op.cards);
    hide WellFormedCards, HeaderValid, RoundUpToBlock, DeclaredSize, BlocksFor, NewHdu, TrimmedAll;
    var s' := Appended(s, op.cards, op.size);
    forall j | 0 <= j < |s'.hdus|
      ensures Plain(s', j) && s'.hdus[j].blocks == BlocksFor(s'.cards[j])
    {
      if j < |s.hdus| {
        assert Plain(s, j);
      }
    }
  }

  // A file built by appends alone, of any number of HDUs, re-parses to the
  // same header offsets, block counts, data offsets and trimmed cards, unless
  // an append that failed has left a byte.
  lemma {:induction false} AppendsReparse(trace: seq<FileState>, ops: seq<Op>, k: nat)
    requires Run(trace, ops) && k < |trace| && trace[0] == FileState([], [], [], [], false)
    requires StrayBytes(trace, ops, k) == 0 && forall n :: 0 <= n < |ops| ==> PlainAppend(ops[n], trace[n].hdus == [])
    ensures !trace[k].tainted && Consistent(trace[k])
    ensures |trace[k].hdus| == |trace[k].cards| == |trace[k].sizes| && AllPlain(trace[k]) && NoSpareBlocks(trace[k])
    ensures ParseFrom(trace[k].disk, 0, false) == Parsed(trace[k].hdus, trace[k].cards)
  {
    hide *;
    if k == 0 {
      NoHdusYet();
    } else {
      LastAppend(trace, ops, k);
      AppendsReparse(trace, ops, k - 1);
      if trace[k] != trace[k - 1] {
        OneMoreAppend(trace[k - 1], ops[k - 1]);
      }
    }
    ReopenIff(trace[k], false);
  }

  lemma NoHdusYet()
    ensures var s := FileState([], [], [], [], false); Consistent(s) && AllPlain(s) && NoSpareBlocks(s)
  {
    EmptyFileIsConsistent();
  }

  lemma OneMoreAppend(s: FileState, op: Op)
    requires !s.tainted && Consistent(s) && |s.hdus| == |s.cards| == |s.sizes| && AllPlain(s) && NoSpareBlocks(s)
    requires PlainAppend(op, s.hdus == []) && FullCards(op.cards)
    ensures var s' := Appended(s, op.cards, op.size);
      && !s'.tainted && Consistent(s') && |s'.hdus| == |s'.cards| == |s'.sizes| && AllPlain(s') && NoSpareBlocks(s')
  {
    AppendStaysPlain(s, op);
    hide Consistent, AllPlain, NoSpareBlocks, NewHdu, BlocksFor, TrimmedAll, PlainAppend, FullCards;
    AppendStaysConsistent(s, op.cards, op.size);
  }

  lemma LastAppend(trace: seq<FileState>, ops: seq<Op>, k: nat)
    requires Run(trace, ops) && 0 < k < |trace| && StrayBytes(trace, ops, k) == 0
    requires forall n :: 0 <= n < |ops| ==> PlainAppend(ops[n], trace[n].hdus == [])
    ensures k <= |ops| < |trace| && StrayBytes(trace, ops, k - 1) == 0
    ensures PlainAppend(ops[k - 1], trace[k - 1].hdus == []) && FullCards(ops[k - 1].cards)
    ensures trace[k] == trace[k - 1] || trace[k] == Appended(trace[k - 1], ops[k - 1].cards, ops[k - 1].size)
  {
    hide FullCards, NewHdu, BlocksFor, TrimmedAll, WellFormedCards, RoundUpToBlock, DeclaredSize, HeaderValid;
    assert Next(trace[k - 1], ops[k - 1], trace[k]) && PlainAppend(ops[k - 1], trace[k - 1].hdus == []);
    NothingTaken(trace[k - 1], ops[k - 1], trace[k]);
    StrayBytesGrow(trace, ops, 0, k - 1);
  }
}
