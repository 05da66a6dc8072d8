// A header that loses a card keeps its blocks: one image that does not reopen
// as it was, and whose next extend puts its header in the wrong place.
module SpareBlocks {
  import opened FitsBytes
  import opened CardText
  import opened HeaderBlocks
  import opened LayoutModel
  import opened FileRuns
  import opened SoundRuns
  import opened CardNumbers
  import opened DataSize
  import opened FileStorage
  import opened FitsFiles
  import opened SliceMath
  import opened ImageData
  import opened Reparse
  import opened ImageExtend

  const SIMPLE_CARD := "SIMPLE  =                    T"

  // The cards of a primary image of `pixels` bytes, as a creation call passes
  // them: extra cards, n comments and END behind the size cards.
  function FullHeader(pixels: nat, extra: seq<string>, n: nat): (cards: seq<string>) {
    ImageCards(PadToCard(SIMPLE_CARD), 8, [pixels], true,
               extra + (Repeat(PadToCard("COMMENT"), n) + [PadToCard("END")]))
  }

  function KeptHeader(pixels: nat, extra: seq<string>, n: nat): (cards: seq<string>) {
    TrimmedAll(FullHeader(pixels, extra, n))
  }

  function ExtraCard(): (card: string) {
    CardInt("EXPNUM", 7, "")
  }

  predicate Extra(extra: seq<string>) {
    extra == [] || extra == [ExtraCard()]
  }

  // ----- what the header says -----

  // A card behind the first one.
  predicate LaterCard(card: string) {
    PrintableText(card) && EndsInk(card) && 0 < |card| <= CARD_SIZE && card[0] != 'S'
  }

  lemma PrintableTrimmed(s: string)
    requires PrintableText(s)
    ensures PrintableText(TrimEnd(s))
  {
    TrimEndCuts(s);
  }

  lemma IntTextPrints(v: int)
    ensures PrintableText(IntText(v))
  {
    hide Decimal;
  }

  lemma IntCardLater(key: string, value: int, comment: string)
    requires IsKey(key) && key[0] != 'S' && PrintableText(key) && PrintableText(comment) && FitsI64(value)
    ensures var card := CardIntTrimmed(key, value, comment);
      LaterCard(card) && card != END_CARD && |card| >= 9 && Trim(card[..8]) == key
  {
    IntTextPrints(value);
    IntTextFits(value);
    var rest := TrimmedField(key, value, comment);
    KeyField(key);
    hide IntText, Trim, TrimEnd;
    var full, card := CardInt(key, value, comment), CardIntTrimmed(key, value, comment);
    assert PrintableText(full);
    PrintableTrimmed(full);
    assert card[..8] == PadTo(key, 8) && card[0] == key[0];
  }

  lemma ShortTrimmed(s: string)
    requires s == "COMMENT" || s == "END" || s == SIMPLE_CARD
    ensures TrimEnd(PadToCard(s)) == s && PrintableText(s)
  {
    hide PadToCard;
    TrimPadded(s);
  }

  lemma SimpleCard()
    ensures |SIMPLE_CARD| == 30 && SIMPLE_CARD[..8] == "SIMPLE  " && Trim(SIMPLE_CARD[..8]) == "SIMPLE"
    ensures Trim(SIMPLE_CARD) != ""
  {
    TrimOf("", "SIMPLE", "  ");
    assert "" + "SIMPLE" + "  " == "SIMPLE  ";
    hide TrimEnd, TrimStart;
    TrimOf("", SIMPLE_CARD, "");
    assert "" + SIMPLE_CARD + "" == SIMPLE_CARD;
  }

  lemma HeaderLength(pixels: nat, extra: seq<string>, n: nat)
    ensures |FullHeader(pixels, extra, n)| == |KeptHeader(pixels, extra, n)| == |extra| + n + 5
  {
    hide CardInt, AxisKey, PadToCard;
  }

  // Card k of such a header.
  function KeptCard(pixels: nat, extra: nat, n: nat, k: nat): (card: string) {
    if k == 0 then SIMPLE_CARD
    else if k == 1 then CardIntTrimmed("BITPIX", 8, "number of bits per data pixel")
    else if k == 2 then CardIntTrimmed("NAXIS", 1, "number of data axes")
    else if k == 3 then CardIntTrimmed(AxisKey(1), pixels, "length of data axis " + Decimal(1))
    else if k < 4 + extra then CardIntTrimmed("EXPNUM", 7, "")
    else if k < 4 + extra + n then "COMMENT" else "END"
  }

  lemma HeaderCard(pixels: nat, extra: seq<string>, n: nat, k: nat)
    requires Extra(extra) && k < |extra| + n + 5
    ensures |KeptHeader(pixels, extra, n)| == |extra| + n + 5
    ensures KeptHeader(pixels, extra, n)[k] == KeptCard(pixels, |extra|, n, k)
  {
    HeaderLength(pixels, extra, n);
    ShortTrimmed("COMMENT");
    ShortTrimmed("END");
    ShortTrimmed(SIMPLE_CARD);
    hide CardInt, AxisKey, PadToCard, TrimEnd, Decimal;
    assert AxisCards([pixels])[0] == AxisCard([pixels], 1);
  }

  lemma AxisKeyOne()
    ensures AxisKey(1) == "NAXIS1" && IsKey(AxisKey(1)) && PrintableText("length of data axis " + Decimal(1))
  {
    assert Decimal(1) == "1";
  }

  lemma LaterCards(pixels: nat, extra: seq<string>, n: nat, k: nat)
    requires Extra(extra) && 0 < k < |extra| + n + 5 && FitsI64(pixels)
    ensures |KeptHeader(pixels, extra, n)| == |extra| + n + 5 && LaterCard(KeptHeader(pixels, extra, n)[k])
    ensures KeptHeader(pixels, extra, n)[k] == END_CARD <==> k == |extra| + n + 4
  {
    hide *;
    HeaderCard(pixels, extra, n, k);
    if k < 4 {
      SizeCardLater(pixels, |extra|, n, k);
    } else {
      RestCardLater(pixels, |extra|, n, k);
    }
  }

  lemma SizeCardLater(pixels: nat, extra: nat, n: nat, k: nat)
    requires 0 < k < 4 && FitsI64(pixels)
    ensures LaterCard(KeptCard(pixels, extra, n, k)) && KeptCard(pixels, extra, n, k) != END_CARD
  {
    AxisKeyOne();
    hide CardIntTrimmed, AxisKey, Decimal, LaterCard;
    if k == 1 {
      IntCardLater("BITPIX", 8, "number of bits per data pixel");
    } else if k == 2 {
      IntCardLater("NAXIS", 1, "number of data axes");
    } else {
      IntCardLater("NAXIS1", pixels, "length of data axis " + Decimal(1));
    }
  }

  lemma RestCardLater(pixels: nat, extra: nat, n: nat, k: nat)
    requires 4 <= k < extra + n + 5
    ensures LaterCard(KeptCard(pixels, extra, n, k))
    ensures KeptCard(pixels, extra, n, k) == END_CARD <==> k == extra + n + 4
  {
    hide CardIntTrimmed;
    IntCardLater("EXPNUM", 7, "");
  }

  // Such a header is one a writer makes: well formed, valid for every open,
  // and declaring its pixels.
  lemma HeaderIsWellFormed(pixels: nat, extra: seq<string>, n: nat)
    requires Extra(extra) && FitsI64(pixels)
    ensures WellFormedCards(KeptHeader(pixels, extra, n)) && FullCards(FullHeader(pixels, extra, n))
    ensures HeaderValid(KeptHeader(pixels, extra, n), true) && DeclaredSize(KeptHeader(pixels, extra, n)) == pixels
  {
    hide *;
    CardsAreWellFormed(pixels, extra, n);
    CardsAreFull(pixels, extra, n);
    CardsAreValid(pixels, extra, n);
  }

  lemma CardsAreWellFormed(pixels: nat, extra: seq<string>, n: nat)
    requires Extra(extra) && FitsI64(pixels)
    ensures WellFormedCards(KeptHeader(pixels, extra, n))
  {
    HeaderLength(pixels, extra, n);
    HeaderCard(pixels, extra, n, 0);
    ShortTrimmed(SIMPLE_CARD);
    var cards := KeptHeader(pixels, extra, n);
    hide KeptHeader, FullHeader, PrintableText, EndsInk, PadToCard, TrimEnd, Extra;
    SimpleInk();
    forall k | 0 <= k < |cards|
      ensures PrintableText(cards[k]) && EndsInk(cards[k]) && |cards[k]| <= CARD_SIZE
      ensures cards[k] == END_CARD <==> k == |cards| - 1
    {
      if k > 0 {
        LaterCards(pixels, extra, n, k);
      }
    }
  }

  lemma SimpleInk()
    ensures EndsInk(SIMPLE_CARD) && |SIMPLE_CARD| == 30
  {
  }

  lemma CardsAreFull(pixels: nat, extra: seq<string>, n: nat)
    requires Extra(extra)
    ensures FullCards(FullHeader(pixels, extra, n))
  {
    HeaderLength(pixels, extra, n);
    hide AxisKey, Decimal, IntText;
  }

  lemma CardsAreValid(pixels: nat, extra: seq<string>, n: nat)
    requires Extra(extra) && FitsI64(pixels)
    ensures HeaderValid(KeptHeader(pixels, extra, n), true) && DeclaredSize(KeptHeader(pixels, extra, n)) == pixels
  {
    var kept, first := KeptHeader(pixels, extra, n), PadToCard(SIMPLE_CARD);
    var rest := extra + (Repeat(PadToCard("COMMENT"), n) + [PadToCard("END")]);
    HeaderLength(pixels, extra, n);
    HeaderCard(pixels, extra, n, 0);
    ShortTrimmed(SIMPLE_CARD);
    SimpleIsSilent();
    RestIsSilent(extra, n);
    FirstKeyIsSimple(kept);
    OnePixelAxis(pixels);
    hide Silent, TrimEnd, ImageCards, PadToCard, HeaderValid, DeclaredSize, AllottedSize, FirstKey;
    ImageHeaderIsValid(first, 8, [pixels], true, rest, kept);
    ImageSizeAgrees(first, 8, [pixels], true, rest, kept);
  }

  lemma OnePixelAxis(pixels: nat)
    requires FitsI64(pixels)
    ensures AllottedSize(8, [pixels]) == pixels <= U64_MAX && Magnitude(8) / 8 == 1
  {
    assert SatProduct([pixels], 0) == 1;
    assert SatProduct([pixels], 1) == pixels;
  }

  lemma SimpleIsSilent()
    ensures Silent(SIMPLE_CARD)
  {
    SimpleCard();
    hide Trim;
    assert "SIMPLE"[0] == 'S' && "NAXIS"[0] == 'N' && "BITPIX"[0] == 'B' && "PCOUNT"[0] == 'P' && "GCOUNT"[0] == 'G';
  }

  lemma FirstKeyIsSimple(cards: seq<string>)
    requires cards != [] && cards[0] == SIMPLE_CARD
    ensures FirstKey(cards) == "SIMPLE"
  {
    SimpleCard();
    hide Trim;
  }

  lemma RestIsSilent(extra: seq<string>, n: nat)
    requires Extra(extra)
    ensures var rest := extra + (Repeat(PadToCard("COMMENT"), n) + [PadToCard("END")]);
      forall k :: 0 <= k < |rest| ==> Silent(TrimEnd(rest[k]))
  {
    ShortTrimmed("COMMENT");
    ShortTrimmed("END");
    IntCardLater("EXPNUM", 7, "");
    hide TrimEnd, PadToCard, Trim, CardInt;
  }

  // ----- one card deleted -----

  // 37 cards are written, then one of them is deleted.
  function Start(): (r: FileState) {
    FileState([], [], [], [], false)
  }

  function Cards37(): (cards: seq<string>) {
    FullHeader(1, [ExtraCard()], 31)
  }

  function Cards36(): (cards: seq<string>) {
    KeptHeader(1, [], 31)
  }

  // All but the extra card.
  lemma OneCardLess()
    ensures |Cards37()| == 37 && Cards36() == TrimmedAll(Cards37())[..4] + TrimmedAll(Cards37())[5..]
  {
    var more, less := KeptHeader(1, [ExtraCard()], 31), KeptHeader(1, [], 31);
    assert more == TrimmedAll(Cards37());
    hide KeptHeader, FullHeader, TrimmedAll;
    HeaderLength(1, [ExtraCard()], 31);
    HeaderLength(1, [], 31);
    forall k | 0 <= k < 36 ensures less[k] == (more[..4] + more[5..])[k] {
      HeaderCard(1, [], 31, k);
      HeaderCard(1, [ExtraCard()], 31, if k < 4 then k else k + 1);
    }
  }

  function Written37(): (r: FileState) {
    Appended(Start(), Cards37(), 1)
  }

  function Kept36(): (r: FileState)
    requires |Written37().hdus| > 0 && |Written37().cards| > 0 && Written37().hdus[0].data <= |Written37().disk|
  {
    HeaderEdited(Written37(), 0, Cards36())
  }

  lemma TwoBlocks()
    ensures |Cards36()| == 36 && |Cards37()| == 37 && BlocksFor(Cards36()) == 1 && BlocksFor(Cards37()) == 2
    ensures RoundUpToBlock(1) == 2880
  {
    HeaderLength(1, [ExtraCard()], 31);
    HeaderLength(1, [], 31);
    hide KeptHeader, FullHeader;
  }

  lemma BothAreWellFormed()
    ensures FullCards(Cards37()) && WellFormedCards(Cards36()) && HeaderValid(Cards36(), true)
    ensures DeclaredSize(Cards36()) == 1
  {
    TheCards();
    hide Cards36, Cards37, FullHeader, KeptHeader, FullCards, WellFormedCards, HeaderValid, DeclaredSize, ExtraCard;
    HeaderIsWellFormed(1, [ExtraCard()], 31);
    HeaderIsWellFormed(1, [], 31);
  }

  lemma TheCards()
    ensures Cards37() == FullHeader(1, [ExtraCard()], 31) && Extra([ExtraCard()])
    ensures Cards36() == KeptHeader(1, [], 31) && Extra([])
  {
    hide FullHeader, KeptHeader, ExtraCard;
  }

  lemma WrittenIsConsistent()
    ensures Consistent(Written37()) && !Written37().tainted
    ensures Written37().hdus == [Extent(0, 2, 5760)] && |Written37().cards| == 1 && Written37().sizes == [1]
    ensures Written37().hdus[0].data <= |Written37().disk|
  {
    EmptyFileIsConsistent();
    BothAreWellFormed();
    TwoBlocks();
    hide Consistent, Cards37, Cards36, WellFormedCards, HeaderValid, DeclaredSize, BlocksFor, FullCards, NewHdu;
    hide TrimmedAll, ExtraCard, RoundUpToBlock;
    AppendStaysConsistent(Start(), Cards37(), 1);
    HduAt(Written37(), 0);
  }

  lemma KeptIsConsistent()
    ensures Consistent(Written37()) && !Written37().tainted
    ensures |Written37().hdus| == 1 && |Written37().cards| == 1 && Written37().hdus[0].data <= |Written37().disk|
    ensures var s := Kept36();
      && Consistent(s) && !s.tainted && |s.hdus| == 1 && s.cards == [Cards36()] && s.sizes == [1]
      && s.hdus[0].blocks == 2
  {
    WrittenIsConsistent();
    TwoBlocks();
    hide Consistent, Cards36, BlocksFor, Written37, HeaderEditKeeps;
    HeaderEditStaysConsistent(Written37(), 0, Cards36());
    EditedCards();
    HduAt(Kept36(), 0);
  }

  lemma EditedCards()
    requires |Written37().hdus| == 1 && |Written37().cards| == 1 && Written37().hdus[0].data <= |Written37().disk|
    ensures Kept36().cards == [Cards36()] && Kept36().sizes == Written37().sizes
      && Kept36().tainted == Written37().tainted
  {
    hide Cards36, Written37, EditedDisk, GrownHeader;
    assert Written37().cards[0 := Cards36()] == [Cards36()];
  }

  // The file on disk and the records in memory are as they should be, every
  // header passes validation, and reopening the file still gives something
  // else.
  lemma DeletedCardIsNotForgotten(lenient: bool)
    ensures |Written37().hdus| == 1 && |Written37().cards| == 1 && Written37().hdus[0].data <= |Written37().disk|
    ensures |Written37().cards[0]| == 37 && |Kept36().cards| == 1
    ensures Kept36().cards[0] == Written37().cards[0][..4] + Written37().cards[0][5..]
    ensures var s := Kept36();
      && Run([Start(), Written37(), s], [Append(Cards37(), 1), EditHeader(0, Cards36())])
      && Consistent(s) && |s.hdus| == |s.cards| && AllPlain(s) && !NoSpareBlocks(s)
      && ParseFrom(s.disk, 0, lenient) != Parsed(s.hdus, s.cards)
  {
    hide *;
    KeptIsConsistent();
    OneCardLess();
    StartIs();
    TwoSteps();
    KeptIsPlain();
    ReopenIff(Kept36(), lenient);
  }

  lemma KeptIsPlain()
    ensures |Written37().hdus| == 1 && |Written37().cards| == 1 && Written37().hdus[0].data <= |Written37().disk|
    ensures |Kept36().hdus| == |Kept36().cards| && AllPlain(Kept36()) && !NoSpareBlocks(Kept36())
  {
    hide *;
    KeptIsConsistent();
    BothAreWellFormed();
    TwoBlocks();
    PlainButSpare(Kept36(), Cards36());
  }

  lemma PlainButSpare(s: FileState, cards: seq<string>)
    requires |s.hdus| == 1 && s.cards == [cards] && s.sizes == [1] && s.hdus[0].blocks == 2
    requires WellFormedCards(cards) && HeaderValid(cards, true) && DeclaredSize(cards) == 1 && BlocksFor(cards) == 1
    ensures AllPlain(s) && !NoSpareBlocks(s)
  {
    hide BlocksFor, WellFormedCards, HeaderValid, DeclaredSize, RoundUpToBlock;
    assert Plain(s, 0);
    assert s.hdus[0].blocks != BlocksFor(s.cards[0]);
  }

  lemma TwoSteps()
    ensures |Written37().hdus| == 1 && |Written37().cards| == 1 && Written37().hdus[0].data <= |Written37().disk|
    ensures Run([Start(), Written37(), Kept36()], [Append(Cards37(), 1), EditHeader(0, Cards36())])
  {
    WrittenIsConsistent();
    BothAreWellFormed();
    hide Cards36, Cards37, Appended, HeaderEdited, FullCards, Consistent, WellFormedCards, HeaderValid, DeclaredSize;
    TwoStepRun(Start(), Written37(), Kept36(), Append(Cards37(), 1), EditHeader(0, Cards36()));
  }

  lemma TwoStepRun(s0: FileState, s1: FileState, s2: FileState, a: Op, b: Op)
    requires Next(s0, a, s1) && Next(s1, b, s2)
    ensures Run([s0, s1, s2], [a, b])
  {
    hide Next;
    var trace, ops := [s0, s1, s2], [a, b];
    forall k | 0 <= k < 2 ensures Next(trace[k], ops[k], trace[k + 1]) {
      if k == 1 {
        assert trace[k + 1] == s2;
      }
    }
  }

  // ----- the image extended -----

  // One pixel more: the header on disk is not the one in memory.
  lemma ExtendMissesHeader(p: Piece, s': FileState)
    requires OnePixel(p)
    ensures |Written37().hdus| == 1 && |Written37().cards| == 1 && Written37().hdus[0].data <= |Written37().disk|
    ensures Rows([1], p)
    ensures Extended(Kept36(), 0, AxisUpdate(Cards36(), [1], p), [1], p, s') ==>
      !Consistent(s') && !HeaderOnDisk(s'.disk, Kept36().hdus[0], s'.cards[0])
  {
    KeptIsConsistent();
    PixelBehind(p);
    hide *;
    OnePixelMisses(Kept36(), p, s');
  }

  // A pixel of one byte behind the first one.
  predicate OnePixel(p: Piece) {
    p.start == [1] && p.dims == [1] && p.bpp == 1 && |p.data| == 1
  }

  lemma PixelBehind(p: Piece)
    requires OnePixel(p)
    ensures Rows([1], p) && GrownShape([1], p) == [2] && ImageBytes([1], 1) == 1 && ImageBytes(p.dims, p.bpp) == 1
  {
    VolumeOfOne(1);
  }

  lemma VolumeOfOne(n: nat)
    ensures Volume([n]) == n
  {
    assert [n][..0] == [];
  }

  lemma OnePixelMisses(s: FileState, p: Piece, s': FileState)
    requires OnePixel(p) && Rows([1], p)
    requires Consistent(s) && !s.tainted && |s.hdus| == 1 && s.cards == [Cards36()] && s.sizes == [1]
    requires s.hdus[0].blocks == 2
    ensures Extended(s, 0, AxisUpdate(Cards36(), [1], p), [1], p, s') ==>
      !Consistent(s') && !HeaderOnDisk(s'.disk, s.hdus[0], s'.cards[0])
  {
    PixelBehind(p);
    var axis := AxisUpdate(Cards36(), [1], p);
    LongerHeader(p);
    hide Consistent, Cards36, BlocksFor, Extended, GrownShape, ImageBytes, FirstCardStandsOut, Rows;
    hide HeaderOnDisk, NewCards, AxisUpdate;
    if Extended(s, 0, axis, [1], p, s') {
      ExtendedParts(s, 0, axis, [1], p, s');
      ExtendHeaderIff(s, 0, axis, [1], p, s');
      ExtendConsistentIff(s, 0, axis, [1], p, s');
    }
  }

  // The new header: as long as the old one, NAXIS1 renewed, SIMPLE first.
  lemma LongerHeader(p: Piece)
    requires OnePixel(p) && Rows([1], p)
    ensures var cards := NewCards(Cards36(), AxisUpdate(Cards36(), [1], p));
      BlocksFor(cards) == 1 && FirstCardStandsOut(cards)
  {
    hide Cards36, FirstCardStandsOut, LengthCardOf, SimpleFirst, NewCards, AxisUpdate, GrownShape, Rows, BlocksFor;
    PixelBehind(p);
    TwoBlocks();
    CardsOf36();
    UpdateIs(Cards36(), p);
    RenewedStandsOut(Cards36(), 2);
    SameBlocks(Cards36(), AxisUpdate(Cards36(), [1], p));
  }

  lemma UpdateIs(cards: seq<string>, p: Piece)
    requires Rows([1], p) && GrownShape([1], p) == [2]
    ensures AxisUpdate(cards, [1], p) == LengthCardOf(cards, 1, 2)
  {
    hide GrownShape, LengthCardOf;
  }

  lemma SameBlocks(cards: seq<string>, axis: LengthCard)
    ensures |NewCards(cards, axis)| == |cards| && BlocksFor(NewCards(cards, axis)) == BlocksFor(cards)
  {
  }

  predicate SimpleFirst(cards: seq<string>) {
    cards != [] && cards[0] == SIMPLE_CARD && forall k :: 0 < k < |cards| ==> LaterCard(cards[k])
  }

  lemma CardsOf36()
    ensures SimpleFirst(Cards36())
  {
    TheCards();
    HeaderLength(1, [], 31);
    HeaderCard(1, [], 31, 0);
    hide KeptHeader, FullHeader, LaterCard;
    forall k | 0 < k < 36 ensures LaterCard(Cards36()[k]) {
      LaterCards(1, [], 31, k);
    }
  }

  lemma RenewedStandsOut(cards: seq<string>, length: nat)
    requires SimpleFirst(cards) && FitsI64(length)
    ensures FirstCardStandsOut(NewCards(cards, LengthCardOf(cards, 1, length)))
  {
    AxisKeyOne();
    SimpleCard();
    IntCardLater("NAXIS1", length, "length of data axis " + Decimal(1));
    hide CardIntTrimmed, Decimal, AxisKey, Trim, LaterCard, FirstCardStandsOut;
    assert !NamesAxis(cards[0], 1);
    StandsOut(NewCards(cards, LengthCardOf(cards, 1, length)));
  }

  lemma FirstByte(card: string)
    requires card != ""
    ensures CardBytes(card)[0] == AsciiByte(card[0])
  {
  }

  lemma BlankFirst()
    ensures BlankCard()[0] == 32
  {
  }

  lemma StandsOut(cards: seq<string>)
    requires SimpleFirst(cards)
    ensures FirstCardStandsOut(cards)
  {
    BlankFirst();
    hide CardBytes, BlankCard;
    FirstByte(SIMPLE_CARD);
    forall k | 0 < k < |cards|
      ensures CardBytes(cards[k]) != CardBytes(cards[0])
    {
      FirstByte(cards[k]);
    }
  }

  // An image written and one of its cards deleted, where nothing fails.
  method ShrinkHeader() returns (f: FitsFile)
    ensures fresh(f) && fresh(f.file) && f.Valid() && !f.file.mayFail
    ensures |Written37().hdus| == 1 && |Written37().cards| == 1 && Written37().hdus[0].data <= |Written37().disk|
    ensures f.State() == Kept36() && fresh(f.layout)
  {
    WrittenIsConsistent();
    BothAreWellFormed();
    hide Cards36, Cards37, WellFormedCards, HeaderValid, DeclaredSize, FullCards, Appended, HeaderEdited, Consistent;
    hide Sound, Next, Written37, Kept36, TrimmedAll, ExtraCard;
    var file := new Storage([], false);
    f := new FitsFile(file, 4096);
    StartIs();
    assert f.State() == Start();
    var ok := f.AppendHdu(Cards37(), 1);
    ConsistentIsSound(f.State());
    SoundIsGood(f.State());
    ok := f.EditHeader(0, Cards36());
    OtherCards();
    EditedIs(f.State());
  }

  lemma StartIs()
    ensures Start() == FileState([], [], [], [], false) && Written37() == Appended(Start(), Cards37(), 1)
    ensures Written37().cards == [TrimmedAll(Cards37())]
  {
    hide Cards37, TrimmedAll, NewHdu, BlocksFor;
  }

  lemma SoundIsGood(s: FileState)
    requires Sound(s)
    ensures Good(s)
  {
    hide Sound;
  }

  lemma OtherCards()
    ensures [Cards36()] != [TrimmedAll(Cards37())]
  {
    TwoBlocks();
    hide Cards36, Cards37;
    assert |Cards37()| == 37;
  }

  lemma EditedIs(s: FileState)
    requires |Written37().hdus| == 1 && |Written37().cards| == 1 && Written37().hdus[0].data <= |Written37().disk|
    requires Next(Written37(), EditHeader(0, Cards36()), s) && s.cards != Written37().cards
    ensures s == Kept36()
  {
    hide Written37, Cards36, HeaderEdited;
  }

  // ... and a pixel appended: every call reports success, nothing is tainted,
  // and the file is not what the records say.
  method AppendToShrunkHeader(p: Piece) returns (f: FitsFile)
    requires OnePixel(p)
    ensures fresh(f) && f.Valid() && !f.tainted && !Consistent(f.State())
  {
    f := ShrinkHeader();
    PixelBehind(p);
    KeptIsConsistent();
    AxisIsNamed();
    hide Consistent, Cards36, Kept36, Written37, Rows, Extended, GrownShape, ImageBytes, LengthCardOf;
    var outcome := Extend(f, 0, [1], p, 4096);
    ExtendMissesHeader(p, f.State());
    StaysUntainted(Kept36(), p, f.State());
  }

  lemma AxisIsNamed()
    ensures FirstNaming(Cards36(), 1) < |Cards36()|
  {
    HeaderLength(1, [], 31);
    HeaderCard(1, [], 31, 3);
    AxisKeyOne();
    IntCardLater("NAXIS1", 1, "length of data axis " + Decimal(1));
    hide CardIntTrimmed, KeptHeader, Decimal, AxisKey, Trim;
    assert NamesAxis(Cards36()[3], 1);
  }

  lemma StaysUntainted(s: FileState, p: Piece, s': FileState)
    requires |s.cards| > 0 && Rows([1], p) && GrownShape([1], p) != [1]
    requires Extended(s, 0, AxisUpdate(s.cards[0], [1], p), [1], p, s')
    ensures s'.tainted == s.tainted
  {
    hide Written, GrownShape, HeaderBeforeData, NewCards, ImageBytes, AxisUpdate;
  }
}
