# rustfits in Dafny

This project models the storage engine of rustfits, a library that reads, writes and edits FITS files in place, and
proves what it keeps. The parts are one family: they share a growable byte string (`FileStorage.Storage`, whose reads,
writes, resizes and flushes may fail at any point and whose failed writes may leave torn bytes), a list of offset
records, one per header-data unit (HDU), and the 80-column cards of each header.

- **Checksums** (`Checksum`, `ChecksumStream`, `ChecksumEncoding`, `ChecksumCards`): the u32 one's complement sum, its
  streamed form, the 16-character encoding, and the header that carries its own CHECKSUM (FITS Standard 4.0, section
  4.4.2.7 and Appendix J), printed and read back.
- **Header cards** (`CardText`, `StringCards`, `StringCardBuilders`, `StringRoundTrip`, `HierarchCards`, `HeaderKeys`,
  `HeaderEdit`, `HeaderStrings`, `CardNumbers`, `CardReading`, `HeaderBlocks`): quoting, CONTINUE chains, HIERARCH keys,
  lookup, replacement and deletion (FITS Standard 4.0, section 4.2.1).
- **Images** (`SliceMath`, `StripLayout`, `Byteswap`, `ImageSlices`, `ImageData`, `ImageExtend`, `ExtendReopen`):
  strided N-dimensional slices as strips and an odometer, their write side, and `extend`.
- **The file** (`LayoutModel`, `FileMoves`, `FileRuns`, `SoundRuns`, `FitsFile`, `DataRoom`, `DataSize`, `Reparse`,
  `SpareBlocks`): overlapping chunked moves, the run model of every append, header edit and resize, any of them failing
  anywhere, and reopening.
- **Caches** (`LruCache`, `SpanCache`, `RangeReader`, `MetaCache`): the byte-bounded LRU cache, the block-cached ranged
  reader, and the version-stamped metadata cache under every interleaving.
- **ASCII tables** (`AsciiRows`, `AsciiShuffle`, `AsciiCards`, `AsciiCells`, `AsciiSchema`, `AsciiBuild`, `AsciiEdits`,
  `IntColumns`): scattered row reads, the headers of new tables, and columns inserted and deleted in place.

Code that changes things step by step is a class or a method proved against a specification function; the properties
are lemmas about those functions. `dafny verify dfyconfig.toml` checks everything.

## Findings

Where the code does not do what it is for, a lemma gives an input and another the exact condition.

- **Checksums of large chunks.** The carries are folded only at the end of a call (src/checksum.rs:43-71), where the
  comment speaks of many additions that fit in u32 (src/checksum.rs:34-37): up to 256 KiB do, and the data section is
  fed in chunks of 1 MiB (src/hdu_image.rs:714).
  `MebibyteSectionGoesWrong` is one such section; the sum is right exactly when no chunk wraps a half
  (`StreamedSumCorrectIffNoChunkWraps`).
- **Comments of 64 characters.** A string chain whose last payload ends in an escaped quote can find no room for the
  comment and is never ended (src/header.rs:1367-1379): `QuoteBeforeLongComment`, `StringValueRoundTrip`. HIERARCH
  strings have the same case (src/header.rs:685-700): `HierarchQuoteBeforeLongComment`, `HierarchRoundTrip`.
- **HIERARCH keys of 64 characters.** A value that begins with a quote loses its closing quote to column 81
  (src/header.rs:641-690): `QuoteUnderLongestKey`; the header is no longer well formed (`CutStringOrphans`).
- **CONTINUE as a key.** It is accepted as a user key (src/header.rs:471-504), and setting it can leave an orphan
  CONTINUE card: `ContinueAsKey`, `ContinueKeySet`.
- **Blank cards hide a spelling.** The search for a key's existing spelling ends at the first blank card, where `?`
  returns from the function (src/header.rs:921-935): `SpellingKeptIff`.
- **Spare header blocks.** A header that loses cards keeps its blocks (src/header.rs:1103-1116), while the parser
  counts blocks from cards (src/fits.rs:596-600) and `extend` counts back from the data (src/hdu_image.rs:522-524).
  Such a file reopens as something else (`DeletedCardIsNotForgotten`, `ReopenIff`), and an extend puts its header in
  the wrong block (`AppendToShrunkHeader`, `ExtendMissesHeader`, `ExtendHeaderIff`, `ExtendConsistentIff`).
- **Empty data sections.** The next header is looked for strictly behind the data offset (src/common.rs:576), so an
  empty section with an HDU right behind it gets no room: `EmptySectionGetsNoRoom`, `RoomIsMade`.
- **Torn appends.** An append that fails partway leaves stray bytes and no taint (src/fits.rs:873-903), and later calls
  build on them. The HDUs already there are unharmed, and over every run the untainted file is consistent exactly while
  no failed append has left a byte: `TornAppendIsFelt`, `RunConsistentIff`.
- **Refused stores.** A value too large for the LRU cache is dropped before the key's old entry is popped
  (src/cache.rs:68-79), so the old bytes keep being found: `RefusedStoreLeavesOldBytes`, `StoreThenLookup`.
- **Cells that cannot be printed.** `insert_column` formats its cells after the header is rewritten and rows have
  moved; a cell that does not fit returns an error without tainting (src/hdu_ascii_table/edit.rs:304). With sound I/O
  the file left behind is consistent exactly when the header was refused or every cell can be printed (`InsertColumn`,
  `HeaderAheadIsFelt`), for integers when each is in its field's range (`IntColumnPrintsIff`); `InsertTooWideNumber` is
  one such table. An extent change that fails before its first move (src/common.rs:397-400) leaves insert and delete in
  the same state.
- **The thousandth column.** Nothing stops an insertion into a table of 999 columns; cards renumbered to 1000 no
  longer name their column (src/hdu_ascii_table/edit.rs:569-577), and the last column's start cannot be read:
  `KeywordNamesIff`, `LastColumnReadsIff`.
- **Gaps between columns.** The place of an insertion or a deletion is the sum of the earlier widths
  (src/hdu_ascii_table/edit.rs:113, src/hdu_ascii_table/edit.rs:198), so in a table with gaps a cell survives only under
  `CellSurvivesIff` and `CellSurvivesDeletionIff`. Tables this library creates have none (`BuiltTableIsPacked`).

## Model

| member | source | states |
|---|---|---|
| Checksum.ComputeChecksum | src/checksum.rs:39-72 | for every seed and buffer, the word loop, the zero-padded last word and the fold give the one's complement reading of the two wrapped u32 halves |
| Checksum.FoldCarries | src/checksum.rs:60-70 | the end-around carry loop ends, and on the one's complement reading of 65536*hi + lo |
| Checksum.OnesSumUnique | src/checksum.rs:60-72 | that reading is the only u32 congruent to the exact sum modulo 2^32-1 that is 0 only for 0 |
| Checksum.OnesSumAdds | src/checksum.rs:39-59 | accumulating through the seed is accumulating the exact sum once, so a checksum may be taken piece by piece |
| Checksum.ShortBuffersAreExact | src/checksum.rs:29-38 | up to 65,536 words neither half wraps and the result is the exact sum's reading |
| Checksum.CorrectIffNeitherHalfWraps | src/checksum.rs:39-72 | up to 8 GiB in one call the result is right if and only if neither half passes 2^32 |
| Checksum.MebibyteChunkGoesWrong | src/checksum.rs:39-72 | 1 MiB of 0xFF bytes sums to 0xFFFCFFFC where the exact sum reads 0xFFFFFFFF |
| ChecksumStreaming.ChecksumStream.Feed | src/checksum.rs:243-281 | a feed of any length, with carried bytes from the last one, keeps the stream equal to one call over everything fed, while each feed is at most 256 KiB |
| ChecksumStreaming.ChecksumStream.Finish | src/checksum.rs:282-290 | the tail is zero-padded and the stream gives the exact sum of all bytes fed |
| ChecksumStreaming.StreamDataSection | src/hdu_image.rs:705-735 | the data section summed chunk by chunk is, for any chunk of whole words, the chained checksum of its chunks, and the exact sum when chunks are at most 256 KiB |
| ChecksumStreaming.StreamedSumCorrectIffNoChunkWraps | src/hdu_image.rs:705-735 | for sections up to 16 GiB the streamed sum is right if and only if no chunk wraps either half |
| ChecksumStreaming.MebibyteSectionGoesWrong | src/hdu_image.rs:714-735 | one 1 MiB chunk of 0xFF bytes, the size the library feeds, gives the wrong sum |
| ChecksumEncoding.AvoidPunctuation | src/checksum.rs:104-121 | the adjustment loop ends with letters and digits only, the four still adding up to the byte |
| ChecksumEncoding.AdjustmentsAreLeast | src/checksum.rs:104-121 | no smaller shift of the pair avoids the punctuation, for every quotient and remainder |
| ChecksumEncoding.EncodeChecksum | src/checksum.rs:89-141 | the 16 characters, rotated by one, carry each byte of the value in their column sums |
| ChecksumEncoding.DecodeChecksum | src/checksum.rs:142-170 | decoding inverts every encoding of a value, complemented or not |
| ChecksumCards.SetOrInsertStringCard | src/checksum.rs:193-214 | if no card has the key the new one goes right before the last card, END; otherwise the first card with the key is replaced and no other changes |
| ChecksumCards.CardHasKeyIff | src/checksum.rs:203-207 | a card has the key when its first columns spell it, in any letter case |
| ChecksumCards.OnesComplementAdd | src/checksum.rs:351-357 | the reading of the exact sum of two u32 values |
| ChecksumCards.CardsWithChecksum | src/checksum.rs:320-346 | one card is set, END stays last, and the header that carries its own CHECKSUM sums with the data to all ones if and only if the wrapped halves of the placeholder header lose a multiple of 2^32-1 |
| ChecksumReadBacks.ChecksumReadsBack | src/checksum.rs:320-346 | the printed header is read back with every card, and a reader finds the sixteen characters and the comment under the key |
| ChecksumCards.ChecksummedHduPasses | src/checksum.rs:320-346 | for headers of at most 91 blocks and every data section, header and data sum to 0xFFFFFFFF |
| ChecksumCards.VerifyChecksum | src/hdu_image.rs:813-830 | verification answers true exactly when the chained sum of header and data, as streamed, is all ones |
| ChecksumCards.VerifiesWhenNothingWraps | src/hdu_image.rs:813-830 | the sum verification compares is the true one if and only if no chunk of the data wraps |
| CardText.UnescapeEscape | src/header.rs:58-63 | unescaping undoes quote doubling, for every string |
| CardText.SplitQuoted | src/header.rs:33-57 | the split of a printed value field finds the quoted part and the comment, slashes and quotes in the value notwithstanding |
| CardText.ExtractQuoted | src/header.rs:58-63 | a printed string reads back as itself, without trailing blanks |
| StringCards.ParseValueWithContinue | src/header.rs:330-371 | the CONTINUE loop computes the recursive reading of a chain of cards |
| CardReadings.BareCardReads | src/header.rs:330-386 | a card with a bare word reads as that word and its comment, one without a value as undefined with its comment |
| CardReadings.IntCardLookup | src/header.rs:266-291 | a look-up of an integer card, in any letter case of its key, gives the number and the whole comment |
| CardReadings.TwoCommentsRead | src/header.rs:330-371 | a chain of two cards with a comment on each reads as both pieces and both comments with a blank between |
| CardReadings.SameKeyIff | src/header.rs:398-438 | two short keywords are one key if and only if they have the same letters, capital or small |
| CardReadings.StoredForm | src/header.rs:398-438 | a short key is stored in capitals |
| CardReadings.CommentaryHasNoKey | src/header.rs:266-291 | COMMENT, HISTORY, END, CONTINUE and blank cards answer no key, an = sign behind them or not |
| CardReadings.StringColumns | src/header.rs:1260-1290 | the closing quote stands at column 20 or later and the slash of a comment at column 32 |
| CardReadings.NumberColumns | src/header.rs:1227-1235 | a number ends in column 30 and the slash of its comment stands at 32 |
| StringCards.ReadChain | src/header.rs:330-371 | a printed chain reads as the concatenation of its pieces and the last comment, or with a stray & when no card ends the string |
| StringCardBuilders.BackOff | src/header.rs:1360-1385 | the cut never falls between the two quotes of an escaped pair |
| StringCardBuilders.TakePiece | src/header.rs:1355-1395 | each card takes at least one whole escaped character, so the chain ends and its pieces concatenate to the value |
| StringCardBuilders.BuildStringValueCards | src/header.rs:1334-1401 | refused exactly for comments of 65 or more characters; otherwise one fitting card or a chain whose every line fits 80 columns, and for text without quotes exactly 67 characters to a card until the rest fits the last one |
| StringCardBuilders.FewestCards | src/header.rs:1353-1401 | no chain of 80-column cards carries a text of that length on fewer cards than the builder's layout |
| StringCardBuilders.CommentColumn | src/header.rs:1260-1289 | where a short string closes, and its comment's mark in column 32 |
| StringRoundTrip.CardStringShows | src/header.rs:1260-1290 | which comment a short string's single card shows: the whole one, or the part that fits behind the value |
| StringRoundTrip.StringValueRoundTrip | src/header.rs:1334-1401 | the value and its shown comment read back if and only if the last piece and the comment fit one card; otherwise value& and no comment come back |
| StringRoundTrip.QuoteBeforeLongComment | src/header.rs:1367-1379 | the value 5' with any comment of 64 characters reads back as 5'& |
| HierarchCards.BuildHierarchStringCards | src/header.rs:604-715 | when a HIERARCH string is refused, and otherwise the single card or the chain printed, the trailing empty CONTINUE included; text without quotes fills the first card and then every card |
| HierarchCards.HierarchRoundTrip | src/header.rs:604-715 | a HIERARCH string and its comment read back if and only if they fit one card, or the first card holds its piece and the last one its piece and comment |
| HierarchCards.HierarchQuoteBeforeLongComment | src/header.rs:685-700 | sixty letters and a quote under ESO INS A with a comment of 64 characters read back with a stray & |
| HierarchCards.QuoteUnderLongestKey | src/header.rs:641-690 | a quote under a key of 64 characters loses its closing quote to column 81 and reads back as no string |
| HeaderBlocks.PrintHeader | src/header.rs:1098-1116 | the reserved blocks printed card by card, blank-filled |
| HeaderBlocks.SerializeHeader | src/hdu_image.rs:2178-2195 | the cards padded to 80 columns and blanks to the next block |
| HeaderBlocks.CardOnDisk | src/hdu_image.rs:2178-2195 | card k lies at byte 80k, every slot behind the last card is blank |
| HeaderKeys.StorageKeyLooksUp | src/header.rs:398-438 | storing a key keeps what it is looked up by, for every string |
| HeaderKeys.KeysAgree | src/header.rs:220-291 | the editor and the reader take a card for the same key's, a card with no = sign apart |
| HeaderKeys.NamelessHierarch | src/header.rs:220-291 | on a HIERARCH card without a keyword they part: one named HIERARCH for the editor, one without a name for the reader |
| HeaderEdit.FindChainEnd | src/header.rs:717-747 | the end of a card's chain of CONTINUE cards |
| HeaderEdit.FindCardForKey | src/header.rs:266-291 | the first card with a value under the key |
| HeaderEdit.CardList.SetCardForKey | src/header.rs:749-784 | the new cards take the place of the key's whole chain, or go before END |
| HeaderEdit.SetInPlace | src/header.rs:749-784 | the new cards stand where the first card with the key stood, or right before END, and the cards before and behind its chain are as they were |
| HeaderEdit.CardList.DeleteCardForKey | src/header.rs:786-804 | the key's whole chain goes, and true is returned exactly when there was one |
| HeaderEdit.SetKeepsWellFormed | src/header.rs:749-784 | set keeps keys unique, END last and every CONTINUE behind a card ending in & |
| HeaderEdit.DeleteKeepsWellFormed | src/header.rs:786-804 | so does delete: no orphan CONTINUE is left |
| HeaderEdit.SetThenFind | src/header.rs:749-784 | after a set the key finds the new cards, whole |
| HeaderEdit.SetKeepsOtherLookups | src/header.rs:749-784 | a set changes no other key's lookup |
| HeaderEdit.DeleteThenLookup | src/header.rs:786-804 | a deleted key is absent |
| HeaderEdit.DeleteKeepsOtherLookups | src/header.rs:786-804 | a delete changes no other key's lookup |
| HeaderStrings.SetString | src/header.rs:852-869 | setting a string: refused exactly when the key is not valid or the builder refuses; else the header is well formed if and only if the first card fits, and then the lookup answers the value, the comment kept or given, and all other lookups are as before |
| HeaderStrings.ValidateKeyword | src/header.rs:471-504 | exactly which keys are accepted: letters, digits, - and _, in long keys blanks, periods and plus signs too, never empty or the word HIERARCH in any case |
| HeaderStrings.BuildString | src/header.rs:517-546 | the builder for the key's kind, refused exactly when that one refuses |
| HeaderStrings.LookupInk | src/header.rs:506-515 | a comment that was read never begins or ends with a blank, so it can be kept |
| HeaderStrings.SetStringThenLookup | src/header.rs:852-869 | set then lookup returns the value and its shown comment, or what the cut chain gives |
| HeaderStrings.SpellingKeptIff | src/header.rs:921-935 | the existing spelling is found if and only if the key is there and no blank card stands before it |
| HeaderStrings.CutStringOrphans | src/header.rs:641-690 | a HIERARCH string whose first card is cut leaves an orphan CONTINUE |
| HeaderStrings.ContinueAsKey | src/header.rs:471-504 | CONTINUE is accepted as a key, and setting it leaves an orphan unless the last card before END ends in & |
| HeaderStrings.ContinueKeySet | src/header.rs:471-504 | so does any string printed under it in one card |
| SliceMath.PixelAtIndex | src/hdu_image.rs:1176-1277 | the pixel at multi-index i is the sum over k of (start_k + i_k*step_k)*stride_k, in row-major order, for any rank |
| SliceMath.TwoAxes | src/hdu_image.rs:1176-1277 | of an image of rows the last axis runs fastest |
| SliceMath.SourcePixelIncreases | src/hdu_image.rs:1158-1277 | the slice index map is strictly increasing, hence injective |
| StripLayout.ComputeReadStripLayout | src/hdu_image.rs:1158-1175 | the outer axes found are the fewest that leave contiguous strips |
| StripLayout.StripIsContiguous | src/hdu_image.rs:1158-1175 | each strip is a contiguous run of the image |
| StripLayout.RowMajorStrides | src/hdu_image.rs:2093-2103 | the strides are the products of the later axes |
| StripLayout.AdvanceOdometer | src/hdu_image.rs:1256-1272 | the odometer goes to the next index in row-major order |
| Byteswap.ByteswapInPlace | src/common.rs:870-889 | in items of 2, 4 or 8 bytes byte k of every whole item becomes its byte k from the end, in items of 16 the same inside each 8-byte half; single bytes and a short tail stay |
| Byteswap.SwapInvolution | src/common.rs:870-889 | swapping twice gives the bytes back |
| ImageSlices.ReadImageSlice | src/hdu_image.rs:1158-1277 | for every slice, byte k of pixel j of the result is, on a little-endian host, byte k from the end of the file pixel it selects, halves of a complex number in order, and on a big-endian one byte k |
| ImageSlices.WriteImageSlice | src/hdu_image.rs:1555-1706 | byte k of every selected pixel is byte k of the scalar, or of its own pixel of the array, and every other byte of the file stays |
| ImageSlices.ReadAfterWrite | src/hdu_image.rs:1176-1277 | reading a slice just written returns the array, or the scalar everywhere |
| ImageData.ComputeStripLayout | src/hdu_image.rs:2105-2119 | the write side's strips |
| ImageData.WriteImageData | src/hdu_image.rs:1279-1472 | an array stored as a block at any corner: refused exactly when it does not fit, else every pixel of the block reads as the array's, its bytes in big-endian order, and nothing else is touched, in pieces of any size |
| ImageData.RowsAppended | src/hdu_image.rs:1390-1459 | rows stored behind the last row: the old bytes, then the new ones |
| ImageExtend.Extend | src/hdu_image.rs:436-560 | room made, NAXISn found and renewed, header out, cards replaced, rows written; refused exactly when the array's rank or later axes do not match, and with sound I/O failing exactly when the header has no NAXISn |
| ImageExtend.ExtendReadsOldThenNew | src/hdu_image.rs:436-560 | after an append the image reads as the old rows followed by the new, for any rank, last HDU or not |
| ImageExtend.ExtendLeavesOthers | src/hdu_image.rs:436-560 | the other HDUs keep every byte and the layout stays valid |
| ImageExtend.ExtendHeaderIff | src/hdu_image.rs:522-524 | the header ends up where the records say if and only if the HDU has no spare header blocks |
| ImageExtend.ExtendConsistentIff | src/hdu_image.rs:500-560 | an extend leaves a consistent file if and only if the HDU has no spare header blocks |
| ExtendReopens.RenewedReads | src/hdu_image.rs:505-517 | the renewed NAXISn reads as the new length and every other keyword as before |
| ExtendReopens.ShapeDeclares | src/fits.rs:94-126 | a header that reads as an image's shape declares its bytes, saturation notwithstanding |
| ExtendReopens.ExtendReopens | src/hdu_image.rs:436-560 | when no HDU has spare header blocks, a grown image's header declares what its section holds and the file reopens to the records and cards in memory |
| LayoutModel.HeaderGrowKeeps | src/common.rs:362-477 | growing a header keeps data_offset = header_offset + 2880*blocks, the order and alignment of extents, the HDU's data and all other HDUs' bytes |
| LayoutModel.DataGrowKeeps | src/common.rs:362-477 | so does growing a data section |
| LayoutModel.DataShrinkKeeps | src/common.rs:700-780 | and shrinking one |
| FileMoves.ShiftTailUp | src/common.rs:362-477 | the back-to-front chunked move is the simultaneous move, for any chunk size |
| FileMoves.ShiftTailDown | src/common.rs:700-780 | the front-to-back move likewise |
| FileMoves.ZeroFillRange | src/common.rs:492-535 | exactly the range is zeroed |
| FileMoves.StreamCopyInFile | src/common.rs:642-690 | a chunked copy is a whole copy when the ranges do not collide |
| SoundRuns.RunStaysSound | src/common.rs:229-234 | in every run of appends, header edits and resizes, any read, write or flush failing anywhere and failed appends leaving bytes, every header of an untainted file is in place, no HDU reaches into the next, and the bytes no header declares are those that failed appends left |
| SoundRuns.RunConsistentIff | src/fits.rs:873-903 | over every run an untainted file is consistent if and only if no failed append has left a byte |
| SoundRuns.ConsistentIffNoSlack | src/common.rs:362-477 | a file whose headers are all in place is consistent if and only if they declare every byte of it |
| SoundRuns.TaintIsForever | src/common.rs:296-305 | a taint is never cleared |
| SoundRuns.FailedEditKeepsCards | src/header.rs:1067-1141 | the cards in memory change only by an edit that worked, and then the disk holds them |
| SoundRuns.RunLeavesUneditedHdu | src/common.rs:362-477 | over any run, failed appends included, an HDU that no call edits keeps its cards and every byte through its moving offsets while the file is untainted |
| SoundRuns.RunLeavesData | src/common.rs:362-477 | over any run, failed appends included, a data section changes only by its own resizes |
| SoundRuns.TornAppendIsFelt | src/fits.rs:873-903 | after an append that failed partway the file, and the next append to it, are right if and only if no stray byte was left |
| FitsFiles.FitsFile.AppendHdu | src/fits.rs:873-903 | an append is one step of the run model: the new HDU, or stray bytes and no taint |
| FitsFiles.FitsFile.ShiftTail | src/common.rs:362-477 | the tail moved up and every later record with it; a failure before the first move leaves all as it was |
| FitsFiles.FitsFile.ShiftTailBack | src/common.rs:700-780 | the tail moved down likewise |
| FitsFiles.FitsFile.EditHeader | src/header.rs:1839-1852 | a header edit is one step of the run model |
| FitsFiles.FitsFile.RewriteHeader | src/header.rs:1067-1141 | the header grown when it must be and printed over its reserved blocks |
| SoundRuns.EditedBlocks | src/header.rs:1086-1116 | a header that fits its blocks keeps them, and one that does not gets exactly as many as it needs |
| FitsFiles.FitsFile.ResizeData | src/hdu_ascii_table/edit.rs:416-471 | a change of data extent is one step of the run model |
| DataRoom.GrowFileToAtLeast | src/common.rs:562-607 | the file with room made at the end of the section that the next later header bounds |
| DataRoom.RoomIsMade | src/common.rs:562-607 | layout and other HDUs survive, and the caller's section has its room if and only if nothing is asked for or no HDU starts where its data does |
| DataRoom.EmptySectionGetsNoRoom | src/common.rs:576 | one byte asked for an empty section with an HDU behind it goes to that HDU |
| CardNumbers.ParseKeyword | src/common.rs:785-797 | the integer of the first card with the key that has a word behind = |
| CardReadings.MarkedNumberReads | src/common.rs:792-794 | quotes and slashes stuck to a number do not hide it |
| CardReadings.WordDecides | src/common.rs:786-796 | the first card with the key and a word decides, a number or not |
| CardNumbers.IntCardReads | src/header.rs:1227-1235 | an integer card, trimmed, reads back as its i64 under its key and as nothing under another |
| CardNumbers.IntTextReadsIff | src/common.rs:791-793 | printed decimals read back exactly within the 64-bit range and as nothing outside it |
| DataSize.CalculateDataSize | src/fits.rs:94-126 | the padded size the header declares, saturating as u64 does, a negative NAXIS cast to a huge one |
| DeclaredSizes.DeclaredIsTrueSize | src/fits.rs:94-126 | for every header the size declared is the magnitude of BITPIX over 8, times GCOUNT, times PCOUNT plus the product of the axes, counts that are missing or not positive left out, or the largest u64 when that does not fit |
| DataSize.ValidateHeader | src/fits.rs:46-86 | a header is accepted exactly when the first card that is not blank opens with SIMPLE or XTENSION, BITPIX is there, NAXIS is 0 to 999 and every NAXISn up to it is there |
| DataSize.ImageSizeAgrees | src/fits.rs:786-793 | the cards of a new image declare exactly the bytes set aside for it |
| DataSize.ImageHeaderIsValid | src/fits.rs:46-86 | the cards of a new image pass the validation of every open |
| Reparse.ParseHdus | src/fits.rs:537-689 | the parse loop computes the recursive walk over headers, validation included |
| DeclaredSizes.NextHeaderBehindData | src/fits.rs:676-689 | in every parsed file the next header starts in the first block behind all the data of an HDU, heap and groups included |
| Reparse.StrictRefuses | src/fits.rs:555-580 | a strict open refuses a header block with a byte outside 0x20 to 0x7E, a lenient one reads an underscore |
| Reparse.CutHeaderIsRefused | src/fits.rs:541-553 | a file that ends inside a header is refused |
| Reparse.HeaderReadsBack | src/fits.rs:560-600 | a header on disk parses back to its trimmed cards |
| Reparse.ReopenIff | src/fits.rs:537-689 | a consistent file reopens as it was if and only if no HDU has spare header blocks |
| Reparse.AppendsReparse | src/fits.rs:873-903 | every file built by appends, none of which failed with bytes left, parses to the same offsets, block counts and cards |
| SpareBlocks.DeletedCardIsNotForgotten | src/header.rs:1103-1116 | an image written with 37 cards, one then deleted: a consistent file with valid headers that reopens as something else |
| SpareBlocks.ExtendMissesHeader | src/hdu_image.rs:522-524 | that image extended by one pixel, NAXIS1 renewed: the header on disk is not the one in memory |
| SpareBlocks.AppendToShrunkHeader | src/hdu_image.rs:500-560 | the three calls on an open file, none failing: the file ends untainted and inconsistent |
| LruCaches.BytesBoundLruCache.Get | src/cache.rs:54-57 | a look-up returns the key's bytes and makes it the most recently used |
| LruCaches.BytesBoundLruCache.Put | src/cache.rs:63-93 | a value of at most the capacity is found right after the store when the capacity is above 0, and otherwise the key finds what it found; the exact byte count it leaves shows no subtraction saturated |
| LruCaches.BytesBoundLruCache.SetCapacity | src/cache.rs:98-113 | a smaller capacity evicts until the held bytes fit |
| LruCaches.BytesBoundLruCache.Clear | src/cache.rs:115-120 | nothing is held and the count is zero |
| LruCaches.EvictsShortestRun | src/cache.rs:82-90 | eviction drops the shortest least recently used run of entries that makes room |
| LruCaches.EvictionIsForced | src/cache.rs:82-90 | a list is what eviction leaves if and only if it fits and one entry more would not |
| LruCaches.StoreDropsLeast | src/cache.rs:63-93 | an accepted store drops a run of entries if and only if it leaves room and one entry more would not fit |
| LruCaches.ResizeDropsLeast | src/cache.rs:98-113 | so does a change of the capacity |
| LruCaches.RunStaysBounded | src/cache.rs:54-120 | over every run of operations the keys are distinct and the bytes held at most the capacity |
| LruCaches.RunKeepsOrderOfUse | src/cache.rs:54-120 | over every run the entries stand in the order of their last use, none of them stale |
| LruCaches.HitIsLastStored | src/cache.rs:54-93 | a hit returns the bytes last accepted under the key |
| LruCaches.StoreThenLookup | src/cache.rs:63-93 | after a store the key holds its bytes, or what it held if they were refused; any other key its own or nothing |
| LruCaches.RefusedStoreLeavesOldBytes | src/cache.rs:68-71 | a store too large for the cache leaves the key's old bytes to be found |
| SpanCaches.StoreKeeps | src/cache.rs:63-93 | storing the blocks of a span that fits the cache evicts none of the span, whatever else the cache held |
| RangeReads.PlanBlockFetches | src/remote_range.rs:487-502 | the runs cover exactly the missing blocks, in order, no two touching |
| RangeReads.RunsAreMaximal | src/remote_range.rs:487-502 | no planned run can be made longer |
| RangeReads.PlanIsUnique | src/remote_range.rs:487-502 | those properties leave only one plan |
| RangeReads.HttpRangeStore.FetchBlocks | src/remote_range.rs:354-399 | one request gives the blocks' own bytes, the last one short |
| RangeReads.HttpRangeStore.FetchMissing | src/remote_range.rs:421-433 | one request for each planned run, after which every block of the span is the file's |
| RangeReads.HttpRangeStore.CopyOut | src/remote_range.rs:434-448 | the span's bytes out of its blocks, first and last one cut, the rest of the buffer as it was |
| RangeReads.HttpRangeStore.Read | src/remote_range.rs:402-451 | for every cache state and capacity a read returns exactly the remote bytes from the position, stops short only at the end, fetches only missing blocks with one request a run, and keeps every cached block equal to its slice; a span that fits the cache is held whole afterwards; a failed read moves nothing |
| RangeReads.HeldSpanNeedsNoRequest | src/remote_range.rs:421-433 | a read anywhere inside a span that is held makes no request |
| RangeReads.HttpRangeStore.Seek | src/remote_range.rs:453-475 | a seek goes exactly where it is told, measured from the start, the end or the position, and is refused, moving nothing, exactly when that is negative or past u64 |
| RangeReads.AddOffsetIsExact | src/remote_range.rs:477-482 | checked addition for offsets from 0 and checked subtraction of the magnitude for the others are together one exact sum, refused when out of range |
| RangeReads.SeekBack | src/remote_range.rs:477-482 | a relative seek that works is undone by its negation |
| MetaCaches.StepStaysHonest | src/hdu_image.rs:106-126 | every action of readers and writers keeps the cache's metadata that of a list current at its stamp or later |
| MetaCaches.LockedCardsArePublished | src/hdu.rs:54-59 | whoever takes the free cards lock finds the list of the last version bump |
| MetaCaches.ReturnedMetaWasCurrent | src/hdu_image.rs:106-126 | in every interleaving a returned meta is the parse of a card list that was current at some moment of the call |
| MetaCaches.CallsDoNotGoBack | src/hdu_image.rs:106-126 | a call that begins after another returned never gives older metadata: each answer is the parse of a list current at some moment of its own call, in the order of the calls |
| MetaCaches.LookUpHitsIff | src/hdu_image.rs:109-119 | a look-up answers from the cache exactly when the entry carries the version current when the call began |
| MetaCaches.FreshEntryServes | src/hdu_image.rs:106-126 | from a current entry on, while nothing is published and no stale copy stored, every call is answered from the cache |
| MetaCaches.SlowReaderStoresOlderStamp | src/hdu_image.rs:122-124 | a schedule in which a slow reader does put an older stamp over a newer one |
| AsciiRows.ResolveRows | src/hdu_table/read.rs:1017-1054 | a list of rows is accepted exactly when it is not empty and every number lies from -nrows to nrows - 1; the answer is the row each number names, v or v + nrows, once, in the order of first mention |
| AsciiRows.ResolveSlice | src/hdu_table/read.rs:1000-1016 | a slice of rows: refused exactly when its step is zero or it selects none, else its rows in its order, none dropped as a repetition |
| AsciiRows.WalkAt | src/hdu_table/read.rs:1006-1016 | the k-th row of a slice is start + k*step, and it is there if and only if that has not reached the end |
| AsciiRows.SliceSelects | src/hdu_table/read.rs:1000-1016 | a slice starts at the first row of the table between its bounds, negative ones counted from the end, takes every step-th row and ends when the next is outside; it is empty exactly when no row lies between |
| AsciiRows.PlanRuns | src/hdu_ascii_table/read.rs:294-331 | disjoint, increasing, never touching runs of consecutive rows that give every output place its row |
| AsciiRows.PlanTable | src/hdu_ascii_table/read.rs:299-308 | a whole table is one run |
| AsciiRows.RunsAreMaximal | src/hdu_ascii_table/read.rs:312-324 | no run can be made longer |
| AsciiRows.ProcessRuns | src/hdu_ascii_table/read.rs:342-382 | for any chunk size each output place is delivered exactly once, with the bytes of its row |
| AsciiRows.ReadRows | src/hdu_ascii_table/read.rs:294-382 | output o holds the bytes of the o-th row asked for, each row once in the order of first mention, or of row o when none are named |
| AsciiShuffles.ShuffleForInsert | src/hdu_ascii_table/edit.rs:250-333 | the back-to-front walk reshapes every row and no unread row is overwritten, for any strip size; a failure that does not taint leaves the rows before some point in their old shape and those behind in the new |
| AsciiShuffles.ShuffleForDelete | src/hdu_ascii_table/edit.rs:339-410 | the front-to-back walk likewise |
| AsciiShuffles.StripUnread | src/hdu_ascii_table/edit.rs:240-249 | the strip read next still holds its original bytes |
| AsciiCards.RenumberCards | src/hdu_ascii_table/edit.rs:596-628 | the renumbered header, refused when a start cannot be shifted |
| AsciiCards.StartReads | src/hdu_ascii_table/edit.rs:632-651 | a fixed-format TBCOL shifts by the delta unless it would fall below 1 |
| AsciiCards.RenumberedKeyed | src/hdu_ascii_table/edit.rs:596-628 | every kept column's cards are found under its new number, saying what they said |
| AsciiCards.DroppedKeyed | src/hdu_ascii_table/edit.rs:662-668 | dropping a column's cards drops no others |
| AsciiSchemas.ColumnKeywords | src/hdu_ascii_table/edit.rs:546-549 | the cards that move with a column are TTYPE, TFORM, TUNIT, TZERO, TSCAL, TNULL, TDISP and TBCOL |
| AsciiCards.InsertBeforeEnd | src/hdu_ascii_table/edit.rs:670-681 | the new cards go before the last END card |
| AsciiCards.UpdateIntCard | src/hdu_ascii_table/edit.rs:683-703 | the first card with the keyword is replaced |
| AsciiSchemas.InsertKeepsCards | src/hdu_ascii_table/edit.rs:124-148 | an insertion keeps what every other column's cards say, under the new numbers |
| AsciiSchemas.InsertKeepsPacked | src/hdu_ascii_table/edit.rs:113-148 | the TBCOL values after an insertion are again the sums of the widths before each column |
| AsciiSchemas.DeleteKeepsPacked | src/hdu_ascii_table/edit.rs:196-212 | so are those after a deletion |
| AsciiSchemas.DeleteUndoesInsert | src/hdu_ascii_table/edit.rs:61-236 | deleting the column just inserted is accepted, gives every other column back what its cards said and leaves the header packed and editable |
| AsciiSchemas.RenumberingSucceeds | src/hdu_ascii_table/edit.rs:632-651 | in a packed header no start that has to move is refused |
| AsciiSchemas.InsertionAcceptedIff | src/hdu_ascii_table/edit.rs:124-148 | an insertion into a packed header is accepted if and only if END, TFIELDS and NAXIS1 are there, and leaves them there |
| AsciiSchemas.DeletionAcceptedIff | src/hdu_ascii_table/edit.rs:202-212 | a deletion from a packed header is accepted if and only if TFIELDS and NAXIS1 are there |
| AsciiSchemas.InsertedShape | src/hdu_ascii_table/edit.rs:124-148 | an insertion lengthens the header by the new column's cards and END stays last |
| AsciiSchemas.InsertedCounts | src/hdu_ascii_table/edit.rs:143-148 | NAXIS1 and TFIELDS read as the new width and count |
| AsciiSchemas.DeletedCounts | src/hdu_ascii_table/edit.rs:207-212 | after a deletion NAXIS1 and TFIELDS read as the smaller width and count |
| AsciiSchemas.KeywordNamesIff | src/hdu_ascii_table/edit.rs:569-577 | a renumbered card names its column if and only if the number is at most 999 |
| AsciiSchemas.LastColumnReadsIff | src/hdu_ascii_table/edit.rs:124-148 | an insertion into a packed table goes through whatever the number of columns, and its last column's start can be read if and only if there were fewer than 999 |
| AsciiCells.CellSurvivesIff | src/hdu_ascii_table/edit.rs:113-114 | whatever a row holds, an insertion keeps a cell if and only if it lies on the side of the insertion point its start was told |
| AsciiCells.CellSurvivesDeletionIff | src/hdu_ascii_table/edit.rs:196-201 | whatever a row holds, a deletion keeps a cell if and only if it lies in front of the bytes taken out and stays, or behind them and moves |
| AsciiBuilds.BuildTableCards | src/hdu_ascii_table/write_setup.rs:294-354 | the cards of a new table, each column starting where the widths before it end |
| AsciiBuilds.BuiltTableIsPacked | src/hdu_ascii_table/write_setup.rs:294-354 | every table this library creates is flush-packed |
| AsciiBuilds.BuiltTableIsEditable | src/hdu_ascii_table/write_setup.rs:294-354 | its header can be edited, ends in END and describes each of its columns |
| AsciiBuilds.BuiltTableIsValid | src/fits.rs:46-86 | its header passes the validation of every open |
| AsciiBuilds.BuiltTableDeclares | src/fits.rs:94-126 | its header declares exactly its rows |
| AsciiBuilds.BuildColumnCards | src/hdu_ascii_table/edit.rs:709-744 | the cards of a column that is put in |
| AsciiLookups.BuiltColumnLookups | src/hdu_ascii_table/write_setup.rs:320-351 | on the header of a new table a look-up of TTYPEn answers the name of column n, TFORMn its format and TUNITn its unit |
| AsciiLookups.BuiltKindLookup | src/hdu_ascii_table/write_setup.rs:302-304 | and of XTENSION, TABLE |
| AsciiBuilds.BuiltColumnIsNew | src/hdu_ascii_table/edit.rs:709-744 | they describe that column, with its start, and no other |
| AsciiEdits.InsertColumn | src/hdu_ascii_table/edit.rs:61-173 | with sound I/O: refused exactly when the header cannot be edited, done exactly when every cell can be printed, half done otherwise; the file left is consistent if and only if refused or every cell can be printed, and under any failure it is consistent or tainted if and only if not half done |
| AsciiEdits.DeleteColumn | src/hdu_ascii_table/edit.rs:178-236 | a deletion with sound I/O is refused or done and leaves a consistent file; under any failure the file is consistent or tainted if and only if not half done |
| AsciiEdits.InsertKeepsCells | src/hdu_ascii_table/edit.rs:61-173 | after an insertion into a packed table every cell reads as before by the new header, and the new column reads as the cells put in |
| AsciiEdits.DeleteKeepsCells | src/hdu_ascii_table/edit.rs:178-236 | after a deletion every remaining cell reads as before by the new header |
| AsciiEdits.DeleteUndoesInsertedTable | src/hdu_ascii_table/edit.rs:61-236 | insert then delete at the same slot restores every row of the table in the file and every byte of the other HDUs |
| AsciiEdits.HeaderAheadIsFelt | src/hdu_ascii_table/edit.rs:150-171 | a half-done edit leaves a file that is not what its records say, whenever one of the two headers is longer and ends in END |
| IntColumns.IntCellIff | src/hdu_ascii_table/format.rs:100-118 | an integer can be printed in w columns if and only if it is below 10^w and above -10^(w-1) |
| IntColumns.IntCellReads | src/hdu_ascii_table/format.rs:100-118 | what is printed reads back as the integer |
| IntColumns.IntColumnPrintsIff | src/hdu_ascii_table/edit.rs:294-308 | a column of integers can be put in without being left half done if and only if each is in its field's range |
| IntColumns.InsertTooWideNumber | src/hdu_ascii_table/edit.rs:150-171 | 1000 put into a column of width 3: nothing fails or is tainted, and the file ends inconsistent |

## Left out

- Python, numpy and pyo3 glue, key classification, reprs, and the conversion of Python objects to rows and slices.
- Networks, gzip write-back, URL decoding, opening modes; the HTTP server is a function from a range to bytes that may
  fail or end early.
- Floating-point cards and cells, BSCALE/BZERO, complex and logical cards: the card model keeps strings, integers and
  bare words.
- Tile codecs, compressed HDUs, BINTABLE and its heap: other modules of the library.
- Protected keys, dtype tables and the kinds of HDU: one branch settles each.
- Header text is printable ASCII, so trimming means blanks; other white space and Unicode are not modelled.
- Seeks and locks do not fail, and lengths and offsets are unbounded: u64 wrap-around is modelled where it is stated
  (checksum halves, data sizes, seek positions, integer cards) and nowhere else.
- LruCaches.BytesBoundLruCache.Put: one operation at a time; the capacity is read before the lock is taken
  (src/cache.rs:64-78), so a store racing with a smaller capacity can pass it until the next operation.
- MetaCaches.ReturnedMetaWasCurrent: the taint check and a poisoned lock are a refusal that may come at any moment;
  parsing is any function of the cards.
- AsciiEdits.InsertColumn: a file without stray bytes; the text of each cell is given, with None for a cell that cannot
  be printed; name and position lookup and the classification of the new column are arguments.
- AsciiEdits.DeleteColumn: a file without stray bytes; bytes behind the last row inside the last block are whatever the
  move left there.
- ImageExtend.Extend: a file without stray bytes; image scaling is not part of this model.
- AsciiCards.RenumberCards: a TBCOL sum past the i64 range counts as an error.
- AsciiRows.PlanRuns: sorting is an insertion sort; the keys are distinct, so any sort gives the same order.
- HeaderStrings.SetString: string values only, under keys that are not reserved words (`ContinueAsKey` has CONTINUE).
- HeaderStrings.BuildString: string values only; integers, floats and booleans have builders of their own.
