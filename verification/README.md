# A verified model of the sstable crate

The crate writes and reads LevelDB-style tables: a builder lays sorted pairs out as prefix-compressed blocks with
restart points, Bloom filters, an index and a footer, and a reader opens such a file, looks keys up through index,
filters and a shared block cache, and iterates over it with a two-level cursor. This project models those layers in
Dafny in the form the code has: the builders, iterators and the cache are classes whose methods change fields (the
LRU list down to its `next`/`prev` pointers), encoders write into byte arrays, and the loops are the code's loops.
Each method is proved against a specification on values, and the properties are lemmas about those specifications.

How the files build on each other:

* `Bytes`, `Seqs`, `Codec`, `Comparator` - keys and their order, varints, fixed integers, handles, footer, separators.
  Varints are unsigned LEB128 (section 7.6 of the DWARF 5 standard), at most ten bytes for 64 bits.
* `BlockFormat`, `BlockBuilder`, `Cursors`, `BlockIter`, `BlockSession` - one block: the bytes, the builder, the
  abstract cursor (ordinal visited last, valid flag), the iterator over raw bytes that refines it.
* `Lru`, `Cache` - the cache as a recency sequence; the pointer list and the map that implement it.
* `Bloom`, `BloomVectors`, `FilterBlock` - filters for every 2 KB of file offset; the hash values and the filter of the
  crate's tests as theorems.
* `TableFormat`, `Build`, `BuildExact`, `TableImage`, `TableBuilder` - framing, the builder as a state machine over added
  pairs with its invariants, its index keys and filters exactly, the bytes of a finished file, the builder class.
* `BlockCaching`, `TableReader` - reading blocks through the cache, opening a file, `get`, `approx_offset_of`.
* `Separation`, `EndToEnd`, `Lookups` - what a table that was built shows, answers and cannot find.
* `TableCursor`, `TableSeek`, `TableIter`, `Scans` - the two-level iterator and what it gives on a built table.
* `Sharing` - any number of tables on one cache, built, opened and read in any order.
* `Damage` - a built table with a damaged data block: what it still gives, and where it reports the damage.
* `SizeBound` - the size of a table from the lengths of its pairs, and tables in which a key is missed.

The assumptions on a client of the builder are `EndToEnd.Buildable`: keys are non-empty and strictly increasing,
`block_restart_interval` is at least 1, `block_size` at least 8, and (`TableImage.Fits`) the file, every block and the
bit positions of every filter stay below 2^32. For uncompressed tables `SizeBounds.WithinBudgetIsBuildable` derives the
last from the number and the lengths of the pairs alone. The checksum is an arbitrary function to 32 bits, and compression an
arbitrary pair of functions of which the second undoes the first.

Four plain claims are false of the code. Each is kept as the code has it, with a witness and the exact condition:

* A separator can equal the next key (`Comparator.SeparatorLaw`); `get` compares strictly with the index key, so it
  answers nothing for a *boundary key*, the first key of a block that is the key before it followed by a zero byte.
  `EndToEnd.GetIsLookupIffNoBoundary` gives the condition.
* `approx_offset_of` is documented to return the offset of the block that contains the key
  (src/table_reader.rs:127). For a boundary key it returns the offset of the block before.
  `Lookups.OffsetOfPresentKey` gives the condition.
* `TableIterator::seek` does not go on to the next block when the target is above a block's last key but not above
  its separator. `TableSeeking.SeekLandsOutsideGaps` gives the condition, `TableSeeking.SeekIntoGap` what happens
  instead.
* `TableIterator::prev` at the first entry rewinds the index and leaves the block loaded, so a following traversal
  yields the first block twice. `TableCursors.PrevBeforeFirst` gives the condition and the sequence;
  `Scans.BuiltForwardAndBack` shows it for every table with a pair.

`SizeBounds.SomeKeyIsMissed` is a witness for the first three at once: for any options without compression, a table of
two pairs whose second key `get` does not find, no seek stands on, and `approx_offset_of` puts into the first block.

Where comments and code differ, the model follows the code: `TableBuilder::add` is documented to accept a key equal
to the previous one (src/table_builder.rs:151-152), but the block builder asserts a strict increase
(src/block_builder.rs:49-52), and its own check across blocks compares with the block before the last
(src/table_builder.rs:156-158, 183); the table iterator is documented as valid before the first `advance`
(src/table_reader.rs:323-324), but is not (src/table_reader.rs:325-327).

The filter reader guards its index with `>` (src/filter_block.rs:150), so an offset right behind the last filter, or one
whose filter has no keys, makes it fail. `FilterBlock.AnswersExactly` says which offsets it answers for, and
`EndToEnd.FiltersNeverHide` that every data block of a built table is at one of them.

## Model

| member | source | states |
|---|---|---|
| Bytes.TotalOrder | src/cmp.rs:25-27 | byte-wise comparison is a total order, with the mixed transitivity facts |
| Bytes.LtElim | src/cmp.rs:25-27 | a smaller key is a proper prefix or falls below at the first position where the two differ |
| Bytes.LookupMeaning | src/table_reader.rs:153-192 | the reference map answers `Some(v)` exactly for pairs in the list and `None` exactly for absent keys |
| Bytes.LookupAtLowerBound | src/table_reader.rs:183-191 | the entry at the lower bound alone decides the map lookup |
| Codec.VarRoundTrip | src/blockhandle.rs:16-27 | decoding a varint followed by anything returns the number and its length, for all 64-bit numbers |
| Codec.VarAt | src/block.rs:133-154 | a varint found inside a buffer is decoded from its first byte |
| Codec.VarDigits | src/blockhandle.rs:45-50 | the varint byte by byte: byte i holds the seven bits of weight 128^i, its high bit is set unless it is the last, and no byte is superfluous |
| Codec.FixedDigits | src/block_builder.rs:98-108 | a fixed-width integer byte by byte: byte i holds the bits of weight 256^i |
| Codec.Fixed32RoundTrip | src/block.rs:120-127 | 32-bit little-endian integers decode to what was encoded |
| Codec.Fixed64RoundTrip | src/table_reader.rs:97-106 | 64-bit little-endian integers decode to what was encoded |
| Codec.EncodeVarTo | src/blockhandle.rs:45-50 | the loop writes exactly the varint, returns its length and leaves the rest of the buffer alone |
| Codec.HandleRoundTrip | src/blockhandle.rs:16-50 | a handle followed by anything decodes to itself and its length, which is at most 20 |
| Codec.HandleFitsScratch | src/table_builder.rs:189-195 | handles below 2^32 need at most 10 of the 16 scratch bytes |
| Codec.EncodeHandleTo | src/blockhandle.rs:45-50 | writes exactly the encoded handle at the position given |
| Codec.FooterRoundTrip | src/table_builder.rs:44-68 | for all 64-bit handles both fit into the 40 bytes, and decoding the encoded footer returns it |
| Codec.EncodeFooterTo | src/table_builder.rs:56-68 | fills exactly the 48 footer bytes: handles, zeros, magic number |
| Codec.MagicNumber | src/table_builder.rs:20-20 | the last eight bytes of every footer, read as a little-endian number, are 0xdb4775248b80fb57 |
| Codec.OtherMagicIsRefused | src/table_builder.rs:44-55 | 48 bytes that end in any other number do not decode |
| Comparator.SeparatorLaw | src/cmp.rs:33-65 | for a < b: a < sep <= b, sep = b exactly when b is a and a zero byte, and sep is at most one byte longer than a |
| Comparator.SuccessorLaw | src/cmp.rs:67-80 | the short successor of any key is above it |
| Comparator.ShortestSepExact | src/cmp.rs:33-65 | the separator's bytes: a with its byte raised by one at the first position, from where a and b differ on, that leaves it below b, and cut off there; a and a zero byte if there is no such position; a itself for equal keys |
| Comparator.SuccFromExact | src/cmp.rs:67-80 | the successor's bytes: the key cut off behind its first byte below 255, which is raised by one; the key and a byte 255 if there is none |
| Comparator.FindShortestSep | src/cmp.rs:33-65 | the loops compute those bytes, the inner assertion holds, and the result separates |
| Comparator.FindShortSucc | src/cmp.rs:67-80 | the in-place loop computes those bytes, and they are above the key |
| BlockFormat.CounterClosedForm | src/block_builder.rs:56-70 | the restart counter of entry i is i modulo the interval, so restarts are every interval entries |
| BlockFormat.RestartsClosedForm | src/block_builder.rs:66-70 | after n entries restart j is entry j times the interval, and there are max(1, ceil(n/interval)) |
| BlockFormat.RestartsOrdered | src/block_builder.rs:66-70 | restart offsets are strictly increasing from entry 0 |
| BlockFormat.RestartWordAt | src/block_builder.rs:66-70 | word j of the restart array is the byte offset of the entry that starts restart j |
| BlockFormat.SharedAtRestart | src/block_builder.rs:54-70 | an entry at a restart shares nothing with its predecessor |
| BlockFormat.SharedIsLongest | src/block_builder.rs:54-70 | every entry that does not begin a group of `interval` entries shares with its predecessor all that the two keys have in common, and one that does shares nothing |
| BlockFormat.EmptyBlock | src/block.rs:347-356 | a block without entries is the eight bytes 0 0 0 0 1 0 0 0 |
| BlockFormat.BlockOfTwo | src/block_builder.rs:43-111 | the 23 bytes of the block for (key1, v1) and (key2, v2), the second entry stored as 3, 1, 2, `2`, `v2` |
| BlockFormat.ReadEntry | src/block.rs:133-154 | header and parts of every entry are found again in the raw bytes by the three varints |
| BlockFormat.BuiltBlockHasLayout | src/block_builder.rs:43-111 | whatever is built from non-empty keys is a block as the iterator needs it: entries, prefix sharing, restarts, restart count |
| BlockBuilding.BlockBuilder.SizeEstimate | src/block_builder.rs:43-45 | the estimate is exactly the length of the block `finish` would return |
| BlockBuilding.BlockBuilder.CountShared | src/block_builder.rs:57-65 | the prefix loop finds the longest common prefix with the last key |
| BlockBuilding.BlockBuilder.ChooseShared | src/block_builder.rs:54-72 | sharing, restart array and counter become those of the list with the new entry |
| BlockBuilding.BlockBuilder.Add | src/block_builder.rs:47-92 | appends one entry to the list the buffer, restarts, last key and counters stand for |
| BlockBuilding.BlockBuilder.Finish | src/block_builder.rs:94-111 | the bytes of a block holding exactly the pairs added |
| Cursors.ObserveSnoc | src/types.rs:60-100 | runs of cursor operations compose |
| Cursors.PrevUndoesAdvance | src/block.rs:214-243 | `prev` undoes `advance` and the other way round |
| Cursors.SeekOutcome | src/block.rs:246-296 | a seek is valid exactly if an entry is not below the target, and then on the first such; if not, a `prev` passes over the last entry |
| Cursors.ResetOutcome | src/block.rs:205-212 | a reset cursor yields the whole block forwards and goes on backwards from where it was |
| Cursors.EndOutcome | src/block.rs:214-243 | the last entry is what `seek_to_last` stands on and the only one from which an advance ends |
| Cursors.DrainIsSuffix | src/types.rs:92-103 | forward iteration yields every entry behind the cursor once, in order |
| Cursors.DrainBackIsReverse | src/block.rs:214-243 | backward iteration yields the entries before the last visited one, reversed |
| BlockIteration.BlockIter.constructor | src/block.rs:44-60 | a new iterator is in front of the first entry |
| BlockIteration.BlockIter.ParseEntryAndAdvance | src/block.rs:133-154 | reads the header of entry i, finds its key rest and value, and moves to entry i + 1 |
| BlockIteration.BlockIter.AssembleKey | src/block.rs:158-161 | truncates the key to the shared part and appends the stored rest |
| BlockIteration.BlockIter.SeekToRestartPoint | src/block.rs:105-118 | stands on the entry of that restart |
| BlockIteration.BlockIter.Advance | src/block.rs:184-205 | refines the cursor's advance; at the end the ordinal visited last survives |
| BlockIteration.BlockIter.Reset | src/block.rs:207-212 | invalid, with the ordinal visited last kept |
| BlockIteration.BlockIter.Prev | src/block.rs:214-248 | going back to a restart and replaying lands on the entry before the one visited last; the fallback in the loop is unreachable |
| BlockIteration.BlockIter.SeekToLast | src/block.rs:164-180 | stands on the last entry of a non-empty block, and the assertion holds |
| BlockIteration.BlockIter.FindRestart | src/block.rs:250-272 | binary search ends at the last restart below the target (or the first), the next one not being below |
| BlockIteration.BlockIter.Seek | src/block.rs:250-284 | lands on the first entry of the whole block at or above the target, or ends invalid when there is none |
| BlockIteration.BlockIter.IsValid | src/block.rs:286-288 | valid exactly when the cursor is |
| BlockIteration.BlockIter.Current | src/block.rs:290-300 | the pair at the cursor's ordinal, or nothing |
| BlockIteration.BlockIter.Next | src/types.rs:92-103 | the next entry, or nothing at the end |
| BlockIteration.BlockIter.DrainAll | src/types.rs:92-103 | repeated `next` yields exactly the entries behind the position |
| BlockIteration.BlockIter.RunAll | src/block.rs:164-308 | after each operation of any finite interleaving, position and current pair are those of the abstract cursor |
| BlockSessions.BlockRoundTrip | src/block_builder.rs:47-111 | build a block from any sorted pairs with any interval, iterate: the same pairs in order |
| BlockSessions.BlockRun | src/block.rs:164-308 | any run on a finished block shows what the abstract cursor over the added pairs shows |
| Lru.FetchKeepsMostRecent | src/cache.rs:218-226 | a lookup keeps "exactly the `cap` most recently used keys, in order of use" |
| Lru.StoreKeepsMostRecent | src/cache.rs:203-216 | so does storing an absent key: what goes is the least recently used key |
| Lru.RunKeepsMostRecent | src/cache.rs:203-226 | over every run the cache holds the `cap` most recently used distinct keys in order, never more than `cap` |
| Lru.GetMeaning | src/cache.rs:218-226 | a lookup answers the value exactly when a slot holds it under the key, and loses no slot |
| Lru.RunHoldsLastStored | src/cache.rs:203-226 | over every run the value under a key is the one last stored under it |
| Caching.LruList.Insert | src/cache.rs:32-65 | pointer swaps put a new node in front; both chains and the count stay right |
| Caching.LruList.RemoveLast | src/cache.rs:68-85 | unlinks the last node and returns its element; both chains stay right |
| Caching.LruList.Bypass | src/cache.rs:110-124 | first half of the swaps: the neighbours skip the node |
| Caching.LruList.PutFirst | src/cache.rs:125-140 | second half: the node becomes the first one |
| Caching.LruList.ReinsertFront | src/cache.rs:110-140 | the node moves to the front, the order of the others is kept, in both chains |
| Caching.Cache.constructor | src/cache.rs:172-181 | an empty cache |
| Caching.Cache.NewCacheId | src/cache.rs:184-187 | ids increase, so they are distinct |
| Caching.Cache.Insert | src/cache.rs:203-216 | refines the abstract insertion of an absent key; assertion and panic never fire, and map keys are the list's contents, each handle at its own node |
| Caching.Cache.Get | src/cache.rs:218-226 | refines the abstract lookup: value returned, key moved to the front |
| Caching.RunOnNewCache | src/cache.rs:172-226 | after any run the map and pointer list hold the most recently used keys in order |
| Bloom.BloomHash | src/filter.rs:76-109 | the loop over 32-bit words and the tail compute the hash, with 32-bit wrap-around |
| Bloom.SetBitExact | src/filter.rs:137-139 | setting a bit changes that bit from 0 to 1 and no other |
| Bloom.AddKeysExact | src/filter.rs:127-141 | exactly the bits probed for some key become 1, and bits never go back to 0 |
| Bloom.AddKeysKeepsTail | src/filter.rs:116-144 | the trailing byte that holds k is never touched |
| Bloom.FilterExact | src/filter.rs:116-144 | a bit of the filter is 1 exactly when some key probes it |
| Bloom.BodyLenBounds | src/filter.rs:116-125 | a filter has at least the bits asked for per key and at least 64, in whole bytes, and above 64 fewer than eight to spare |
| Bloom.MatchesEveryKey | src/filter.rs:146-157 | an empty filter, and one whose last byte is above 30, match every key |
| Bloom.MatchesProbesSet | src/filter.rs:146-171 | any other bytes match a key exactly when every position it probes is set |
| Bloom.MatchesExactly | src/filter.rs:112-171 | a filter made for a list of keys rules a key out exactly when the key probes a position that none of the list probes |
| Bloom.ProbesPerKey | src/filter.rs:61-73 | `BloomPolicy::new` chooses 1 probe below 2 bits per key, 0.69 times the bits rounded down up to 43, and 30 above |
| Bloom.NoFalseNegatives | src/filter.rs:112-171 | every key a filter was made for may match it, for all key lists with fewer than 2^32 bits and every k in 1..30 |
| Bloom.PiecesOfConcat | src/filter.rs:174-186 | slicing the concatenated keys at their offsets recovers every key |
| Bloom.CreateFilter | src/filter.rs:116-144 | the loops compute the filter of the sliced keys |
| Bloom.KeyMayMatch | src/filter.rs:146-171 | the loop answers as `MayMatch`, whose meaning for every filter and key `MatchesEveryKey`, `MatchesProbesSet` and `MatchesExactly` state |
| BloomVectors.KnownHashValues | src/filter.rs:231-244 | the hashes of the four byte strings of the tests are 0xef1345c4, 0x5b663814, 0x323c078f and 0xed21633a |
| BloomVectors.KnownFilter | src/filter.rs:190-216 | the filter for the four keys of the tests at 12 bits per key is 194, 148, 129, 140, 192, 196, 132, 164, 8 |
| FilterBlock.FilterBlockBuilder.AddKey | src/filter_block.rs:57-60 | the key joins those waiting for a filter |
| FilterBlock.FilterBlockBuilder.GenerateFilter | src/filter_block.rs:71-82 | the waiting keys become one filter, an empty one if there are none |
| FilterBlock.FilterBlockBuilder.StartBlock | src/filter_block.rs:62-69 | filters are generated until the index of the new offset is reached; the assertion holds |
| FilterBlock.FilterBlockBuilder.Finish | src/filter_block.rs:84-106 | filters, their offsets, the end of the last one, and the base |
| FilterBlock.ReaderOfBuilt | src/filter_block.rs:122-140 | a reader of a built block finds where the offsets begin, the base and the number of filters |
| FilterBlock.ReaderKeyMayMatch | src/filter_block.rs:149-162 | where no index is out of range and neither assertion fails (`FilterBlockReader.Answers`), answers from the filter of the offset |
| FilterBlock.BuiltFilterAnswers | src/filter_block.rs:137-162 | for an offset whose filter has keys the assertions hold, and a key is ruled out exactly when it probes a position that none of them probes; so none of them is |
| FilterBlock.AnswersExactly | src/filter_block.rs:137-162 | index and assertions hold for exactly those offsets whose filter has keys or whose index is above the number of filters, and for the latter every key may match |
| TableFormat.MaskRoundTrip | src/types.rs:157-164 | unmasking undoes masking, for all 32-bit checksums |
| TableFormat.MaskMeaning | src/types.rs:155-159 | masking swaps the high 17 and the low 15 bits and adds 0xa282ead8, modulo 2^32 |
| TableFormat.FrameLayout | src/table_builder.rs:206-226 | with Snappy the compressed contents, 1 and the checksum of both are written; without it the contents, 0 and the checksum |
| TableFormat.ReadAtByte | src/table_block.rs:15-18 | a read gives byte by byte what the file has there, and zeros behind its end |
| TableFormat.ReadStored | src/table_block.rs:39-90 | for any contents, type byte and checksum anywhere in a file: `Corruption` if the checksum is not that of contents and type; if it is, the contents for type 0, the decompressed contents or `CompressionError` for type 1, `InvalidData` for any other |
| TableFormat.FrameReadsBack | src/table_block.rs:39-81 | a framed block anywhere in a file reads back to the contents, for either compression type |
| Build.NothingLost | src/table_builder.rs:153-203 | the blocks, concatenated, are the pairs added: none lost, doubled or moved |
| Build.OrderedAll | src/table_builder.rs:153-203 | over every build: blocks are sorted and rising, every index key separates its block from the next |
| Build.TiledAll | src/table_builder.rs:206-226 | over every build: block extents tile the file without gap or overlap, and each holds its block's frame |
| Build.FilteredAll | src/table_builder.rs:160-203 | over every build: the number of finished filters is the filter index of the pending block's offset, and every block's keys are in the filter of its offset |
| Build.SizedAll | src/table_builder.rs:160-162 | over every build: a block exceeds the block size by its last entry only |
| Build.BlockSizes | src/table_builder.rs:153-173 | every block but the last is larger than `block_size`, and every block is at most `block_size` plus 4 plus its last entry |
| Build.OffsetsIncrease | src/table_builder.rs:222-223 | block offsets increase, so they identify blocks |
| BuildExact.SepsShortestAll | src/table_builder.rs:175-203 | over every build, whatever its keys, the index key of every block that another follows has the bytes of the shortest separator of the two keys at the border |
| BuildExact.IndexKeysExact | src/table_builder.rs:175-203 | ... and in a finished table the last one those of the shortest separator of the last key and its short successor |
| BuildExact.FiltersInOrder | src/filter_block.rs:57-82 | over every build the keys of the filters, one filter behind the other, are the keys added, in order |
| TableImage.FilterKeyIs | src/filter.rs:113-115 | the name the filter block is filed under is "filter.leveldb.BuiltinBloomFilter2", character by character |
| TableImage.DataReadsBack | src/table_block.rs:39-81 | every data block's handle reads back to that block's contents in the finished file |
| TableImage.ReadsBehind | src/table_block.rs:39-81 | so do the handles of metaindex and index |
| TableImage.FilterReadsBack | src/table_block.rs:21-34 | the filter block's bytes are found at its handle |
| TableImage.FooterReadsBack | src/table_reader.rs:19-24 | the footer is found at the end of the file |
| TableImage.RoomyPrefix | src/table_builder.rs:153-173 | if a finished table is below the size limits, so was every state on the way |
| TableBuilding.TableBuilder.constructor | src/table_builder.rs:107-119 | an empty build |
| TableBuilding.TableBuilder.WriteBlock | src/table_builder.rs:206-226 | appends the frame; `offset` equals the bytes written; the handle names the contents |
| TableBuilding.TableBuilder.WriteDataBlock | src/table_builder.rs:178-203 | moves the pending block to file, index and filters |
| TableBuilding.TableBuilder.Add | src/table_builder.rs:153-173 | one step of the abstract build; none of the assertions on the way fires for increasing keys |
| TableBuilding.AddReady | src/table_builder.rs:153-203 | in every reachable state the next larger key meets what the assertions of table, block, index and filter builder demand |
| TableBuilding.NextIsAbove | src/table_builder.rs:178-195 | the next separator is above the last index key, so the index builder's order assertion never fires |
| TableBuilding.TableBuilder.Finish | src/table_builder.rs:228-274 | the sink holds data, filter, metaindex, index, footer, and the file length is returned |
| TableBuilding.BuildTable | src/table_builder.rs:105-275 | a whole build of any sorted pairs leaves exactly the bytes of the table and returns their number |
| BlockCaching.CacheKeyInjective | src/table_reader.rs:97-106 | distinct (id, offset) pairs have distinct cache keys |
| BlockCaching.ReadIsDirect | src/table_reader.rs:110-125 | a read through the cache returns what reading the file returns, and keeps the cache true to the file |
| BlockCaching.ReadStores | src/table_reader.rs:110-125 | a block that was read is the first slot and the other keys follow in order of use as far as there is room; an error leaves the slots as they were |
| BlockCaching.NextReadHits | src/table_reader.rs:110-125 | the next read of a block that was read gives the same bytes, whatever the file holds by then |
| BlockCaching.ReadKeepsOthers | src/table_reader.rs:110-125 | ... and true to every other table that shares the cache |
| BlockCaching.ReadsKeepOthers | src/table_reader.rs:110-125 | any number of reads of one table keeps what the cache holds of any other table true to that table's file |
| BlockCaching.ReadsKeepIds | src/table_reader.rs:97-125 | reads keep every slot under an id that has been given out |
| BlockCaching.NewIdAgrees | src/cache.rs:184-187 | so a cache of any history holds nothing under the keys of a table with the next id |
| BlockCaching.CacheIsTransparent | src/table_reader.rs:97-125 | over any run of reads of any tables with distinct ids, every answer is the direct one |
| TableReading.ReadFilterBlock | src/table_reader.rs:69-93 | finds the filter block by the first metaindex entry at or above its name, or none |
| TableReading.ReadParts | src/table_reader.rs:47-66 | footer, index, metaindex and filters, or the error of the block that cannot be read |
| TableReading.OpenTable | src/table_reader.rs:47-66 | opening registers a new id and leaves the cached blocks alone; a failed one registers none |
| TableReading.OpenOutcome | src/table_reader.rs:47-66 | opening fails exactly when the index or the metaindex cannot be read, with the error of the index if that is one of them |
| TableReading.DamagedIndex | src/table_reader.rs:47-66 | a file whose index block does not have its checksum is refused with `Corruption` |
| TableReading.Table.ReadBlock | src/table_reader.rs:110-125 | returns what the file holds; a block returned is in the front slot of the cache and an error leaves the slots alone; only absent keys are stored, and only blocks of this table |
| TableReading.GetOutcome | src/table_reader.rs:156-192 | all cases of a lookup: the block read is the first whose index key is not below the key, if that is above it and the filter does not rule the key out; its error is the answer if it cannot be read, else the value of the entry with the key, `None` if there is none or no block is read; and an error only so |
| TableReading.Table.Get | src/table_reader.rs:156-192 | index, filter, cache and block search together give that outcome; whatever is new in the cache afterwards is a block of this table |
| TableReading.Table.ApproxOffsetOf | src/table_reader.rs:128-139 | the offset of the first block whose index key is at or above the key, or that of the metaindex |
| Separation.SepsIncrease | src/table_builder.rs:178-195 | index keys are strictly increasing |
| Separation.KeyBelow | src/table_builder.rs:178-195 | keys up to a block are below its index key |
| Separation.KeyAbove | src/table_builder.rs:178-195 | keys behind a block are at least its index key, and equal only at a boundary |
| Separation.BoundaryIsBeforeItsBlock | src/table_reader.rs:128-139 | a boundary key is looked for in the block before its own, every other key of a block in its own |
| Separation.LookupInChosen | src/table_reader.rs:156-165 | below its index key the chosen block decides the lookup in the whole table |
| Separation.LookupAtSeparator | src/table_reader.rs:156-168 | at an index key the table holds the key exactly at a boundary |
| EndToEnd.ClosedIsSeparated | src/table_builder.rs:228-240 | a finished table's blocks hold the pairs and are separated by the index keys |
| EndToEnd.UncompressedFits | src/table_builder.rs:206-226 | without compression a file below 4 GB implies the limits on blocks |
| EndToEnd.BuiltShows | src/table_reader.rs:47-125 | the file of a build shows its index and all its blocks, each readable through its handle |
| EndToEnd.SectionsTile | src/table_builder.rs:228-276 | a built file is the data blocks, the filter block, the metaindex naming it, the index and the footer in its last 48 bytes, one behind the other without a gap |
| EndToEnd.BuiltOpens | src/table_reader.rs:47-93 | the file of a build opens, and its parts are found as written |
| EndToEnd.FiltersNeverHide | src/filter_block.rs:137-162 | for every data block and key in it, the reader's assertions hold at the block's offset and the key may match |
| EndToEnd.BuiltGet | src/table_reader.rs:156-192 | on a built table `get` answers, for every key, the map lookup or nothing for a boundary key, and never an error |
| EndToEnd.GetIsLookupIffNoBoundary | src/table_reader.rs:156-192 | `get` is the map lookup for a key if and only if it is not a boundary key |
| Lookups.GetIsLookup | src/table_reader.rs:156-192 | without keys that extend another by a zero byte, `get` is the map lookup for every key |
| Lookups.GetFindsExactlyThePairs | src/table_reader.rs:156-192 | `get` answers `Some(v)` exactly for pairs added, boundary keys aside |
| Lookups.GetMissesAKey | src/table_reader.rs:163-168 | whenever the two pairs can be built into a table with the first filling its block, `get` misses the second |
| Lookups.OpenBuilt | src/table_reader.rs:47-66 | the file of a build opens with a cache that other tables have been using, and the cache is true to the new table |
| Lookups.GetOne | src/table_reader.rs:156-192 | `get` on an open built table gives that answer for a cache of any history, keeps the table open, and adds only this table's blocks |
| Lookups.Session | src/table_reader.rs:47-192 | build, open with a cache of any capacity, look up any keys: all answers are right |
| Lookups.OffsetsMonotone | src/table_reader.rs:128-139 | `approx_offset_of` never decreases with the key |
| Lookups.BuiltOffset | src/table_reader.rs:128-139 | what the index and footer of a built file give is the offset in terms of the build |
| Lookups.OffsetIn | src/table_reader.rs:128-139 | `approx_offset_of` on an open built table returns it |
| Lookups.OffsetBehindAll | src/table_reader.rs:128-139 | for a key above every index key it is the offset of the metaindex, where the filter block ends |
| Lookups.OffsetOfPresentKey | src/table_reader.rs:127-139 | a key added gets the offset of its own block if and only if it is not a boundary key; a boundary key gets that of the block before |
| Lookups.OffsetMissesAKey | src/table_reader.rs:127-139 | whenever the two pairs can be built with the first filling its block, the second gets the offset of the first block |
| TableCursors.AdvanceTakesHead | src/table_reader.rs:236-268 | an advance takes the first of the entries ahead, skipping unreadable blocks; without any it leaves the reset state |
| TableCursors.TraverseYieldsAhead | src/table_reader.rs:236-268 | from every state a traversal terminates, yields exactly the entries ahead, and ends reset |
| TableCursors.TraverseFromStart | src/table_reader.rs:215-268 | from a new or reset iterator: the entries of the readable blocks, in index order |
| TableCursors.OrdinalIsPosition | src/table_reader.rs:325-335 | a valid iterator's pair is the one at its ordinal in the whole table |
| TableCursors.AdvanceMovesOn | src/table_reader.rs:236-268 | an advance goes to the next ordinal, across blocks, until there is none |
| TableCursors.PrevMovesBack | src/table_reader.rs:292-316 | `prev` succeeds exactly if the block has an entry before or the block before can be read; then it goes from ordinal p to p - 1, across blocks, and an advance returns to the same state; behind an unreadable block it resets |
| TableCursors.PrevUndoesAdvanceInTable | src/table_reader.rs:236-316 | `prev` undoes an advance if and only if the advance skipped no block; otherwise it fails |
| TableCursors.WalkAddsUp | src/table_reader.rs:236-316 | any walk of advances and `prev`s, unreadable blocks or not, stands on the entry the steps add up to as long as no step fails |
| TableCursors.WalkFailsOutside | src/table_reader.rs:236-316 | with all blocks readable, a walk has no failing step if and only if it never leaves the table |
| TableCursors.PrevBeforeFirst | src/table_reader.rs:292-316 | after a failed `prev` at the first entry a traversal yields the table once if and only if no block was loaded; otherwise the first block comes twice |
| TableCursors.ForwardAndBackRepeats | src/table_reader.rs:292-316 | that state is reached by a new iterator moved forward once and back once |
| TableCursors.PrevAfterTraversal | src/table_reader.rs:292-316 | `prev` after a finished traversal passes over the whole last block and stands at the end of the one before |
| TableCursors.PrevFailsExactly | src/table_reader.rs:292-316 | `prev` fails exactly in front of the table or of a block that cannot be read |
| TableSeeking.TableLowerBound | src/table_reader.rs:272-286 | the table-wide lower bound, by way of the first block whose index key is at or above the target |
| TableSeeking.SeekLandsOutsideGaps | src/table_reader.rs:272-290 | a seek lands on the table-wide lower bound if and only if the target is not in a gap between a last key and its separator |
| TableSeeking.SeekIntoGap | src/table_reader.rs:278-285 | in a gap the iterator is left invalid, and an advance goes back below the target |
| TableSeeking.GapOfPresentKey | src/table_reader.rs:278-285 | the key of an entry is in a gap exactly when it is a boundary key |
| TableSeeking.SeekInReadable | src/table_reader.rs:272-286 | with damaged blocks about, a seek into a readable block is valid exactly if an entry of it is not below the target, stands on the first such, and a traversal goes on with the readable blocks behind |
| TableSeeking.SeekFails | src/table_reader.rs:277-290 | a seek past the last index key or into a block that cannot be read leaves the iterator invalid, and a traversal starts over with the whole table |
| TableSeeking.PrevAfterFailedSeek | src/table_reader.rs:288-316 | a `prev` behind such a seek goes to the last entry of the block before that one, or before the last one, and fails if that cannot be read |
| TableIteration.TableIterator.constructor | src/table_reader.rs:143-151 | a new iterator has no block and stands before the index |
| TableIteration.TableIterator.LoadBlock | src/table_reader.rs:224-232 | loads the block of an index entry, or returns its error and changes nothing |
| TableIteration.TableIterator.SkipToNextEntry | src/table_reader.rs:215-221 | one step of the index: a block loaded, an error, or the end |
| TableIteration.TableIterator.Advance | src/table_reader.rs:236-268 | refines the abstract advance; the recursion ends by the index entries that remain |
| TableIteration.TableIterator.Seek | src/table_reader.rs:272-290 | refines the abstract seek, failed loads and past-last targets included |
| TableIteration.TableIterator.Prev | src/table_reader.rs:292-316 | refines the abstract `prev`; returns whether the iterator is valid |
| TableIteration.TableIterator.Reset | src/table_reader.rs:318-321 | refines the abstract reset |
| TableIteration.TableIterator.IsValid | src/table_reader.rs:325-327 | valid exactly when the abstract cursor is |
| TableIteration.TableIterator.Current | src/table_reader.rs:329-335 | the pair the abstract cursor is on |
| TableIteration.TableIterator.Next | src/types.rs:92-103 | the pair behind, or nothing at the end |
| TableIteration.TableIterator.TraverseAll | src/table_reader.rs:236-268 | repeated `next` yields exactly the entries ahead, and adds only this table's blocks to the cache |
| TableIteration.TableIterator.RunAll | src/table_reader.rs:235-335 | after each operation of any finite interleaving, position and current pair are those of the abstract cursor; only this table's blocks are added to the cache |
| Scans.BuiltBlocks | src/table_builder.rs:228-240 | in a built table every block is readable and non-empty, and together they hold the pairs |
| Scans.BuiltSeekLands | src/table_reader.rs:272-290 | on a built table, from any state, a seek lands on the lower bound among the pairs exactly outside gaps |
| Scans.SeekFindsKey | src/table_reader.rs:272-290 | a seek finds the key of every pair added, if and only if it is not a boundary key |
| Scans.SeekMissesAKey | src/table_reader.rs:278-285 | whenever the two pairs can be built with the first filling its block, no seek finds the second |
| Scans.BuiltForwardAndBack | src/table_reader.rs:292-316 | in every table with a pair, one step forward and one back make a traversal yield the first block twice |
| Scans.RoundTrip | src/table_reader.rs:47-268 | build, open with a cache of any capacity, traverse: exactly the pairs that went in |
| Scans.Scan | src/table_reader.rs:143-268 | a new iterator over an open built table yields the pairs for a cache of any history, keeps the table open, and adds only its blocks |
| Scans.ScanFrom | src/table_reader.rs:272-335 | seek and collect gives the pairs from the lower bound on, or none in a gap |
| Sharing.AllHoldAfterReads | src/table_reader.rs:110-125 | reads of one open table keep all others on the same cache open |
| Sharing.Serve | src/table_reader.rs:47-268 | over any run of builds, openings, lookups and traversals of any number of tables on one cache, every reply is the one for its own table |
| SizeBounds.PaidAll | src/table_builder.rs:153-203 | over every uncompressed build, bytes written and index entries are bounded by the lengths of the pairs |
| SizeBounds.KeysAreConserved | src/filter_block.rs:57-82 | every key added is in exactly one filter, finished or waiting, over every build |
| SizeBounds.WithinBudgetIsBuildable | src/table_builder.rs:153-275 | without compression the lengths of the pairs decide that all size limits of a build hold |
| SizeBounds.SomeKeyIsMissed | src/table_reader.rs:127-316 | for any options without compression there is a table of two pairs whose second key `get`, every seek and `approx_offset_of` miss |
| Damage.WrongChecksumDamages | src/table_block.rs:60-68 | replacing a data block of a built file by as many bytes with a checksum that is not theirs makes it unreadable, with the error `Corruption` |
| Damage.BlockOutside | src/table_block.rs:39-81 | every block outside the bytes changed reads as before |
| Damage.DamagedOpens | src/table_reader.rs:664-673 | a built file with one data block damaged opens with the parts of the intact one |
| Damage.DamagedShows | src/table_reader.rs:664-680 | it shows its index and every other block |
| Damage.DamagedGet | src/table_reader.rs:156-192 | for every key, `get` answers as on the intact file unless it reads the damaged block; then its error |
| Damage.DamagedKey | src/table_reader.rs:156-192 | for the key of every pair added: the error for pairs of the damaged block, the value for all others, nothing for boundary keys |
| Damage.GetDamaged | src/table_reader.rs:47-192 | opening the damaged file on a cache of any history and looking such a key up gives that |
| Damage.DamagedScan | src/table_reader.rs:675-680 | a traversal yields the pairs of all other blocks in order: the pairs added without those of the damaged block |

## Left out

- `LRUList::remove` and `Cache::remove`: the table code does not call them, and they do not keep the list linked (src/cache.rs:89-107, 229-236).
- `Cache::insert` of a key that is present: reading a block stores only after a miss.
- Snappy and the CRC-32C polynomial: other crates; parameters here. An error of the encoder ends a build and is not modelled.
- The varint and fixed-width integer crate: modelled as unsigned LEB128 and little endian, with the ten-byte limit on decoding.
- `NoFilterPolicy`: it makes empty filters, which the reader's assertion excludes; tables with no filter block at all are only opened, not built.
- The `f32` computation of k (src/filter.rs:61-73): `Bloom.NewPolicy` computes in `real`, where the result is the same; the theorems hold for any k in 1..30.
- Custom `Cmp` implementations: the byte order of `DefaultCmp` only.
- Files, partial writes and I/O errors of the sink, locks and their poisoning, `Arc` sharing, moves of the list head in memory.
- `unwrap`s and assertions on damaged footers, handles and filter blocks: preconditions of `TableReading.OpenTable` (`Openable`) and of lookups; damaged data blocks are modelled, as errors and as blocks the iterator skips.
- Overflow of 64-bit offsets and ids: excluded by the 4 GB limits, and by ids below 2^64.
- SomeKeyIsMissed: stated without compression, because an arbitrary compressor may make a file exceed 4 GB.
- `TableBuilder::size_estimate`, `entries` of the table builder beyond its count, and `current_key`.
