# borge: a verified model of its hard parts

borge cuts files into content-defined chunks, stores each distinct chunk once, and writes
the list of archived items through the same chunker. This project models the parts of it
whose correctness is not visible in any one function, in Dafny, and proves what they are
for. One file holds one component; every lemma is about all inputs, all runs or all
reachable states.

* `ChunkSpec`, `Readers`, `Driver`, `Buzhash`, `Words`, `Cuts`, `Csprng`: where chunks
  end, said without a buffer; the readers a chunker is given; the buffered loops that
  compute it; the rolling hashes; where they cut, in numbers; the keyed generator.
* `Streaming`, `Msgpack`, `Wire`, `Unpacker`, `Repair`: decoding a stream that arrives in
  pieces and may have holes in it, and the MessagePack format as its specification gives it.
* `Store`, `ArchiveBuilder` (`Builder.dfy`), `ItemStream`, `StreamFormat`, `Pipeline`:
  deduplicated storing, the incrementally chunked item stream and its pointer blocks, when
  it can be read, and the concurrent pipeline.
* `FilesCache`, `CacheFormat`, `Staleness`: the cache that lets a backup skip unchanged
  files, its file, how it behaves over many backups, and when it is wrong.
* `Extract`, `WritePool`, `Dismissed`, `Destination`, `Sparse`: restoring a tree, serially
  and with a worker pool, with writes that fail; and file contents through holes, chunks and
  back.
* `Diff`, `Refs`, `Analyze`, `Paths`, `PyMarshal`, `PyFormat`: comparing archives, what
  they refer to, what they cost, the path cache behind a search, and Python's marshal
  format, with what it has for each value.

What lies outside is a parameter: the id hash, formatting and storing an object
(`Store.Env`), streams whose reads may return short or fail (`Readers.Reader`), the cipher's
keystream, checksum and compression. Freedom from hash collisions is a hypothesis about
the finite set of data handed to one repository (`NoCollision`), never about all byte
strings. Machine words are rows of bits of the machine's width; integers of the programs
are unbounded except where a width matters (`Csprng.Int64`, `PyMarshal`, 32-bit sizes in
`Refs`). Concurrency is modelled as step relations. A step of the pipeline is a channel
operation; a step of the extraction's pool is a worker taking a job, creating its file or
completing it, or one act of the driver: an item cleared from the disk, its parents and its
entry made, or its write submitted, at once.

Where the code does not do what one would expect of it, the model follows the code and
says when:

* A bound above 2^56 that is no power of two lets the fallback of `RandomInt` divide a
  negative number (`Csprng.InRangeIff`, `Csprng.DrawCanBeNegative`). No table needs one.
* In a sparse restore an empty chunk behind a hole at the end of a file leaves the hole
  off, and the size check does not notice (`Sparse.RestoredIff`, `Sparse.EmptyChunkLosesHole`).
  The chunkers never emit an empty chunk (`Sparse.ContentSurvives`).
* A destination archived as `.` gets its attributes before its children are made, and keeps
  them exactly when nothing is made or removed directly in it after that
  (`Destination.RootKeepsAttributesIff`, `Destination.RootIsStampedTooEarly`).
* The pool remembers a file for hard links before it is written, the serial path after. When
  a write fails and the failure is dismissed, a later member of the group becomes a link to
  the broken file with the pool and a file of its own without it (`WritePool.PoolIsSerial`,
  `WritePool.PoolLinksToBroken`).
* Behind a gap the scan for the next item waits, and recovers nothing, while the bytes from
  the last one of the damaged item's tail on are fewer than the largest head and the longest
  key take (`Unpacker.RecoversOnBytes`).
* An object too large to be indexed is put before its size is checked, and stays
  (`Store.FailedAddLeaves`).
* A lookup that does not compare ctimes confirms an entry with a ctime it has not compared,
  and a later backup that compares ctimes then takes old chunks for the current content. A
  lookup can return old chunks exactly if a backup that memorizes files is followed by one
  that trusts entries without comparing ctimes, the one looking up or one before it
  (`Staleness.StaleIff`, `Staleness.MtimeRunMakesStale`).
* The chunk list of an unchanged empty file is nil, which the caller of the files cache
  takes for a change: such a file is opened again each time (`FilesCache.FileChunks`,
  `FilesCache.EmptyFileIsReadAgain`).

## Model

| member | source | states |
|---|---|---|
| ChunkSpec.NewConfigIsSound | internal/chunker/chunker.go:185-268 | accepted parameters give ordered sizes and 64-bit masks, and a hash that meets the mask for a length meets it for every longer one |
| ChunkSpec.ConfigMeans | internal/chunker/chunker.go:185-268 | parameters are accepted exactly when the exponents increase and are at most 31 and the mask bits lie above the level and at most 48 with it; sizes are then powers of two, and a hash meets the mask for a length exactly when that many of its topmost, or lowest, bits are zero |
| Cuts.GearCutIs | internal/chunker/driver.go:150-224 | from parameters to cut: the first length above the minimum at which the sum of doubled table entries modulo 2^64 is small enough, or the limit |
| Cuts.BuzCutIs | internal/chunker/driver.go:257-329 | from parameters to cut: the first length from the minimum on at which the hash of the window behind it is a multiple of a power of two, a window short of the limit, or the limit |
| ChunkSpec.CutIsUnique | internal/chunker/driver.go:150-224 | the specified end of the next chunk is one position |
| ChunkSpec.CutExists | internal/chunker/driver.go:150-224 | and there always is one |
| ChunkSpec.CutBounds | internal/chunker/driver.go:150-224 | a chunk is never empty nor above maxSize, and none but the last may be below minSize |
| ChunkSpec.ChunksPartition | internal/chunker/driver.go:257-329 | the chunks of a stream concatenate to it, within the size limits |
| ChunkSpec.CutIsStable | internal/archive/builder.go:526-575 | a cut before the end of what is known does not move when more bytes follow |
| ChunkSpec.ChunksExtend | internal/archive/builder.go:526-575 | appending to a stream re-cuts nothing but its last chunk |
| Driver.Driver.Reset | internal/chunker/driver.go:67-77 | a reset driver over a dirty buffer stands where a fresh one does |
| Driver.Driver.Compact | internal/chunker/driver.go:86-94 | lazy compaction loses and adds no byte of the remaining stream |
| Driver.Driver.Emit | internal/chunker/driver.go:96-104 | an emitted chunk is taken off the front of the remaining stream |
| Driver.Driver.Fill | internal/chunker/driver.go:106-139 | a refill changes nothing that remains, sees the end only by a read of no bytes, and fails exactly when a read has failed and left it short |
| Driver.WindowLessChunker.Next | internal/chunker/driver.go:150-224 | whatever the reader's blocks and short reads, the next chunk is the specified one, the byte count mismatch never happens, and an error is answered exactly when a read has failed, losing nothing |
| Driver.WindowLessChunker.Drain | internal/chunker/fastcdc.go:80-101 | all the chunks of the stream, or those cut before a read failed; it stops early exactly when one has |
| Driver.WindowedChunker.Next | internal/chunker/driver.go:257-329 | the same for the windowed loop, whose short tail and mask differ on purpose: the specified chunk, or an error exactly when a read has failed |
| Driver.WindowedChunker.Seek | internal/chunker/driver.go:285-321 | the scan stops at the first window that meets the mask for its position, or at the limit |
| Driver.WindowedChunker.ScanBuffered | internal/chunker/driver.go:296-312 | one stretch up to the mask transition passes over no match and keeps the rolling digest that of the window below |
| Driver.WindowedChunker.Drain | internal/chunker/buzhash.go:94-101 | all the chunks of a windowed stream, fewer exactly when a read has failed |
| Buzhash.GearForgets | internal/chunker/fastcdc.go:90-101 | each Gear step moves the digest up one bit, so 64 steps forget where it started |
| Buzhash.GearStepIs | internal/chunker/fastcdc.go:90-101 | a step doubles the digest and adds the table entry, modulo 2^64 |
| Buzhash.HashWindow | internal/chunker/buzhash.go:107-118 | the loop over the window, with rotations taken modulo the width, is the cyclic polynomial |
| Words.RotlMoves | internal/chunker/buzhash.go:107-133 | a rotation moves the low bits up and the bits that go over the top to the bottom, as numbers |
| Buzhash.Roll | internal/chunker/buzhash.go:124-133 | rolling one byte in and one out is hashing the new window from scratch, for every table and window size |
| Buzhash.BuzRolls | internal/chunker/buzhash.go:188-211 | both widths meet what the windowed loop asks of its hash |
| Buzhash.ScanStopsAlike | internal/chunker/buzhash.go:200-211 | comparing in 32 bits, as the scan does, is comparing the sum kept in 64 bits, as the loop around it does |
| Csprng.DrawnInARow | internal/chunker/csprng.go:63-74 | consecutive draws use the keystream without gap or overlap |
| Csprng.Generator.RandomBytes | internal/chunker/csprng.go:52-74 | the next bytes of the keystream, wherever refills fall and whatever their size |
| Csprng.Generator.RandomInt | internal/chunker/csprng.go:82-111 | the first accepted attempt or the fallback, a function of the stream position alone, and what it consumed |
| Csprng.DrawIs | internal/chunker/csprng.go:82-111 | with k attempts rejected the draw is attempt k, or the remainder behind the last, and each took its own bytes |
| Csprng.WidthIs | internal/chunker/csprng.go:90-96 | an attempt has as many bits as the bound less one, and no byte too many |
| Csprng.FirstByteWeighsMost | internal/chunker/csprng.go:128-137 | the bytes of an attempt are read with the first one highest, modulo 2^64 |
| Csprng.InRangeIff | internal/chunker/csprng.go:88-122 | with at least one attempt and a bound that fits an int64, all draws from all keystreams are in range exactly when the bound is at most 2^56 or a power of two |
| Csprng.DrawBelowInRange | internal/chunker/csprng.go:82-111 | every draw below a bound of up to 2^56 is in range |
| Csprng.DrawCanBeNegative | internal/chunker/csprng.go:109-110 | a keystream and a bound for which the draw is -1 |
| Csprng.Generator.Shuffle | internal/chunker/csprng.go:117-126 | the in-place loop is Fisher-Yates from the top down, and stops where a draw is out of range |
| Csprng.ShuffledPermutes | internal/chunker/csprng.go:117-126 | a shuffle permutes, whatever the keystream |
| Csprng.ShuffledDeals | internal/chunker/csprng.go:117-126 | a shuffle deals: from the last place down, each place gets the item at the index drawn among those left, the last of these taking its place |
| Csprng.SwapExchanges | internal/chunker/csprng.go:123 | an exchange moves each of two items to the other's place and no other item |
| Csprng.Buzhash64Table | internal/chunker/buzhash.go:67-86 | each of the 64 bits is set in exactly the 128 of the 256 entries its shuffle of 0..255 puts first, each shuffle going on where the last left the keystream |
| Msgpack.DecodeStable | internal/msgpackx/decode.go:78-268 | more input changes no outcome of the decoder but "short" |
| Msgpack.PrefixIsShort | internal/msgpackx/decode.go:388-427 | every proper prefix of an encoding is short, never an error or another value |
| Msgpack.RoundTrip | internal/msgpackx/encode.go:104-463 | what is encoded decodes to the same value, whatever follows it |
| Msgpack.UnmarshalRoundTrip | internal/msgpackx/decode.go:21-37 | and as a whole input |
| Wire.DecodeIff | internal/msgpackx/decode.go:78-268 | the decoder reads a value from an input exactly when the input is one of the forms the MessagePack specification has for it, byte by byte, and nests no deeper than 64 |
| Wire.EncodeIsShortest | internal/msgpackx/encode.go:104-463 | what is encoded is such a form, and none is shorter |
| Streaming.DrainSplit | internal/archive/stream.go:208-251 | decoding is the same however the stream is cut into pieces |
| Streaming.DrainEncodings | internal/archive/stream.go:208-251 | unframed encodings come out in order |
| Streaming.NextStepGrows | internal/archive/robust.go:98-157 | an answer of the unpacker is final: later bytes do not change it |
| Streaming.ResyncFindsFirst | internal/archive/robust.go:98-157 | while resynchronising it stops at the first offset not rejected, and never steps over one that more input could make acceptable |
| Streaming.RunSplit | internal/archive/robust.go:79-157 | items and remaining state depend on the bytes fed, not on how they were split over feeds, up to the first decode error |
| Streaming.AgreesWithPlain | internal/archive/robust.go:98-157 | outside a resynchronisation it is the plain unpacker |
| Streaming.ReadsUpToOther | internal/archive/robust.go:98-116 | up to the first value that is no item, which breaks it off |
| Streaming.RecoversAt | internal/archive/robust.go:98-157 | behind junk it resumes at the first accepted item and goes on as the plain unpacker |
| Unpacker.StreamUnpacker.Next | internal/archive/stream.go:261-311 | the buffer with its offset and compaction hands out what decoding the unread bytes yields |
| Unpacker.ValidMsgpackedDict | internal/archive/robust.go:178-214 | accepts exactly a fixmap or map16 header followed by one of the known string keys |
| Unpacker.StatusOnBytes | internal/archive/robust.go:98-214 | told from the bytes: an offset is accepted exactly when a fixmap or map16 head and a known key stand there and the value decodes and passes; with no such head it is ruled out exactly when a head and the longest key have room |
| Unpacker.ValidDictFinal | internal/archive/robust.go:163-176 | once as many bytes are there as the longest key needs, a rejection is final |
| Unpacker.SourceIsValid | internal/archive/robust.go:98-176 | filter, decoder and validator together are stable under more input |
| Unpacker.RobustUnpacker.Next | internal/archive/robust.go:98-157 | the method computes the step the lemmas speak of |
| Unpacker.RobustUnpacker.Feed | internal/archive/robust.go:79-90 | feeding appends to what is unread and nothing else |
| Unpacker.PlausibleIsAccepted | internal/archive/robust.go:178-214 | an encoded item that starts with a known key passes all three tests |
| Unpacker.RecoversAfterGap | internal/archive/robust.go:98-157 | all items behind a gap are recovered when nothing in the junk passes for one |
| Unpacker.RecoversOnBytes | internal/archive/robust.go:98-157 | behind junk in which no offset holds a head with a known key, all whole items are recovered exactly when a head and the longest key have room from its last byte on, and otherwise none |
| Repair.ReadItemsRobustly | internal/archive/repair.go:187-286 | the loop over chunks, missing ones, failing ones and decode errors computes the specified items and number of gaps |
| Repair.RecoverCounts | internal/archive/repair.go:187-286 | it fails exactly when a chunk fails otherwise than by being gone, and counts exactly the chunks that are gone |
| Repair.DecodeErrorIsGap | internal/archive/repair.go:255-281 | a decode error keeps the items before it and is for what follows a gap, though one that is not counted |
| Repair.RecoverPresent | internal/archive/repair.go:255-281 | over chunks that are there, reading chunk by chunk is reading their concatenation |
| Repair.RecoversAroundGaps | internal/archive/repair.go:187-286 | with any number of gaps in the stream exactly the whole items between them are recovered, in order, and all missing chunks counted |
| Repair.RecoversFromBytes | internal/archive/repair.go:187-286 | the same for the unpacker of a repository's keys, with conditions on the bytes between the items alone |
| Repair.UsableAt | internal/archive/repair.go:270-280 | of the decoded values the usable ones are kept, in order, and no others |
| Store.CommitIsAdd | internal/archive/pipeline.go:241-268 | committing a formatted chunk ends as adding it serially, although sizes are checked in another order |
| Store.AddAllAccounts | internal/archive/builder.go:236-272 | every chunk tried counts once, new ones once more, the deduplicated size is what the index grew by, and the original size counts contents but not metadata; after a failure too |
| Store.AddAllSucceedsIff | internal/archive/builder.go:236-272 | adding chunks succeeds exactly when each is indexed by the time it comes to it, or can be formatted and put and is at most 2^32-1 bytes long |
| Store.FailedAddLeaves | internal/archive/builder.go:236-272 | a failed addition indexes nothing, and leaves an object only where it was too large |
| Store.AddKeeps | internal/archive/builder.go:236-272 | adding keeps the store content addressed and every stored object readable |
| Store.AddFiles | internal/archive/builder.go:236-272 | what was added, or found to be there, is read back under the returned id |
| ArchiveBuilder.ChunkDataIsData | internal/archive/builder.go:415-420 | an all-zero chunk recorded by its size alone expands to its bytes |
| ArchiveBuilder.Builder.AddChunk | internal/archive/builder.go:236-272 | the method does what the specification of an addition says |
| ArchiveBuilder.Builder.ChunkFileSerial | internal/archive/builder.go:344-408 | with either kind of content-defined chunker, fresh or used before, and any reader, the serial path adds exactly the specified chunks of what is read, in order; it fails exactly as these additions do unless a read fails |
| ItemStream.SplitsGrow | internal/archive/builder.go:509-524 | buffering one more item keeps the stored chunks a beginning of those of the whole stream |
| ItemStream.SplitsFlush | internal/archive/builder.go:526-575 | so does storing all chunks of the buffer but the last and putting that one back |
| ItemStream.SplitsEnd | internal/archive/builder.go:526-575 | after the final flush the stored chunks are those of one pass over the whole stream |
| ItemStream.ItemStream.Add | internal/archive/builder.go:509-524 | an added item joins the stream and all invariants stay; it fails exactly when the buffer is full and a chunk of it cannot be stored |
| ItemStream.ItemStream.Flush | internal/archive/builder.go:526-575 | an intermediate flush keeps the split, the final one leaves nothing behind, and either fails exactly when adding the pieces does |
| ItemStream.BlockRoundTrip | internal/archive/builder.go:672-698 | a pointer block reads back as its ids |
| StreamFormat.BlockIff | internal/archive/stream.go:140-165 | a block reads as some ids exactly when it is a MessagePack array of byte strings, these ids, and nothing behind it |
| ItemStream.WriteItemPointers | internal/archive/builder.go:672-698 | the blocks hold all ids in order, there is one even for no ids, and it fails exactly when adding the blocks does |
| ItemStream.Archive.ItemStreamIDs | internal/archive/stream.go:117-165 | the ids of all blocks in order, cached or not, or an error |
| StreamFormat.StreamIdsIff | internal/archive/stream.go:117-165 | an archive has a stream exactly when it has either ids or pointers that all lead to blocks, not both and not neither |
| ItemStream.Archive.RawItems | internal/archive/stream.go:208-251 | the items of the stream, an error where it breaks off inside one |
| StreamFormat.StreamIff | internal/archive/stream.go:208-251 | a stream reads as some values exactly when all its chunks are there and together are a form of each value in turn, and no more |
| ItemStream.Save | internal/archive/builder.go:600-698 | what was added and saved reads back as the same items in the same order with nothing left over, wherever chunks and items end; it fails exactly when a chunk or a block cannot be stored |
| Pipeline.ClosedMeansAll | internal/archive/pipeline.go:200-238 | a closed channel at index i means that exactly i chunks exist |
| Pipeline.NeverStuck | internal/archive/pipeline.go:153-238 | no reachable unfinished state is stuck |
| Pipeline.EveryRun | internal/archive/pipeline.go:153-238 | every run of any schedule has the same length and the same outcome, that of committing in file order |
| Pipeline.FailureFreezes | internal/archive/pipeline.go:200-238 | after the first error nothing more is committed |
| Pipeline.CommittedIsSerial | internal/archive/pipeline.go:139-150 | committing in order succeeds exactly when the serial path does and all chunks can be formatted, with the same result |
| Pipeline.RunRefinesSerial | internal/archive/pipeline.go:153-268 | an error-free run leaves the chunk list, index, objects and counts of the serial path |
| FilesCache.Files.Lookup | internal/cache/files.go:218-260 | known and chunks as compared by the mode, and a hit confirms the entry |
| FilesCache.LookupIff | internal/cache/files.go:218-260 | a lookup returns an entry's chunks exactly when the cache is in use and size, inode, ctime and mtime are the entry's wherever the mode names them |
| FilesCache.LookupAccounts | internal/cache/files.go:218-308 | a lookup is a hit or a miss, and a hit alone counts for the newest time and the paths that have it |
| FilesCache.Files.Memorize | internal/cache/files.go:263-276 | the new entry and the newest times, and no change for a disabled cache |
| FilesCache.Files.Save | internal/cache/files.go:333-410 | what is written reads back as the entries to be kept, one backup older |
| FilesCache.KeptIff | internal/cache/files.go:333-386 | of the entries confirmed in a run those are kept whose times lie before the newest time seen and more than three seconds before the start, of the others those younger than the ttl |
| CacheFormat.RestoredIff | internal/cache/files.go:413-500 | an entry is restored from a file exactly when it is a MessagePack map with the magic and a list, and the last value in it that holds an entry for the path, its fields in any order, holds this one |
| CacheFormat.WrittenIs | internal/cache/files.go:372-410 | what is written is such a file, with entries one backup older |
| FilesCache.EntryRoundTrip | internal/cache/files.go:392-500 | an entry decodes to itself with its age increased |
| FilesCache.EventKeeps | internal/cache/files.go:333-386 | every step of a backup and every change to a file keeps all entries sound, for ctimes and for mtimes |
| FilesCache.NeverStaleBy | internal/archive/create_linux.go:672-736 | over any history in which a change of content stamps one of the two times and confirming lookups compare it, chunks returned by a lookup that compares it are those of the file's current content, and only then is the file not read |
| FilesCache.NeverStale | internal/archive/create_linux.go:672-736 | every change stamps the ctime, so over any history whose confirming lookups compare ctimes, chunks returned by a lookup in ctime mode are those of the file's current content |
| Staleness.StaleIff | internal/cache/files.go:218-260 | for every list of modes that backups run in: some history makes a lookup in the last return chunks other than the file's exactly when that mode trusts entries and a backup that memorizes is followed by one that trusts entries without comparing ctimes |
| Staleness.MtimeRunMakesStale | internal/cache/files.go:218-260 | so it can happen with one mtime backup between two ctime ones, and not with three ctime ones |
| FilesCache.AgesOut | internal/cache/files.go:333-386 | over any history that does not confirm it, an entry is on disk exactly as long as its age with the runs since is within the ttl, and is otherwise unchanged |
| FilesCache.GoneAfterTtl | internal/cache/files.go:333-386 | so what a run confirmed and saved is there exactly while fewer than ttl further runs have ended |
| FilesCache.FileChunks | internal/archive/create_linux.go:672-736 | which chunks, status and counters a file gets from its inode, the cache or a read, status U exactly for an unchanged file with chunks, and that a file that changed meanwhile is not memorized |
| FilesCache.SizeAdds | internal/archive/create_linux.go:700-736 | the size counted for an unchanged file is the sum over its chunks |
| FilesCache.ReadFile | internal/archive/create_linux.go:753-787 | the first of ten reads under which the file did not change, the last if it always did, an error if reading or looking again fails |
| FilesCache.EmptyFileIsReadAgain | internal/archive/create_linux.go:672-736 | an unchanged empty file found in the cache is opened again |
| Extract.ChainOfAncestors | internal/archive/extract.go:703-745 | at every moment of an extraction the stack of pending directories is a chain of strict ancestors, for any items in any order |
| Extract.Restored | internal/archive/extract.go:249-410 | a serial extraction that ends well leaves every item in place, files whole unless a dismissed failure hit them, hard links as the inode of the first remembered member of their group, and in tree order every directory but "." with its archived attributes |
| Extract.Extractor.Extract | internal/archive/extract.go:117-173 | the extractor's loop, stack and maps end as the specified serial extraction does |
| Extract.Extractor.FinishDirs | internal/archive/extract.go:703-745 | pops and stamps, innermost first, every directory the next item is not inside |
| Extract.Extractor.Place | internal/archive/extract.go:275-410 | one item made, linked or written is one step of the specification; a failing write ends it or not, and leaves a broken file |
| Extract.FailsIff | internal/archive/extract.go:322-345 | it fails exactly when a file that is written rather than linked has a failing write that is not dismissed |
| Destination.RootKeepsAttributesIff | internal/archive/extract.go:703-745 | "." keeps its attributes exactly when no later item makes or removes an entry directly in the destination, told from the items and the tree at the start |
| Destination.RootIsStampedTooEarly | internal/archive/extract.go:703-710 | restored into an empty directory it keeps them exactly when there is nothing behind it |
| Dismissed.CountsAddUp | internal/archive/extract.go:322-345 | every item is counted once, except the files whose failing write was dismissed before they were remembered |
| Dismissed.SameTreeIff | internal/archive/extract.go:332-345 | remembering files early or late leaves the same tree exactly when no file with a dismissed failure has a later member of its hard link group |
| WritePool.DrainIsABarrier | internal/archive/extract_pool.go:98-151 | in every run no job is waiting or running when attributes are applied or a link is made |
| WritePool.EndsAsSerial | internal/archive/extract_pool.go:98-151 | in every schedule the pool fails exactly when one goroutine that remembers files as early does, and otherwise leaves its tree, links and counters |
| WritePool.PoolIsSerial | internal/archive/extract_pool.go:98-151 | against the serial path: without a dismissed failure in a file that has a later hard link the two fail alike and leave the same tree, with one the trees differ, and links and counters are the same exactly without any dismissed failure |
| WritePool.PoolLinksToBroken | internal/archive/extract.go:332-345 | two hard links, the first write failing and dismissed: a link to the broken file with the pool, a whole file without |
| WritePool.PoolRestores | internal/archive/extract.go:322-345 | every run with the pool that ends well leaves all items in place, files whole unless a dismissed failure hit them, and in tree order every directory but "." with its archived attributes |
| WritePool.RunsEnd | internal/archive/extract_pool.go:98-151 | runs are bounded by eight steps an item, and one that cannot go on is over with no job left |
| Diff.Orphans.Insert | internal/archive/diff.go:234-245 | put of an insertion-ordered map: a path already there keeps its place and gets the new item |
| Diff.Orphans.Take | internal/archive/diff.go:248-257 | take returns and removes the item of a path |
| Diff.Orphans.Rest | internal/archive/diff.go:260-268 | the items still held, in order |
| Diff.FindAfterPut | internal/archive/diff.go:226-268 | a put item is found, and no other lookup changes |
| Diff.FindAfterDrop | internal/archive/diff.go:226-268 | a taken item is gone, and no other lookup changes |
| Diff.Orphans.EachPathOnce | internal/archive/diff.go:226-268 | no sequence of puts and takes holds a path twice, so these are the laws of what is held |
| Diff.Compare | internal/archive/diff.go:128-200 | the lockstep loop over two streams, repeated paths included, visits what its specification says; with a broken stream, what it says of the rounds before the break |
| Diff.VisitOrder | internal/archive/diff.go:128-200 | pairs as they complete, then additions in the second archive's order, then removals in the first's |
| Diff.VisitsEachPathOnce | internal/archive/diff.go:128-200 | every path of either archive is visited exactly once, with the items a comparison of two maps would pair, and no other path is |
| Refs.WalkArchive | internal/cli/analyze.go:122-144 | the references of an archive in the order of the walk, or an error |
| Refs.WalkIff | internal/cli/analyze.go:122-144 | an archive can be walked exactly when it can be opened, its stream can be read and the chunks of every item can be told |
| Refs.WalkIs | internal/cli/analyze.go:122-144 | its references are itself, its pointers, its stream's ids, and every chunk of every item, in order and with the size cut to 32 bits, and no others |
| Refs.ReadIs | internal/cli/compact.go:129-173 | what is read of it are its items and, in order, the objects under all their chunks' ids that have the right size |
| Refs.CollectReferences | internal/cli/compact.go:129-173 | the union over all archives, refused as soon as one cannot be read |
| Refs.ReadTouchesOnlyReferences | internal/cli/compact.go:129-173 | reading an archive and its files depends on no object outside its references |
| Refs.SweepKeepsReads | internal/cli/compact.go:129-173 | deleting everything that was not collected changes no read |
| Refs.SweepLeaves | internal/cli/compact.go:129-173 | an object outlives a sweep exactly when some archive refers to it, and unchanged |
| Analyze.AnalyzeSet | internal/cli/analyze.go:147-238 | cost of the set, exclusive cost and unreferenced size and count are the sums over the sets of chunks they are named after |
| Analyze.FreedByDeleting | internal/cli/analyze.go:174-238 | unreferenced and exclusive chunks do not overlap and together are what the rest does not refer to |
| Analyze.ReportIsWhatIsFreed | internal/cli/analyze.go:174-238 | the reported sizes add up to what the mark phase over the remaining archives leaves unused |
| Analyze.BelongsOnce | internal/cli/analyze.go:366-390 | every chunk is in one name's row, shared, or unreferenced, and in one of these only |
| Analyze.OrderDoesNotMatter | internal/cli/analyze.go:326-404 | neither place nor size of a chunk depends on the order of archives and references |
| Analyze.ReportIgnoresOrder | internal/cli/analyze.go:302-404 | the whole report is the same for archives listed, and each walked, in another order |
| Analyze.AnalyzeByName | internal/cli/analyze.go:302-404 | each row sums exactly the chunks that archives of that name and no other refer to |
| Analyze.ReportAddsUp | internal/cli/analyze.go:366-404 | rows, shared and unreferenced sizes sum to the whole index |
| Readers.SparseReader.Read | internal/archive/sparse_linux.go:70-106 | data or zeros, always the bytes that come next in the file |
| Readers.ReadAll | internal/archive/sparse_linux.go:70-132 | for every hole layout the reader yields the file's bytes |
| Sparse.WriteFile | internal/archive/extract.go:606-645 | the write loop with seeks and the final truncation |
| Sparse.RestoredIff | internal/archive/extract.go:606-645 | the written file is the concatenation of its chunks, except exactly when sparse and an empty chunk follows a hole at the end |
| Sparse.EmptyChunkLosesHole | internal/archive/extract.go:614-639 | chunks for which it is not |
| Readers.ChunkStreamReader.Read | internal/archive/recreate.go:302-335 | a file's chunks as one stream, missing ones skipped or an error |
| Readers.ContentIs | internal/archive/recreate.go:302-335 | with missing chunks skipped the stream is all others in order; else it is those before the first that is missing |
| Sparse.ContentSurvives | internal/archive/recreate.go:250-335 | the chunks of a content, restored sparse or not, are that content, and so are the chunks of the stream its stored chunks make, cut under other parameters |
| Sparse.BackUp | internal/archive/create_linux.go:791-850 | a file read with its holes skipped, chunked and stored: the entries read back as one stream that is the file, and restore it sparse or not, barring a hash collision; it fails exactly when adding the specified chunks does |
| Sparse.Rewrite | internal/archive/recreate.go:250-335 | stored chunks read as a stream, chunked under other parameters and stored: the new entries stand for the same content; it fails exactly when a chunk is missing that may not be skipped, or one cannot be stored |
| Paths.WritePaths | internal/cache/paths.go:60-108 | the file written for a list of paths |
| Paths.ReadPaths | internal/cache/paths.go:123-171 | the paths of a file, or nothing for every way of being wrong |
| Paths.ReadBackIff | internal/cache/paths.go:123-171 | a file reads as a list exactly when magic, count, checksum and body are those of that list and no path holds a newline |
| Paths.RoundTripIff | internal/cache/paths.go:60-171 | reading back yields the same list, or nothing exactly when a path contains a newline |
| Paths.StreamGrows | internal/cli/find.go:180-260 | a search prints the line of each wanted item in order, and stops at the first that cannot be formatted |
| Paths.WarnsIff | internal/cli/find.go:125-260 | it warns exactly when an archive is gone, cannot be opened or read to its end, or has a wanted item with no line |
| Paths.Find | internal/cli/find.go:125-260 | with any honest cache a search prints the lines and warnings it prints without one, and the cache stays honest |
| PyMarshal.DigitsOf | internal/cli/pymarshal.go:196-215 | the shifting loop yields the normalised 15-bit digits |
| PyMarshal.EscapeText | internal/cli/pymarshal.go:231-258 | valid text as it is and every other byte as its surrogate |
| PyFormat.EscapedRune | internal/cli/pymarshal.go:244-256 | a code point in UTF-8 is passed on as it is |
| PyFormat.EscapedStray | internal/cli/pymarshal.go:244-256 | a byte with which no code point starts becomes the three-byte form of U+DC00 and the byte |
| PyMarshal.ValidIsPlain | internal/cli/pymarshal.go:235-241 | the fast path agrees with the escaping one |
| PyMarshal.TextBack | internal/cli/pymarshal.go:231-258 | every byte of every string is recovered from what is written |
| PyMarshal.Writer.Write | internal/cli/pymarshal.go:100-171 | the recursive writer appends the marshalled value, and fails exactly when there is none |
| PyMarshal.Writer.Number | internal/cli/pymarshal.go:177-215 | 32 bits where they suffice, else digits with the sign in their count, the minimum included |
| PyFormat.MarshalIs | internal/cli/pymarshal.go:60-258 | a value is written exactly when the format has a form for it within 2000 levels and 31-bit counts, and then in that form: type codes, little-endian counts, digits, reversed floats, escaped text |
| PyMarshal.MarshalRoundTrip | internal/cli/pymarshal.go:83-171 | what is written as a file reads back as the value |
| PyMarshal.LoadBack | internal/cli/pymarshal.go:100-215 | a reader of the emitted codes gets back the value written, at any depth and whatever follows |

## Left out

- ArchiveBuilder.Builder.ChunkFileSerial: does not cover the fixed-size chunker, which cuts at multiples of a block size.
- ItemStream.ItemStream.Flush: keeps the stream valid only when it succeeds; a failed addition ends the archive.
- ItemStream.Save: covers the item stream and its pointers; storing the archive object, the manifest entry and the order of flushes depend on packages that are not part of this model.
- Extract.Restored: takes writing a link, a special file or a directory as succeeding; only the writes of regular files can fail, and one that fails has created the file.
- Dismissed.CountsAddUp: counts items; the counters of bytes, of errors and of symbolic links apart from other specials are not part of this model.
- WritePool.PoolIsSerial: takes the preparation of a hard link's place together with the link, behind the barrier; the program prepares the place first.
- WritePool.DrainIsABarrier: a driver's act on one item is a single step, from clearing its place to its entry.
- Sparse.BackUp: is stated for the serial path; that the pipelined one ends alike is `Pipeline.RunRefinesSerial`. Devices and pipes with a timeout are not part of this model.
- Readers.Reader.Read: keeps the state of a file's or a chunk list's reader as a value and resumes that reader for each read, where the program holds one object behind an interface.
- FilesCache.NeverStaleBy: takes from the world that a change stamps a ctime, or whichever time is compared, no earlier than the clock less three seconds, and that a path is not looked up again once memorized in a run.
- Paths.Find: takes an archive's stream as immutable, broken or not, and its format as one that needs no more than the path when it is served from the cache.
- PyMarshal.LoadBack: reads a dict as its list of entries; what Python does with equal keys, and single-precision floats, are not part of this model.
- Returned chunks are values; that they alias the chunker's buffer until the next call is kept only as the fact that they equal that part of the buffer.
- The nested loops of the two cut loops are separate methods (`Seek`, `Advance`, `ScanBuffered`, `ScanStretch`, `Scan`), and `done` is set after a chunk has been emitted rather than before.
- The fixed-size chunker, parsing of chunker parameters, the table of the 32-bit buzhash and its seed.
- Reusing a chunk by id, adding compressed chunks, and `AddStream`, which counts a file twice.
- Items beyond their encoded maps: which keys an item has and how attributes are restored.
- The safe-parent cache, the path traversal check, `--continue`, dry runs and `--stdout` of an extraction; paths are taken in cleaned form.
- What a comparison says about one pair of items, and the order in which names are sorted for display.
- Hot spots of an analysis, the sweep of a compaction, retention rules, locking, encryption, compression and pack files.
- Clocks, progress callbacks, statistics of time, JSON output and command-line handling.
