# Verified model of a deduplicating tar backup store

The program takes backups, usually tar archives, cuts them into chunks, stores every distinct chunk once (compressed, or
as a delta against a similar chunk), and restores the backups. This project models the parts on which "what was ingested
is restored byte for byte" rests, and proves that statement and the properties below it. To verify it:
`dafny verify dfyconfig.toml`.

* **LZ4 block codec** (`Lz4Format`, `Lz4Copies`, `Lz4Greedy`, `Lz4Encoder`, `Lz4Decoder`, `Lz4`). `Lz4Format` is the
  block format as a parser of bytes, with the meaning of a block and its end-of-block restrictions, both as the format
  says and with the decoder's 32-bit lengths. `Lz4Greedy` is what the search finds and the one block that comes of it,
  as a function of the input. The encoder is the match finder over a lossy hash table, with an arbitrary hash
  function, both table types and both output modes. The decoder is the fast loop and the safe loop, with the copies of
  8, 16 and 32 bytes that go past the end and the overlap tables. It is memory safe on every input, and gives back
  what the encoder was given.
* **Queue** (`SpscQueue`, `SpscProgress`). The ring of ring buffers between one producer and one consumer, as a
  machine that makes one load or store at a time, with the stale shadows of the other thread's indices, and the
  handshake that ends a backup (`Push`, `Pop`, `IsEmpty`, `done_`). All theorems are about every interleaving. The
  `items`, `frontTurn`, `tailTurn`, `sawEmpty` and `mostHeld` parts of the state are bookkeeping of the proof; no step
  depends on them.
* **Chunkers** (`FastCdc`, `Tar`, `TarReads`, `TarSplit`, `TarChunker`). Content-defined cut points and the loop over a
  sliding read buffer; the three-state machine that splits an archive into groups of header blocks and data chunks.
  `TarReads` has the members of an archive as the reads show them to the chunker, `TarSplit` their split as a function,
  and the machine pushes exactly that, for archives of any size.
* **Store** (`LruCache`, `ContainerCache`, `Packing`, `ChunkStore`, `FeatureIndex`, `Stats`, `BiSearchMethod`). Containers,
  the container cache, reading chunks back by three routes, and the decision machine of `BiSearch::ProcessTrace`: a
  duplicate, a delta against the base chunk of the same name, a delta against the base chunk with a super-feature in
  common, or a base chunk. LZ4 is the codec above, not an assumption.
* **Restore** (`ChunkStore`, `TarRestore`, `Backups`). `restoreFile`, and `restoreHeaderFile`, which parses the header blocks
  again to interleave headers and bodies; `TarRestore.Merged` is what it makes of any headers and chunks.
  `Backups.ArchivesComeBack` puts the pieces together; `BackupExamples` and `ReadExample` have archives that do not come
  back. `Backups.FilesComeBack` is the same for files that are no archives.
* **Hashes** (`Words`, `XxHash`, `XxAnswers`, `RollingHash`, `NTransform`, `Finesse`). XXH64 over packets, with the laws
  of its operations on words and some known hashes, and the two rolling fingerprints.

Classes keep the source's fields and are updated in place; each method is proved against a specification on values, and
the theorems are about that specification. Concurrency is a step machine on values. Where a contract says
`P(..) <==> true` it says `P(..)`: so written, the verifier keeps `P` as a name instead of unfolding it.

## Hypotheses of the end-to-end statement

`Backups.ArchivesComeBack` runs the chunker, the store and the restorer on any number of distinctly named archives, and
says `restored == archives`. It assumes:

* the delta codec is lossless and never gives an empty delta; the fingerprint has no collision among the pieces the
  archives are split into;
* a group has at most 16 headers, the room of the restorer's header buffer, and FastCDC's normal size is no larger than
  its largest chunk;
* every archive is legible (`TarReads.Legible`): a header block is whole in the buffer, a size field does not wrap 64-bit
  arithmetic (eleven octal digits never do, `Tar.OctalIsExact`), and a body larger than `BigChunkSize` is there in full.
  A smaller one may be cut short, by the end of the archive or of a read;
* a body that is not cut fits into a container. Only a body after an extended header or a long name can fail to
  (`TarRestore.OnlyNamesOutgrow`), since their sizes are not limited (src/chunking/chunker.cc:305-311);
* the restorer reads every header that the chunker saw as the chunker did (`TarRestore.AllReadAlike`). This is exact: the
  restorer gives the chunks to the headers they came from if and only if it holds (`TarRestore.SplitMerges`). It is about
  three things. A block with type flag NUL and a size: the chunker takes the size to be zero whatever the field says
  (src/chunking/chunker.cc:274-289), the restorer does not (src/datawrite/datawrite.cc:1137-1145). That does no harm when
  no data comes after, because of the test of `DataP`; `BackupExamples.BodyMisplaced` is an archive where it does. A
  `BigChunkSize` other than the size of a container, the restorer's limit. And a body that begins where a read ends, which
  is not seen at all; with bodies that fit into a container no read ends there (`TarReads.BodiesBegin`);
* no group of header blocks has the content of a data chunk (`Backups.NothingShared`): a duplicate goes into the recipe
  that the flag of the chunk first stored names. This is exact too: both recipes of every backup stand for what was pushed
  for them if and only if it holds (`BiSearchMethod.KeptWithoutClash`, `Backups.SharedIsClash`).
  `BackupExamples.EndIsLost` is an archive whose last two blocks are not restored.

These speak of the members as the reads show them (`TarReads.SeenMembers`). A read that ends inside a body makes the
chunker take the rest of it for headers (src/chunking/chunker.cc:126-132, 335-338). The members seen are all of the archive,
in order, whatever the reads (`TarReads.SeenJoin`), so an archive can come back even then. They are the members it has if
and only if no body but the last is short (`TarReads.SeenAsTheyAre`), and so they are for an archive of one read
(`TarReads.OneRead`) and for one whose bodies leave room for their headers in a container (`TarReads.SmallBodies`).
`Backups.OkAsItIs` says what the conditions then ask of the archive itself. `ReadExample.ReadInsideBody` is an archive with
nothing wrong with its members that does not come back because a read ends inside one of them.

## Model

| member | source | states |
|---|---|---|
| `Lz4Format.CopyMatchUnique` | src/util/lz4.c:2131-2178 | A match copy is the only extension of the output that repeats with the offset as its period. |
| `Lz4Format.CopyMatchPeriodic` | src/util/lz4.c:478-508 | The bytes a match copy writes are the bytes `offset` before them, also when the match overlaps itself. |
| `Lz4Format.ConformingDecodes` | src/util/lz4.c:217-240 | A block that keeps the end-of-block restrictions has a meaning, of the size it announces. |
| `Lz4Format.ParseRendered` | src/util/lz4.c:1040-1160 | The bytes written for a sequence parse back to its literals, its match length and its offset, for every length. |
| `Lz4Format.DecodeRendered` | src/util/lz4.c:867-1259 | Decoding past what is written for sequences continues with the bytes they stand for, whatever follows. |
| `Lz4Format.LastRendered` | src/util/lz4.c:1223-1256 | What is written for last literals decodes to them and ends the block, which conforms exactly at that size. |
| `Lz4Format.RenderedIsBlock` | src/util/lz4.c:867-1259 | Sequences that keep the restrictions make a block whose meaning is what they expand to. |
| `Lz4Copies.RepeatsIsCopy` | src/util/lz4.c:439-460 | A buffer that repeats with the period of the offset holds the match copy. |
| `Lz4Copies.WildCopy8` | src/util/lz4.c:408-418 | Copying eight bytes at a time gives the byte-by-byte copy when the offset is at least eight, and leaves alone what is more than seven bytes past the end. |
| `Lz4Copies.WildCopy32` | src/util/lz4.c:465-472 | Copying two times sixteen bytes at a time gives the byte-by-byte copy when the offset is at least sixteen. |
| `Lz4Copies.FirstEight` | src/util/lz4.c:439-451 | The first eight bytes through `inc32table` and `dec64table` are those of the byte-by-byte copy, for offsets one to seven. |
| `Lz4Copies.SecondDistanceMultiple` | src/util/lz4.c:417-418 | After the table adjustment the distance is a multiple of the offset and at least eight. |
| `Lz4Copies.CopyUsingOffsetBase` | src/util/lz4.c:439-460 | For every offset the copy writes the byte-by-byte copy on the match range and leaves what is before it. |
| `Lz4Copies.CopyPattern` | src/util/lz4.c:478-508 | For offsets one, two and four the repeated pattern gives the byte-by-byte copy. |
| `Lz4Copies.CopyUsingOffset` | src/util/lz4.c:478-508 | All branches of the offset copy agree with the byte-by-byte copy. |
| `Lz4Copies.SafeMatchCopy` | src/util/lz4.c:2131-2178 | The match copy of the safe loop, near the end of the output or not, is the byte-by-byte copy and stays inside the destination. |
| `Lz4Copies.CopyNearEnd` | src/util/lz4.c:2131-2178 | Near the end of the output the copy gives the byte-by-byte copy up to the end of the match, and stays inside the destination. |
| `Lz4Encoder.Count` | src/util/lz4.c:616-644 | The count is the exact length of the common run, up to the limit. |
| `Lz4Greedy.SearchIs` | src/util/lz4.c:994-1031 | A search finds the first position, in the order they are looked at, whose table entry is four equal bytes not too far back, and that entry; or none. |
| `Lz4Greedy.ProbeIs` | src/util/lz4.c:988-1003 | The first position after the start is the next one; then, for 64 of them, each is `acceleration` further. |
| `Lz4Greedy.FoundIs` | src/util/lz4.c:1034-1119 | The sequence of a match goes back as far as the bytes are the same, and is as long as it can be. |
| `Lz4Greedy.GreedyEmits` | src/util/lz4.c:938-1221 | The sequences found describe the input up to the last literals, keeping the restrictions. |
| `Lz4Greedy.CompressedIsBlock` | src/util/lz4.c:867-1259 | The one block they make is a block for the input. |
| `Lz4Greedy.RunIs` | src/util/lz4.c:938-1259 | For one byte repeated 13 times or more, with any hash and acceleration, the block byte by byte: one literal, one match one byte back, five last literals. |
| `Lz4Encoder.FindMatch` | src/util/lz4.c:948-1032 | What is found is exactly what the search gives: if the entry at the start matches, that, else at the first position that does; the table is as it then is. |
| `Lz4Encoder.NextMatch` | src/util/lz4.c:1164-1215 | Right after a match another one is found exactly if the table entry there is one. |
| `Lz4Encoder.StoredExactly` | src/util/lz4.c:751-786 | Below the 64 KB limit a position stored in a 16-bit table entry is read back exactly. |
| `Lz4Encoder.CatchUp` | src/util/lz4.c:1035-1037 | Extending a match backwards keeps it a match at the same distance, and stops only at the anchor, at the start of the input or at different bytes. |
| `Lz4Encoder.EncodeLiterals` | src/util/lz4.c:1040-1063 | Token, extra length bytes and literals are written where they belong; in limited mode the limit is not passed. |
| `Lz4Encoder.EncodeMatch` | src/util/lz4.c:1066-1160 | The offset and the length of the longest match are written, and the output is the rendering of the sequence. |
| `Lz4Encoder.EncodeLast` | src/util/lz4.c:1223-1256 | The last literals are written, and the unlimited output stays within n + n/255 + 16 bytes. |
| `Lz4Encoder.EncodeSequences` | src/util/lz4.c:938-1221 | The loop writes exactly the sequences that the search finds; if it gives up, the whole block does not fit. |
| `Lz4Encoder.CompressGeneric` | src/util/lz4.c:1265-1301 | The one block for the input is written if it fits, whole; if it does not the result is zero. |
| `Lz4Encoder.CompressFast` | src/util/lz4.c:1303-1330 | For any hash, acceleration and output size: the one block is written exactly if it fits, which it does with room for the bound; n times one byte take 10 bytes and the extra length bytes, as soon as there is room for n. |
| `Lz4Decoder.ReadVariableLength` | src/util/lz4.c:1736-1757 | A length read over 255-bytes is the sum of its bytes in 32 bits, or the input ends. |
| `Lz4Decoder.LengthIsExact` | src/util/lz4.c:1736-1757 | The 32-bit sum of a run of length bytes is the length of the format if and only if the run does not add up to 2^32. |
| `Lz4Decoder.ShortIsExact` | src/util/lz4.c:1736-1757 | No run of an input of up to 16843009 bytes does. |
| `Lz4Decoder.BrokenRun` | src/util/lz4.c:1736-1757 | A run that the end of the input breaks off never looks like one of length zero: 255-bytes do not add up to a multiple of 2^32 in an input whose size is an int. |
| `Lz4Decoder.ReadAlikeWithoutWrap` | src/util/lz4.c:1736-1757 | Without a run that adds up to 2^32 the block means the same read with 32-bit lengths as by the format. |
| `Lz4Decoder.ConformingReadAlike` | src/util/lz4.c:1736-1757 | So does a block that keeps the end-of-block restrictions for less than 2^32 bytes. |
| `Lz4Decoder.LongRunAccepted` | src/util/lz4.c:1736-1757 | A block whose literal length is written 2^32 too large: the format has no such block, the decoder reads its literals and takes it. |
| `Lz4Decoder.FastLoop` | src/util/lz4.c:1818-1951 | The fast loop keeps the output equal to the meaning, with 32-bit lengths, of the block read so far, on every input. |
| `Lz4Decoder.SafeIteration` | src/util/lz4.c:1955-2180 | So does an iteration of the safe loop. |
| `Lz4Decoder.Shortcut` | src/util/lz4.c:1963-2010 | So does the two-stage shortcut. |
| `Lz4Decoder.DecodeBlock` | src/util/lz4.c:1765-2193 | So do both loops together; the result is the length or an error. |
| `Lz4Decoder.DecompressSafe` | src/util/lz4.c:2199-2204 | No input reads or writes outside the buffers; success means that the output is the meaning of the block with 32-bit lengths, and of the format itself if no run wraps; a conforming block that fits always succeeds. |
| `Lz4Decoder.RejectedWithoutRoom` | src/util/lz4.c:1808-1813 | With no room the decoder accepts the block [0] alone: the block [1], which decodes to nothing too, it refuses. |
| `Lz4Decoder.ConformsAtSize` | src/util/lz4.c:1765-2193 | The size a conforming block announces is determined. |
| `Lz4.BlockIsConforming` | src/util/lz4.c:867-1259 | A block for some data conforms, has its size and means the data. |
| `Lz4.DecompressBlock` | src/util/lz4.c:2199-2204 | A block for some data decompresses to it in every buffer that has room, the empty one included. |
| `Lz4.RoundTrip` | src/util/lz4.c:867-1259 | What the encoder accepts the decoder gives back, for all data, the empty one included, and every hash, acceleration, mode and output size. |
| `SpscQueue.Dist` | include/readerwriterqueue.h:511-525 | The distance around a ring is zero exactly for the same index, and one less than the ring exactly when one more step closes it. |
| `SpscQueue.Appended` | include/readerwriterqueue.h:576-594 | With room by the shadow, writing the slot and moving the tail appends one item. |
| `SpscQueue.Dropped` | include/readerwriterqueue.h:324-334 | Moving the front drops the first item, which is the one in the slot. |
| `SpscQueue.CreatedFits` | include/readerwriterqueue.h:105-163 | The constructor's arithmetic gives room for at least what was asked, and the queue starts empty. |
| `SpscQueue.CeilToPow2` | include/readerwriterqueue.h:683-696 | The block size is a power of two, at least what is asked and less than twice that. |
| `SpscQueue.EnqueuedHere` | include/readerwriterqueue.h:576-594 | Publishing in the tail block appends one element to the queue. |
| `SpscQueue.EnqueuedAhead` | include/readerwriterqueue.h:604-625 | Publishing in the next block changes nothing yet: that block is free, and neither the front nor the tail block. |
| `SpscQueue.Advanced` | include/readerwriterqueue.h:625-629 | Moving the tail block on makes the element part of the queue. |
| `SpscQueue.Dequeued` | include/readerwriterqueue.h:324-334 | Releasing the slot removes the first element of the queue. |
| `SpscQueue.FrontMoved` | include/readerwriterqueue.h:352-368 | Moving the front block on past an empty one changes nothing in the queue. |
| `SpscQueue.SecondHolds` | include/readerwriterqueue.h:356-363 | The block after an empty front block holds an element. |
| `SpscQueue.TailMeetsFront` | include/readerwriterqueue.h:596-600 | The next block is the front block exactly when all blocks are in use. |
| `SpscQueue.HoldsCapacity` | include/readerwriterqueue.h:127-131 | With all blocks in use and the tail block full the queue holds its capacity. |
| `SpscQueue.SizeSummed` | include/readerwriterqueue.h:511-525 | With the producer quiet, size_approx is exact. |
| `SpscQueue.ProducerCoreSound` | include/readerwriterqueue.h:559-672 | Every step of an enqueue keeps the structure, adds at most its element, and leaves the consumer's knowledge true. |
| `SpscQueue.ConsumerCoreSound` | include/readerwriterqueue.h:293-388 | Every step of size_approx and of a dequeue keeps the structure, takes at most the first element, and leaves the producer's knowledge true. |
| `SpscQueue.ProducerKnowsStill` | include/readerwriterqueue.h:88-93 | What the producer knows survives every step of the consumer. |
| `SpscQueue.ConsumerKnowsStill` | include/readerwriterqueue.h:312-320 | What the consumer knows survives every step of the producer. |
| `SpscQueue.StepKeeps` | include/readerwriterqueue.h:293-672 | Every step of either thread, and the start of the next backup, keeps the invariant. |
| `SpscQueue.RunKeeps` | include/readerwriterqueue.h:293-672 | Every state of every run keeps the invariant. |
| `SpscQueue.Fifo` | include/messageQueue.h:74-92 | At every instant the elements popped, those in the queue and those to come are the input, in order: nothing is lost, doubled or reordered. |
| `SpscQueue.AssertsHold` | include/readerwriterqueue.h:356-363 | Neither internal assert fails, and no thread is stuck before it is done. |
| `SpscQueue.NoSlotIsShared` | include/readerwriterqueue.h:578-624 | The slot being written is never the one being read. |
| `SpscQueue.FailedDequeue` | include/readerwriterqueue.h:380-385 | A dequeue fails only if the queue was empty at an instant of that call. |
| `SpscQueue.RefusedEnqueue` | include/readerwriterqueue.h:662-666 | An enqueue is refused only if the queue, built for some size, held at least as many at an instant of that call. |
| `SpscQueue.ExitMeansAllPopped` | src/method/BiSearch.cc:57-70 | When ProcessTrace leaves its loop it has popped what was pushed, all and in order; the queue is empty and the flag cleared. |
| `SpscQueue.NextBackupKeeps` | src/app/main.cc:160-183 | The next backup starts from a state as good as the first one's. |
| `SpscProgress.StepOn` | src/method/BiSearch.cc:57-70 | From every reachable state some step of one thread leads nearer to the end of the backup. |
| `SpscProgress.RunCanFinish` | src/method/BiSearch.cc:57-70 | Every run can go on to a state where the backup has ended, with all elements popped: the threads never block each other for good. |
| `LruCache.TouchedAgrees` | include/lruCache.h:124-137 | Moving an entry to the front keeps map and list in agreement. |
| `LruCache.AddedAgrees` | include/lruCache.h:135-137 | So does adding an entry. |
| `LruCache.DroppedAgrees` | include/lruCache.h:212-218 | So does dropping the last entry. |
| `LruCache.Cache.Insert` | include/lruCache.h:124-138 | The list becomes the touched list for a known key, otherwise the pruned list with the entry in front. |
| `LruCache.Cache.Get` | include/lruCache.h:156-166 | The value of the key, moved to the front; an unknown key is an error and changes nothing. |
| `LruCache.Cache.PruneValue` | include/lruCache.h:202-210 | The value of the entry that goes next. |
| `LruCache.Cache.Prune` | include/lruCache.h:213-229 | Nothing goes below the hard limit; then all beyond the soft limit, from the back. |
| `ContainerCache.ReadCache.InsertToCache` | src/util/readCache.cc:26-44 | The name gets the next unused slot or that of the last entry, and no other slot changes; the cache stays valid if and only if the name was not cached or was that last entry. |
| `ContainerCache.ReadCache.ReadFromCache` | src/util/readCache.cc:53-57 | The slot of the name, whose entry becomes the most recent. |
| `ContainerCache.ReadCache.ClearAllCache` | src/util/readCache.cc:59-66 | An empty cache. |
| `Packing.PackGrows` | src/datawrite/datawrite.cc:127-175 | Sealed containers never change, and the current one only grows at its end. |
| `Packing.StaysInPlace` | src/datawrite/datawrite.cc:161-172 | A piece stays where it was put, whatever comes later. |
| `Packing.WithinMaximum` | src/datawrite/datawrite.cc:127-127 | No container passes its maximum. |
| `Packing.LeftWhenFull` | src/datawrite/datawrite.cc:127-150 | A container is left for a new one only when the piece the new one starts with had no room in it. |
| `Packing.TilesContainers` | src/datawrite/datawrite.cc:127-172 | Containers hold the pieces and nothing else, in order, without gaps. |
| `Packing.NoOverlap` | src/datawrite/datawrite.cc:161-172 | Two pieces of a container do not overlap. |
| `ChunkStore.DataWrite.AppendPiece` | src/datawrite/datawrite.cc:116-178 | The chunk list and the containers grow by the piece, at the place the packing gives it. |
| `ChunkStore.DataWrite.ChunkInsert` | src/datawrite/datawrite.cc:116-178 | The same for a chunk or delta as it is. |
| `ChunkStore.DataWrite.ChunkInsertCompressed` | src/datawrite/datawrite.cc:180-255 | The same for a compressed chunk. |
| `ChunkStore.PieceIsThere` | src/datawrite/datawrite.cc:652-776 | The bytes of every chunk are in its container at its offset; the container is sealed exactly if it is not the current one. |
| `ChunkStore.InsertedHolds` | src/datawrite/datawrite.cc:715-719 | After an insertion every cached name's slot starts with its container's bytes. |
| `ChunkStore.TouchedHolds` | src/datawrite/datawrite.cc:666-677 | So it does after a hit. |
| `ChunkStore.DataWrite.FromCache` | src/datawrite/datawrite.cc:666-701 | A hit gives the chunk or the delta, and its entry is the most recent. |
| `ChunkStore.DataWrite.FromFile` | src/datawrite/datawrite.cc:703-745 | A miss gives the chunk or the delta too, and leaves the slot of the most recent entry alone. |
| `ChunkStore.DataWrite.GetChunkInfo` | src/datawrite/datawrite.cc:652-776 | By all three routes the pointer points to the chunk or the delta, and the slot last used stays as it was. |
| `ChunkStore.DataWrite.RestoreDelta` | src/datawrite/datawrite.cc:424-447 | A pointer to a delta in a cache slot survives the fetch of the base, so the decoder gives the chunk. |
| `ChunkStore.DataWrite.RestoreChunk` | src/datawrite/datawrite.cc:418-450 | A chunk of either kind is restored. |
| `ChunkStore.DataWrite.RestoreFile` | src/datawrite/datawrite.cc:404-453 | What is written is the chunks of the recipe, one after another. |
| `ChunkStore.DataWrite.ClearAllCache` | src/datawrite/datawrite.cc:1348-1354 | An empty cache, and a store as sound as before. |
| `FeatureIndex.HitIsIndexed` | src/method/odess_similarity_detection.cc:206-219 | A hit is a chunk that was indexed. |
| `FeatureIndex.FirstHitIs` | src/method/odess_similarity_detection.cc:206-219 | It is the first chunk of the first super-feature, in their order, that has one. |
| `FeatureIndex.PushedAtEnd` | src/method/odess_similarity_detection.cc:221-230 | A list only grows at its end: the chunk indexed first stays first. |
| `FeatureIndex.PushedAllIn` | src/method/odess_similarity_detection.cc:221-230 | If only base chunks are indexed, only base chunks are found. |
| `FeatureIndex.PushedIsFound` | src/method/odess_similarity_detection.cc:221-230 | An indexed chunk is in the list of each of its super-features. |
| `FeatureIndex.FeatureIndexTable.Find` | src/method/odess_similarity_detection.cc:206-219 | The loop finds the first chunk of the first super-feature that has one. |
| `FeatureIndex.FeatureIndexTable.Insert` | src/method/odess_similarity_detection.cc:221-230 | The loop adds the chunk to the three lists. |
| `Stats.ChunkKeepsBalance` | src/method/absMethod.cc:471-521 | Every kind of chunk keeps the equations: logical size is stored size and the three reductions, and every breakdown sums to its total. |
| `BiSearchMethod.CountedAs` | src/method/absMethod.cc:450-521 | Numbers, sizes and savings of base chunks, of both kinds of deltas, and of header, cut and other chunks are those of their records in the chunk list. |
| `BiSearchMethod.DecideIsFrugal` | src/method/BiSearch.cc:169-241 | A delta is against one of the two base chunks found and never larger than the chunk; one by name has the filter or the other search behind it; a base chunk is made only if the delta against the similar chunk would be larger; when both searches agree and the delta fits, the filter does not matter. |
| `BiSearchMethod.NameAdded` | src/method/BiSearch.cc:296-296 | A name leads to the last base chunk stored with it, and every name of a base chunk leads to one. |
| `BiSearchMethod.BiSearch.Compress` | src/method/BiSearch.cc:243-262 | A base chunk is stored as its LZ4 block exactly if that is no larger than the chunk, and raw if it is larger. |
| `BiSearchMethod.NewBase` | src/method/BiSearch.cc:243-295 | A chunk stored as its LZ4 block, or as it is, reads back as itself. |
| `BiSearchMethod.NewDelta` | src/method/BiSearch.cc:386-410 | A chunk stored as its delta against a base chunk is restored by one decode. |
| `BiSearchMethod.AddedChunk` | src/method/BiSearch.cc:588-590 | Adding a chunk leaves all others restorable, and adds to the base chunks only a base chunk. |
| `BiSearchMethod.KnownByFingerprint` | src/method/BiSearch.cc:74-95 | Without a collision, the fingerprint is in the index exactly if the chunk is in the store. |
| `BiSearchMethod.BiSearch.FetchBase` | src/method/BiSearch.cc:121-134 | The base chunk's bytes, whichever way it is stored and fetched. |
| `BiSearchMethod.BiSearch.InsertBase` | src/method/BiSearch.cc:243-296 | The chunk becomes a base chunk, in no more bytes than it has, and both searches find it from now on. |
| `BiSearchMethod.BiSearch.InsertDelta` | src/method/BiSearch.cc:386-410 | The chunk becomes a delta against that base chunk. |
| `BiSearchMethod.BiSearch.InsertAgainstFeature` | src/method/BiSearch.cc:486-586 | A delta against the similar chunk, or a base chunk if the delta is larger than the chunk. |
| `BiSearchMethod.BiSearch.ProcessNamed` | src/method/BiSearch.cc:112-421 | With a base chunk of the name, what becomes of the chunk is what the decision says. |
| `BiSearchMethod.BiSearch.ProcessRefused` | src/method/BiSearch.cc:196-421 | A delta the filter refused is taken after all exactly when it fits and the super-features lead to the same base. |
| `BiSearchMethod.BiSearch.ProcessUnnamed` | src/method/BiSearch.cc:422-587 | Without one too. |
| `BiSearchMethod.BiSearch.ProcessUnique` | src/method/BiSearch.cc:86-592 | A new chunk is stored as the decision says, for the base chunk its name leads to, if the name search is on and this is not the first backup. |
| `BiSearchMethod.BiSearch.ProcessDuplicate` | src/method/BiSearch.cc:593-618 | A chunk seen before is the one its fingerprint names, and nothing is stored. |
| `BiSearchMethod.BiSearch.Record` | src/method/BiSearch.cc:619-625 | The chunk goes into one of the two recipes, by the flag it was first stored with. |
| `BiSearchMethod.BiSearch.Process` | src/method/BiSearch.cc:70-626 | One round of the loop: every invariant is kept, the store holds the chunk, one recipe names it. From the second backup on and with the name search on, a new chunk with a known name becomes a delta against the last base chunk of the name if that fits and the filter accepts it; else it never becomes a delta by name. Both searches change exactly for a new base chunk. |
| `BiSearchMethod.BiSearch.TakeBackup` | src/method/BiSearch.cc:51-66 | After a backup its two recipes stand for its chunks in order, each in the recipe that the flag of its first arrival names; other recipes stand for what they did. |
| `BiSearchMethod.FlagsAreFirst` | src/method/BiSearch.cc:593-622 | The flag stored with a chunk is that of the first arrival of its content in the whole session. |
| `BiSearchMethod.StreamsKept` | src/method/BiSearch.cc:593-622 | The two recipes of a backup stand for what was pushed for them if and only if every chunk has the flag its content came with first. |
| `BiSearchMethod.KeptWithoutClash` | src/method/BiSearch.cc:593-622 | They do for every backup if and only if no content is pushed both as a group of headers and as a data chunk. |
| `BiSearchMethod.BiSearch.Restore` | src/datawrite/datawrite.cc:404-453 | Restoring writes the chunks the recipe stands for. |
| `BiSearchMethod.BackUpAndRestore` | src/app/main.cc:160-257 | Any number of distinctly named backups, taken and then restored: each file is the concatenation of the backup's chunks whose content came first as data, whatever the filter and the super-features answer; without a content pushed both ways, of all its data chunks. |
| `BiSearchMethod.EveryByteAccountedFor` | src/method/absMethod.cc:471-521 | Logical size is the bytes in the container files, those in the current container and the three reductions. |
| `BiSearchMethod.DeltasHaveBases` | src/method/BiSearch.cc:109-134 | Every delta's base is a base chunk with a smaller id, and one decode gives the chunk. |
| `BiSearchMethod.StreamOfAll` | src/method/BiSearch.cc:619-622 | In a backup without header chunks the data recipe stands for all of it. |
| `FastCdc.Roll` | include/define.h:39-82 | The 32-bit fingerprint never wraps: all table entries are below 2^31. |
| `FastCdc.FingerprintIs` | src/chunking/chunker.cc:202-228 | The fingerprint is one division of a sum: every byte's table entry enters it with half the weight of the one after it. |
| `FastCdc.CutByContent` | src/chunking/chunker.cc:202-228 | In a file of the byte 93 the first cut is after 4118 bytes, where the fingerprint of 22 of them has the mask clear. |
| `FastCdc.OneMaskOnly` | src/chunking/chunker.cc:389-402 | With the configured sizes the normal size is 2048, and wherever a position is tested it is the mask of 12 bits that is tested. |
| `FastCdc.CutPointFastCDC` | src/chunking/chunker.cc:202-228 | The cut point is the first position past the minimum where the fingerprint of the bytes before it has the mask clear, or the maximum, or the end. |
| `FastCdc.CutIsUnique` | src/chunking/chunker.cc:202-228 | There is one cut point. |
| `FastCdc.CutLengthIs` | src/chunking/chunker.cc:202-228 | There is always one, and it is the number found by going through the positions. |
| `FastCdc.CutWithinWindow` | src/chunking/chunker.cc:126-127 | A window with at least the maximum left cuts where the whole file does. |
| `FastCdc.CuttingIsUnique` | src/chunking/chunker.cc:110-186 | There is one way to cut a file. |
| `FastCdc.CuttingIsFileCuts` | src/chunking/chunker.cc:110-186 | It is the one that goes through the file cut point by cut point. |
| `FastCdc.Chunking` | src/chunking/chunker.cc:110-186 | The loop over the re-read buffer cuts the file as a whole: chunks join to the file, and all but the last have 4097 to 16384 bytes. |
| `Tar.ParsersAgree` | src/datawrite/datawrite.cc:1105-1155 | Chunker and restorer read a header block alike if and only if a NUL type flag comes with a NUL size field. |
| `Tar.OctalIsExact` | src/chunking/chunker.cc:250-254 | Eleven octal digits give the number they stand for, below 2^33: the arithmetic does not wrap. |
| `Tar.HeaderRead` | src/chunking/chunker.cc:243-324 | Of a header block laid out field by field, both parsers read the number of the eleven digits after name, mode, uid and gid, and the kind by the type flag: a file, a big file, an extended header, a long name, or none with a body. |
| `Tar.MembersOk` | src/chunking/chunker.cc:243-367 | The members of a well-formed archive have bodies of the size their headers say, except perhaps the last. |
| `Tar.JoinedMembers` | src/chunking/chunker.cc:243-367 | Any such members, joined, are a well-formed archive with those members. |
| `Tar.MembersJoin` | src/chunking/chunker.cc:243-367 | The members of a well-formed archive are all of it. |
| `TarReads.SeenJoin` | src/chunking/chunker.cc:110-160 | What the reads show of an archive is all of it, in order, wherever they end. |
| `TarReads.SeenShapes` | src/chunking/chunker.cc:243-367 | Every member seen has the body its header says, or less of it. |
| `TarReads.SeenAsTheyAre` | src/chunking/chunker.cc:335-338 | The members seen are those of the archive if and only if no body but the last is short. |
| `TarReads.OneRead` | src/chunking/chunker.cc:122-125 | An archive that one read gets all of is seen as it is. |
| `TarReads.SmallBodies` | src/chunking/chunker.cc:126-126 | So is one of any size if every body that is not cut leaves room for its header in a container. |
| `TarReads.BodiesBegin` | src/chunking/chunker.cc:126-126 | If every body that is not cut fits into a container, no read ends right after a header whose body follows. |
| `TarSplit.SplitIs` | src/chunking/chunker.cc:416-568 | The split of the members seen loses nothing: its groups joined are the header blocks, its data chunks the pieces of the bodies, in order. |
| `TarSplit.BigCutSizes` | src/chunking/chunker.cc:346-365 | A big body is cut into chunks of 1 to 16384 bytes, more than one exactly if it is larger. |
| `TarSplit.BigCutsJoin` | src/chunking/chunker.cc:346-365 | The chunks of a big body join to it. |
| `TarSplit.SplitSizes` | src/chunking/chunker.cc:421-562 | Groups are whole numbers of blocks, at most the configured number; data chunks are not empty and no larger than the bodies that are not cut, or 16384 bytes. |
| `TarSplit.GroupsAreFull` | src/chunking/chunker.cc:424-424 | Among members that are not big every group but the last has the configured number of headers. |
| `TarSplit.OneReadSplit` | src/chunking/chunker.cc:126-126 | In one read, the split is that of the members of the archive: a group is closed before its number of headers by a big body or the end alone. |
| `TarChunker.Chunker.CutPointTarFast` | src/chunking/chunker.cc:243-367 | The three states: a header gives the kind and size of what follows, a body is cut at its rounded size or the end, a big body where FastCDC cuts what is left of it. |
| `TarChunker.Chunker.StepHeader` | src/chunking/chunker.cc:430-441 | A header block goes into the group, and the machine's state fits the archive. |
| `TarChunker.Chunker.StepFile` | src/chunking/chunker.cc:442-478 | What the buffer has of a body is pushed as one chunk, unless it is empty, and the member is complete. |
| `TarChunker.Chunker.StepBig` | src/chunking/chunker.cc:527-556 | A piece of a big body is pushed, and what is left will be cut as the whole would be. |
| `TarChunker.Chunker.PushGroup` | src/chunking/chunker.cc:498-515 | A group that is full, or ends with the header of a big body or with the buffer, is the next one of the split. |
| `TarChunker.Chunker.CutGroup` | src/chunking/chunker.cc:421-516 | After a call, what was pushed is the split of the members seen up to there, groups closed where the split closes them. |
| `TarChunker.Chunker.CutBig` | src/chunking/chunker.cc:517-562 | The same for the pieces pushed inside a big body. |
| `TarChunker.Chunker.CutPointTarHeader` | src/chunking/chunker.cc:416-568 | Every call moves on and keeps to the split. |
| `TarChunker.Chunker.Chunking` | src/chunking/chunker.cc:110-160 | Through a buffer that is filled again and again, what is pushed is exactly the split of the members that the reads show, for an archive of any size. |
| `TarRestore.OnlyNamesOutgrow` | src/chunking/chunker.cc:305-311 | A body that is not cut can be larger than a container only after an extended header or a long name. |
| `TarRestore.TakenIs` | src/datawrite/datawrite.cc:336-397 | After a header the restorer takes as many chunks as its body was cut into if and only if it reads the header as the chunker did, or expects a body where no data is left. |
| `TarRestore.MergedIsSplit` | src/datawrite/datawrite.cc:257-402 | Every header seen gets the chunks of its own body if and only if all are read alike, for every BigChunkSize. |
| `TarRestore.WrittenIsJoined` | src/datawrite/datawrite.cc:330-397 | With those chunks the headers give the archive. |
| `TarRestore.SplitMerges` | src/datawrite/datawrite.cc:257-402 | So the restorer merges the split of an archive into the archive, wherever the reads end, exactly under that condition. |
| `TarRestore.Restorer.ParseHeader` | src/datawrite/datawrite.cc:1105-1160 | The restorer's reading of a header block. |
| `TarRestore.Restorer.LoadGroup` | src/datawrite/datawrite.cc:286-317 | The next group comes into the buffer, and what is left to write stays the same. |
| `TarRestore.Restorer.WriteBig` | src/datawrite/datawrite.cc:368-397 | Chunks are written until the size is used up. |
| `TarRestore.Restorer.WriteBody` | src/datawrite/datawrite.cc:336-397 | After a header its chunks are written, nothing, one, or those of a big body. |
| `TarRestore.Restorer.WriteMember` | src/datawrite/datawrite.cc:330-397 | A header and its chunks are written, and with what is left the file is as before. |
| `TarRestore.Restorer.RestoreHeaderFile` | src/datawrite/datawrite.cc:257-402 | For any groups and chunks whose sizes add up, what is written is their merge. |
| `Backups.StreamIsPieces` | src/method/BiSearch.cc:619-622 | The two streams of what the store is given are the groups and the data chunks of the split. |
| `Backups.SharedIsClash` | src/method/BiSearch.cc:593-622 | A content is pushed both ways if and only if a group of one archive is a data chunk of one of them. |
| `Backups.ChunksFit` | src/chunking/chunker.cc:416-568 | The pieces of an archive are such as the store takes. |
| `Backups.OkAsItIs` | src/chunking/chunker.cc:126-126 | For an archive of one read, or one with room for the headers, the conditions are two on its own members: bodies fit, headers are read alike. |
| `Backups.StoredAt` | src/method/BiSearch.cc:619-622 | With nothing shared, the recipes of an archive stand for its groups and its data chunks. |
| `Backups.RestoreArchive` | src/app/main.cc:244-256 | An archive whose groups and data chunks are recorded is restored. |
| `Backups.TakeArchive` | src/app/main.cc:160-183 | An archive is split and its pieces are stored, after those of the archives before it. |
| `Backups.TakeAll` | src/app/main.cc:160-199 | After all backups, each followed by clearing the container cache, both streams of every one are recorded. |
| `Backups.ArchivesComeBack` | src/app/main.cc:160-257 | Every archive comes back byte for byte, in however many reads it was taken. |
| `Backups.PiecesArrive` | src/app/main.cc:160-183 | In every interleaving of the two threads, what the store has taken of an archive when the consumer is done is the backup its chunker pushed. |
| `Backups.FilesComeBack` | src/app/main.cc:160-257 | Files that are no archives, cut by FastCDC, come back byte for byte. |
| `BackupExamples.BodyMisplaced` | src/datawrite/datawrite.cc:1137-1145 | An archive in which a block with type flag NUL takes the body of the file after it: the file restored is another one. |
| `ReadExample.ArchiveIs` | src/chunking/chunker.cc:243-367 | The archive of the next two is well-formed, every body fits into a container and every header is read alike. |
| `ReadExample.SeenIs` | src/chunking/chunker.cc:126-132 | Its first read ends inside the last large body, and the sixteen blocks left of it are seen as headers without bodies. |
| `ReadExample.ReadInsideBody` | src/chunking/chunker.cc:126-132 | With nothing wrong with its members, what the restorer makes of it is another file. |
| `BackupExamples.EndIsLost` | src/method/BiSearch.cc:593-622 | An archive whose end is a group with the content of a file in it: the file restored lacks its last 1024 bytes. |
| `XxHash.LaneOfPrefix` | src/util/xxhash.cc:767-822 | The stripes before some point decide the accumulators there, whatever follows. |
| `XxHash.LanesNext` | src/util/xxhash.cc:382-401 | One more stripe gives each accumulator its own word. |
| `XxHash.Finish` | src/util/xxhash.cc:437-468 | The loops over the rest, and the final mixing, for every length of the rest. |
| `Words.ShiftLeftIs` | src/util/xxhash.cc:157-157 | A shift to the left is a product with a power of two, modulo 2^64. |
| `Words.ShiftRightIs` | src/util/xxhash.cc:157-157 | A shift to the right is a quotient by one. |
| `Words.RotlIs` | src/util/xxhash.cc:157-157 | A rotation makes the high bits of a word its low ones, and loses none. |
| `Words.RotlBack` | src/util/xxhash.cc:157-157 | Rotating on by the rest of the word brings it back. |
| `Words.XorBit` | src/util/xxhash.cc:410-434 | Every bit of an exclusive or is one exactly if one of the two bits is. |
| `Words.XorBack` | src/util/xxhash.cc:410-434 | An exclusive or with the same number takes itself back. |
| `Words.XorFits` | src/util/xxhash.cc:410-434 | The exclusive or of two numbers has no more bits than they have. |
| `Words.XorIsExact` | src/util/xxhash.cc:410-434 | So the exclusive or of two words is a word, and reducing it changes nothing. |
| `XxHash.XXH64` | src/util/xxhash.cc:359-468 | The one-shot form computes the hash. |
| `XxHash.State.constructor` | src/util/xxhash.cc:567-579 | A reset state has seen nothing. |
| `XxHash.State.FillUp` | src/util/xxhash.cc:752-779 | The buffered bytes and the start of the packet make the next stripe. |
| `XxHash.State.TakeStripes` | src/util/xxhash.cc:781-815 | The whole stripes of a packet go into the accumulators. |
| `XxHash.State.Update` | src/util/xxhash.cc:735-822 | An update appends the packet to what was fed. |
| `XxHash.State.Digest` | src/util/xxhash.cc:836-915 | The digest is the hash of all that was fed. |
| `XxHash.HashPackets` | src/util/xxhash.cc:735-915 | Any cutting into packets gives the hash of the whole, for every seed. |
| `XxAnswers.HashOfNothing` | src/util/xxhash.cc:359-468 | The hash of no bytes with seed 0 is 0xEF46DB3751D8E999. |
| `XxAnswers.HashOfOne` | src/util/xxhash.cc:359-468 | That of the byte 97 is 0xD24EC4F1A98C6E5B. |
| `XxAnswers.HashOfZeros` | src/util/xxhash.cc:359-468 | That of thirty-two zero bytes is 0xF6E9BE5D70632CF5. |
| `XxAnswers.HashOfThirteen` | src/util/xxhash.cc:359-468 | That of the bytes from 1 to 13: a word, half a word and a byte, little-endian. |
| `XxAnswers.HashWithSeed` | src/util/xxhash.cc:359-468 | That of the bytes from 0 to 31 with seed 1: every accumulator with its own word and its own start. |
| `RollingHash.Slide` | src/method/Ntrans_similarity.cc:79-82 | Moving a window on by one byte takes off the first digit and adds the new one. |
| `NTransform.FeatureGen.FillPowers` | src/method/Ntrans_similarity.cc:17-25 | The power table holds the powers of the base, modulo 2^64. |
| `NTransform.FeatureGen.FillRemovals` | src/method/Ntrans_similarity.cc:26-38 | The removal table holds the negatives of the first digits, modulo 2^64. |
| `NTransform.FeatureGen.Fingerprints` | src/method/Ntrans_similarity.cc:63-83 | Entry j is the polynomial hash of the 64 bytes from j; the last window has no entry. |
| `Finesse.TopPower` | src/method/absMethod.cc:150-154 | The top power, reduced at every step. |
| `Finesse.DropFirst` | src/method/absMethod.cc:176-178 | Taking off the first byte and adding the modulus until the value is not negative leaves the hash of the rest. |
| `Finesse.Feature` | src/method/absMethod.cc:160-187 | The feature of a sub-chunk is the largest hash of its 48-byte windows. |
| `Finesse.Features` | src/method/absMethod.cc:144-189 | So for all twelve sub-chunks, each at least a window long. |

## Left out

- Lz4Encoder.Count: the trick that finds the first differing byte of a word with bit operations (`LZ4_NbCommonBytes`) is modelled as that byte; the hash of a position is an arbitrary function of it.
- Lz4Encoder.CompressFast: table type `byPtr`, dictionaries, streaming, `destSize` and the obsolete entry points, and big-endian and 32-bit machines are not modelled; the input buffer is a sequence, so input and output never overlap.
- Lz4Decoder.DecompressSafe: a block with a zero offset has no specified meaning: what the decoder then copies is not modelled.
- Lz4Decoder.DecodeBlock: partial decoding and decoding with a dictionary are not modelled.
- SpscQueue.RefusedEnqueue: `CanAlloc` (`enqueue`) is not modelled, since the program only calls `try_enqueue`; so are `peek`, `pop`, moving and destroying a queue, and a queue built for no elements.
- SpscQueue.RunKeeps: memory is sequentially consistent; fences and weaker orders are not modelled. The mask of a power of two is modelled as a wrap at the block size, and thread starts and joins as one step.
- SpscQueue.CeilToPow2: the shifts that smear the highest bit are replaced by the number they lead to.
- LruCache.Cache.Insert: locks, `tryGet`, `remove` and `cwalk` are not modelled; an iterator into the list is modelled by the value it reaches.
- ContainerCache.ReadCache.InsertToCache: the decimal name of a container is its number.
- ChunkStore.DataWrite.GetChunkInfo: the file system is a map from container numbers to bytes, opening a file succeeds, and pointers are returned beside the record rather than kept in the chunk list. It is stated for chunks whose record describes what was stored; `Chunk_Insert` without compression of a `NO_DELTA` chunk makes one that it does not, and the modelled callers never do that. `-L 0` (deflate) is not modelled.
- BiSearchMethod.BiSearch.Process: the gain filter and the super-features are parameters; timing, logging, the counters that only feed the log, `plchunk` beyond the name lookup, and 32- and 64-bit overflow of counters are not modelled. The branch for a matched chunk that is itself a delta is shown never to be taken, and the early return on an empty delta never to happen.
- BiSearchMethod.BackUpAndRestore: SHA-256 is any function without a collision among the chunks seen, xdelta3 any lossless codec with non-empty deltas; their bodies are not part of this model.
- FastCdc.Chunking: fixed-size and gear chunking are not modelled: the first can step past the end of the buffer, the second has no maximum chunk size.
- TarChunker.Chunker.Chunking: archives that are not legible are excluded: the chunker reads past what the buffer holds for a header block of which a read has only a part, and for a big body that the archive has not in full. So is a buffer of 2^32 bytes or more. Names and paths are not extracted, they only steer the search for similar chunks.
- TarRestore.Restorer.ParseHeader: the branches for FILE_CHUNK and BIG_CHUNK of the restorer's own `CutPointTarFast` are never reached, since it sets FILE_HEADER before every call.
- Backups.ArchivesComeBack: the store is given the pieces of a backup after the last of them is pushed; that they are the same pieces in every interleaving of the two threads is `Backups.PiecesArrive`.
- XxHash.Hash: 32-bit XXH, big-endian machines and inputs of 2^64 bytes or more are not modelled; words are integers below 2^64.
- NTransform.FeatureGen.Fingerprints: choosing features from the list, and the random transforms, are not modelled.
- Finesse.Features: chunks with sub-chunks shorter than a window are excluded, where the source reads past the sub-chunk; sorting and hashing the features is not modelled.
- Other ingest methods: Odess is a smaller instance of the same store; local deduplication encodes against another buffer than it restores from; the aged indexes of Palantir, and N-transform and Finesse ingest, which have no fall-back for a delta larger than its chunk, are not modelled.
- `MTar` and `MTarBIN`, the archive rewriting before chunking, are not modelled.
