# RIBS storage core: a Dafny model

RIBS is a blockstore that packs blocks into append-only CAR logs. This project models its storage
core and proves what the core is for:

- **BSST** (`BloomRank`, `BsstTable`, `BsstCreate`, `BsstLookup`, `BsstIndex`): the static multi-level
  hash table. Building it keeps every entry in one slot, and a lookup, with its filter bits, masked
  popcounts and late scan start, agrees with the list the table was built from; keys are told apart as far as
  the hash function tells their messages apart.
- **CarLog** (`Cars`, `LevelIndex`, `LogRuns`, `LogSafety`, `CarLogs`, `LogRebuild`): sections, packed
  locations, the level index, and the log with its write buffer, LRU, durable head, crash and reopen. All
  runs, read through the cache, refine two layers of data (committed, pending); a lost index is rebuilt exactly.
- **The canonical CAR** (`TopTree`, `TreeCommits`, `Preorder`, `TopCar`, `WriteCar`): the bottom-up tree of 2048-way
  link blocks, whose root commits to the log, and the transformation from layer order to depth-first order.
- **Finalization** (`Finalize`, `FinalLogs`, `FinalRuns`, `TornRuns`): the index is swapped for a BSST over the log
  or over the staged depth-first CAR. Successful reads stay the same: all of them over the log, and over the CAR
  exactly those of hashes that have a block in it. A hash that was not found fails afterwards. Runs of the log,
  with rejected puts, crashes and torn tails, lead there.
- **CAR repair** (`RepairMatch`, `RepairReader`, `RepairCanonical`): the explicit-stack reader refines the
  recursive writer, also over a damaged stream, exactly when the last section has at least 40 bytes.
- **Around the log**: the flush handshake (`FlushHandshake`), the two-key-space index (`TopIndex`), batch
  splitting over groups (`Groups`, `GroupBatch`), reopening a group (`GroupOpen`), chunked piece commitments
  (`PieceCommitment`), S3 part sizes (`S3Parts`) and the CBOR head (`HeadCodec`).

## How the model reads

Bytes are numbers below 256 and integers are unbounded; 64-bit wrap-around, two's complement and
shifts are written out where the program relies on them (`ToInt64`, `MakeOffsetLen`, `Negate`). Code that
changes state is a class or a method with loops, proved against a specification function or predicate; pure
code and the protocols are functions and state machines with lemmas over all runs.

SHA-256, DAG-CBOR link encoding, CID sums, the CAR header and the piece-commitment tree hash are function
parameters. Where their properties matter they are stated: `CarEnv.Ok` (links decode to what was encoded,
digests have 32 bytes, a header's length depends only on its root's length; `EnvExists` gives functions that
keep these promises), `NoCollision`/`Apart`/`DbApart` (two listed hashes do not share a 24-byte salted prefix; `OnlyShaCollides`,
`ApartBySha` and `DbApartBySha` reduce this to `KeepsApart`, a property of the hash function on the finitely many
messages of a listing), `DigestsApart` and `Injective` (no collisions among link blocks, or in the tree hash) and
`NoForgery` (no stretch of a damaged stream hashes to a block it is not). LevelDB, Pebble and the SQL tables are
maps; files are byte sequences; a process crash loses the write buffer and may leave a torn tail.

Where the code differs from its comments the code is modelled:

- `BSST.Get` gives 0 for an absent hash, not -1 (`BsstIndex.Get`). After finalization `View` therefore reads an empty
  entry at location 0 and fails, with its whole batch, where it had said "not found" (`UnindexedFails`,
  `MissingFails`).
- The rank mask loses bit 1 of word 0 when the filter index is 128 or 192 (`MaskExact`), so the start index is a
  lower bound of the slot and not its rank.
- After a filter miss the lookup goes on to the next level number without moving to that level's buckets; the
  result is the same because the same bucket misses again (`BsstLookup.FindStuck`).
- A packed location keeps lengths below 2^23 although blocks of up to 2^24 bytes are accepted
  (`OffsetLenRoundTrip`, `EightMiBEntryIsLost`). `RefinesTwoLayers` states the exact condition for reads: the
  location is in the LRU, or the entry is below 2^23 bytes. Staging has no LRU (`CarLosesLarge`).
- A torn tail stays in the file when no indexed hash has to be removed (`LogRuns.Apply`, event `Open`).
  `OpenTornIff` says when the log then fails to parse, and `FinalLog.Finalize` what becomes of such a log: it fails,
  and in the local branch it is marked finalized all the same. A tail that later blocks complete swallows them
  (`TornTailSwallows`): the level index still reads such a block, and staged finalization loses it
  (`StagedKeepsIff`).
- A flush that fails still advances `flushPos`: `FlushTellsTruthIff` is the exact condition under which a Flush that
  returns nil has told the truth, and `FailedFlushLies` a run in which it has not.
- A CAR whose last block has at most two bytes cannot be read by the repair reader (`EndsShortIff`, `ReadWritten`).
- The block cap of a group looks at committed blocks only (`BlockCapIffSynced`).

Plain lemmas carry `{:induction false}`, so that every induction is the one written in its body.

## Model

| member | source | states |
|---|---|---|
| BloomRank.MaskExact | bsst/bsst.go:431-440 | the mask selects exactly the bits up to the filter index, except bit 1 of word 0 at 128 and 192, for every index below 256 |
| BloomRank.SetBitAt | bsst/bsst.go:219-221 | setting a filter bit sets that bit and changes no other |
| BloomRank.StartIndexBounds | bsst/bsst.go:442-444 | a set filter bit gives a start index of at least 0 and at most the number of set bits up to it, less one |
| BsstTable.InRangeExactly | bsst/bsst.go:200-206 | the exact hashes that integer division keeps out of a table: those past the last whole bucket, and those past the last whole filter cell of their bucket |
| BsstTable.SingleBucketTail | bsst/bsst.go:200-206 | for a one-bucket level these are the 256 highest leading words |
| BsstTable.CellHolds | bsst/bsst.go:200-206 | a key is in the bucket and the filter cell where its leading 64-bit word falls, buckets dividing the words and cells a bucket evenly |
| BsstTable.RangeIsLargest | bsst/bsst.go:200 | the range of a bucket is the largest for which the buckets fit 64-bit words |
| BsstTable.AddressesFollowOrder | bsst/bsst.go:202-206 | byte order on keys implies order of buckets and, within a bucket, of filter cells: the reason the "buckets not sorted" panic is unreachable |
| BsstTable.OverflowShrinks | bsst/bsst.go:196-228 | every level stores something, so the overflow list is a termination measure |
| BsstTable.OverflowSorted | bsst/bsst.go:223-228 | what overflows a level is a sorted list again |
| BsstTable.StoredOrOverflow | bsst/bsst.go:223-240 | an entry is stored in its bucket or handed to the next level, never both dropped |
| BsstTable.TableConserves | bsst/bsst.go:196-257 | over all levels the slots hold exactly the input entries, as a multiset |
| BsstTable.LevelImageAt | bsst/bsst.go:164-189 | bucket b of a level is the 4096 bytes at b * 4096 of the level |
| BsstCreate.Builder.FlushBucket | bsst/bsst.go:164-189 | pads the open bucket with null entries, appends its filter and moves on; the order panic cannot occur |
| BsstCreate.Builder.PlaceEntry | bsst/bsst.go:202-240 | one round of the entry loop: earlier buckets closed, filter bit set, entry written or overflowed |
| BsstCreate.Builder.BuildLevel | bsst/bsst.go:196-252 | a level writes exactly its image and leaves exactly its overflow |
| BsstCreate.SortByKey | bsst/bsst.go:143-148 | the collected entries sorted by key: a permutation of them |
| BsstCreate.LevelSizesAreLeast | bsst/bsst.go:85-92 | the least number of buckets for the declared entries at a mean load of 96, and the least next level for a factor of 16384 |
| BsstCreate.Create | bsst/bsst.go:143-259 | for every list of addressable entries, ends with a file that holds a sorted permutation of the list at all its levels |
| BsstLookup.ProbeStored | bsst/bsst.go:392-449 | in the bucket of a stored key the filter bit is set and the scan from the popcount start finds a slot with the key's prefix |
| BsstLookup.ProbeNothing | bsst/bsst.go:392-449 | a nonzero prefix that no entry of the bucket has is not found there, padding included |
| BsstLookup.RankAtMostSlot | bsst/bsst.go:442-449 | the popcount of a bucket's filter up to a stored key's bit is at most its slot plus one |
| BsstLookup.BucketInFile | bsst/bsst.go:388 | bucket b of a level is the 4096 bytes of the file at (its index + 1) * 4096 |
| BsstLookup.FindStuck | bsst/bsst.go:394-397 | after a filter miss all remaining rounds read the same bucket and miss |
| BsstLookup.FindListed | bsst/bsst.go:384-453 | a listed key is found with an offset listed for its prefix, whatever level it overflowed to |
| BsstLookup.FindUnlisted | bsst/bsst.go:384-453 | a key whose nonzero prefix is not listed is absent |
| BsstIndex.CreateFrom | bsst/bsst.go:82-148 | Create over a source's callbacks: the table of all its (multihash, position, offset) triples |
| BsstIndex.MessageCarries | bsst/bsst.go:359-367 | the hashed message has the salt, the position and the whole multihash at their places, and zeros behind |
| BsstIndex.OnlyShaCollides | bsst/bsst.go:359-367 | keys of different pairs of multihash and position collide only where the hash function does not keep their messages apart |
| BsstIndex.AgreesOnListed | bsst/bsst.go:369-529 | for every source and declared count, a listed multihash is found at an offset listed first for it |
| BsstIndex.AgreesOnUnlisted | bsst/bsst.go:369-529 | a key that matches no listed pair is absent |
| BsstIndex.QueryTells | bsst/bsst.go:369-529 | for every listing of multihashes of at most 64 bytes and a hash function that keeps its messages apart: a listed multihash is found at an offset listed first for it, an unlisted one with a nonzero prefix is absent |
| BsstIndex.FindOne | bsst/bsst.go:472-526 | the level loop of one key computes the lookup that the two theorems are about |
| BsstIndex.Get | bsst/bsst.go:459-529 | per query the found offset, and 0 for an absent hash; for a listed multihash an offset listed first for it; a read error exactly when some lookup reads past the file |
| BsstIndex.Has | bsst/bsst.go:369-457 | per query whether it is found: exactly if the multihash is listed, for keys that are not taken for padding |
| Cars.CidRoundTrip | carlog/carlog.go:955-963 | a CID is parsed back whatever follows it |
| Cars.Sha256CidBytes | carlog/carlog.go:649-650 | the bytes of a CID over a SHA-256 digest |
| Bytes.UvarintDigits | carlog/carlog.go:686-687 | a varint has seven bits of its number in each byte, the least significant first |
| Bytes.ReadIsUint64 | carlog/carlog.go:943-949 | a varint that is read is a uint64 of at most ten bytes |
| Bytes.LittleEndianDigits | bsst/bsst.go:359-367 | a fixed-width integer has eight bits in each byte, the least significant first |
| Cars.MultihashPrefixFree | rbstor/index_pebble.go:23-26 | no multihash encoding is a prefix of another |
| Cars.SectionRoundTrip | carlog/carlog.go:680-707 | what ldWrite appends is read back as the same block and length |
| Cars.SectionsAt | carlog/carlog.go:923-974 | where block i stands among the sections of a log |
| LevelIndex.OffsetLenRoundTrip | carlog/carlog.go:1996-2004 | packing and unpacking give the pair back if and only if the offset has 40 bits and the length 23 |
| LevelIndex.EightMiBEntryIsLost | carlog/carlog.go:1996-2004 | an accepted 8 MiB entry unpacks to a negative length |
| LevelIndex.LevelDBIndex.Put | carlog/idx_level.go:62-73 | a write batch: -1 offsets skipped, later writes of a hash winning |
| LevelIndex.LevelDBIndex.Get | carlog/idx_level.go:76-98 | the stored value, -1 for an unknown hash |
| LevelIndex.LevelDBIndex.List | carlog/idx_level.go:113-128 | every pair of the index once |
| LevelIndex.LevelDBIndex.ToTruncate | carlog/idx_level.go:130-148 | exactly the hashes whose entry starts at or above the offset |
| LevelIndex.LevelDBIndex.Del | carlog/idx_level.go:150-157 | those keys gone, all others as they were |
| LogRuns.ViewFindsRec | carlog/carlog.go:812-855 | reading at the packed location of a section in the log returns its data |
| LogRuns.ViewLosesLarge | carlog/carlog.go:812-855 | past the cache, an entry of 2^23 bytes or more is never read back |
| LogRuns.LruAgrees | carlog/carlog.go:787-804 | a cached value is the data of the section at its location, whatever its length |
| LogSafety.StepKeeps | carlog/carlog.go:430-508 | the invariant of the log survives every put, rejected put, flush, commit, crash, open and interrupted open |
| LogSafety.TruncatedExactly | carlog/carlog.go:458-508 | opening removes a hash if and only if its section starts at or after the retired offset |
| LogSafety.RefinesTwoLayers | carlog/carlog.go:241-454 | in every run and with every cache of the log's own sections: a running log reads committed plus pending data, exactly for locations that are cached or entries below 2^23 bytes, and a stopped log can be opened and then indexes exactly the committed hashes |
| LogSafety.CommittedForever | carlog/carlog.go:458-508 | nothing takes a committed block back |
| LogSafety.Durable | carlog/carlog.go:711-749 | a block covered by a commit is read with the same bytes after any further events, if its location is cached or its entry is below 2^23 bytes |
| CarLogs.CarLog.Open | carlog/carlog.go:413-454 | the states and errors of opening, and the removed hashes passed to the callback |
| CarLogs.CarLog.Truncate | carlog/carlog.go:458-508 | index and file are cut only if a hash has to go |
| CarLogs.CarLog.BufferedWrite | carlog/carlog.go:680-707 | the write buffer drops and reorders nothing, writes to the file only what it cannot hold, and the position counts what reached the file |
| CarLogs.CarLog.LdWrite | carlog/carlog.go:680-707 | one section appended, its length returned |
| CarLogs.CarLog.Append | carlog/carlog.go:649-668 | one block appended, and cached under its packed location |
| CarLogs.CarLog.LruAdd | carlog/carlog.go:665 | the added entry is cached, and an older one dropped only when 128 are there |
| CarLogs.CarLog.Put | carlog/carlog.go:626-678 | the batch is the Put event of the state machine, its last new block is cached, and all are as long as there is room; a too large block appends the earlier ones and indexes nothing |
| CarLogs.CarLog.Commit | carlog/carlog.go:711-749 | the Commit event: everything in the file before the head records its end |
| CarLogs.CarLog.ReadEntry | carlog/carlog.go:803-846 | flushes only where the entry is not in the file, and reads what the whole content has there |
| CarLogs.CarLog.View | carlog/carlog.go:769-861 | each query's answer is that of index, LRU and whole log, a batch fails exactly when one of its queries does; for a log that a run has reached the answers are those of the two layers |
| LogRebuild.FixLevelIndex | carlog/carlog.go:510-545 | walking any well-formed log rebuilds the index of its sections; an error if and only if the log does not parse to its end |
| LogRebuild.RunBuildsLog | carlog/carlog.go:626-707 | in a crash-free run the content is a well-formed log and the index is the one its sections give, duplicates within a batch included |
| LogRebuild.LostIndexRebuilt | carlog/carlog.go:510-545 | after a commit of a crash-free run the file alone determines the index the puts built |
| TopTree.GroupAt | carlog/carlog.go:1418-1477 | link block i holds the i-th run of 2048 CIDs |
| TopTree.AllLayersLayered | carlog/carlog.go:1418-1477 | leaves, then one link layer over another, up to a single root |
| TopTree.AtMostSevenLayers | carlog/carlog.go:1418-1477 | fewer than 2^63 leaves give at most 7 layers |
| TreeCommits.LayerCommits | carlog/carlog.go:1418-1477 | a layer of link blocks determines the CIDs below it |
| TreeCommits.RootCommits | carlog/carlog.go:1418-1477 | two finished logs with the same root CID have the same leaf CIDs in the same order, unless digests of link blocks collide |
| TopCar.TopBuilder.AddLink | carlog/carlog.go:1439-1451 | the run of collected links becomes a block when it is full |
| TopCar.TopBuilder.FirstLayer | carlog/carlog.go:1439-1462 | iterating the log appends exactly the first link layer; it fails exactly when the log does not parse to its end |
| TopCar.TopBuilder.NextLayer | carlog/carlog.go:1464-1477 | exactly the next link layer |
| TopCar.TopBuilder.GenTopCar | carlog/carlog.go:1384-1550 | for every log of sections the file, layer offsets and header that its blocks determine; for every log whatever, iterating fails if and only if it does not parse to its end, and its own bytes stay |
| TopCar.RootFitsPlaceholder | carlog/carlog.go:1500-1530 | the final header has the length of the provisional one |
| Preorder.PreVisits | carlog/carlog.go:1611-1652 | depth-first order visits each block under a range of a layer once |
| Preorder.LeavesInOrder | carlog/carlog.go:1611-1652 | depth-first order keeps the leaves in log order |
| Preorder.CanonicalOrder | carlog/carlog.go:1555-1659 | the canonical order has each block of each layer once, and its raw blocks are the log |
| WriteCar.CarWriter.WriteNode | carlog/carlog.go:1611-1652 | writes the node's subtree in preorder and moves every layer cursor to the end of its part |
| WriteCar.Write | carlog/carlog.go:1555-1659 | on a finished log no CID mismatch occurs, the output is the canonical CAR, and every layer below the root is read to its end |
| WriteCar.FinishedCarIsCanonical | carlog/carlog.go:1384-1659 | what genTopCar leaves is a finished log for WriteCar, for every nonempty log of raw blocks |
| Finalize.ListCar | carlog/carlog.go:1690-1742 | over a well-formed CAR lists every block's hash with its packed location, to the end of the stream |
| Finalize.ReadsAtLocation | carlog/carlog.go:863-921 | reading at a listed location returns the block's data |
| Finalize.TableMatchesDb | carlog/carlog.go:1050-1090 | a BSST built from a listing of the level index answers as the level index does |
| Finalize.UnindexedFails | carlog/carlog.go:787-851 | over a table of the level index, a hash that was not indexed is no longer not found: its read fails |
| Finalize.MissingFails | carlog/carlog.go:863-921 | so does, over the table of the staged CAR, the read of a hash without a block in it, indexed or not |
| Finalize.LogReads | carlog/carlog.go:769-861 | for a hash indexed at one of its blocks, reads through the level index and the cache return a block's data, before and after the link layers are appended |
| Finalize.SuccessKept | carlog/carlog.go:812-855 | a read that succeeds is the same after a new header before its location and more bytes at the end |
| Finalize.CarReads | carlog/carlog.go:863-921 | reads through a BSST over a CAR return the data of the block with the hash |
| Finalize.CarLosesLarge | carlog/carlog.go:863-921 | an entry of 2^23 bytes or more cannot be read through the table over the staged CAR |
| FinalLogs.FinalLog.EnsureTop | carlog/carlog.go:1094-1101 | the link layers are generated once; this fails if the log does not parse, and the log's own bytes stay, whatever they are |
| FinalLogs.ApartBySha | carlog/carlog.go:1103-1127 | the conditions on hashes for the staged branch are met where the hash function keeps their messages apart |
| FinalLogs.DbApartBySha | carlog/carlog.go:1051-1054 | so are those for the local branch |
| FinalLogs.FinalLog.ListLevel | carlog/idx_level.go:113-128 | the level index as a BSST source, one item per hash |
| FinalLogs.LocalTable | carlog/carlog.go:1051-1093 | what the table of the level index answers, for indexed and other hashes, over the file with link layers and a new header |
| FinalLogs.FinalLog.CarTable | carlog/carlog.go:1103-1127 | a BSST over the depth-first CAR, read to its end |
| FinalLogs.StagedKeepsIff | carlog/carlog.go:1094-1156 | a read that succeeded is kept by the staged branch if and only if the hash has a block in the CAR |
| FinalLogs.FinalLog.FinalizeLocal | carlog/carlog.go:1051-1093 | whatever the log's bytes are, the local branch preserves every read that succeeds, cached or not, and fails those of hashes that were not indexed; where the layers cannot be generated it reports that after the log was marked finalized |
| FinalLogs.FinalLog.FinalizeStaged | carlog/carlog.go:1094-1156 | the staged branch uploads the canonical CAR; a hash gives its block's data where the CAR has one and fails where it has none; on a log that does not parse nothing is finalized |
| FinalLogs.FinalLog.Finalize | carlog/carlog.go:1022-1163 | on the log of some blocks it succeeds, and View returns the same bytes before and after for every hash indexed at one of its blocks, addressable and free of collisions; a successful read is kept by the local branch always and by the staged one if and only if the CAR has a block of the hash; a hash that was not found fails afterwards; on a log that does not parse to its end it fails, and no successful read is lost |
| FinalRuns.PutIndexedIn | carlog/carlog.go:626-678 | after a batch each indexed hash is at one of its blocks, duplicates and known hashes included |
| FinalRuns.SurvivorsIndexed | carlog/carlog.go:458-508 | what opening keeps in the index points at retired blocks |
| FinalRuns.OpenTornIff | carlog/carlog.go:430-508 | opening leaves a log that does not parse if and only if nothing had to be truncated and the tail behind the retired offset does not parse |
| FinalRuns.RunShaped | carlog/carlog.go:413-749 | in every run whose untruncated reopenings find whole sections, rejected puts and crashes included, the log is the sections of some raw blocks and each indexed hash is at one of them |
| FinalRuns.CrashlessIsClean | carlog/carlog.go:626-749 | every run of puts, rejected puts, flushes and commits is such a run |
| FinalRuns.RunReady | carlog/carlog.go:980-1049 | every such run that ends flushed, with something indexed, leaves a log ready to be finalized, each indexed hash at one of its blocks |
| FinalRuns.RunServed | carlog/carlog.go:980-1049 | every run whatever, torn tails included, that ends so leaves a log that Finalize takes, and whose reads are those of the two layers |
| FinalRuns.RebuiltAfterRun | carlog/carlog.go:510-545 | after a commit of a run whose untruncated reopenings find whole sections, walking the file rebuilds an index with at least the log's hashes, each at one of its blocks |
| TornRuns.TornIsReachable | carlog/carlog.go:430-508 | a crash and an opening that leave a log that does not parse |
| TornRuns.TornTailSwallows | carlog/carlog.go:458-508 | for any two hashes, a run after which the log parses, and the second hash is committed and indexed but points at none of its blocks |
| RepairMatch.B32Overlap | ributil/repair_car.go:295-301 | the loop counts matching bits |
| RepairMatch.FullOverlap | ributil/repair_car.go:295-301 | all bits match exactly when the bytes are equal |
| RepairMatch.Match32Bytes | ributil/repair_car.go:266-293 | the first of the four offsets with the largest overlap; an error exactly for wrong lengths |
| RepairMatch.OneBestOffset | ributil/repair_car.go:275-292 | that offset is unique |
| RepairMatch.IntactOffset | ributil/repair_car.go:126-132 | on an undamaged section the winning offset is where the CID is, for every length prefix |
| RepairReader.RepairCarLog.RepairEntry | ributil/repair_car.go:140-233 | whatever the claimed length, the entry comes out undamaged if it was, or if repairs are right and no stretch of the stream forges the hash; it counts as corrupt exactly if it was not undamaged |
| RepairReader.RepairCarLog.TakeEntry | ributil/repair_car.go:105-233 | the section's entry is recovered and the stream stands behind its length prefix; corrupt exactly if a byte of the section differs; fewer than 40 remaining bytes are an error |
| RepairReader.RemStep | ributil/repair_car.go:92-103 | popping a CID and pushing its links leaves the rest of the preorder |
| RepairReader.RepairCarLog.NextBlock | ributil/repair_car.go:86-257 | one section of the canonical CAR moves from stream to buffer, corrupt exactly if it was altered; a last one below 40 bytes is the peek error |
| RepairReader.RepairCarLog.Read | ributil/repair_car.go:72-263 | handed out, buffered and remaining bytes always make up the canonical CAR; altered sections, and no others, are counted, and the too-many-corrupt error comes exactly when the counters ask for it |
| RepairReader.RepairCarLog.ReadAll | ributil/repair_car.go:72-263 | for every sequence of nonempty buffer sizes, the same ending, which stream and counters determine: the whole CAR, a prefix with the too-many-corrupt error, or all but a last section below 40 bytes |
| RepairReader.EndingFromStart | ributil/repair_car.go:81-89 | that ending is too many corrupt if and only if for some number above 100 of reads more than 10 percent of them met altered sections |
| RepairCanonical.LayersTreeOk | carlog/carlog.go:1418-1477 | the stack can follow the layers: link blocks decode to their children |
| RepairCanonical.DamagedFrom | ributil/repair_car.go:239-256 | a stream readable section by section is readable by the walk |
| RepairCanonical.OnBoundary | ributil/repair_car.go:253-256 | after every block the stream stands at a canonical section boundary |
| RepairCanonical.IntactDamageable | ributil/repair_car.go:121-135 | every undamaged CAR is readable section by section, up to a last one below 40 bytes |
| RepairCanonical.RepairDamaged | ributil/repair_car.go:72-263 | over sections altered in content but not in length: the too-many-corrupt error and a prefix if and only if for some number above 100 of reads more than 10 percent met altered sections; otherwise the canonical CAR, or all but a last section below 40 bytes with the peek error |
| RepairCanonical.NothingAltered | ributil/repair_car.go:81-89 | an undamaged CAR is never too corrupt |
| RepairCanonical.ReadWritten | ributil/repair_car.go:72-263 | over WriteCar's output the reader ends with Eof if and only if the last section has at least 40 bytes; its output is then WriteCar's output, and otherwise lacks only that section |
| RepairCanonical.EndsShortIff | ributil/repair_car.go:107-117 | the last section is below 40 bytes exactly when the last block has at most two bytes |
| FlushHandshake.RunInv | integrations/blockstore/ribsbs.go:70-310 | every interleaving keeps acknowledged puts in the batch or flushed, positions ordered, covers flushed and no flusher lost |
| FlushHandshake.FlushCovers | integrations/blockstore/ribsbs.go:284-310 | a Flush that returned nil covers every put acknowledged before it began, in every run whose batch flushes succeed |
| FlushHandshake.FlushCoversEarlierPuts | integrations/blockstore/ribsbs.go:284-310 | in terms of the calls: the puts acknowledged when Flush was called are flushed when it has returned nil, in every run without failing batch flushes |
| FlushHandshake.GoodPositionCovers | integrations/blockstore/ribsbs.go:87-112 | with failures, the same up to the last position published by a successful flush |
| FlushHandshake.FlushTellsTruthIff | integrations/blockstore/ribsbs.go:87-112 | in every run that has a flush under way and a flusher waiting for its position: once the position is published the flusher may return nil, and its puts are flushed if and only if this flush succeeded or got as far as those not flushed before |
| FlushHandshake.FailedFlushLies | integrations/blockstore/ribsbs.go:93-105 | a run in which a flush fails, Flush returns nil and the put it should cover is not flushed |
| FlushHandshake.FlusherServed | integrations/blockstore/ribsbs.go:87-172 | from every reachable state the worker's own steps reach a position that lets a waiting flusher return |
| FlushHandshake.StepConserves | integrations/blockstore/ribsbs.go:113-162 | no step takes a request from queue and worker without answering it |
| FlushHandshake.PutServed | integrations/blockstore/ribsbs.go:113-162 | from every state of a worker that has not stopped, its own steps answer a request that is queued or held, with nil unless its put or flush has failed already |
| FlushHandshake.FinalFlushCovers | integrations/blockstore/ribsbs.go:75-86 | when the final flush of a stopping worker succeeds, every acknowledged put is flushed |
| FlushHandshake.NothingAfterFailure | integrations/blockstore/ribsbs.go:163-168 | after a failed token flush no put is acknowledged any more |
| FlushHandshake.LimitsHold | integrations/blockstore/ribsbs.go:113-161 | no request is collected on top of more than 640 blocks after the second one, and while flushes succeed a batch of more than 10240 blocks is on its way to be flushed |
| TopIndex.RangeHoldsGroup | rbstor/index_pebble.go:92-97 | the iterator bounds hold a multihash's group key if and only if the group is not -1 |
| TopIndex.RangeOnlyOwn | rbstor/index_pebble.go:92-97 | they hold no other multihash's group keys |
| TopIndex.Scan | rbstor/index_pebble.go:94-97 | the iterator visits exactly the keys within the bounds, in order |
| TopIndex.PebbleIndex.AddGroup | rbstor/index_pebble.go:152-186 | the two key spaces follow the abstract index |
| TopIndex.PebbleIndex.DropGroup | rbstor/index_pebble.go:188-248 | so they do, although the batch reads size keys as they were before it |
| TopIndex.PebbleIndex.GetSizes | rbstor/index_pebble.go:128-150 | the last added size, -1 if never added |
| TopIndex.PebbleIndex.VisitOne | rbstor/index_pebble.go:58-122 | the size key's group and then the list: only current groups, all of them while more are wanted, and none after another answer |
| TopIndex.PebbleIndex.GetGroups | rbstor/index_pebble.go:57-126 | while the callback asks for more it sees exactly the groups of the abstract index; another answer ends the visits of that multihash, and an error all of them |
| TopIndex.HistoryDecides | rbstor/index_pebble.go:152-248 | after any history a group holds a multihash exactly when it was added and not since dropped |
| TopIndex.SizeIsLastAdded | rbstor/index_pebble.go:128-248 | the size is that of the last addition, whatever was dropped |
| Groups.FitCount | rbstor/group.go:152-164 | the longest prefix within the available bytes and the block cap |
| Groups.Group.LogPut | carlog/carlog.go:645-669 | the log takes what it is handed up to the first block over the limit |
| Groups.LongestIsUnique | rbstor/group.go:152-164 | that prefix is unique |
| Groups.BlockCapIffSynced | rbstor/group.go:159 | a put keeps the group within its block cap for every batch if and only if nothing is in flight or the cap is already reached |
| Groups.EmptyGroupTakes | rbstor/group.go:152-164 | an empty group takes the first block exactly when it is no larger than a group |
| Groups.Group.Put | rbstor/group.go:137-242 | the prefix taken, counters, blocks handed to the log, fullness and database row after a put; it fails if and only if a block taken is over the log's limit, with the counters raised, the blocks before that one handed over, and nothing committed or recorded |
| Groups.Group.Sync | rbstor/group.go:251-278 | in-flight counters become committed ones and reach the database |
| GroupBatch.Rbs.OpenGroup | rbstor/group_storage.go:31-43 | a group is loaded from its row, and is writable exactly if the row is |
| GroupBatch.Rbs.PutTo | rbstor/group_storage.go:55-72 | a filled group leaves the writable ones and is queued for finalization |
| GroupBatch.Rbs.WithWritableGroup | rbstor/group_storage.go:45-102 | an open writable group, else a stored one, else a new one; a block is taken or one writable group fewer is left, and a filled group is queued |
| GroupBatch.RibBatch.Put | rbstor/rbs.go:273-294 | for a batch without blocks over the log's limit it ends, and the slices it put join to the batch; every group stays within its size and holds what it was given; all groups but the last are queued for finalization, and the writable groups never exceed the larger of one and their number before |
| GroupBatch.RibBatch.Flush | rbstor/rbs.go:301-325 | everything the batch put is committed and recorded |
| GroupOpen.TruncCleanup | rbstor/group.go:106-112 | the truncation callback: it refuses to rewind below the recorded head, else the hashes lose the group |
| GroupOpen.OpenGroupLog | rbstor/group.go:79-135 | after a crash the committed hashes keep the group in the top-level index, those cut from the log lose it, and no other pair changes; a refusal changes nothing |
| GroupOpen.RewindNeverRefused | rbstor/group.go:106-112 | in a run the callback never refuses, since the retired offset only grows |
| GroupOpen.IndexFollows | rbstor/index_pebble.go:152-248 | AddGroup and DropGroup change a group's listed hashes as the steps of its log's run say |
| GroupOpen.RunListed | rbstor/group.go:188-225 | in every run, also when the process stops between the two parallel writes, the top-level index lists the group for every committed hash, and for every hash its log has indexed unless a put is under way |
| GroupOpen.CommittedIsFound | rbstor/group.go:79-278 | a committed block is found end to end after any further events: listed, and read with its bytes if its location is cached or its entry is below 2^23 bytes |
| PieceCommitment.RootZeroPadded | ributil/parcommp.go:107-110 | zero bytes behind the payload do not change the root |
| PieceCommitment.RootCommits | ributil/parcommp.go:72-80 | payloads of the same length with the same root are equal, if the tree hash has no collisions |
| PieceCommitment.Inclusion | ributil/parcommp.go:72-80 | siblings lead from the leaf of each 127-byte run of the zero-padded payload to the root |
| PieceCommitment.DigestSize | ributil/parcommp.go:112-124 | the padded size is the least power of two of runs that holds the payload |
| PieceCommitment.ChunksCompose | ributil/parcommp.go:126-150 | chunk roots in order and zero filler are a layer of the one-pass tree |
| PieceCommitment.DepthOfChunks | ributil/parcommp.go:126-130 | the filler reaches exactly the depth of the whole payload |
| PieceCommitment.DataCidWriter.Write | ributil/parcommp.go:42-89 | whatever the split into writes, leaves are the roots of the full chunks of what was written |
| PieceCommitment.DataCidWriter.Receive | ributil/parcommp.go:96-103 | the chunk roots in write order, each received once |
| PieceCommitment.DataCidWriter.LastLeaf | ributil/parcommp.go:91-124 | the partial chunk is zero-padded, except alone, where a small payload has its own digest |
| PieceCommitment.DataCidWriter.Sum | ributil/parcommp.go:91-160 | root and size of the one-pass digest for 65 bytes up to 64 GiB; an undefined CID below, an error for nothing or more. It drains the leaves, so it can be called again only if no full chunk was written |
| PieceCommitment.SumCommits | ributil/parcommp.go:91-160 | payloads for which Sum returns the same sizes and root are equal |
| S3Parts.LastPartBounds | rbdeal/car_offload_s3.go:183-193 | the last part is never larger than the chunk, so the enlarging branch is never taken |
| S3Parts.CalculateChunkSize | rbdeal/car_offload_s3.go:179-203 | ends for 8 MiB to 150 GiB with the first of 128 MiB, 100 KiB less, and so on, that leaves a last part of at least 8 MiB; the chunk has 119 to 128 MiB |
| S3Parts.SmallFileNeverFits | rbdeal/car_offload_s3.go:186 | below 8 MiB no chunk size ends the loop |
| S3Parts.UploadParts | rbdeal/car_offload_s3.go:239-327 | for a stream of any length the parts join to it, all but the last exactly one chunk, none below 8 MiB if the stream is not |
| S3Parts.UploadGroup | rbdeal/car_offload_s3.go:239-327 | for the announced length nothing is merged and no part exceeds the chunk |
| HeadCodec.ItemHeadRoundTrip | carlog/cbor_gen.go:34-36 | data item heads of every width are read back |
| HeadCodec.OnlyShortest | carlog/cbor_gen.go:237-245 | a data item head that is accepted is the shortest one for what it says |
| HeadCodec.IntegerExamples | carlog/cbor_gen.go:61-69 | integers have the bytes of the examples in appendix A of RFC 8949 |
| HeadCodec.OtherExamples | carlog/cbor_gen.go:33-47 | so have truth values, arrays and texts |
| HeadCodec.FieldRoundTrip | carlog/cbor_gen.go:252-520 | a field decodes to its value and changes no other field |
| HeadCodec.NamedFields | carlog/cbor_gen.go:33-231 | the name under which each field is stored |
| HeadCodec.MarshalCBOR | carlog/cbor_gen.go:21-232 | the fields in the order of the generated code; an error only for too many offsets |
| HeadCodec.UnmarshalCBOR | carlog/cbor_gen.go:234-520 | the decode loop computes the decoding function, errors included |
| HeadCodec.DecodeEncoded | carlog/cbor_gen.go:21-520 | any stream that starts with an encoded head decodes to that head |
| HeadCodec.DecodedIsOk | carlog/cbor_gen.go:234-520 | whatever decodes is a head that can be encoded |
| HeadCodec.EncodeSize | carlog/cbor_gen.go:21-232 | the exact length of an encoded head |
| HeadCodec.FitsUpTo41 | carlog/carlog.go:603-607 | every head with at most n layer offsets fits 512 bytes if and only if n <= 41 |
| HeadCodec.MutHead | carlog/carlog.go:580-624 | reading, changing and writing the head file yields the file of the changed head; an error exactly for a missized, undecodable or invalid head or a refused change; above 512 bytes a truncated head is written without an error |
| HeadCodec.HeadFileDecodes | carlog/carlog.go:580-624 | a head of at most 41 offsets that was written to its null-padded file is the head that is read |
| HeadCodec.FinishedHeadFits | carlog/carlog.go:1535-1545 | the head that genTopCar writes always fits |

## Left out

- BsstIndex.AgreesOnListed: hashes in the tail of the integer divisions are excluded by precondition, because the program addresses a bucket or filter bit that does not exist for them; `InRangeExactly` says which they are.
- BsstCreate.Create: entries in that tail are excluded for the same reason.
- BsstIndex.CreateFrom: listings with a hash in that tail are excluded.
- BsstIndex.FindOne: a queried key in that tail is excluded.
- BsstIndex.Get: a queried hash in that tail is excluded.
- BsstIndex.Has: a queried hash in that tail is excluded.
- BsstIndex.QueryTells: multihashes of more than 64 bytes, of which the program hashes the first 64, and keys in the tail of the divisions are excluded.
- BsstIndex.AgreesOnUnlisted: an all-zero 24-byte prefix is excluded, because null padding entries match it.
- LogSafety.Durable: entries of 2^23 bytes or more that are not cached are excluded, because their packed length is lost; the condition is exact (`RefinesTwoLayers`).
- CarLogs.CarLog.Open: a missing level index, an unfinished top tree, and finalized, external and offloaded heads are not modelled; what is rebuilt in the first case is `FixLevelIndex`.
- FinalLogs.FinalLog.Finalize: uninterrupted runs only; recovery after a crash inside Finalize or genTopCar does not restore a clean state. CARs are limited to 2^40 bytes, the range of packed offsets. The staged branch is stated for logs that are sections of raw blocks and for logs that do not parse; a torn tail inside a CID may give a log that parses as something else. Hashes in the tail of the integer divisions are excluded. The LRU no longer changes.
- FinalRuns.RunShaped: reopenings that leave a torn tail other than whole sections in the file are excluded, because later blocks may then be swallowed by it (`TornTailSwallows`); `RunServed` covers them.
- FinalRuns.RunReady: the same runs are excluded.
- TopCar.TopBuilder.GenTopCar: resuming an interrupted generation is not modelled, nor which link blocks a log of other than canonical sections gets.
- LogRebuild.LostIndexRebuilt: crash-free runs only, because a rejected put or a torn tail leaves sections that the index does not have; `RebuiltAfterRun` is what holds with them.
- CarLogs.CarLog.Commit: a failing write or fsync is not modelled; neither is Close, which clears the writable index before it commits and so commits nothing.
- CarLogs.CarLog.LruAdd: which entry the LRU evicts is left open.
- RepairReader.RepairCarLog.Read: the counters are unbounded, and the repair callback is a function of its arguments. Copying the repaired CID into the reader's own buffer is modelled on values: the changed bytes are those that are discarded next.
- FlushHandshake.RunInv: puts whose caller gave up are answered like any others.
- FlushHandshake.PutServed: what is queued when the worker stops is never answered; its callers return when they see the stop.
- GroupOpen.RunListed: an I/O error of the top-level index is not modelled.
- Groups.Group.LogPut: blocks whose hash the log already has count as handed over; that the log then skips them is in `CarLogs.CarLog.Put`.
- Groups.Group.Put: I/O errors of log and index are not modelled; the failure on a block over the limit is.
- GroupBatch.RibBatch.Put: batches with a block over 2^24 bytes are excluded; the put of the group that takes it fails, as `Groups.Group.Put` states, and so does the batch.
- GroupBatch.Rbs.WithWritableGroup: waiting for local space and offloading a group before a new one is created are not modelled.
- PieceCommitment.DataCidWriter.Write: the chunks are hashed when they are full instead of by goroutines; their results are collected in write order either way. Blocking on a drained leaf is a precondition of Sum.
- S3Parts.CalculateChunkSize: the ceiling of a floating-point quotient is the integer ceiling; for sizes up to 150 GiB rounding cannot reach the next integer.
- S3Parts.UploadParts: retries, parallel uploads and the completion request are not modelled, only the numbered parts.
- HeadCodec.MutHead: how much of a head of more than 512 bytes reaches the file is not modelled.
- HeadCodec.UnmarshalCBOR: a field name that Head does not have is an error here; the generated code skips its value.
- Go maps, LevelDB, Pebble and SQL iteration order, locking and background compaction.
- The reload path (LoadData, FinDataReload), Offload and the hash samples.
- `ribSession.View` over several groups: it returns after the first external fetch.
- The BSST and Boost CBOR codecs: the same pattern as the Head codec.
- Deal making, provider selection, the crawler, wallets, retrieval, HTTP serving, RPC, WebDAV, the Kubo plugin and the command-line tools: network, database and interface code.
