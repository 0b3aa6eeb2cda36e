# FactoryCacher, verified

FactoryCacher carries game worlds over slow links. The server side downloads a world from the game server, takes the
archive apart, cuts every file into content-defined chunks and stores the chunks and a tree of chunk lists under their
hashes. The client side fetches only the chunks that its shared cache lacks, rebuilds the archive to a size and checksum
announced before the rebuilding began, and serves it block by block to the game while it is still being built. For another
game the same chunks are sent as an LZ4 frame whose length is announced in advance.

This project models those parts in Dafny and proves what they promise. Every theorem holds for all inputs, and the ones
about protocols for every interleaving of any number of tasks.

| file | what it holds |
|---|---|
| `Bytes.dfy` | bytes, little- and big-endian words |
| `Chunker.dfy` | the rolling hash in its ring buffer; content-defined chunking |
| `Dedup.dfy` | chunk lists on the wire; the chunk tree, built online, and reading it back |
| `Lru.dfy` | the size-bounded cache; exactly how long a chunk stays in it |
| `CacheFile.dfy` | the cache on disk |
| `FetchProtocol.dfy` | the lock regions of the shared cache; all runs of all tasks over them |
| `Holdings.dfy` | where the keys a task asked for are, in every run; who poisons the lock |
| `Waiting.dfy` | when a task that waits for others can be woken |
| `Provider.dfy` | a client reading a tree through the cache and the server |
| `Crc.dfy` | CRC-32, its reverse, and the four bytes that force a checksum |
| `Zip.dfy` | the archive writer and a reader for its archives |
| `Blocks.dfy` | the layout in transfer blocks; sets of block ids |
| `World.dfy` | rebuilding a world to an announced size and checksum |
| `Download.dfy` | the windowed download from the game server |
| `BlockServer.dfy` | serving blocks of a world that is still arriving |
| `Transfer.dfy` | taking a world apart, rebuilding it, and what the game downloads of it |
| `EndToEnd.dfy` | the whole way of a world in one method |
| `Lz4Frame.dfy` | the LZ4 frame encoder |

`dafny verify dfyconfig.toml` checks everything.

The main results, hardest first:

- `EndToEnd.CarryWorld`: from the packets of the game server to the blocks the game asks for, through download, chunking,
  cache, rebuilding and block server. However clients, cache, server and the game's requests interleave, the game ends up
  with an archive of the announced size and checksum, and its files decode to the files of the original archive. It assumes
  that the chunks that are cached, stored or received under a hash they match do not collide, and that codecs undo themselves.
- `FetchProtocol.ReachableInv` and the lemmas after it: over all interleavings, from the empty and from every loaded cache,
  batches are disjoint, pending keys are exactly the keys of open batches, waits do not chain, and each panic of the cache
  happens exactly under a stated condition.
- `Holdings.NothingIsLost`, `Holdings.FinishedHasAll`: in every run, what a task requests, fetches, awaits and has is exactly
  what it asked for, so a task that is done has all its chunks.
- `Waiting.WakeExact`: a waiting task can be woken if and only if neither the lock nor the owner of a batch it still awaits is
  lost.
- `Dedup.DedupRoundTrip`, `Dedup.ChunkData`: the tree that cascading splits build online is the tree of an offline
  definition, it reads back as the input, and nothing but it is stored.
- `World.WorldReconstructor.FinalizeWorld`, `RevCrc.ForgeReaches`: the forged checksum is always right, by the only four
  bytes that make it so; the size, checksum and alignment assertions cannot fail.
- `LruSurvival.ExactSurvival`: a chunk is cached exactly while what was used since leaves room for it.
- `Download.LatePacketsRepeat`, `BlockServer.RequestsAreAnswered`: lost requests for the 16 lowest missing blocks are repeated,
  and a request is answered exactly if it and its block arrive before the clean-up.

Hash functions and codecs are parameters. Collision-freedom is a hypothesis about the finite set of strings of one run, never
about all strings, and a codec is only assumed to undo itself. Properties that hold of most runs but not of all are stated with
their exact condition and a run that fails:

- After waiting, a task finds its chunks exactly if there was room for them: `FetchProtocol.NotCachedPanicExact`, and
  `FetchProtocol.OversizedChunkPanics` for a run that panics.
- A batch that is dropped on an error is never fulfilled: `Waiting.WakeExact` says when a waiting task can be woken, and
  `Waiting.AbandonedWaiter` gives a run after which one never is.
- Near 2^32 the 32-bit block arithmetic overflows: `Blocks.AlignedExact` and `Blocks.CheckedExact` say exactly when, without
  and with overflow checks in the build. `Download.CrashesExactly`, `Download.DownloadRecovers` and
  `World.WorldReconstructor.FinalizeWorld` say what comes of it, and `Download.UnsliceableDownload` and
  `World.OverflowingWorld` give a download and a world that fail.

## Model

| member | source | states |
|---|---|---|
| `RollingHash.WindowMultIsPower` | common/src/chunker.rs:56-58 | the constant that removes a byte from the window is MULT^33 modulo 2^32 |
| `RollingHash.WindowHashByAge` | common/src/chunker.rs:56-60 | the hash is the sum, modulo 2^32, of the last 32 bytes plus 31 each, times 0x08104225 to the power of their age |
| `RollingHash.WrappedUpdate` | common/src/chunker.rs:73-76 | the wrapping 32-bit update is the exact polynomial step modulo 2^32 |
| `RollingHash.HashAdds` | common/src/chunker.rs:71-83 | adding a byte and removing the one that leaves turns the hash of the last 32 bytes into the hash of the new last 32 bytes |
| `RollingHash.RingRemoves` | common/src/chunker.rs:74-74 | the ring slot about to be overwritten holds the weight of the byte that leaves the window, or 0 |
| `RollingHash.RingAdds` | common/src/chunker.rs:78-79 | after the write the ring again holds exactly the last bytes, byte j in slot j modulo 32 |
| `RollingHash.RabinKarpHash.constructor` | common/src/chunker.rs:62-68 | starts as the hash of no bytes |
| `RollingHash.RabinKarpHash.Update` | common/src/chunker.rs:71-83 | the incrementally kept value is the polynomial sum over the last up to 32 bytes fed since the reset |
| `RollingHash.RabinKarpHash.Reset` | common/src/chunker.rs:85-89 | forgets everything fed |
| `Chunking.CutIsFirst` | common/src/chunker.rs:27-37 | the loop stops at size k if and only if k is the first size above 512 at which the hash of the bytes since the 512th is 0 modulo 2048, or 4096, or the end of the data |
| `Chunking.Chunker.Next` | common/src/chunker.rs:22-45 | the iterator yields the chunks of the offline definition one by one, and nothing after the end |
| `Chunking.ChunksLossless` | common/src/chunker.rs:22-45 | the chunks concatenate to the data |
| `Chunking.ChunksBounded` | common/src/chunker.rs:1-2 | chunks are nonempty and at most 4096 bytes, all but the last at least 513 |
| `Chunking.AppendKeepsChunks` | common/src/chunker.rs:22-45 | appending data keeps every chunk but the last |
| `Chunking.ChunkingResynchronizes` | common/src/chunker.rs:39-42 | inputs that agree after a cut point of each are chunked identically from there on |
| `ChunkLists.DecodeInverts` | common/src/dedup.rs:201-231 | decoding gives back an encoded list, whatever follows it |
| `ChunkLists.DecodeExact` | common/src/dedup.rs:201-218 | decoding succeeds exactly on a header followed by as many keys as it announces |
| `ChunkLists.ListBytes` | common/src/dedup.rs:220-231 | the wire form: flag, count with its high byte first, and key i of the list at offset 5 + 32 i |
| `ChunkLists.EncodeList` | common/src/dedup.rs:220-231 | the encoding loop writes the wire form of the list, and panics exactly on 2^32 or more keys |
| `ChunkLists.DecodeList` | common/src/dedup.rs:201-218 | the decoding loop computes the reader, failing exactly where it fails |
| `Dedup.Group` | common/src/dedup.rs:42-63 | sealed groups have 32 to 512 nodes, the open one fewer than 512 |
| `Dedup.GroupLossless` | common/src/dedup.rs:42-63 | grouping a level loses nothing and keeps the order |
| `Dedup.SplitPointIs` | common/src/dedup.rs:13-23 | a node is a split point exactly if it is at least the 512th of its list, or at least the 32nd and the fourth byte of its key is a multiple of 128 |
| `Dedup.GroupEndsAtFirstSplit` | common/src/dedup.rs:13-63 | every sealed group ends at its first node that is the 512th, or at least the 32nd with such a key; the open group has none |
| `Dedup.GroupingResynchronizes` | common/src/dedup.rs:42-63 | two levels that agree after a complete group of each are grouped identically from there on |
| `Dedup.LevelShape` | common/src/dedup.rs:38-63 | open nodes hold fewer than 512 keys, only the lowest is a leaf list, the top of several is not empty |
| `Dedup.RootShape` | common/src/dedup.rs:68-81 | the root holds at most 512 keys, and some if there is data |
| `Dedup.HeightIsLogarithmic` | common/src/dedup.rs:42-63 | level k exists only over at least 32^k chunks |
| `Dedup.SplitLevels` | common/src/dedup.rs:42-63 | one round of the cascade turns a full level and the levels above into those of the offline tree |
| `Dedup.AddChunk` | common/src/dedup.rs:33-63 | pushing a chunk with all its cascading splits leaves the open nodes of the offline tree over one more chunk, and stores exactly the new nodes; the cascade terminates |
| `Dedup.FinishTree` | common/src/dedup.rs:68-81 | the finishing pass yields the root of the offline tree and stores exactly the nodes it carries up |
| `Dedup.ChunkData` | common/src/dedup.rs:25-82 | building online gives the root of the offline tree over the chunks of the data, and inserts exactly its strings into the map |
| `Dedup.MinimizeChunkList` | common/src/dedup.rs:86-100 | a root of 64 or more keys is replaced by the one-key list over its encoding, which is stored; a smaller root stays and nothing is stored; panics exactly where the encoder does |
| `Dedup.ReadConcat` | common/src/dedup.rs:135-157 | reading a list of keys reads its parts one after the other, stopping at the first failure |
| `Dedup.ReadRoot` | common/src/dedup.rs:42-157 | from a map holding the stored strings, reading the root at full depth is reading the nodes of any level below |
| `Dedup.RootReadsBack` | common/src/dedup.rs:25-82 | reading the tree yields the chunks of the data, whose concatenation is the data |
| `Dedup.MinimizedReadsBack` | common/src/dedup.rs:86-100 | so does reading the minimized root |
| `Dedup.DedupRoundTrip` | common/src/dedup.rs:25-157 | for every data and starting map, without a collision among the strings of the run, both roots read back as the data without an error, and the map stays hash-consistent |
| `Dedup.TreeAtDepth` | common/src/dedup.rs:25-100 | every path from the root to a data chunk has the same length, every key on it is in the map, and every list on it has 1 to 512 keys |
| `Dedup.StoredIsTheTree` | common/src/dedup.rs:25-82 | what a build stores is exactly the chunks and lists that its root leads to |
| `Dedup.AppendKeepsTree` | common/src/dedup.rs:32-64 | appending to a file keeps, on every level, the nodes over all its chunks but the last |
| `Lru.FitIsLongest` | common/src/chunk_cache.rs:275-278 | evicting from the front leaves the longest suffix that fits |
| `Lru.FitTwice` | common/src/chunk_cache.rs:267-279 | evicting after each insertion or once at the end leaves the same |
| `Lru.InsertLookup` | common/src/chunk_cache.rs:267-279 | an insertion replaces what was cached under its key, unless it exceeds the limit, and changes no other chunk, though it may evict it |
| `Lru.RawChunkCache.InsertChunk` | common/src/chunk_cache.rs:267-279 | the entry becomes the newest, the longest fitting suffix stays, the running total is exact, the `unwrap` never fails |
| `Lru.RawChunkCache.Get` | common/src/chunk_cache.rs:281-283 | a lookup returns the chunk and makes it the newest, or changes nothing |
| `LruSurvival.SurvivalLaw` | common/src/chunk_cache.rs:267-283 | a chunk stays cached as long as its size and the sizes of the other chunks named since fit the limit |
| `LruSurvival.ExactSurvival` | common/src/chunk_cache.rs:267-283 | without misses in between, a chunk is cached if and only if its size and the sizes of the chunks used since its last use fit the limit |
| `LruSurvival.HitsRunAlike` | common/src/chunk_cache.rs:281-283 | lookups that miss make no difference to what is cached |
| `LruSurvival.LookupsAreLatest` | common/src/chunk_cache.rs:267-283 | over every history a lookup finds the chunk inserted last under its key, or nothing |
| `CacheFile.FileBytes` | common/src/chunk_cache.rs:333-347 | the file form: the count, then key, length and chunk of each entry, numbers with their low byte first |
| `CacheFile.PersistRoundTrip` | common/src/chunk_cache.rs:290-353 | reading back written entries, whatever follows them, skips those that do not hash to their key and gives the longest newest part of the others that fits the limit, in order; it fails exactly if a chunk exceeds 20,000,000 bytes |
| `CacheFile.TruncatedIsRefused` | common/src/chunk_cache.rs:294-316 | a file cut short anywhere is refused |
| `CacheFile.PersistWhole` | common/src/chunk_cache.rs:290-353 | under the limit it was kept with, the cache comes back whole |
| `CacheFile.LoadingInserts` | common/src/chunk_cache.rs:299-323 | loading a file is a run of insertions, each of a chunk that hashes to its key |
| `CacheFile.WriteChunkCache` | common/src/chunk_cache.rs:333-347 | the loop writes the file form of the cache, and panics exactly on a count or length of 2^32 or more |
| `CacheFile.ReadChunkCache` | common/src/chunk_cache.rs:294-325 | the loop computes the reader: entries with a wrong hash are skipped, truncated files and oversized chunks are refused |
| `CacheRegions.ScanResult` | common/src/chunk_cache.rs:123-148 | the scan hands out what the cache has, batches distinct keys that are neither cached nor pending up to the batch size, keeps the rest, and only reorders the cache |
| `CacheRegions.CollectExact` | common/src/chunk_cache.rs:187-196 | the second region succeeds exactly if every awaited key is cached, and then finds them all |
| `CacheRegions.InsertBatch` | common/src/chunk_cache.rs:241-244 | inserting a batch of new keys replaces nothing and leaves a bounded, duplicate-free cache of old and new entries |
| `CacheRegions.ChunkCache.Retain` | common/src/chunk_cache.rs:126-148 | the loop computes the scan and reorders the cache as the scan says |
| `CacheRegions.ChunkCache.FirstRegion` | common/src/chunk_cache.rs:120-181 | the region ends in the outcome of the scan: a batch marked pending under a new event, nothing left, events to await, or the failed `expect` |
| `CacheRegions.ChunkCache.MarkPending` | common/src/chunk_cache.rs:153-157 | every key of the batch, and no other, becomes pending under a new event |
| `CacheRegions.ChunkCache.EventsOf` | common/src/chunk_cache.rs:168-174 | collects the events of the kept keys, failing exactly if one is not pending |
| `CacheRegions.ChunkCache.Fulfill` | common/src/chunk_cache.rs:235-248 | inserts the batch in order and takes exactly its keys off the pending table, unless the counts differ, which is the panic and changes nothing |
| `CacheRegions.ChunkCache.SecondRegion` | common/src/chunk_cache.rs:187-196 | computes the collection of the awaited chunks |
| `FetchProtocol.StepKeeps` | common/src/chunk_cache.rs:115-249 | every atomic step of any task keeps the invariant |
| `FetchProtocol.StartsInv` | common/src/chunk_cache.rs:24-52 | the empty cache and every cache loaded from a file satisfy the invariant |
| `FetchProtocol.ReachableInv` | common/src/chunk_cache.rs:24-249 | so does every state of every run from them, with any number of tasks, errors and panics included |
| `Holdings.StepHolds` | common/src/chunk_cache.rs:115-199 | no step of any task loses a key of a task that goes on, or gives it one that it did not ask for |
| `Holdings.NothingIsLost` | common/src/chunk_cache.rs:115-249 | at every point of every run, what a task that goes on requests, fetches, awaits and has is exactly what it held and everything it prefetched since |
| `Holdings.FinishedHasAll` | common/src/protocol_utils.rs:170-229 | a task with nothing left to request has exactly the chunks it prefetched, each hashing to its key |
| `FetchProtocol.OpenBatchesDisjoint` | common/src/chunk_cache.rs:123-164 | batches out at the same time share no key, none repeats one, and all their keys are pending and not cached |
| `FetchProtocol.NotPendingPanicExact` | common/src/chunk_cache.rs:170-174 | the "Remaining chunk is not pending" panic happens exactly if the batch size is 0 and some requested key is neither cached nor pending, so never with a positive batch size |
| `FetchProtocol.FulfillNeverReplaces` | common/src/chunk_cache.rs:241-244 | no key of a batch is cached when its turn to be inserted comes |
| `FetchProtocol.WaitsDoNotChain` | common/src/chunk_cache.rs:166-185 | whoever is waited for is not waiting, so waits form no cycle and no chain |
| `FetchProtocol.WaitersAreServed` | common/src/chunk_cache.rs:183-185 | every event a task waits for is closed, being fetched by its owner right now, or orphaned |
| `FetchProtocol.AbortOrphans` | common/src/protocol_utils.rs:194-226 | an error or a dropped task between taking a batch and fulfilling it leaves the batch without an owner |
| `FetchProtocol.OrphanForever` | common/src/protocol_utils.rs:194-226 | in every later run such a batch stays open, its keys stay pending and uncached, and whoever waits for it is not woken |
| `Waiting.WakeExact` | common/src/chunk_cache.rs:183-248 | some continuation wakes a waiting task if and only if, for every event it still awaits, the lock is not poisoned and the owner of the batch is not gone |
| `Waiting.CanWake` | common/src/chunk_cache.rs:183-248 | the waking run: every owner fulfills its batch with the chunks of its keys |
| `Waiting.StuckForever` | common/src/chunk_cache.rs:183-248 | a task waiting for a lost batch, or for any open one behind a poisoned lock, waits in every later state in which it is not dropped itself |
| `Waiting.AbandonedWaiter` | common/src/protocol_utils.rs:194-226 | a run that fails: the first of two tasks takes the batch and errs, and the second waits in every continuation until it is dropped |
| `FetchProtocol.HistoryIsSized` | common/src/protocol_utils.rs:216-221 | as insertions are checked against their hashes, sizes are a function of the key short of a collision in the history |
| `FetchProtocol.CachedIffRoom` | common/src/chunk_cache.rs:267-283 | after any run, a key that was inserted is cached if and only if what was used since leaves room for it |
| `FetchProtocol.NotCachedPanicExact` | common/src/chunk_cache.rs:187-196 | after waiting, the task finds all awaited chunks if there was room for each of them, and panics otherwise |
| `FetchProtocol.OversizedChunkPanics` | common/src/chunk_cache.rs:187-196 | a run that panics: two tasks want a chunk larger than the whole cache |
| `FetchProtocol.PoisonedForever` | common/src/chunk_cache.rs:120-245 | after a panic under the lock no later run changes the cache, the pending table or the open batches |
| `Holdings.ReachablePoison` | common/src/chunk_cache.rs:120-196 | in every reachable state the lock is poisoned exactly if a task failed an `expect` while it held the lock, and only then do others panic on it |
| `Provider.ScanServes` | common/src/chunk_cache.rs:123-148 | for a client the scan loses no key, takes in only genuine chunks, batches at most 512 keys, and leaves only pending keys unless the batch is full |
| `Provider.ChunkFetcherProvider.constructor` | common/src/protocol_utils.rs:144-162 | starts with nothing at hand and nothing queued |
| `Provider.ChunkFetcherProvider.Prefetch` | common/src/protocol_utils.rs:170-175 | at hand or queued afterwards is exactly what was and the keys given, and the queue stays within the server's keys if the keys given are |
| `Provider.ChunkFetcherProvider.Receive` | common/src/protocol_utils.rs:216-224 | succeeds exactly if all hashes match, and then every chunk of the batch is at hand |
| `Provider.ChunkFetcherProvider.FetchChunkBatch` | common/src/protocol_utils.rs:193-229 | a successful round loses no tracked key and strictly shrinks a nonempty queue; it succeeds if and only if the lock is sound, the reply to its batch is the chunks of the batch, and what it awaited is cached at the wake-up |
| `Provider.CheckedReply` | common/src/protocol_utils.rs:216-226 | a reply passes the checks of hashes and count if and only if it is the chunks of the batch |
| `Provider.ChunkFetcherProvider.FetchFromServer` | common/src/protocol_utils.rs:197-228 | takes in the reply; it succeeds if and only if the reply is the chunks of the batch and the lock is sound, and each error is reported exactly in its case: no reply, a wrong hash, a wrong count |
| `Provider.ChunkFetcherProvider.GetChunk` | common/src/protocol_utils.rs:177-189 | terminates, returns the chunk of the key, never meets the "without being prefetched" panic for a tracked key, and then succeeds if and only if all its rounds do |
| `Provider.ChunkFetcherProvider.Reconstruct` | common/src/dedup.rs:135-157 | whatever the interleaving and the cache, the pieces yielded are a prefix of those of reading all chunks directly, and all of them, with a malformed list ending them or not, if and only if all rounds succeed; of a tree of the server's only keys of the server are requested |
| `Provider.ChunkFetcherProvider.ReconstructOne` | common/src/dedup.rs:143-154 | one key yields its chunk or everything below it, a prefix of that on an error |
| `Provider.ChunkFetcherProvider.PrefetchMetadata` | common/src/dedup.rs:102-133 | level by level until none is left; afterwards every inner node is at hand and every data chunk at hand or queued, unless a list is malformed |
| `Provider.ChunkFetcherProvider.NextLevel` | common/src/dedup.rs:109-129 | one level: all its keys are prefetched and its lists replaced by their children |
| `Provider.ChunkFetcherProvider.FetchChild` | common/src/dedup.rs:121-125 | the child fetched is the list that is stored under the key, one level lower, and the server's if its parent is |
| `Provider.CoveredIsReadable` | common/src/dedup.rs:102-157 | a tree whose metadata was prefetched has no malformed list |
| `Provider.ProvideChunks` | common/src/protocol_utils.rs:105-113 | the lookup answers with the chunks of the keys in order, and errs if and only if a key is not in the map |
| `Provider.ServerAnswers` | common/src/protocol_utils.rs:105-113 | for keys of its map the server's reply is what the client takes for success |
| `Provider.ProtocolRoundsAreAuthentic` | common/src/chunk_cache.rs:115-199 | cache states of any run of the protocol are such as the client's theorems ask for |
| `Provider.ProtocolRoundsSucceed` | common/src/chunk_cache.rs:183-196 | a round of the protocol succeeds if the lock is sound, the server answers its batch and, in the state in which the task is woken, there was room for the keys it awaited |
| `Word32.LanesAreFaithful` | factorio-cacher/src/rev_crc.rs:27-29 | registers as four bytes are faithful to 32-bit words |
| `Word32.XorLanes` | factorio-cacher/src/rev_crc.rs:28-28 | XOR of words is XOR of their bytes |
| `Word32.ShiftLanes` | factorio-cacher/src/rev_crc.rs:28-28 | shifting a word by eight bits moves its bytes |
| `Crc32.IsoHdlcTopsPermuted` | factorio-cacher/src/rev_crc.rs:13-18 | the top bytes of the 256 entries of the CRC-32 table (section 8 of RFC 1952) are a permutation |
| `RevCrc.ResidueOfIsoHdlc` | factorio-cacher/src/zip_writer.rs:5-5 | the checksum is CRC-32/ISO-HDLC: appended to the data with its low byte first, it leaves the residue 0xDEBB20E3 in a register that starts as 0xFFFFFFFF |
| `RevCrc.FillReverseTable` | factorio-cacher/src/rev_crc.rs:9-24 | the loop writes every reverse slot, each with the entry whose top byte it is |
| `RevCrc.RevUpdateUndoesUpdate` | factorio-cacher/src/rev_crc.rs:26-32 | running back over data undoes running forward over it |
| `RevCrc.UpdateUndoesRevUpdate` | factorio-cacher/src/rev_crc.rs:26-32 | and the converse |
| `RevCrc.RevUpdateConcat` | factorio-cacher/src/rev_crc.rs:49-52 | running back over a concatenation is running back over the last part first |
| `RevCrc.FourStepsSeeOnlyXor` | factorio-cacher/src/rev_crc.rs:61-66 | four forward steps depend only on the XOR of register and data |
| `RevCrc.ForgeReaches` | factorio-cacher/src/rev_crc.rs:61-66 | four bytes carry one register to another if and only if they are the forged ones |
| `RevCrc.ReverseTable.constructor` | factorio-cacher/src/rev_crc.rs:9-24 | holds the reverse table of a table with permuted top bytes |
| `RevCrc.ReverseTable.Update` | factorio-cacher/src/rev_crc.rs:26-32 | the loop over the reversed bytes runs the register back |
| `RevCrc.RevDigest.constructor` | factorio-cacher/src/rev_crc.rs:34-39 | starts from the final register of the checksum |
| `RevCrc.RevDigest.Add` | factorio-cacher/src/rev_crc.rs:50-52 | runs the digest back over the data |
| `RevCrc.ForgeCrc` | factorio-cacher/src/rev_crc.rs:61-66 | the four bytes carry the register before them to the register behind them |
| `Zip.LocalHeaderFields` | factorio-cacher/src/zip_writer.rs:49-60 | magic number, version 45, zero flags, time, date and extra field, and the metadata stand where section 4.3.7 of APPNOTE.TXT has them |
| `Zip.DirectoryEntryFields` | factorio-cacher/src/zip_writer.rs:92-109 | so do the fields of a directory entry, where section 4.3.12 has them |
| `Zip.EndRecordFields` | factorio-cacher/src/zip_writer.rs:114-121 | and those of the end record, where section 4.3.16 has them |
| `Zip.ReadArchiveInverts` | factorio-cacher/src/zip_writer.rs:83-124 | a reader that honours flags, versions, disk numbers and the lengths of extra fields and comments gives back the files |
| `Zip.DirectoryFinds` | factorio-cacher/src/zip_writer.rs:79-124 | placed behind any bytes that hold the records, the directory finds each file with its name, method, checksum and sizes |
| `Zip.DirectorySizeExact` | factorio-cacher/src/zip_writer.rs:126-134 | the precomputed directory size is the encoded length |
| `Zip.ZipWriter.constructor` | factorio-cacher/src/zip_writer.rs:26-31 | starts an empty archive |
| `Zip.ZipWriter.EncodeFile` | factorio-cacher/src/zip_writer.rs:33-77 | emits the local record and indexes it at its offset; refuses exactly what does not fit the fields |
| `Zip.ZipWriter.AdvanceOffset` | factorio-cacher/src/zip_writer.rs:79-81 | skipped bytes keep all offsets right |
| `Zip.ZipWriter.EncodeCentralDirectory` | factorio-cacher/src/zip_writer.rs:83-124 | with everything emitted or skipped in front, the result is an archive of exactly the files; refuses exactly what does not fit the fields |
| `Zip.ZipWriter.CentralDirectorySize` | factorio-cacher/src/zip_writer.rs:126-134 | the loop computes directory and end record size |
| `Blocks.AlignedExact` | factorio-cacher/src/factorio_world.rs:195-199 | wrapping around, aligning to whole blocks loses no byte exactly if the size is at most 2^32 - 503 |
| `Blocks.CheckedExact` | factorio-cacher/src/factorio_world.rs:195-199 | a build with overflow checks aligns exactly the sizes below 2^32 - 503 |
| `Blocks.LayoutSlices` | factorio-cacher/src/factorio_world.rs:195-208 | world and auxiliary data are found again in the layout at the offsets the reader uses |
| `Blocks.LayoutPadsWithZeros` | factorio-cacher/src/factorio_world.rs:201-205 | what is added to fill up the blocks is 0 |
| `Blocks.AlignedIsLayout` | factorio-cacher/src/factorio_world.rs:195-208 | where nothing overflows, resizing both parts gives that layout |
| `Blocks.BlocksConcatenate` | factorio-cacher/src/proxy/server_proxy.rs:402-408 | the blocks of a stream in order are the stream |
| `World.LevelNames` | factorio-cacher/src/factorio_world.rs:220-222 | the level files are exactly those called "level.dat" followed by digits or nothing, in whatever directory |
| `World.FileSurvives` | factorio-cacher/src/factorio_world.rs:113-246 | level files are stored as their zlib stream and all others deflated; the record unpacks, with the right size and checksum, to data that decodes to the file |
| `World.WorldReconstructor.constructor` | factorio-cacher/src/factorio_world.rs:92-97 | starts with an empty archive and the initial register |
| `World.WorldReconstructor.ReconstructWorldFile` | factorio-cacher/src/factorio_world.rs:113-130 | emits and indexes the record of the file, and keeps the running checksum that of everything emitted |
| `World.WorldReconstructor.Forge` | factorio-cacher/src/factorio_world.rs:155-165 | the forged bytes carry the checksum so far to the one that footer and auxiliary data complete |
| `World.WorldReconstructor.AlignOutput` | factorio-cacher/src/factorio_world.rs:193-208 | the two resizings give world and auxiliary data in whole blocks, cut short where the arithmetic wraps around; panics exactly on an overflow that the build checks or a negative length |
| `World.WorldReconstructor.FinalizeWorld` | factorio-cacher/src/factorio_world.rs:132-211 | refuses exactly a world that does not fit, and panics exactly beyond the limits of the formats and of the build; otherwise no assertion fails, the archive has the target size, the target checksum, all files and padding of zeros, and it is laid out whole if and only if its size does not overflow |
| `World.OverflowingWorld` | factorio-cacher/src/factorio_world.rs:193-208 | a world that fails: without overflow checks, an archive without files announced with 2^32 - 1 bytes is sent as nothing |
| `World.ForgedChecksum` | factorio-cacher/src/factorio_world.rs:155-191 | for all prefixes, paddings, footers and auxiliary data the checksum of the whole is the target |
| `World.PaddedArchive` | factorio-cacher/src/factorio_world.rs:147-172 | padding and forged bytes between records and directory do not disturb the archive |
| `Download.PacketKeeps` | factorio-cacher/src/proxy/server_proxy.rs:197-267 | every packet, lost, doubled or reordered, keeps queued, in-flight and received ids a partition of all ids, none received twice, at most 16 in flight, all in flight below all queued |
| `Download.RunKeeps` | factorio-cacher/src/proxy/server_proxy.rs:197-267 | so does every run |
| `Download.RequestsAreNew` | factorio-cacher/src/proxy/server_proxy.rs:248-261 | no block is requested or requested again after it was received |
| `Download.PacketRequests` | factorio-cacher/src/proxy/server_proxy.rs:230-264 | a packet sends, ascending and once each, exactly the ids that enter the window, and repeats all in flight exactly if it is late and no transfer block |
| `Download.WindowIsLowestMissing` | factorio-cacher/src/proxy/server_proxy.rs:341-349 | what is in flight is always the 16 lowest missing ids, or all if there are fewer, whatever was lost, doubled or reordered |
| `Download.LatePacketsRepeat` | factorio-cacher/src/proxy/server_proxy.rs:255-264 | in every run a late packet that is no transfer block requests exactly these ids again, and one that is not late nothing |
| `Download.DownloadNeverStalls` | factorio-cacher/src/proxy/server_proxy.rs:255-264 | while blocks are missing some request is out, so there is always something to repeat |
| `Download.CanFinish` | factorio-cacher/src/proxy/server_proxy.rs:230-253 | from every state of a download of any blocks, answering requests that are in flight ends it |
| `Download.EmptyWorldRequestsNothing` | factorio-cacher/src/proxy/server_proxy.rs:230-264 | a world of no blocks never requests anything, and ends at the first block packet |
| `Download.BlocksCount` | factorio-cacher/src/proxy/server_proxy.rs:237-249 | a packet adds its block exactly if it is new, and the download ends exactly with the last new block |
| `Download.DoneIsFinal` | factorio-cacher/src/proxy/server_proxy.rs:245-266 | nothing leaves the final phase, so it is reached once |
| `Download.SortByIdSorts` | factorio-cacher/src/proxy/server_proxy.rs:400-400 | sorting gives an ordered permutation of the blocks |
| `Download.SortedPayloads` | factorio-cacher/src/proxy/server_proxy.rs:400-408 | every block once, in any order of arrival, sorts and concatenates to the stream |
| `Download.DownloadRecovers` | factorio-cacher/src/proxy/server_proxy.rs:400-418 | the slices recover world and auxiliary data, exactly if the auxiliary data is empty or ends below 2^32; otherwise they panic |
| `Download.UnsliceableDownload` | factorio-cacher/src/proxy/server_proxy.rs:410-418 | a download that fails in every build: sizes for which all blocks arrive and the last slice panics |
| `Download.FinishedRunsRecover` | factorio-cacher/src/proxy/server_proxy.rs:197-418 | every run that ends, and in which blocks in range are the server's, has recovered both, exactly if they can be sliced |
| `Download.RunIsAnnounced` | factorio-cacher/src/proxy/server_proxy.rs:282-339 | the sizes of the download are the announced ones throughout |
| `Download.CrashesExactly` | factorio-cacher/src/proxy/server_proxy.rs:317-320 | a run panics on the announcement exactly if the build checks overflow and a size is 2^32 - 503 or more |
| `Download.ServerProxyState.constructor` | factorio-cacher/src/proxy/server_proxy.rs:183-195 | starts waiting for a world |
| `Download.ServerProxyState.RequestNextBlocks` | factorio-cacher/src/proxy/server_proxy.rs:341-349 | requests the lowest queued ids until 16 are in flight or none is left |
| `Download.ServerProxyState.FinalizeWorld` | factorio-cacher/src/proxy/server_proxy.rs:351-372 | hands over what was received; the stream is taken once |
| `Download.ServerProxyState.OnPacketFromServer` | factorio-cacher/src/proxy/server_proxy.rs:197-267 | the new state and the requests are those of the transition function |
| `BlockServer.EventKeeps` | factorio-cacher/src/proxy/client_proxy.rs:199-250 | after every event no pending request can be answered, every reply is a block of what has arrived, and every request is answered or kept |
| `BlockServer.RepliesAreBlocks` | factorio-cacher/src/proxy/client_proxy.rs:199-263 | over every interleaving each reply is the exact 503-byte block of the whole stream |
| `BlockServer.HeldExactly` | factorio-cacher/src/proxy/client_proxy.rs:215-250 | over every run everything that arrived is held until a packet that is no request comes 60 s late after the end of the data, and nothing from then on |
| `BlockServer.RequestsAreAnswered` | factorio-cacher/src/proxy/client_proxy.rs:199-263 | over every run a request is answered if and only if it and the 503 bytes of its block arrive before that clean-up, in whichever order, and then with these bytes |
| `BlockServer.NoExtraReplies` | factorio-cacher/src/proxy/client_proxy.rs:199-250 | no block is sent more often than it was requested |
| `BlockServer.CompleteStreamIsServed` | factorio-cacher/src/proxy/client_proxy.rs:199-263 | once a stream has arrived and before the clean-up, every request within it was answered, whatever follows |
| `BlockServer.CleanedUpForever` | factorio-cacher/src/proxy/client_proxy.rs:215-223 | after the clean-up no request is ever answered again |
| `BlockServer.ClientProxyState.constructor` | factorio-cacher/src/proxy/client_proxy.rs:189-197 | starts with no data and no requests |
| `BlockServer.ClientProxyState.OnBlockRequest` | factorio-cacher/src/proxy/client_proxy.rs:199-213 | answers or keeps the request, as the transition function says |
| `BlockServer.ClientProxyState.OnOtherPacket` | factorio-cacher/src/proxy/client_proxy.rs:215-223 | cleans up exactly held data that is complete and expired |
| `BlockServer.ClientProxyState.OnNewWorldData` | factorio-cacher/src/proxy/client_proxy.rs:228-250 | takes in the data and answers, in ascending order, exactly the requests it makes answerable |
| `Transfer.ChunkFile` | factorio-cacher/src/factorio_world.rs:70-84 | describes the file by type, name, size and its minimized root of fewer than 64 keys, and stores its tree |
| `Transfer.DeconstructWorld` | factorio-cacher/src/factorio_world.rs:39-68 | fails exactly if the archive or a level file cannot be read; the map holds the trees of all files and nothing else |
| `Transfer.EachStoredOnce` | factorio-cacher/src/factorio_world.rs:61-65 | the announced number of chunks is the number of distinct strings: what files share is stored once |
| `Transfer.FilesSurvive` | factorio-cacher/src/factorio_world.rs:99-246 | the files of the rebuilt archive are intact and decode to the files of the original one |
| `Transfer.FetchFile` | factorio-cacher/src/factorio_world.rs:104-111 | the concatenated chunks are the file |
| `Transfer.SendFiles` | factorio-cacher/src/proxy/client_proxy.rs:319-328 | file by file the records of all files are sent and indexed, or a fetch failed, or a record does not fit its fields |
| `Transfer.TransferWorldData` | factorio-cacher/src/proxy/client_proxy.rs:301-342 | all is fetched if and only if all rounds succeed; then it is sent whole if and only if it fits the announced size and the build, as an archive of the announced size and checksum with all files, and the auxiliary data |
| `Transfer.GameReceives` | factorio-cacher/src/proxy/client_proxy.rs:199-263 | every block once, from replies of any run, put together by the reader's rule, is the image and the auxiliary data, exactly if they can be sliced |
| `Transfer.GameIsServed` | factorio-cacher/src/proxy/client_proxy.rs:228-263 | every block asked for before the clean-up has been sent once everything has arrived |
| `Transfer.WorldSurvives` | factorio-cacher/src/proxy/client_proxy.rs:199-263 | from what was delivered the game puts together an archive of the announced size and checksum whose files decode to the original files |
| `EndToEnd.DownloadWorld` | factorio-cacher/src/proxy/server_proxy.rs:197-280 | the proxy over all packets ends in the phase of the transition function |
| `EndToEnd.InsertedIsStore` | factorio-cacher/src/factorio_world.rs:39-68 | without collisions the server's map is determined by the stored strings, holds them all, and is hash-consistent |
| `EndToEnd.ShipWorld` | factorio-cacher/src/proxy/server_proxy.rs:420-455 | taken apart, fetched through the cache and rebuilt: only stored keys are requested, a readable world is fetched if and only if all rounds succeed, then sent whole if and only if it fits, and what is sent always arrives |
| `EndToEnd.CarryWorld` | factorio-cacher/src/proxy/server_proxy.rs:392-459 | the same from the packets of the game server on: nothing is shipped exactly if the download did not end, cannot be sliced or cannot be read |
| `Lz4Frame.ContentsOfBlocks` | dsp-nebula-cacher/src/lz4_frame_encoder.rs:63-71 | the blocks hold the data in order, all but the last 64,000 bytes |
| `Lz4Frame.HeaderSays` | dsp-nebula-cacher/src/lz4_frame_encoder.rs:18-28 | the header announces format version 1, independent blocks of up to 64 KB, a content checksum and nothing else ("Frame Descriptor" in the LZ4 Frame Format Description) |
| `Lz4Frame.ReadFrameInverts` | dsp-nebula-cacher/src/lz4_frame_encoder.rs:15-71 | a reader that decodes the descriptor and insists on block sizes and both checksums ("Data Blocks" there) gives back the data |
| `Lz4Frame.FramedSizeExact` | dsp-nebula-cacher/src/lz4_frame_encoder.rs:74-92 | the size announced in advance is the length of the frame, whenever that is below 2^64 |
| `Lz4Frame.Lz4DeterministicFrameEncoder.constructor` | dsp-nebula-cacher/src/lz4_frame_encoder.rs:15-34 | starts with the header |
| `Lz4Frame.Lz4DeterministicFrameEncoder.BuildBlock` | dsp-nebula-cacher/src/lz4_frame_encoder.rs:63-71 | moves the next block from the pending data to the buffer and the hasher |
| `Lz4Frame.Lz4DeterministicFrameEncoder.AddData` | dsp-nebula-cacher/src/lz4_frame_encoder.rs:37-49 | emits exactly if a block is full, and then everything built |
| `Lz4Frame.Lz4DeterministicFrameEncoder.Finish` | dsp-nebula-cacher/src/lz4_frame_encoder.rs:52-61 | all output together is the frame of all input |
| `Lz4Frame.EncodePieces` | dsp-nebula-cacher/src/lz4_frame_encoder.rs:37-61 | however the input is cut into calls, the output is the one frame of the whole |

## Left out

- QUIC, UDP, WebSocket and HTTP transport, task scheduling, logging and statistics: an await is only a boundary between steps.
- blake3, xxHash, zstd, MessagePack, DEFLATE and zlib: parameters. A codec is assumed to undo itself; a streaming hasher is the one-shot hash of what it was fed.
- Clocks: the 100 ms resend and the 60 s clean-up are booleans in the events.
- The estimate of the rebuilt world's size in floating point: the announced size is any number.
- Packet headers, varints, message framing and the field codecs of the other game: they would only add easy members.
- `filter_packet` and its expiry: a search and replace that rests on a library.
- Reading the original archive: the ZIP library's reader is a parameter. The reader in `Zip.dfy` reads archives of the shape the writer produces.
- Saving in the background, the dirty flag and the rename of the written file.
- The 64-bit running total of the cache and the 64-bit lengths of the world are unbounded here: they would need that much memory to overflow.
- Provider.ChunkFetcherProvider.FetchChunkBatch: the other tasks appear as any sequence of cache states that keeps the protocol's invariant.
- Provider.ChunkFetcherProvider.Reconstruct: asks that lists lead to lists only finitely deep, as hashes make it; a cycle of lists, on which the program would not end, is not part of the model.
- Provider.ChunkFetcherProvider.PrefetchMetadata: asks the same.
- Transfer.TransferWorldData: pieces are collected in a sequence instead of being sent through a channel.
- EndToEnd.CarryWorld: takes the sizes in all announcements to be those of the world, and blocks in range to be the game server's; the proxy trusts both.
