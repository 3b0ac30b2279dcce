# Rediska, modelled and verified

Rediska is a Redis-compatible server written in Go. This project models its logic in Dafny and proves
what it promises over all inputs, all histories and all interleavings. `dafny verify dfyconfig.toml`
checks everything.

## What is modelled

**HyperLogLog** (`HllSparse`, `HllDense`, `HllLattice`, `HllEstimate`, `Hll`). A sketch is 16384
registers kept either as a stream of run-length opcodes, spliced in place, or as packed six-bit fields
that straddle bytes. Both forms are read as one sequence of registers; every operation is proved to be
a pointwise maximum on it, across promotion from one form to the other, and the registers are shown to
depend only on the set of elements added. The cached count is always the estimate of the registers.

**Protocol and file** (`Numeral`, `Resp`, `RespReader`, `Aof`, `Torn`). The decoder over a shared reader with a
reused scratch buffer refines a pure decoder, which inverts the encoders, ignores what follows and
accepts no proper prefix. From this a file cut at any byte recovers exactly the commands before the cut.
`Torn` says what happens to commands appended after such a cut.

**Cluster** (`Slot`, `CrcDivision`, `KeySlot`, `Layout`, `Bags`, `ClusterReports`, `Commands`, `Route`,
`ClusterSafety`, `ClusterNode`, `TornCluster`). The table-driven checksum is polynomial division; layout
files are accepted exactly when they describe disjoint ranges; and a step system of nodes serving,
evicting, expiring, crashing and restarting keeps every key on the owner of its slot as long as no
command is logged to a file cut inside a command past its array header. Any script of commands and
crashes on running servers is proved to be a run of it (`ClusterNode.RunScript`), and `TornCluster` gives
runs that lose safety without the condition.

**Store** (`MapSum`, `Sds`, `Clock`, `StoreModel`, `EvictionPool`, `Store`, `StoreLaws`, `Sweep`).
`StoreModel` gives each operation as a function on a map. The class in `Store` keeps strings and
sketches as heap objects changed in place; every method is proved against the function and keeps three
things: no object belongs to two keys, the byte counter is the sum of entry sizes, and the key counter
is the number of keys. Eviction is proved to terminate and to reach the limit; sweeping expired keys is
proved invisible over whole runs.

**Server** (`Transaction`, `Connection`, `Frames`, `Pipelining`, `Worker`, `Handlers`, `Registry`, `Recovery`,
`Startup`, `ManyCrashes`). The connection loop with its look-ahead is proved to refine the loop that never batches, for
any interference from other connections. The worker, reply-channel pool and shutdown are a step system
whose invariant holds over all interleavings, and whose shutdown always completes. Dispatch joins
routing, memory, handlers and the log; `Startup.CrashAndRestart` runs a server, cuts its file anywhere
and proves what a restarted server holds, and `ManyCrashes` does so for any number of crashes.

## How to read it

- Go strings are Dafny strings whose characters are bytes; integers are unbounded and 64-bit wrap-around
  is written out (`Wrap64`).
- One `Moment` stands for everything an operation reads from outside: the clock, the policy, the LFU
  settings and the random roll. `Oracle` holds the hash and the logarithm, `portOf` the address parser.
- A run-time failure of the source is an outcome (`Panicked`, `Crashes`), never a precondition of
  dispatch. The only one a handler can cause is APPEND to a sketch.
- `hide` at the top of a proof lists definitions it does not need.

## Where the code differs from what one would expect

- A text such as `007` is stored as a number and read back as `7` (`StoreLaws.SetThenGet` says exactly when).
- EXPIRE with zero or a negative number removes the expiry instead of the key, and a large number of
  seconds wraps (`StoreLaws.ExpireThenTtl`).
- INCR reads the clock three times, so the expiry drifts, and a key that expires in between becomes
  permanent (`StoreLaws.IncrExpiry`, `StoreLaws.IncrMakesPermanent`).
- APPEND, PFCOUNT and PFMERGE do not look at expiry (`Sweep.SweepAppend`, `Sweep.SweepPFCount`,
  `Sweep.SweepPFMerge`, `StoreLaws.AppendThenGet`).
- After a clock wrap the idle time is one tick short (`Clock.IdleIsModularDistance`).
- EXEC of an empty transaction is answered by an error, not an empty array (`Registry.Dispatcher.RunExec`).
- Recovery skips a torn last command but leaves its bytes in the file, and later commands are written
  after them. The next recovery reads the mixture: it can lose those commands, run one that nobody sent,
  run commands that a client sent as a value, or end in a run-time error so that the server never starts
  again. What is appended is recovered, whatever it is, exactly if the cut lies between two commands
  (`Torn.AppendsSurviveExactly`, `Torn.Fabricates`, `Torn.ValueRuns`, `Torn.NeverStarts`).
- In a cluster this can store any key on a node that does not own it (`TornCluster.SafetyLost`,
  `TornCluster.TornDelStores`).
- A negative array count ends the process. Commands that look-ahead had collected before it are then never
  sent, though a server reading one at a time would have run them (`Frames.ServeBytes`,
  `Frames.DyingLosesPing`).
- `volatile-lfu` evicts any key, with or without an expiry (`Store.EvictLoneKey`).

## Model

| member | source | states |
|---|---|---|
| `HllSparse.ZeroRoundTrip` | store/hll/hll_sparse.go:25-32 | A ZERO opcode decodes to the run length it was given, for every length the format allows |
| `HllSparse.XZeroRoundTrip` | store/hll/hll_sparse.go:36-47 | The same for the two-byte XZERO opcode over all of 1..16384 |
| `HllSparse.ValRoundTrip` | store/hll/hll_sparse.go:52-60 | A VAL opcode decodes to its value and run length, for every value 1..32 and length 1..4 |
| `HllSparse.ExpandConcat` | store/hll/hll_sparse.go:131-164 | The registers of two opcode streams put together are the registers of the first followed by those of the second |
| `HllSparse.WalkSparse` | store/hll/hll_sparse.go:131-164 | Walking a stream visits contiguous runs that together spell out exactly its registers |
| `HllSparse.SparseGet` | store/hll/hll_sparse.go:168-178 | The value read is the register at that index, 0 past the end |
| `HllSparse.SparseHisto` | store/hll/hll_sparse.go:183-190 | Each bucket counts the registers with that value |
| `HllSparse.EncodeZeroRun` | store/hll/hll_sparse.go:195-201 | The shorter opcode is used, and it expands to that many zero registers |
| `HllSparse.SplitRun` | store/hll/hll_sparse.go:213-285 | Splitting the run at an index changes that register only, keeps the stream well formed and adds at most four bytes |
| `HllSparse.SparseSet` | store/hll/hll_sparse.go:213-285 | For every well-formed stream, index and value up to 32: the result is well formed, its registers are the old ones with that one raised to the maximum, a change is reported exactly if a register changed, and an unchanged stream is returned as it was |
| `HllDense.Position` | store/hll/hll.go:121-130 | Every register lies within two neighbouring bytes inside the 12289-byte array, at one of four bit positions |
| `HllDense.WrittenAt` | store/hll/hll.go:135-154 | Reading a register just written gives the value written, though it may straddle two bytes |
| `HllDense.WrittenElsewhere` | store/hll/hll.go:135-154 | Writing one register changes none of the other 16383 |
| `HllDense.WrittenMeaning` | store/hll/hll.go:135-154 | The bytes after a write stand for the old registers with one replaced |
| `HllDense.SetDenseRegister` | store/hll/hll.go:135-154 | In place, the registers become the old ones with one raised to the maximum, capped at 63; a change is reported exactly if there is one, else no byte moves |
| `HllDense.ZeroedRegisters` | store/hll/hll.go:159-162 | The zeroed array stands for 16384 zero registers |
| `HllDense.DenseHisto` | store/hll/hll.go:280-284 | The dense histogram counts the registers with each value, as the sparse one does |
| `HllLattice.Rank` | store/hll/hll.go:78-91 | The rank is one more than the number of trailing zero bits, capped at 51 |
| `HllLattice.SketchUnique` | store/hll/hll.go:192-223 | A set of elements determines its registers |
| `HllLattice.SketchAdd` | store/hll/hll.go:192-223 | Raising the register of an element turns the sketch of a set into the sketch of the set with that element |
| `HllLattice.AddAllSketches` | store/hll/hll.go:192-223 | Adding any list to the sketch of a set gives the sketch of the union |
| `HllLattice.AddAllSet` | store/hll/hll.go:192-223 | Two lists with the same elements, in any order and with any repeats, give equal registers |
| `HllLattice.SketchJoin` | store/hll/hll.go:231-261 | The pointwise maximum of the sketches of two sets is the sketch of their union |
| `HllLattice.JoinSemilattice` | store/hll/hll.go:231-261 | Merging registers is commutative, associative and idempotent, with the empty sketch as unit |
| `HllLattice.RaiseIsJoin` | store/hll/hll.go:192-223 | Adding an element is merging with a sketch of one register |
| `HllEstimate.HistogramTotal` | store/hll/hll.go:271-309 | The histogram of registers sums to their number, so to 16384 for a sketch in either form |
| `HllEstimate.EmptyEstimate` | store/hll/hll.go:271-309 | The empty sketch is estimated as 0 |
| `Hll.RaiseRuns` | store/hll/hll.go:231-261 | Raising a dense array by the runs of a sparse one leaves the pointwise maximum, and reports a change exactly if there is one |
| `Hll.RaiseDense` | store/hll/hll.go:231-261 | The same for a dense source |
| `Hll.HLL.constructor` | store/hll/hll.go:67-73 | A new sketch is sparse with 16384 zero registers |
| `Hll.HLL.Promote` | store/hll/hll.go:167-187 | Going from sparse to dense changes no register and leaves the cached count alone |
| `Hll.HLL.Add` | store/hll/hll.go:192-223 | In either form, and across promotion, the registers become the old ones raised at the element; a change is reported exactly if there is one; the cache stays truthful |
| `Hll.HLL.Merge` | store/hll/hll.go:231-261 | The registers become the pointwise maximum whatever the two forms, also when merging with itself |
| `Hll.HLL.Count` | store/hll/hll.go:271-309 | The answer, cached or not, is the estimate of the current registers, which do not change |
| `Hll.Sketch` | store/hll/hll.go:192-223 | Adding a list to a new sketch gives the sketch of the set of its elements |
| `Numeral.ParseFormat` | core/encode.go:68-70 | Every 64-bit integer is read back from its decimal text |
| `Numeral.CanonicalText` | store/store.go:90-98 | An integer text survives being kept as a number exactly if it has no plus sign and no superfluous zero |
| `Resp.RoundTrip` | core/resp.go:101-120 | Decoding the encoding of any reply followed by any bytes gives that reply (simple, error and bulk strings alike becoming text, null becoming empty text) and leaves exactly those bytes |
| `Resp.RoundTripItems` | core/resp.go:81-99 | The same for the items of an array, nested to any depth |
| `Resp.DecodeExtends` | core/resp.go:101-120 | What decodes from some bytes decodes the same from any longer input, leaving the extra bytes |
| `Resp.NoProperPrefix` | core/resp.go:101-120 | No proper prefix of an encoded reply decodes |
| `Resp.EncodeRawArray` | core/encode.go:46-52 | Wrapping replies that are already encoded gives the encoding of the array of those replies |
| `RespReader.Decoder.ReadLine` | core/resp.go:10-19 | Reading a line from the shared reader agrees with the line at the front of its bytes, or fails |
| `RespReader.Decoder.ReadBulkString` | core/resp.go:41-79 | With or without a reused scratch buffer, left dirty by earlier reads, the result is the one the bytes determine |
| `RespReader.Decoder.ReadArray` | core/resp.go:81-99 | The item loop agrees with decoding the items one after the other |
| `RespReader.Decoder.Decode` | core/resp.go:101-147 | The reader with reused scratch returns, and leaves unread, exactly what the pure decoder does on the same bytes |
| `Aof.EncodeArray` | core/encode.go:18-26 | The loop prints the RESP array of bulk strings |
| `Aof.AOF.Write` | core/aof.go:35-38 | The file grows by the encoding of the command |
| `Aof.AOF.Recover` | core/aof.go:45-73 | The calls made, and whether recovery ends cleanly, are those of decoding the file from its start |
| `Aof.DecodeCommand` | core/aof.go:45-73 | A logged command at the front of a file is decoded to the same arguments |
| `Aof.RecoverNext` | core/aof.go:45-73 | Recovery of a file starting with a logged command is that command, then recovery of the rest |
| `Aof.WholeIsMost` | core/aof.go:45-73 | The commands counted as whole after a cut are all that fit before it |
| `Aof.CutRecovers` | core/aof.go:45-73 | A file cut at any byte is recovered cleanly to exactly the commands that lie wholly before the cut |
| `Aof.WholeRecovers` | core/aof.go:45-73 | An uncut file is recovered to all its commands |
| `Slot.BuildTable` | cluster/slot.go:11-24 | Each of the 256 table entries is the byte in the high half of the register shifted eight times |
| `Slot.TableStep` | cluster/slot.go:27-33 | One table look-up does the work of eight single-bit steps |
| `Slot.CRC16` | cluster/slot.go:27-33 | The table-driven loop computes the bit-by-bit checksum of every byte string |
| `CrcDivision.ChecksumFeeds` | cluster/slot.go:27-33 | The checksum feeds every bit of the message, highest first, into a zero register |
| `CrcDivision.FeedDivides` | cluster/slot.go:27-33 | Feeding bits into the register is long division over GF(2) by x^16 + x^12 + x^5 + 1 |
| `CrcDivision.ChecksumIsRemainder` | cluster/slot.go:27-33 | The checksum of every byte string is the remainder of the message, followed by sixteen zeros, by that polynomial |
| `KeySlot.IndexByte` | cluster/slot.go:52-59 | The first position at or after the start holding the byte, or -1 if there is none |
| `KeySlot.KeyHashSlot` | cluster/slot.go:42-50 | The slot is that of the hashed part of the key |
| `KeySlot.TaggedPart` | cluster/slot.go:42-50 | The hashed part of a key with a non-empty first tag is the tag |
| `KeySlot.UntaggedPart` | cluster/slot.go:42-50 | A key without one is hashed whole |
| `KeySlot.SameTagSameSlot` | cluster/slot.go:42-50 | Keys with the same non-empty first hash tag share a slot |
| `KeySlot.LowBitsModulo` | cluster/slot.go:42-50 | The slot of a checksum is the checksum modulo 16384 |
| `Layout.RangeRoundTrip` | cluster/config.go:140-156 | A range is read back from its printed bounds, and a single slot from its number |
| `Layout.ClaimRange` | cluster/config.go:65-137 | A range is claimed exactly if it meets no earlier claim, and the owner table then shows it |
| `Layout.ParseLine` | cluster/config.go:65-137 | A line is accepted exactly if it describes a node and its ranges overlap neither each other nor earlier ones |
| `Layout.ParseLayout` | cluster/config.go:65-137 | A file is accepted exactly if every line is well formed, names, addresses and ranges do not clash and exactly one node has the given port; the layout returned lists those nodes and that one as self |
| `Layout.PrefixDefect` | cluster/config.go:65-137 | A defect in the first lines makes the whole file unacceptable, whatever follows |
| `Layout.OwnerExact` | cluster/config.go:65-137 | In every accepted layout a slot is owned by a node exactly if it lies in exactly one of that node's ranges |
| `Layout.OwnerUnique` | cluster/config.go:41-46 | Layouts with the same nodes have the same owner table |
| `ClusterReports.ClusterSlots` | commands/cluster.go:50-79 | The list holds each range of each node once, pairwise disjoint and in ascending order |
| `ClusterReports.CoveredCount` | commands/cluster.go:113-130 | Adding up range lengths counts the slots covered, because ranges are disjoint |
| `ClusterReports.AllOwned` | commands/cluster.go:113-130 | All 16384 slots are counted exactly if no slot is without an owner |
| `ClusterReports.ClusterInfo` | commands/cluster.go:113-130 | The assigned count is the number of owned slots, "ok" means every slot is owned, and the size counts nodes with slots |
| `Commands.KeysOf` | commands/keyspecs.go:44-61 | The loop returns the arguments at the key positions of the command's specification, and knows exactly the registered names |
| `Commands.WriteNamesUpper` | commands/registry.go:27-35 | Names of write commands are registered and are their own upper case, so replay finds them again |
| `Route.CheckKeys` | commands/route.go:48-77 | The verdict: served off-cluster or without keys, cross-slot, down, served here or moved |
| `Route.ServedKeys` | commands/route.go:48-77 | Keys are served exactly if they share a slot this node owns |
| `Route.CheckOne` | commands/route.go:11-14 | The verdict on a command is that on its keys |
| `Route.CheckBatch` | commands/route.go:30-37 | The verdict on a transaction is that on the keys of all its commands together |
| `Route.BatchServesMembers` | commands/route.go:30-37 | If a transaction as a whole is served, each of its commands passes its own routing check |
| `Transaction.TxState.Handle` | server/transaction.go:40-80 | The new state and the action are those of the transaction state machine |
| `Transaction.TxState.Reset` | server/transaction.go:34-38 | Back to no transaction, nothing queued, not dirty |
| `Transaction.StateOfHistory` | server/transaction.go:40-80 | After any history the state is determined by whether a MULTI is open and what came since it |
| `Transaction.ExecReleases` | server/transaction.go:54-64 | Over every history, EXEC releases a batch exactly if a MULTI is open and no command since was rejected, and the batch is exactly those commands in order; if one was rejected it aborts |
| `Transaction.PassesThrough` | server/transaction.go:40-80 | A command goes straight to the store exactly if no MULTI is open and it is no control command |
| `Transaction.BodyPlain` | server/transaction.go:40-80 | A batch never holds MULTI, EXEC or DISCARD |
| `Connection.LookAhead` | server/tcp_server.go:298-367 | Collecting buffered commands into a pipeline, and whatever ends it, keeps what is emitted on the one-by-one track; if reading ends the process, the open pipeline is what is lost |
| `Connection.Serve` | server/tcp_server.go:272-376 | For every stream of frames and every outcome of the buffered tests, what is emitted unpacks to what the loop that never batches emits, but for the pipeline open when reading ended the process |
| `Connection.NothingPending` | server/tcp_server.go:272-376 | A loop that never finds input buffered loses nothing |
| `Frames.ParseCommand` | commands/command.go:17-37 | A decoded value is a command exactly if it is a non-empty array of strings; its name is upper-cased |
| `Frames.ReadFrames` | core/resp.go:126-147 | Decoding a whole stream through one reader, with its scratch buffer reused or not, gives the frames the bytes determine, and whether it ends in a run-time error |
| `Frames.ServeBytes` | server/tcp_server.go:272-376 | A connection served from its bytes emits what serving their frames one at a time emits exactly if reading does not end the process while a pipeline is open; the missing commands are that pipeline |
| `Frames.DyingLosesPing` | server/tcp_server.go:306-307 | The input: PING followed by an array with a negative count. All buffered, PING is never sent; read one at a time, it is |
| `Frames.SentParsed` | commands/command.go:17-37 | The command a client encodes is the command that is served |
| `Frames.FramesSent` | server/tcp_server.go:305-331 | A client that breaks off inside a command has exactly the commands before it served |
| `Pipelining.DispatchPipeline` | commands/registry.go:159-165 | A pipeline leaves the store, and returns the bytes, of its commands run one after the other |
| `Pipelining.UnpackPreserves` | server/tcp_server.go:240-250 | Unpacking pipelines changes neither the bytes handed to the writer nor the final store, whatever other connections do between requests |
| `Pipelining.PipeliningInvisible` | server/tcp_server.go:272-376 | Whatever a batching connection writes and does to the store, under any interference, some run of the never-batching connection writes and does too; if the process died with commands unsent, that run stops before them |
| `Worker.InvStep` | server/tcp_server.go:184-270 | Every step of every producer, the worker, the pool and shutdown keeps the invariant |
| `Worker.AllInterleavings` | server/tcp_server.go:101-148 | In every state of every interleaving: pooled reply channels are empty and no request in flight answers on one; a producer receives the reply to its own last request; the worker never blocks replying; once the queue is closed all producers are done and it is empty; requests run in the order sent, and all have run before the sync |
| `Worker.NeverStuck` | server/tcp_server.go:130-148 | Until the sync some draining step is possible: shutdown cannot deadlock |
| `Worker.DrainDecreases` | server/tcp_server.go:130-148 | Every draining step brings the sync strictly closer |
| `Worker.ShutdownCompletes` | server/tcp_server.go:130-148 | From any state of any run draining leads to the sync, with every request run |
| `Worker.DrainBounded` | server/tcp_server.go:130-148 | No order of draining steps goes on for longer than the measure |
| `Sds.SDS.GrowTo` | core/sds/sds.go:50-60 | The text is copied unchanged into a new buffer, which has room for what is needed and as much again, at most a megabyte |
| `Sds.SDS.AppendString` | core/sds/sds.go:35-48 | The text grows by the given one, in the same buffer if it fits and is at most a megabyte; past one megabyte the capacity is exactly one megabyte ahead |
| `Sds.Write` | core/sds/sds.go:35-41 | Copying into a buffer keeps what is before the position and puts the text after it |
| `Clock.IdleIsModularDistance` | store/lru.go:33-38 | Idle time equals the clock distance modulo its range exactly if the clock has not wrapped; after a wrap it is one tick less |
| `Clock.PackRoundTrip` | store/lfu.go:44-57 | Counter and decrement time are read back from the packed stamp, which fits the clock field |
| `Clock.TouchEffect` | store/lfu.go:106-113 | An access records the current minute and raises the decayed counter by at most one, by exactly one when the log factor is zero |
| `MapSum.SumAt` | store/lru.go:41-56 | A sum over stored entries splits at any key |
| `EvictionPool.SortPool` | store/lru.go:128-132 | The pool becomes sorted and keeps its candidates |
| `EvictionPool.DistinctReordered` | store/lru.go:128-132 | Sorting keeps the keys of the pool distinct |
| `EvictionPool.PoolInsert` | store/lru.go:107-126 | The pool stays sorted, bounded and without repeated keys; a candidate is turned away exactly when the pool is full of better ones, and otherwise is in it with its new score |
| `EvictionPool.LastLiveIsHighest` | store/lru.go:136-162 | The first stored key met from the end of the pool has the highest recorded score among the live ones |
| `Store.Store.constructor` | store/store.go:46-53 | A new store is empty with both counters zero |
| `Store.Store.RemoveKey` | store/lru.go:60-68 | The key goes, and the byte and key counters follow |
| `Store.Store.Set` | store/store.go:124-151 | The data becomes that of the value model; accounting and ownership hold again |
| `Store.Store.Append` | store/store.go:158-184 | In place; the old text is extended, an integer turns into text, the expiry stays, and the new length is returned |
| `Store.Store.Get` | store/store.go:226-247 | An expired key is dropped, a live one is stamped; the answer is its text, none for a sketch |
| `Store.Store.GetInt` | store/store.go:190-206 | The number and expiry of a live integer, or that it is missing or no integer |
| `Store.Store.TTL` | store/store.go:250-264 | Seconds left, rounded half up, -1 without expiry, -2 without key; an expired key is dropped |
| `Store.Store.GetEncoding` | store/store.go:210-220 | How a live key is stored; an expired one is dropped |
| `Store.Store.GetFreq` | store/store.go:105-118 | The access counter of a live key under an LFU policy |
| `Store.AddValues` | store/store.go:288-315 | Adding values one by one reports a change exactly if the registers differ at the end |
| `Store.Store.PFAdd` | store/store.go:288-315 | The sketch grows in place or is created; other values are refused untouched; a change is reported as promised |
| `Store.Store.PFCount` | store/store.go:319-325 | The estimate of the key's sketch, else 0; only the cached count may change |
| `Store.Store.PFMerge` | store/store.go:330-358 | The destination gets a fresh sketch with the join of its own and the sources' registers, and no expiry |
| `Store.Store.Delete` | store/store.go:362-375 | All the keys go; those that had not expired are counted once each |
| `Store.Store.DeleteExpired` | store/expire.go:7-26 | Only expired keys go, at most twenty are looked at, the count is exact, and none stays if at most twenty keys have an expiry |
| `Store.Store.SampleKeys` | store/lru.go:77-86 | Up to n stored keys, at least one if there is any |
| `Store.Store.OfferSamples` | store/lru.go:136-162 | After offering samples either one is in the pool or it was full and is unchanged |
| `Store.Store.EvictFromPool` | store/lru.go:136-162 | The live candidate with the highest score is evicted and those after it dropped, or the pool held only dead keys and is emptied |
| `Store.Store.EvictionRound` | store/lru.go:136-162 | A round evicts one key, or began with a full pool of dead keys and ends with an empty one |
| `Store.Store.PerformEvictions` | store/lru.go:136-162 | It terminates from every state, ends at or below a positive limit, only removes keys, and does nothing when not over the limit |
| `Store.EvictLoneKey` | store/lru.go:136-162 | A lone key is evicted exactly if its entry is over the limit, with or without an expiry and under every evicting policy, volatile-lfu included |
| `StoreLaws.SetThenGet` | store/store.go:124-151 | GET returns the text that was SET exactly if it is no integer or a canonical one |
| `StoreLaws.LeadingZerosLost` | store/store.go:124-151 | A text with leading zeros is not read back |
| `StoreLaws.AppendThenGet` | store/store.go:158-184 | GET returns old text and appended text exactly if the key had not expired |
| `StoreLaws.ExpireThenTtl` | commands/expire.go:14-29 | For every number, TTL answers what EXPIRE was given exactly if it is positive and fits 64-bit nanoseconds, or is -1; the expiry is removed exactly if the nanoseconds wrap to zero or less |
| `StoreLaws.IncrsAdd` | commands/incr.go:14-33 | Any number of INCRs of a key without expiry adds that number modulo two to the 64 |
| `StoreLaws.IncrExpiry` | commands/incr.go:14-33 | With the three clock readings apart, INCR moves the expiry by the time between the last two, and loses it exactly if it has passed by the second; it is unchanged exactly if the last two agree and it has not passed |
| `StoreLaws.IncrMakesPermanent` | commands/incr.go:14-33 | The failing case: a key that expires between the first two readings becomes permanent |
| `StoreLaws.JoinAllSketches` | store/store.go:330-358 | Joining the sketches at several keys gives the sketch of the union of their sets |
| `StoreLaws.MergeIsUnion` | store/store.go:330-358 | After PFMERGE the destination holds what PFADD of all the elements to an empty key would hold |
| `StoreLaws.AddExtendsSketch` | store/store.go:288-315 | PFADD turns the sketch of a set into the sketch of the set with the values, and reports no change when all were in it |
| `Sweep.SweptLive` | store/expire.go:7-26 | Removing expired keys, and nothing else, is exactly keeping the live data |
| `Sweep.SweepAnswers` | store/store.go:226-264 | A sweep first changes no answer of Get, GetInt, TTL, GetEncoding or GetFreq |
| `Sweep.SweepReads` | store/store.go:226-264 | Nor, up to expired keys, the data they leave |
| `Sweep.SweepDelete` | store/store.go:362-375 | Nor the count or the effect of Delete |
| `Sweep.SweepPFAdd` | store/store.go:288-315 | Nor the answer or the effect of PFAdd |
| `Sweep.SweepSet` | store/store.go:124-151 | Nor the effect of Set |
| `Sweep.SweepAppend` | store/store.go:158-184 | It changes the answer of Append exactly if it removed the key and the dead text was not empty, and the live data Append leaves exactly if it removed the key |
| `Sweep.SweepPFCount` | store/store.go:319-325 | It changes the answer of PFCount exactly if it removed a sketch with an estimate other than 0 |
| `Sweep.SweepPFMerge` | store/store.go:330-358 | It changes the live data PFMerge leaves exactly if some sketch it removed adds to the union of those that stayed |
| `Sweep.JoinAllSwept` | store/store.go:330-358 | The join of the sketches at some keys is unchanged exactly if every sketch swept away is pointwise at most the join of those that stayed |
| `Sweep.SweepsInvisible` | store/expire.go:7-26 | In whole runs with sweeps anywhere between operations, every answer is that of the run without sweeps |
| `Handlers.KeysAdded` | commands/keyspecs.go:44-61 | Running a handler adds only keys that the routing check has seen |
| `Registry.RunSet` | commands/set.go:16-46 | SET with and without EX or PX: reply and new data are those of the handler on the value model, and the store stays valid |
| `Registry.RunExpire` | commands/expire.go:14-29 | EXPIRE: read, then store again with an expiry: reply and new data are those of the handler on the value model, and the store stays valid |
| `Registry.RunIncr` | commands/incr.go:14-33 | INCR with wrap-around and its three clock readings: reply and new data are those of the handler on the value model, and the store stays valid |
| `Registry.RunAppend` | commands/append.go:12-22 | APPEND: reply and new data are those of the handler on the value model, and the store stays valid |
| `Registry.RunPFAdd` | commands/pfadd.go:12-26 | PFADD, with its wrong-type error: reply and new data are those of the handler on the value model, and the store stays valid |
| `Registry.RunPFMerge` | commands/pfmerge.go:12-20 | PFMERGE: reply and new data are those of the handler on the value model, and the store stays valid |
| `Registry.RunDel` | commands/del.go:12-17 | DEL: reply and new data are those of the handler on the value model, and the store stays valid |
| `Registry.RunObject` | commands/object.go:13-46 | OBJECT ENCODING and FREQ: reply and data follow the value model |
| `Registry.RunRead` | commands/get.go:12-25 | GET, TTL, PFCOUNT and OBJECT: reply and data follow the value model; other commands change nothing and their reply is a parameter |
| `Registry.RunHandler` | commands/registry.go:92-122 | Each registered name runs its handler |
| `Registry.Dispatcher.MakeRoom` | commands/registry.go:102-112 | Under an evicting policy the store is never over the limit afterwards; otherwise nothing changes and the verdict is exact |
| `Registry.Dispatcher.RunAndLog` | commands/registry.go:113-120 | The file grows by the command exactly if it is a write that did not fail |
| `Registry.Dispatcher.Dispatch` | commands/registry.go:92-122 | Unknown, redirected and out-of-memory commands run nothing and log nothing; out of memory is answered exactly for a growing command over a positive limit without eviction; otherwise the handler runs on the data eviction left, and a successful write is logged |
| `Registry.Dispatcher.Replay` | commands/registry.go:129-133 | The handler alone runs: no routing, no memory check, no log |
| `Registry.Dispatcher.DispatchBatch` | commands/registry.go:142-151 | Refused as a whole exactly if its keys together are not served here, with nothing run or logged; otherwise every command runs on what the one before left, none is redirected, and the file grows by each successful write in order |
| `Registry.Dispatcher.RunExec` | server/tcp_server.go:184-197 | An EXEC is answered by an array exactly if the batch is not empty and is served here, holding each command's reply in order; otherwise by one error with nothing changed |
| `Recovery.WriteAlike` | commands/registry.go:129-133 | A write command on data that agree up to recency stamps gives the same reply and data that agree |
| `Recovery.FailedWriteKeeps` | commands/registry.go:92-122 | A write answered by an error leaves the data as it was |
| `Recovery.ReadCommandKeeps` | commands/registry.go:92-122 | Without expiries no read command changes the data |
| `Recovery.UnloggedKeeps` | commands/registry.go:92-122 | Whatever is not logged does not change the data |
| `Recovery.LoggedReplays` | commands/registry.go:129-133 | Replaying a logged command on agreeing data gives agreeing data |
| `Recovery.ReplayRebuilds` | server/tcp_server.go:47-56 | Replaying the log of any run without expiries and memory limit rebuilds its data |
| `Recovery.LogPrefix` | commands/registry.go:92-122 | Every prefix of the log is the log of a prefix of the run |
| `Recovery.CrashRecovery` | core/aof.go:45-73 | A file cut at any byte is recovered to the log of some prefix of the run, and every replay of it rebuilds the data reached there; the uncut file gives the final data |
| `Recovery.ReplayNeverCrashes` | server/tcp_server.go:47-56 | Replay never meets the run-time failure of APPEND on a sketch |
| `Torn.CleanCutKeepsRest` | core/aof.go:35-73 | After a cut between two commands, what is appended later is recovered too |
| `Torn.TornHeaderHidesRest` | core/aof.go:35-73 | After a cut inside the array header of a command, nothing appended later is ever recovered, though recovery reports success |
| `Torn.RecoverAfter` | core/aof.go:45-73 | Whole commands at the front of a file are recovered whatever follows them |
| `Torn.CutUnread` | core/aof.go:45-73 | What recovery leaves unread of a cut file is exactly what follows its whole commands |
| `Torn.TornHeaderStuck` | core/aof.go:35-73 | A command cut inside its array header leaves a header without a count |
| `Torn.StuckGrows` | core/aof.go:35-73 | Appending a command to such bytes leaves such bytes |
| `Torn.StuckCut` | core/aof.go:45-73 | So does cutting them again |
| `Torn.StuckRecovers` | core/aof.go:45-73 | Recovery never reads past such bytes, whatever was appended and cut since |
| `Torn.ReadToEnd` | core/aof.go:45-73 | A cut file that recovery reads to its end consists of whole commands |
| `Torn.TornFirstCall` | core/aof.go:45-73 | The first command recovered from a torn one and what was appended to it has as many arguments as the torn one, whatever was appended |
| `Torn.TornLoses` | core/aof.go:35-73 | After a tear, an appended command with another number of arguments is not recovered in its place |
| `Torn.AppendsSurviveExactly` | core/aof.go:35-73 | Whatever writes are appended after a crash, they are recovered, exactly if the cut lies between two commands |
| `Torn.SomeSurvive` | core/aof.go:45-73 | The condition is about all later writes: a SET that happens to survive a tear |
| `Torn.TornSetIsCut` | core/aof.go:35-38 | The torn bytes below are what a crash can leave of a logged SET |
| `Torn.Fabricates` | core/aof.go:45-73 | A SET torn two characters before the end of its key, followed by any other SET, is recovered as one SET that nobody sent |
| `Torn.TornBodyIsCut` | core/aof.go:35-38 | What a crash can leave of a command torn inside any of its arguments |
| `Torn.RunsHidden` | core/aof.go:45-73 | A tear inside any argument, followed by a command that ends a line where the argument should end: recovery runs a command nobody sent and then whatever commands the text of the later one holds |
| `Torn.ValueRuns` | core/aof.go:45-73 | So for a tear that lost as many bytes as a SET has before its value, recovery runs any commands a client sent as that value, for every torn command and every key |
| `Torn.PaddedValueRuns` | core/aof.go:45-73 | The same for a tear that lost more, with a value that starts with padding |
| `Torn.NeverStarts` | core/aof.go:45-73 | A tear inside an argument that is not the last, followed by a SET of the text *-1, makes recovery end in a run-time error, so no server starts from the file again |
| `Startup.ServeAll` | commands/registry.go:92-122 | Serving commands from an empty server gives a run whose log is the file, ending early only at a run-time failure |
| `Startup.Restart` | server/tcp_server.go:47-56 | Starting from a file replays exactly the recovered commands, stopping short only where a handler would fail |
| `Startup.CrashAndRestart` | server/tcp_server.go:69-87 | A server that served any commands without expiries and crashed at any byte of its file starts again without failing, with the data it had after some number of them, and after all of them if the file was whole |
| `ManyCrashes.ReplayIsRun` | server/tcp_server.go:47-56 | Replaying the log of a run is itself a run with that log |
| `ManyCrashes.InvStep` | commands/registry.go:92-133 | Serving a command and crashing at any byte keep the node where some run from the empty store ends, with that run in its file |
| `ManyCrashes.StepHistory` | core/aof.go:45-73 | A logged command joins the surviving ones; a crash keeps a prefix of them |
| `ManyCrashes.ManyCrashesRecover` | core/aof.go:45-73 | Over any number of crashes and restarts, with commands logged only to files that recovery reads to their end: in every state the file rebuilds the data, every part a crash may leave recovers cleanly to a prefix of the surviving commands, and replaying them never fails |
| `ManyCrashes.DispatchServes` | commands/registry.go:92-122 | Dispatching a command without expiry or memory limit is such a step, unless the process ends |
| `ManyCrashes.RestartCrashes` | server/tcp_server.go:47-56 | So is a successful start from what a crash left |
| `ClusterSafety.LoadAll` | cluster/config.go:65-137 | Every node of one accepted file with distinct ports accepts it and they all agree |
| `ClusterSafety.SameOwner` | cluster/config.go:41-46 | All nodes name the same owner for a key |
| `ClusterSafety.VerdictAt` | commands/route.go:48-77 | For keys of one slot: down at every node without an owner, served at the owner, moved to the owner's address elsewhere |
| `ClusterSafety.OneAcceptor` | commands/route.go:48-77 | A keyed command of one owned slot passes the check on exactly one node |
| `ClusterSafety.OneHop` | commands/route.go:48-77 | Following one MOVED reaches a node that serves the keys, and only such nodes have that address |
| `ClusterSafety.StepKeepsSafe` | commands/registry.go:92-133 | Commands, evictions, sweeps and crashes that leave any number of bytes of the file keep every key, and every command recovery can read, on its owner, as long as no command is logged to a file cut inside a command past its array header |
| `ClusterSafety.CutKeepsOwned` | core/aof.go:45-73 | Whatever is left of an owned file recovers to owned commands and is an owned file again |
| `ClusterSafety.AppendKeepsOwned` | core/aof.go:35-73 | An owned command logged to an owned file that recovery reads to its end, or that is torn inside an array header, leaves an owned file |
| `ClusterSafety.RestartKeepsOwned` | core/aof.go:45-73 | Whatever a crash leaves of an owned file, the restarted node owns all its keys |
| `ClusterSafety.ClusterWideSafety` | commands/route.go:48-77 | In every state of every run of a cluster started empty from one file, with restarts from files cut anywhere, in which no command is logged to a file cut inside a command past its array header: each stored key is on the node owning its slot, so the stores are disjoint |
| `ClusterNode.DispatchOn` | commands/registry.go:92-122 | Dispatching a command on a node is a step of the cluster, unless the process ends |
| `ClusterNode.CrashOn` | server/tcp_server.go:69-87 | A crash that leaves some bytes of the file and a successful start from them are a step of the cluster |
| `ClusterNode.Obey` | commands/registry.go:92-133 | A command or a crash on one of several servers that share nothing is a step of the cluster, unless that process ends, and leaves the others alone |
| `ClusterNode.RunScript` | server/tcp_server.go:69-87 | Any script of commands and crashes on the servers of a cluster started empty is a run of the step system, up to the end of a process |
| `TornCluster.TornRestartStores` | core/aof.go:45-73 | Without that condition safety fails: a node that crashes inside the key of a SET, restarts, serves another SET and restarts again stores a key nobody sent, whoever owns it |
| `TornCluster.TornDelStores` | core/aof.go:45-73 | A node that crashes inside the key of a DEL, restarts, serves a SET whose value holds a command and restarts again stores any chosen key, whoever owns it |
| `TornCluster.ThreeSlots` | cluster/slot.go:42-50 | The slots of abcd, k and ab*3 are 10294, 7629 and 13680 |
| `TornCluster.SafetyLost` | core/aof.go:45-73 | The input: with nodes serving 0-12000 and 12001-16383, the first node ends up storing ab*3, which the second owns |
## Left out

- Sockets, listeners, signals, flags, logging, profiling and real file input and output: a connection is a string of bytes, the file a string that only grows, and the sync one step.
- The body of MurmurHash64A: the hash is a parameter, and nothing is assumed of it.
- Floating-point rounding in the estimate: it is computed over exact reals with a logarithm of which only ln 1 = 0 and ln x >= 0 for x >= 1 is assumed; its statistical accuracy is not stated.
- Replies of commands that only report (PING, INFO, DEBUG, CLUSTER), the text of errors, SHA-1 node identifiers and the text of CLUSTER NODES: a parameter or one error value stands for them.
- Connection.Serve: parse-error replies go straight to the connection in the source; the model orders them among the emitted steps and does not model when the buffered writer reaches the wire.
- Failures of writing to a client or to the file, and memory exhaustion on huge announced lengths.
- Worker.AllInterleavings: what a request computes is abstract, and a run-time failure of a handler, which ends the process, is no step of it.
- Recovery.CrashRecovery: runs with expiries or a memory limit are excluded, because the source logs neither expiry nor eviction and restarts time to live on replay.
- ClusterSafety.ClusterWideSafety: the condition on logging is sufficient. It fails for a tear inside an argument that lost as many bytes as a SET has before its value, whatever command was torn (`Torn.ValueRuns`, `TornCluster.TornDelStores`); tears between two arguments, inside the length of one, or with fewer bytes missing are not classified.
- Sds.SDS.AppendString: how far the language's own append grows a buffer of up to one megabyte is left open; any sufficient capacity is allowed.
- Clock.TouchEffect: the probability of raising the counter is a comparison with an arbitrary roll; nothing is said about its distribution.
- Store.Store.SampleKeys: which keys a map iteration yields is an arbitrary choice.
- EvictionPool.SortPool: the order of candidates with equal scores is not fixed.
- One clock reading serves a whole command in dispatch, where the source may read the clock more than once; for INCR, where the difference shows, the readings are apart in `Registry.RunIncr`.
- Upper-casing of names covers ASCII letters; splitting a layout file into fields and an address into host and port is taken as given.
