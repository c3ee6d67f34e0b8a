# Verified models of the CS:APP lab code

This project models the parts of the repository that hold state and have something to lose, and
proves what they promise. Code that changes variables step by step is modelled as classes and
methods with loops, each tied to a function or a relation on values; the theorems are lemmas about
those. One module per file:

- **Cache simulator** (`labs/cachelab-handout/csim.c`). `CacheSim` is the program: sets as arrays of
  lines, the loops of `process`, the dispatch on I, M, L and S, and the conversion of the `long`
  address to `int`. `LruRefinement` proves that its age counters implement a recency list
  (`LruStack`) exactly, and on top of that the inclusion property of LRU.
- **Transpose** (`labs/cachelab-handout/trans.c`). `Transpose` has the three loop nests over arrays.
  Its class `Matrices` reads A and writes B through `Get` and `Put` only, and these record every
  access. `MissBound` runs that record on the simulator of `CacheSim`, through a direct-mapped cache
  on block numbers (`DirectMapped`).
- **Bounded buffer** (`thread/echoserver_pre.c`), **readers-writers lock** (`thread/reader_writer.c`)
  and **the proxy's cache** behind that lock (`labs/proxylab-handout/proxy.c`). `BoundedBuffer`,
  `ReadersWriters` and `ProxyCache` are machines whose steps are the single accesses to shared
  variables, for any number of threads and every interleaving; their invariants count threads at
  program points (`Counting`). `strcpy` into a slot takes two steps, between which the slot is torn.
  The classes `Sbuf`, `Shared` and `Proxy` are the same steps on shared fields in place. Threads that
  loop for ever are modelled with any finite number of turns each; `reader_writer.c` never initialises
  its semaphores, and the model starts with both at 1, as `init_cache` sets them. The proxy's lock is
  the same one: `ProxyCache.StepRefinesLock` maps every step of a request to a move of it.
  `ProxyLimits` says exactly when the cache answers from its stores and when its ten slots suffice.
- **Robust I/O and the echo server** (`tiny/csapp.c`, `tiny/echo_server.c`). `Rio` has the buffered
  and unbuffered calls over a kernel that follows scripts: a read moves at most so many bytes but at
  least one, returns EINTR, or fails for good, and a write may also move none. End of file comes
  exactly at the end of the stream.
- **Allocator and its driver** (`labs/malloclab-handout`). `Heap` is `mm.c` on `memlib.c` over a byte
  array: headers are eight bytes of memory, least significant first. `RangeList` is the driver's
  linked list, `Ledger` what a trace of requests means, `Driver` the check of `eval_mm_valid`.
- **K-best sampler** (`fcyc.c`), **select pool** (`server/multi_conecho_server.c`), **command-line
  tokenizer** (`labs/shlab-handout/tsh.c`) and **request parser** (`proxy.c`): `Sampler`,
  `SelectPool`, `Tokenizer` and `ProxyParse`, the last two on NUL-terminated strings in buffers
  (`CString`) that are cut in place.

What comes from outside is a parameter: what the kernel does, which thread moves next, what select
and accept return, which clients are at end of file, what the measurements are, whether plain
`char` is signed.

Where the code does not do what it is for, the exact condition is proved:

- `mm_malloc` computes the heap extension in an `int`, so a request of 2^31 bytes and more can be
  granted too little. `Heap.UndersizedIff` says exactly when, over all `size_t` arguments and the heap
  in use; `Heap.OversizedRequest` shows it for 2^32 bytes.
- The driver's overlap test misses a new range that strictly contains an old one
  (`RangeList.DetectedIff`, `RangeList.AcceptsOverlap`). Disjointness follows from the allocator instead.
- The driver compares copied bytes through plain `char`. With signed `char` it rejects this correct
  allocator on some traces; `Driver.Driver.Evaluate` says exactly which, and `Driver.RejectedTrace`
  is one.
- `writer` does not check that a slot is free; `ProxyLimits.OverflowIff` says exactly when
  that is safe.
- `init_cache` leaves the slots as `malloc` gave them, and `reader` compares with all ten names;
  `ProxyLimits.BlankIff` says exactly when that goes well.
- The test for too many clients in `add_client` can never be true (`SelectPool.Server.AddClient`).
  While `select`'s descriptors are below FD_SETSIZE nothing is lost by that, since no pool is ever
  full (`SelectPool.NeverFull`); `SelectPool.FullIff` says exactly when one is, and
  `SelectPool.DroppedClient` shows what happens then.

The other modules share `Common`: bytes, the conversion to `int`, `Option`.

## Model

| member | source | states |
|---|---|---|
| `LruStack.TouchIsPrefixOfRecency` | labs/cachelab-handout/csim.c:155-195 | keeping n tags and moving the touched one to the front always leaves the n most recently used distinct tags of the history |
| `LruStack.RecencyContents` | labs/cachelab-handout/csim.c:155-195 | the recency list has each tag of the history exactly once and nothing else |
| `LruStack.WithoutTake` | labs/cachelab-handout/csim.c:162-195 | removing a tag and cutting the list to n commute, up to the freed place; the step behind inclusion |
| `Common.ToInt32` | labs/cachelab-handout/csim.c:146 | the address a `long` becomes when passed as `int`: always within 32 bits |
| `CacheSim.PowersMultiply` | labs/cachelab-handout/csim.c:99-150 | the numbers of sets and of bytes in a block are powers of two: a shift by m + n is one by m and one by n, and a shift by 1 doubles |
| `CacheSim.SetIndex` | labs/cachelab-handout/csim.c:147-150 | the selected set exists: the masked index is below 2^s for every address, negative ones too |
| `CacheSim.AddressInParts` | labs/cachelab-handout/csim.c:147-152 | an address has set k and tag t if and only if it lies in block 2^s * t + k of 2^b bytes |
| `CacheSim.BitMoved` | labs/cachelab-handout/csim.c:147-152 | with one bit moved from s to b the tag stays and the set is halved: half as many sets of blocks twice as long |
| `CacheSim.SameLineIffSameBlock` | labs/cachelab-handout/csim.c:147-152 | two addresses share set and tag exactly when they lie in the same block of 2^b bytes, for negative addresses too |
| `CacheSim.ToInt32IsCongruent` | labs/cachelab-handout/csim.c:218-229 | the conversion at the call changes an address by a multiple of 2^32, by none exactly if it fits an int |
| `CacheSim.FindTag` | labs/cachelab-handout/csim.c:162-170 | the hit loop's answer: the first valid line with the tag, or none |
| `CacheSim.FindFree` | labs/cachelab-handout/csim.c:174-181 | the fill loop's answer: the first line not in use, or none |
| `CacheSim.Oldest` | labs/cachelab-handout/csim.c:186-192 | the victim is the first line of largest age |
| `CacheSim.ProbesOfTrace` | labs/cachelab-handout/csim.c:212-236 | a trace of known operations calls process once for each L and S and twice for each M, at converted addresses of its operations |
| `CacheSim.OperationsAreProbes` | labs/cachelab-handout/csim.c:212-236 | a trace of I, M, L and S operations is the run of its probes, in order |
| `CacheSim.RunFromConcat` | labs/cachelab-handout/csim.c:212-236 | running one list of accesses after another is running their concatenation |
| `CacheSim.CacheSimulator.constructor` | labs/cachelab-handout/csim.c:98-111 | 2^s separate sets of E lines, all unused, counters at zero |
| `CacheSim.CacheSimulator.ProcessSet` | labs/cachelab-handout/csim.c:155-195 | the four loops over the selected set, in place, leave exactly the lines and outcome of the specification, by their invariants |
| `CacheSim.CacheSimulator.Process` | labs/cachelab-handout/csim.c:146-195 | one call changes only the selected set and the three counters, as specified for the address |
| `CacheSim.CacheSimulator.PerformOperation` | labs/cachelab-handout/csim.c:213-232 | I, M, L and S cost no, two, one and one call of process on the truncated address |
| `CacheSim.CacheSimulator.Simulate` | labs/cachelab-handout/csim.c:212-237 | a summary is printed exactly if every operation is known, and then the state is that of all operations in order |
| `LruRefinement.ProcessRefinesTouch` | labs/cachelab-handout/csim.c:155-195 | one access on aged lines does to the tags, youngest first, what one step of a list-based LRU set does, with the same outcome |
| `LruRefinement.OrderedAfterAging` | labs/cachelab-handout/csim.c:156-160 | ageing all valid lines keeps their age order and makes every age positive |
| `LruRefinement.MoveToFront` | labs/cachelab-handout/csim.c:164-168 | age 0 under the touched tag moves that line to the front and keeps ages and tags distinct |
| `LruRefinement.ReplaceOldest` | labs/cachelab-handout/csim.c:186-194 | in a full set the line of largest age is the least recently used, and it is the one replaced |
| `LruRefinement.InsertFree` | labs/cachelab-handout/csim.c:174-180 | with a line free, the new tag goes in front and valid lines stay a prefix of the set |
| `LruRefinement.RunRefinesLists` | labs/cachelab-handout/csim.c:146-195 | for every trace the simulator's sets and its three counters are those of a list-based LRU cache |
| `LruRefinement.LinesAreMostRecentTags` | labs/cachelab-handout/csim.c:146-195 | in every reachable cache the valid lines of a set are a prefix with distinct tags and ages, and by increasing age they hold exactly the E most recently used tags sent to the set |
| `LruRefinement.CounterLaws` | labs/cachelab-handout/csim.c:146-195 | hits + misses is the number of accesses, and misses - evictions the number of valid lines |
| `LruRefinement.SecondProbeHits` | labs/cachelab-handout/csim.c:216-221 | from any state whatever the second probe of an M operation is a hit |
| `LruRefinement.Inclusion` | labs/cachelab-handout/csim.c:146-195 | for every trace and equal s and b, what the cache with fewer lines per set holds the larger one holds too, and the larger misses no more often |
| `LruRefinement.MissesUnlessHeld` | labs/cachelab-handout/csim.c:162-173 | an access to a reachable cache misses exactly when no valid line of its set has its tag |
| `LruRefinement.RunProgram` | labs/cachelab-handout/csim.c:198-237 | a summary is printed exactly if all operations are I, M, L or S; its numbers are those of the list-based cache, and hits + misses is the number of L and S plus twice that of M |
| `Transpose.AppendRowMove` | labs/cachelab-handout/trans.c:31-46 | moving one run of a row adds exactly its loads and stores to the references, none of them a repeat |
| `Transpose.Matrices.Move8` | labs/cachelab-handout/trans.c:31-46 | eight reads and eight writes move a run of a row, and the record grows by exactly those sixteen references in that order |
| `Transpose.Matrices.MoveTile8` | labs/cachelab-handout/trans.c:30-47 | one tile of the 32x32 nest: its cells become transposed and its references follow in the known order |
| `Transpose.Matrices.Transpose32` | labs/cachelab-handout/trans.c:27-50 | B becomes the transpose of A, each cell of A loaded once and each of B stored once, in the order the loop nest gives |
| `Transpose.Matrices.Transpose64` | labs/cachelab-handout/trans.c:53-68 | the same for 64x64 with 4x4 tiles |
| `Transpose.Matrices.TransposeTiled` | labs/cachelab-handout/trans.c:70-122 | the tile-plus-remainder nest, for every M and N: B becomes the transpose of A, every cell stored exactly once |
| `Transpose.Matrices.LastRows` | labs/cachelab-handout/trans.c:112-116 | the loop over the last rows of A completes the columns of B from i on |
| `Transpose.Matrices.LastColumns` | labs/cachelab-handout/trans.c:117-121 | the loop over the last columns of A completes the rest; its start j has a value whenever it runs |
| `Transpose.Matrices.Submit` | labs/cachelab-handout/trans.c:23-124 | 32x32, 64x64 and 61x67 are transposed, each cell loaded and stored once by the accesses made; any other shape makes no access |
| `Transpose.Matrices.Trans` | labs/cachelab-handout/trans.c:135-144 | the simple version transposes every shape, each cell loaded and stored once |
| `Transpose.Matrices.IsTranspose` | labs/cachelab-handout/trans.c:168-180 | answers yes exactly if B is the transpose of A |
| `Transpose.Compare` | labs/cachelab-handout/trans.c:23-180 | for 32x32, 64x64 and 61x67 the check answers yes and both versions leave the same B |
| `DirectMapped.ManyBlocks` | labs/cachelab-handout/csim.c:162-194 | references to blocks of different sets miss exactly on those not held |
| `DirectMapped.TileSets` | labs/cachelab-handout/trans.c:29-47 | the eight blocks of B of a tile fall in different sets, and in another set than A's block except for one row of a diagonal tile |
| `DirectMapped.RunCost` | labs/cachelab-handout/trans.c:30-47 | one run of a tile costs at most 9 misses, and at most 1, or 2 on the diagonal, once B's blocks are there |
| `DirectMapped.PartialTileCost` | labs/cachelab-handout/trans.c:30-47 | the first n runs of a tile cost at most 9 + (n - 1), or 9 + 2(n - 1) on the diagonal |
| `DirectMapped.TilesCost` | labs/cachelab-handout/trans.c:28-47 | the first tiles of the nest cost at most 16 misses each, and 7 more for each diagonal one, from any state of the block cache |
| `MissBound.TruncationKeepsSets` | labs/cachelab-handout/csim.c:146-152 | truncating an address to 32 bits keeps the set its block falls in |
| `MissBound.RunIsCovered` | labs/cachelab-handout/csim.c:146-195 | with one line per set the simulator misses no more often than a plain direct-mapped cache on block numbers, from any state |
| `MissBound.TileOfTrace` | labs/cachelab-handout/trans.c:28-47 | the references of one tile of the 32x32 nest are to the blocks of that tile |
| `MissBound.TilesOfTrace` | labs/cachelab-handout/trans.c:28-47 | the references before a tile, in the order of the nest, are to the blocks of the tiles before it |
| `MissBound.TileCost` | labs/cachelab-handout/trans.c:28-47 | from any cache state each off-diagonal tile costs at most 16 misses and each diagonal one at most 23, for 32-byte aligned matrices congruent modulo 1024 |
| `MissBound.TransposeMisses` | labs/cachelab-handout/trans.c:27-50 | the whole 32x32 transpose costs at most 284 misses with s = 5, E = 1, b = 5, from any cache state |
| `MissBound.SubmitOnCache` | labs/cachelab-handout/trans.c:23-50 | the submitted program, run on such matrices, transposes them, and the accesses it makes miss at most 284 times in the simulator |
| `BoundedBuffer.StepInv` | thread/echoserver_pre.c:33-49 | every single step of any thread keeps the counts of slots, items, indices and mutex and the contents of the buffer right |
| `BoundedBuffer.FirstInFirstOut` | thread/echoserver_pre.c:33-49 | in every interleaving the items taken, in the order of their accesses, are a prefix of the items put, and at most n are outstanding |
| `BoundedBuffer.AccessesAreSafe` | thread/echoserver_pre.c:36-45 | a thread about to access the buffer is alone; a producer overwrites no unread item and a consumer reads the oldest one |
| `BoundedBuffer.TokenConservation` | thread/echoserver_pre.c:19-49 | slots + items + threads inside an operation is always n; rear - front, by completed accesses, is items + filled but unposted + claimed but unread |
| `BoundedBuffer.StuckOnlyWhenFinished` | thread/echoserver_pre.c:33-49 | with equal inserts and removals left, a state no thread can leave has no work left |
| `BoundedBuffer.EveryMaximalRunCompletes` | thread/echoserver_pre.c:33-49 | a run is no longer than the planned work, and it cannot go on exactly when all of it is done, with the semaphores back and everything inserted removed |
| `BoundedBuffer.StepConserves` | thread/echoserver_pre.c:33-49 | no step of any thread makes or loses an item, counted over the producers' stocks, the two logs and the consumers' hands |
| `BoundedBuffer.InOwnOrder` | thread/echoserver_pre.c:33-49 | in every reachable state what one producer has inserted is the front of its items in its order, and a consumer holds exactly the items it removed, in that order |
| `BoundedBuffer.EveryProducerServed` | thread/echoserver_pre.c:33-49 | when no thread can go on, the inserted items restricted to one producer are all of its items, in its order |
| `BoundedBuffer.EveryItemDelivered` | thread/echoserver_pre.c:33-49 | and then the consumers together have every item as often as the producers together had it |
| `BoundedBuffer.Sbuf.constructor` | thread/echoserver_pre.c:19-27 | sbuf_init gives the initial state for the given capacity and threads |
| `BoundedBuffer.Sbuf.Advance` | thread/echoserver_pre.c:33-49 | the next line of sbuf_insert or sbuf_remove, on the shared fields in place, is the step of the state machine |
| `BoundedBuffer.Sbuf.Run` | thread/echoserver_pre.c:83-90 | whatever thread is picked next, the shared fields follow a run of the state machine |
| `ReadersWriters.MoveLocking` | thread/reader_writer.c:12-35 | every move of every thread keeps mutex held by at most one, read_cnt the readers between ++ and --, and w held by one writer or on behalf of the readers |
| `ReadersWriters.WriterExcludes` | thread/reader_writer.c:31-35 | a writer in its section is the only writer, and no reader is in its section |
| `ReadersWriters.LockIsSafe` | thread/reader_writer.c:10-36 | in every reachable state of any readers and writers read_cnt counts the readers between ++ and --, and a writer in its section excludes all others |
| `ReadersWriters.SomeoneCanMove` | thread/reader_writer.c:10-36 | while some thread is in a section or on its way in or out, one of those can move, even when the first reader waits for w with mutex in its hands |
| `ReadersWriters.Progress` | thread/reader_writer.c:10-36 | no reachable state deadlocks: as long as a section is left, some thread can move |
| `ReadersWriters.EveryMaximalRunCompletes` | thread/reader_writer.c:10-36 | for all finite numbers of sections a run is bounded, can be extended exactly until all are done, and ends with mutex = w = 1 and read_cnt = 0 |
| `ReadersWriters.WritersCanStarve` | thread/reader_writer.c:3-5 | readers go first: for every n two readers can finish n sections between them while w is never free and no writer moves |
| `ReadersWriters.Shared.constructor` | thread/reader_writer.c:7-8 | both semaphores at 1 and no reader counted |
| `ReadersWriters.Shared.Advance` | thread/reader_writer.c:10-36 | the next line of reader or writer, on the shared variables in place, is the step of the state machine |
| `ReadersWriters.Shared.Run` | thread/reader_writer.c:10-36 | whatever thread is picked next, the shared variables follow a run of the state machine |
| `ProxyCache.StepRefinesLock` | labs/proxylab-handout/proxy.c:132-163 | every step of a request is a move of the readers-writers lock or leaves the lock alone |
| `ProxyCache.StepInv` | labs/proxylab-handout/proxy.c:132-163 | every single step of any request keeps the lock counts, the slots and how far each store has come right, whatever the slots held at first |
| `ProxyCache.StepMeaning` | labs/proxylab-handout/proxy.c:132-163 | and, with no requested uri in an unused slot, what each thread knows of its lookup |
| `ProxyCache.StepLocking` | labs/proxylab-handout/proxy.c:134-162 | every step keeps readcnt the readers between increment and decrement, and w held by one writer or on behalf of the readers |
| `ProxyCache.LockIsSafe` | labs/proxylab-handout/proxy.c:132-163 | in every reachable state readcnt counts the readers between increment and decrement, and a writer in its section excludes all readers and writers |
| `ProxyCache.NoTornReads` | labs/proxylab-handout/proxy.c:141-147 | while a lookup is in its section, no name and no object of any slot is one that a strcpy is writing |
| `ProxyCache.LookupsLinearize` | labs/proxylab-handout/proxy.c:141-162 | with no requested uri in an unused slot at first, every decided lookup answers what a first-write-wins map of the completed stores held at one moment since it began; if its uri was stored before it began, it hits |
| `ProxyLimits.BlankIff` | labs/proxylab-handout/proxy.c:84-89 | lookups are answered from the completed stores in every interleaving if and only if no text that the allocated slots happened to hold is a requested uri |
| `ProxyCache.StoresAreFetched` | labs/proxylab-handout/proxy.c:157-163 | every completed store is of the response that some request of that uri fetched, whatever the interleaving |
| `ProxyCache.HitsAreFetched` | labs/proxylab-handout/proxy.c:141-163 | and a hit sends such a response, whole, fetched by a request of the same uri |
| `ProxyCache.StoredBeforeIsHit` | labs/proxylab-handout/proxy.c:134-163 | if a uri is stored when a request for it has not begun its lookup, the lookup is a hit and returns that object |
| `ProxyCache.RepeatedHitsAgree` | labs/proxylab-handout/proxy.c:141-147 | two hits on one uri return the same object |
| `ProxyCache.LogOnlyGrows` | labs/proxylab-handout/proxy.c:157-163 | completed stores are never forgotten or changed |
| `ProxyCache.Progress` | labs/proxylab-handout/proxy.c:132-163 | no reachable state deadlocks before all requests are served, even with a reader that waits for w while holding mutex, unless a writer stands before the array's end |
| `ProxyCache.EveryMaximalRunCompletes` | labs/proxylab-handout/proxy.c:132-163 | every run ends within 30 steps a request; one that cannot go on has served all of them and left mutex = w = 1 and readcnt = 0, or a writer stands before the array's end |
| `ProxyLimits.OverflowIff` | labs/proxylab-handout/proxy.c:141-162 | whatever the slots hold at first, no interleaving writes past the tenth one if and only if for some m up to ten at most m requests have a response to store and a uri that the slots from m on do not hold |
| `ProxyLimits.BlankOverflowIff` | labs/proxylab-handout/proxy.c:157-162 | with no requested uri in the slots at first that is if and only if at most ten responses are small enough to store |
| `ProxyLimits.AllServed` | labs/proxylab-handout/proxy.c:132-163 | and then a run cannot go on if and only if all requests are served |
| `ProxyCache.Proxy.constructor` | labs/proxylab-handout/proxy.c:80-90 | init_cache gives the initial state, the slots holding whatever the allocated memory held |
| `ProxyCache.Proxy.Advance` | labs/proxylab-handout/proxy.c:132-163 | the next line of reader or writer, on the shared variables in place, is the step of the state machine |
| `ProxyCache.Proxy.Run` | labs/proxylab-handout/proxy.c:92-99 | whatever request is picked next, the shared variables follow a run of the state machine |
| `ProxyCache.Proxy.PutSlot` | labs/proxylab-handout/proxy.c:159-160 | a write into the slot at used_cnt changes that half of that slot only |
| `Rio.Rio.constructor` | tiny/csapp.c:818-823 | a fresh buffer with nothing unread: the stream is what the kernel has |
| `Rio.Rio.FillOnce` | tiny/csapp.c:790-800 | one read into the empty buffer loses nothing of the stream, and brings nothing only at its end |
| `Rio.Rio.Refill` | tiny/csapp.c:790-801 | refilling moves bytes without losing any, retries EINTR, and reports end of file only at the end of the stream |
| `Rio.Rio.Read` | tiny/csapp.c:786-811 | takes at most n bytes off the front of the stream, at least one unless it has ended, and loses none on an error |
| `Rio.Rio.Readnb` | tiny/csapp.c:830-845 | delivers exactly min(n, unread) bytes for every script of short reads and EINTRs; on a hard error what was delivered and what remains still make up the stream |
| `Rio.Rio.CopyLine` | tiny/csapp.c:857-873 | the loop copies a line: no newline before its last byte, and it stops only at a newline, the limit or the end |
| `Rio.Rio.Readlineb` | tiny/csapp.c:852-876 | delivers the shortest prefix ending in a newline, capped at maxlen - 1 or the end of the stream, with a NUL behind it |
| `Rio.LineLengthMeaning` | tiny/csapp.c:857-875 | the length returned is the one length with that property, and the only one |
| `Rio.Readn` | tiny/csapp.c:730-749 | the unbuffered read delivers exactly min(n, remaining) bytes |
| `Rio.Writen` | tiny/csapp.c:756-773 | all n bytes are written in order and once each, for every short, empty or interrupted write, unless one moves nothing without EINTR in errno |
| `Rio.ServeConserves` | tiny/csapp.c:830-876 | bytes delivered by any mix of calls, followed by what is left, are the original stream |
| `Rio.RunCalls` | tiny/csapp.c:786-876 | for every script of the kernel a mix of readnb and readlineb calls delivers what the stream alone determines: reads do not depend on chunking |
| `Rio.EchoLine` | tiny/echo_server.c:34-37 | one turn of the loop sends back exactly the line it took off the stream |
| `Rio.Echo` | tiny/echo_server.c:28-38 | what is sent is what was received, in order and once each, all of it up to the end of the stream unless a call fails for good; lines of MAXLINE and more included |
| `Heap.NewSizeIsExact` | labs/malloclab-handout/mm.c:61 | for sizes below 2^31 the int computation is the aligned size, or it is negative and mem_sbrk refuses |
| `Heap.NewSizeIsLowWord` | labs/malloclab-handout/mm.c:61 | for every size_t the extension is the low 32 bits of size + 15, rounded down to a multiple of 8 and read as an int |
| `Heap.UndersizedIff` | labs/malloclab-handout/mm.c:61-65 | for every size_t and every amount of heap in use, mem_sbrk grants an extension smaller than header and payload if and only if size + 15 does not fit an int, its low word does, and the heap has room for that low word |
| `Heap.OversizedRequest` | labs/malloclab-handout/mm.c:59-68 | on an empty heap mm_malloc serves a request of 2^32 bytes with a block that ends where its payload should begin |
| `Heap.DecodeEncode` | labs/malloclab-handout/mm.c:66 | a size written as eight bytes, least significant first, reads back as itself |
| `Heap.WordsAreAligned` | labs/malloclab-handout/mm.c:42-61 | the words a block takes are the aligned size of header and payload |
| `Heap.Pushed` | labs/malloclab-handout/mm.c:59-69 | a block added at the brk with its size in its header keeps all headers and leaves older bytes alone |
| `Heap.PayloadWrite` | labs/malloclab-handout/mm.c:59-69 | a client's write inside one payload keeps every header and the whole heap well formed |
| `Heap.OtherPayloadKept` | labs/malloclab-handout/mm.c:59-69 | and it leaves every other payload unchanged |
| `Heap.BlockIsSound` | labs/malloclab-handout/mm.c:59-69 | every payload is 8-aligned, and its block lies inside the heap |
| `Heap.BlocksAreDisjoint` | labs/malloclab-handout/mm.c:59-69 | no two blocks share a byte |
| `Heap.ExtentIsSumOfAlignedSizes` | labs/malloclab-handout/mm.c:61-62 | brk - start is the sum of ALIGN(size + SIZE_T_SIZE) over all blocks |
| `Heap.Allocator.constructor` | labs/malloclab-handout/memlib.c:25-35 | mem_init gives a valid empty heap |
| `Heap.Allocator.Sbrk` | labs/malloclab-handout/memlib.c:58-69 | refuses a negative increment or one past the end and changes nothing; else moves brk and returns its old value |
| `Heap.Allocator.ResetBrk` | labs/malloclab-handout/memlib.c:48-51 | forgets all blocks |
| `Heap.Allocator.HeapBounds` | labs/malloclab-handout/memlib.c:74-85 | the two addresses are as far apart as the blocks are long together, and every block lies between them |
| `Heap.Allocator.Malloc` | labs/malloclab-handout/mm.c:59-69 | for every size_t: NULL exactly when mem_sbrk refuses, and then nothing changes; below 2^31 else one new block at the end of a valid heap, older bytes kept; from 2^31 on else a block that sticks out of the heap |
| `Heap.Allocator.LoadSize` | labs/malloclab-handout/mm.c:90 | the header in front of a block's payload holds the size it was requested with |
| `Heap.Allocator.Realloc` | labs/malloclab-handout/mm.c:81-96 | NULL exactly when mem_sbrk refuses; else the new block begins with the first min(old, new) bytes of the old payload, and below 2^31 the heap is valid with one more block |
| `Heap.Allocator.Poke` | labs/malloclab-handout/mdriver.c:662 | a client's write to any byte of a payload keeps the heap valid and changes that byte only |
| `Heap.Allocator.Fill` | labs/malloclab-handout/mdriver.c:625 | memset of a payload keeps the heap valid and changes just those bytes |
| `RangeList.DetectedIff` | labs/malloclab-handout/mdriver.c:409-410 | the overlap test finds every overlap except a new range that strictly contains an old one on both sides |
| `RangeList.AcceptsOverlap` | labs/malloclab-handout/mdriver.c:409-416 | add_range accepts [8, 31] into a list that has [16, 23] |
| `RangeList.Ranges.Overlaps` | labs/malloclab-handout/mdriver.c:408-416 | the search loop answers whether some range in the list is detected |
| `RangeList.Ranges.Add` | labs/malloclab-handout/mdriver.c:381-429 | accepts exactly the aligned ranges inside the heap with no overlap detected, and puts an accepted one in front of an otherwise unchanged list |
| `RangeList.Ranges.Unlink` | labs/malloclab-handout/mdriver.c:442 | relinking through the previous node takes one node out of the chain and keeps the others in order |
| `RangeList.Ranges.Remove` | labs/malloclab-handout/mdriver.c:434-449 | takes the first range that begins at lo out of the list, if there is one |
| `RangeList.Ranges.Clear` | labs/malloclab-handout/mdriver.c:454-464 | empties the list |
| `Ledger.SoundAfter` | labs/malloclab-handout/mdriver.c:598-679 | along every permitted trace, live blocks never overlap, ids have different blocks, and the heap in use is the sum of the aligned sizes requested |
| `Ledger.LastRequestDecides` | labs/malloclab-handout/mdriver.c:598-679 | an id has a block if and only if the last request on it was an allocation or reallocation, and the block has the size of that request |
| `Ledger.LiveBlocksHaveIds` | labs/malloclab-handout/mdriver.c:598-679 | if no id is allocated again while in use, the blocks not yet freed are exactly those of the ids in use |
| `Ledger.NewBlockPasses` | labs/malloclab-handout/mdriver.c:390-416 | a block at the end of the heap passes every test of add_range: aligned, inside, and not detected against any live payload |
| `Ledger.LiveExtentsAreDisjoint` | labs/malloclab-handout/mdriver.c:390-416 | the extents of live payloads are pairwise disjoint, whatever the overlap test misses |
| `Ledger.RemovalTracks` | labs/malloclab-handout/mdriver.c:440-448 | removing the range that begins where a live payload does removes just that payload's |
| `Ledger.FilledAfterFill` | labs/malloclab-handout/mdriver.c:625-662 | filling the newest payload with the low byte of its id leaves all other payloads filled with theirs |
| `Ledger.AllComparableIff` | labs/malloclab-handout/mdriver.c:655-661 | every reallocation of a trace passes the comparison if and only if char is unsigned or all reallocated ids have a low byte below 128 |
| `Ledger.AtRequest` | labs/malloclab-handout/mdriver.c:598-601 | what the driver knows before and after request i of a trace: the ledger is the one of the first i requests, and the heap in use is what they demand |
| `Driver.CopiedBytes` | labs/malloclab-handout/mdriver.c:653-661 | after a copy the comparison accepts if and only if char is unsigned or the low byte of the id is below 128 |
| `Driver.Driver.AddRange` | labs/malloclab-handout/mdriver.c:617-618 | add_range never refuses a block of this allocator |
| `Driver.Driver.CheckCopied` | labs/malloclab-handout/mdriver.c:655-661 | answers whether all compared bytes, read through char, equal the low byte |
| `Driver.Driver.DoAlloc` | labs/malloclab-handout/mdriver.c:604-630 | fails exactly when the heap is full; else list, tables, heap and contents again agree with the trace |
| `Driver.Driver.DoRealloc` | labs/malloclab-handout/mdriver.c:632-667 | fails exactly when the heap is full or the signed comparison cannot succeed; else everything again agrees with the trace |
| `Driver.Driver.DoFree` | labs/malloclab-handout/mdriver.c:669-675 | the range of the freed block, and only that, leaves the list |
| `Driver.Driver.Evaluate` | labs/malloclab-handout/mdriver.c:577-685 | returns 1 for a well-formed trace if and only if its aligned sizes fit MAX_HEAP and, where char is signed, every reallocated id has a low byte below 128; the range list then holds exactly the live payload extents |
| `Driver.SignedCharTrace` | labs/malloclab-handout/mdriver.c:655-661 | one block reallocated under an id with low byte 128 or more: accepted if and only if char is unsigned |
| `Driver.RejectedTrace` | labs/malloclab-handout/mdriver.c:655-661 | with signed char the trace that allocates and reallocates one byte under id 128 is rejected |
| `Sampler.InsertFront` | labs/malloclab-handout/fcyc.c:70-76 | how the k smallest change with one more sample: not at all unless it is below the k-th |
| `Sampler.BestOfOneMore` | labs/malloclab-handout/fcyc.c:67-88 | keeping the k smallest needs only the k smallest so far and the new sample |
| `Sampler.BestAreSmallest` | labs/malloclab-handout/fcyc.c:67-88 | the kept values ascend, are part of the samples, and nothing left out is smaller |
| `Sampler.FirstIsLeast` | labs/malloclab-handout/fcyc.c:162 | the first kept value is the least of all samples |
| `Sampler.Sampler.SiftDown` | labs/malloclab-handout/fcyc.c:82-87 | the in-place insertion loop puts the last value behind all not larger and touches nothing beyond |
| `Sampler.Sampler.AddSample` | labs/malloclab-handout/fcyc.c:67-88 | after any number of samples the first min(k, count) values are the smallest of all seen, in order |
| `Sampler.ConvergedIff` | labs/malloclab-handout/fcyc.c:93-98 | comparing the first kept value, scaled, with the k-th is saying that no one of the k smallest exceeds another by more than 1 + epsilon, for 1 + epsilon not negative |
| `Sampler.Sampler.HasConverged` | labs/malloclab-handout/fcyc.c:93-98 | answers yes exactly if at least k samples were taken and no one of the k smallest exceeds another by more than the factor 1 + epsilon |
| `Sampler.Sampler.Init` | labs/malloclab-handout/fcyc.c:50-62 | starts over with no samples |
| `Sampler.Sampler.TakeSample` | labs/malloclab-handout/fcyc.c:144-152 | one turn of the loop takes one sample and goes on exactly if the k smallest are not that close and samples are left |
| `Sampler.Sampler.Fcyc` | labs/malloclab-handout/fcyc.c:129-168 | takes between 1 and max(1, maxsamples) measurements, stops at the first where the k smallest are that close or at maxsamples, and returns the least of those taken |
| `SelectPool.TurnKeepsInv` | server/multi_conecho_server.c:34-45 | every turn keeps read_set = {listenfd} and the occupied slots, slots distinct, occupied indices up to maxi, descriptors up to maxfd |
| `SelectPool.AdmitKeepsInv` | server/multi_conecho_server.c:58-78 | admitting a new positive descriptor keeps that, also when the pool is full and drops it |
| `SelectPool.ServiceKeepsInv` | server/multi_conecho_server.c:80-102 | closing any of the ready clients keeps it |
| `SelectPool.ClosedExactly` | server/multi_conecho_server.c:91-99 | serving takes exactly the ready clients at end of file out of read_set and slots; all others keep their slot |
| `SelectPool.AdmittedExactly` | server/multi_conecho_server.c:61-72 | admitting adds exactly the new client, in a slot that was free |
| `SelectPool.RunKeepsInv` | server/multi_conecho_server.c:34-45 | every run of the loop keeps that relation |
| `SelectPool.FullIff` | server/multi_conecho_server.c:60-62 | a pool has no free slot exactly when it watches FD_SETSIZE + 1 descriptors, the listening one and a client in each slot |
| `SelectPool.NeverFull` | server/multi_conecho_server.c:58-78 | while every watched descriptor is below FD_SETSIZE there is a free slot, so a new client is always admitted |
| `SelectPool.EveryArrivalAdmitted` | server/multi_conecho_server.c:34-45 | in every run whose descriptors are below FD_SETSIZE each arriving client is admitted in its turn: the test for too many clients has nothing to catch |
| `SelectPool.DroppedClient` | server/multi_conecho_server.c:58-78 | without that bound a run fills all slots, and the next client is dropped although the test was to report it |
| `SelectPool.ReadyCount` | server/multi_conecho_server.c:36-59 | nready, less one when the listening descriptor is ready, is the number of ready clients in the slots |
| `SelectPool.ServedExactly` | server/multi_conecho_server.c:85-101 | the clients served in a turn are every ready descriptor but the listening one, once each |
| `SelectPool.ArrivalNotReady` | server/multi_conecho_server.c:38-43 | the client just admitted is not taken for a ready one |
| `SelectPool.Server.constructor` | server/multi_conecho_server.c:48-56 | init_pool: all slots free, only the listening descriptor selected on |
| `SelectPool.Server.AddClient` | server/multi_conecho_server.c:58-78 | the first free slot takes the descriptor, a full pool ignores it, and the test for too many clients inside the loop is never true |
| `SelectPool.Server.ServeReady` | server/multi_conecho_server.c:85-101 | the loop that stops early when nready reaches 0 has still passed every ready client up to there, in slot order |
| `SelectPool.Server.CheckClients` | server/multi_conecho_server.c:80-102 | serves each ready client exactly once, in slot order, ends with nready = 0, and frees the slots of those at end of file |
| `SelectPool.Server.TakeTurn` | server/multi_conecho_server.c:34-45 | one turn of the loop keeps the invariant and ends with nready = 0 |
| `SelectPool.Server.Loop` | server/multi_conecho_server.c:34-45 | any number of turns does |
| `Tokenizer.RoundTrip` | labs/shlab-handout/tsh.c:195-222 | words printed bare or in single quotes, with any numbers of spaces between, are read back as they were, before the words of whatever follows |
| `Tokenizer.UnclosedQuote` | labs/shlab-handout/tsh.c:216-222 | text behind a quote that nothing closes is dropped |
| `Tokenizer.UnclosedWord` | labs/shlab-handout/tsh.c:216-222 | and so is a last word with no space behind it |
| `Tokenizer.TypedIsParsed` | labs/shlab-handout/tsh.c:185-233 | a typed line is parsed to its words, less a last one that begins with '&', dropped exactly when a background job is reported; a blank line reports one too |
| `Tokenizer.WordsByCursor` | labs/shlab-handout/tsh.c:195-222 | walking a pointer through the line finds the words of its remaining text |
| `Tokenizer.Shell.SkipBlanks` | labs/shlab-handout/tsh.c:195-196 | stops at the first character that is not a space, or at the end |
| `Tokenizer.Shell.Strchr` | labs/shlab-handout/tsh.c:200-206 | finds the first occurrence at or behind the pointer, NULL if none |
| `Tokenizer.Shell.Delimit` | labs/shlab-handout/tsh.c:212-221 | finds the start of the next word and its space or closing quote |
| `Tokenizer.Shell.Split` | labs/shlab-handout/tsh.c:208-222 | argv points at the words in order, each ended by a NUL cut into the buffer; later cuts leave earlier words alone |
| `Tokenizer.Shell.Parseline` | labs/shlab-handout/tsh.c:185-233 | argc, the strings argv points at, the closing NULL and the result are those of the words of the line |
| `CString.Strstr` | labs/proxylab-handout/proxy.c:187-205 | the first occurrence of the pattern in the string, NULL if there is none |
| `CString.CutString` | labs/proxylab-handout/proxy.c:193-210 | a NUL written over a character leaves the two parts as strings |
| `ProxyParse.SplitRoundTrip` | labs/proxylab-handout/proxy.c:205-212 | what stands before and behind the first occurrence of a pattern makes up the text again |
| `ProxyParse.HeaderRoundTrip` | labs/proxylab-handout/proxy.c:203-214 | a header line is accepted if and only if it has ": " in it, and name, ": " and value give it back byte for byte, the name ending at the first one |
| `ProxyParse.UriRoundTrip` | labs/proxylab-handout/proxy.c:186-201 | "http://", host, ":", port and path give the uri back; the host has no ':', the port no '/', and the path begins with '/' |
| `ProxyParse.UriPartsAreUnique` | labs/proxylab-handout/proxy.c:186-201 | no other host without ':', port without '/' and path that begins with '/' give it back |
| `ProxyParse.RequestLineFields` | labs/proxylab-handout/proxy.c:223 | split at its spaces the request line sent is GET, the path and HTTP/1.0 |
| `ProxyParse.HeadersRoundTrip` | labs/proxylab-handout/proxy.c:179-228 | parsed headers printed in order are the received lines, byte for byte |
| `ProxyParse.Take` | labs/proxylab-handout/proxy.c:205-211 | cuts the buffer at the first occurrence and copies out what stands before |
| `ProxyParse.ParseHeader` | labs/proxylab-handout/proxy.c:203-214 | the parsed parts of the line, or the exit |
| `ProxyParse.ParseUri` | labs/proxylab-handout/proxy.c:186-201 | exits unless the uri begins with the scheme; else host, port and path are those parts of the original uri, although the buffer was cut twice and mended once |
| `ProxyParse.ParseHeaders` | labs/proxylab-handout/proxy.c:177-183 | all lines up to the blank one are parsed in order, unless one exits |
| `ProxyParse.BuildRequest` | labs/proxylab-handout/proxy.c:223-229 | the block built piece by piece with sprintf and strlen is request line, headers and blank line |
| `ProxyParse.Forward` | labs/proxylab-handout/proxy.c:165-229 | a request that is accepted has its uri split into host, port and path, and is sent on with that path and its header lines byte for byte |

## Left out

- CacheSim.CacheSimulator.Process: age counters and hit counts are unbounded integers; they wrap after 2^31 accesses.
- CacheSim.CacheSimulator.constructor: requires 1 <= s <= 30, E >= 1 and b <= 31, where the shifts of lines 99 and 147-149 are defined and `set[0]` exists.
- CacheSim.CacheSimulator.Simulate: reading the trace file and the text printed for each access are not modelled.
- MissBound.TransposeMisses: counts references to the two matrices only, as the traces of the lab do; stack and code accesses are not part of it.
- Transpose.Matrices.TransposeTiled: generalises the 61x67 nest to every shape by its bounds; the other two nests keep their sizes.
- BoundedBuffer.EveryMaximalRunCompletes: front and rear are unbounded; in C they overflow after 2^31 operations. No fairness is claimed: it speaks of runs that cannot go on.
- ReadersWriters.EveryMaximalRunCompletes: no fairness is claimed; by ReadersWriters.WritersCanStarve none holds for writers.
- ProxyCache.EveryMaximalRunCompletes: says nothing about a writer's waiting time; the write past the array's end has no defined step.
- ProxyCache.LookupsLinearize: requires that no unused slot holds a requested uri, which ProxyLimits.BlankIff shows to be necessary; a hit sends a fixed-size block, of which only the object is modelled; the key leaves out the port, as the source's does.
- ProxyCache.Proxy.constructor: what the allocated memory holds is taken to be strings; without a NUL in it the comparison of line 142 would run on past its end.
- Rio.Echo: where the model reports failure, the wrappers of the source end the program.
- Heap.Allocator.Malloc: for 2^31 bytes and more, requires that the header of line 66 falls inside the storage of memlib.c; beyond it the write is undefined.
- Heap.Allocator.Realloc: for 2^31 bytes and more, requires the same of the copy of line 94.
- Heap.Allocator.constructor: storage is taken at an 8-aligned address, as malloc gives it.
- Driver.Driver.Evaluate: traces are taken as read; utilisation and timing of the driver are not modelled.
- Sampler.ConvergedIff: requires 1 + epsilon not negative, where the comparison means closeness.
- Sampler.Sampler.AddSample: exact real numbers instead of doubles; cache clearing and the counters of `clock.c` are not modelled, both loops of `fcyc` being the same but for those.
- SelectPool.Server.CheckClients: which clients are at end of file is given; what is echoed is left out, since line 87 copies the reader state and drops what it had buffered.
- SelectPool.Server.AddClient: descriptor sets are unbounded; FD_SET on a descriptor of 1024 or more, which SelectPool.DroppedClient needs, is undefined.
- Tokenizer.Shell.Parseline: requires fewer than MAXARGS words and a line shorter than MAXLINE, which the source does not check; argv holds offsets into the buffer.
- ProxyParse.ParseUri: requires a ':' and then a '/' behind the scheme and parts that fit their fields, which the source does not check; header names and values likewise.
- ProxyParse.Forward: the split of the request line by sscanf and the fixed-size write of line 230 are not modelled; lines come as rio_readlineb delivers them.
- Sockets, DNS, pthread and signal wrappers of every `csapp.c`, argument handling and printing in `main`: no property of their own.
- `thread/sbuf.c`: its posts are swapped, so no removal ever completes; the same buffer in `thread/echoserver_pre.c` is modelled.
- `tsh.c` apart from `parseline`: stubs and job-table bookkeeping.
- `labs/datalab-handout/bits.c`, `thread/mutex.c`, `tiny/tiny.c`, `clock.c`, `ftimer.c`: would only add easy members or depend on hardware.
