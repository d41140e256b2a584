# Verified models of the coursework kernels, stores and algorithms

The project models the parts of the repository where correctness is a matter of argument rather than of
plumbing, and proves what they promise. Each part stands alone; `Wrappers.dfy` and `Params.dfy` hold what
they share.

* **The xv6 write-ahead log** (`LogAdmission`, `LogReserve`, `LogRace`, `LogCrash`, `LogHistory`, `BufferCache`,
  `Log`). Admission is a state machine of many processes; the disk is an array of blocks, one `bwrite` is one
  atomic step, and a crash may fall before or after any of them and drops all memory. The class `Log` runs over
  the class `Cache`, whose buffers sit on a doubly linked list, and records every disk image it passes through:
  commit is proved to produce exactly the images that the crash theorems talk about, for one commit
  (`CrashAtomicity`) and for a life of any number of boots and commits (`Durability`). Three results correct an
  expectation. The guard in `log_write` is tighter than the reservation of `begin_op`, so operations that use
  their full budget can panic with the log that `mkfs` lays out; `PanicFreeIff` says for which budgets they
  cannot. That guard is evaluated before `log.lock` is taken, so with the full budget two processes can pass it
  together and list one block more than the log has room for; `StaysInLogIff` says for which budgets they
  cannot. And `commit` needs a buffer that is not pinned; `UnusedIff` says when there is one, and with the log
  of `mkfs` there is one as long as the header is no longer than the guard allows.
* **The shared ring, its windowed clients and the key-value servers** (`RingModel` to `RingProgress`,
  `KvStore`). Every atomic load, store, compare-and-swap and fetch-add, and every word of a copied descriptor,
  is a step of its own, under sequential consistency, for any number of threads and any schedule. The test for a
  full ring in `ring_submit` compares counters that are never reduced and never stops a submission; the ring is
  safe because of the windows of the clients, and `NeverOverflowsIff` says exactly when. Nothing gets stuck:
  `CanFinish` leads from every reachable state to the end of all clients.
* **The K&R allocator** (`FreeList`, `Umalloc`). Memory is an array of header-sized units in which headers and
  payloads live side by side. `Malloc` keeps its promise for requests up to 2^31 - 16 bytes; beyond that the
  size reaches the kernel as a negative number, and near 2^32 it wraps around to a block without payload
  (`RequestsServed`, `HugeRequests`).
* **File blocks** (`FsBlocks`, `BlockMap`, `Fs`, `FileWrite`). Disk blocks are 512 bytes that are read as data,
  as words of an indirect block, or as bits of the free map. Files refine byte sequences.
* **Search and clustering** (`AlphaBeta`, `Puzzle`, `Solvable`, `AStar`, `Hac`), each against a plain
  mathematical specification: minimax, shortest paths, maximum pairwise distances. Every board of the puzzle is
  proved to reach every other, so the search never comes back without a path.
* **The matcher of grep and the shell's parser** (`Regexp`, `ShTokens`, `ShGrammar`, `ShOrder`, `ShParser`),
  against a denotational language and against a grammar.
* **Sleep, wakeup, the kernel mutex, priorities and the scheduler** (`ProcTable`, `KernelMutex`,
  `MutexPriorities`, `MutexRuns`), on any number of CPUs. Steps end where a spinlock is taken or dropped, and at
  every read and write of an elevated value, which no lock protects. That `elevated <= priority` is then not
  true of every run: a nice by a holder breaks it, and so does asking for a third mutex. `BoundedIff` and
  `LendingIff` say under which disciplines that inequality and priority inheritance hold. The range check in
  `sys_nice` can never hold, and the addition before it can overflow (`NiceClamps`).

Code that updates objects in place is modelled by classes, arrays and loops; the methods are tied to functions
about which the lemmas speak. Loops and recursion are proved to end; only the spin loops of concurrent parts are
steps of a state machine instead. `dafny verify dfyconfig.toml` checks
everything. A panic of the kernel or the shell is a result (`None`, `ok == false`, `Panic`) or is excluded by
proof; I/O, clocks, the supply of memory pages and the order in which threads run are parameters.

## Model

| member | source | states |
|---|---|---|
| LogAdmission.RunInv | cs537/P5/xv6/log.c:125-174 | after any interleaving of begin_op, log_write and end_op by any processes, the header plus what the open operations may still log never exceeds LOGSIZE, logged numbers are distinct, and commit runs with no operation open |
| LogAdmission.AppendInv | cs537/P5/xv6/log.c:222-232 | the append of an operation within its budget keeps the reservation bound, absorbed or not, whatever the guard before it has seen |
| LogAdmission.BeginInv | cs537/P5/xv6/log.c:125-141 | admission leaves room for one more full operation beside all open ones |
| LogAdmission.NoPanicBelowPeak | cs537/P5/xv6/log.c:213-233 | when the largest number of blocks that can come together stays below both bounds of the guard, no run panics |
| LogAdmission.PanicAtPeak | cs537/P5/xv6/log.c:213-233 | when it does not, there is a run of operations within their budgets that panics |
| LogAdmission.PanicFreeIff | cs537/P5/xv6/log.c:213-233 | log_write is panic-free in every run exactly when 10 + 2m is below LOGSIZE and below size - 1, m being the blocks an operation may log |
| LogAdmission.MkfsLog | cs537/P5/xv6/mkfs.c:25 | with the log of mkfs the advertised budget MAXOPBLOCKS is one too many; one less is always safe |
| LogRace.RunInv | cs537/P5/xv6/log.c:213-233 | with guard and append as two steps that others may come between, the reservation bound still holds in every run, and no header outgrows 10 + 2m |
| LogRace.Embed | cs537/P5/xv6/log.c:213-233 | every run of the model with one step is a run of the model with two |
| LogRace.PanicFreeIff | cs537/P5/xv6/log.c:213-233 | nobody panics under exactly the same condition |
| LogRace.ToTheBrink | cs537/P5/xv6/log.c:125-141 | operations within their budgets can fill all of the log but one block and have two writers left |
| LogRace.BothPass | cs537/P5/xv6/log.c:213-233 | two writers that pass the guard before either appends list one block more than the log has |
| LogRace.StaysInLogIff | cs537/P5/xv6/log.c:213-233 | the header stays within the log in every run exactly when 10 + 2m is below the size of the log, so the guard contributes nothing to it |
| LogRace.MkfsRace | cs537/P5/xv6/mkfs.c:25 | with the log of mkfs it does not for the full budget, and does for one block less |
| LogReserve.OverflowIff | cs537/P5/xv6/log.c:125-141 | open operations within MAXOPBLOCKS blocks each can go on to log more than the header holds exactly when the shares left do not fit |
| LogReserve.WaitsForCause | cs537/P5/xv6/log.c:125-141 | while no commit runs, begin_op puts a process to sleep exactly when, as far as the header and the number of open operations tell, these and the new one could log more than the header holds |
| LogReserve.AdmittedFits | cs537/P5/xv6/log.c:125-141 | who gets in cannot make the header overflow; who waits could, exactly when the header, the shares not yet used up and the new share exceed LOGSIZE |
| LogReserve.WaitsWithoutNeed | cs537/P5/xv6/log.c:125-141 | a run after which a process waits although it would fit, because begin_op counts full shares for operations that have used theirs up |
| LogReserve.MostOpen | cs537/P5/xv6/log.c:125-141 | in some run LOGSIZE / MAXOPBLOCKS operations are open at once, and in no run more |
| LogCrash.HeadRoundTrip | cs537/P5/xv6/log.c:84-113 | the header read back is the header written, whatever stale words lie behind it |
| LogCrash.InstallKeepsMeaning | cs537/P5/xv6/log.c:68-82 | installing any number of logged blocks changes no block as a recovered disk shows it |
| LogCrash.ClearKeepsMeaning | cs537/P5/xv6/log.c:115-122 | after a full installation the header can be cleared: the home blocks hold what the log meant |
| LogCrash.PutHeadCommits | cs537/P5/xv6/log.c:98-113 | the header write is the commit point: it switches the meaning of the disk from old to new |
| LogCrash.CommitMeaning | cs537/P5/xv6/log.c:192-202 | after each number of commit's writes, the disk means all old contents or all new ones |
| LogCrash.CrashAtomicity | cs537/P5/xv6/log.c:192-202 | a crash anywhere in commit, then any number of crashes inside recovery, then a full recovery: the home blocks are all old or all new, and new exactly when the first header write reached the disk |
| LogCrash.RecoveryRestarts | cs537/P5/xv6/log.c:115-122 | recovery cut off anywhere and run again leaves the very disk of one undisturbed recovery |
| LogCrash.CrashesDoNotShow | cs537/P5/xv6/log.c:115-122 | the same for any number of interrupted recoveries |
| LogCrash.CommitTraceIs | cs537/P5/xv6/log.c:177-202 | the images of commit are those of write_log, then the header, then exactly those of a recovery |
| LogHistory.TraceMeans | cs537/P5/xv6/log.c:192-202 | after any number of writes of any sequence of commits the disk means exactly the commits whose first header write is among them |
| LogHistory.BootMeans | cs537/P5/xv6/log.c:53-66 | the same for a boot that starts on any good disk, so that the cut may also fall into its recovery |
| LogHistory.CommitNext | cs537/P5/xv6/log.c:192-202 | one more commit appends its images to those of the boot |
| LogHistory.LatestOfTwo | cs537/P5/xv6/log.c:192-202 | of two runs of commits the later one that logged a block decides its contents |
| LogHistory.Durability | cs537/P5/xv6/log.c:53-202 | over any number of boots, each cut off after any write, a completed recovery leaves in every home block what the last commit that listed it wrote, among exactly those whose first header write reached the disk, else what it held at first |
| RingList.Unlink | cs537/P5/xv6/bio.c:129-136 | taking a node out leaves one cycle in both directions through the others in order |
| RingList.LinkFront | cs537/P5/xv6/bio.c:49-56 | linking a node behind the head leaves one cycle with the node first |
| BufferCache.Cache.constructor | cs537/P5/xv6/bio.c:38-56 | binit leaves all buffers on one list, unused and unlocked |
| BufferCache.Cache.Bget | cs537/P5/xv6/bio.c:58-93 | gives the only buffer of the block, else the least recently used one that is neither referenced nor dirty, so no dirty one is lost; none exactly when there is no such buffer; the caller has to sleep exactly when somebody else has the lock; no other buffer changes |
| BufferCache.Cache.Iderw | cs537/P5/xv6/memide.c:38-60 | a dirty buffer is written to its block, any other is filled from it; then it is valid and clean |
| BufferCache.Cache.Brelse | cs537/P5/xv6/bio.c:118-141 | drops one reference and moves an unreferenced buffer to the front; the list stays a permutation of all buffers |
| BufferCache.TakenKeepsGood | cs537/P5/xv6/bio.c:58-93 | taking the buffer of the block, or recycling an unused one when there is none, keeps at most one buffer per block, locks counted, and dirty buffers valid |
| Log.BreadCoherent | cs537/P5/xv6/bio.c:95-106 | whatever bread returns is the last data of the block: pending if it was logged, else the disk's |
| Log.LogWriteCoherent | cs537/P5/xv6/log.c:213-233 | log_write pins the buffer, so its data stay what the cache returns until they are installed |
| Log.UnusedIff | cs537/P5/xv6/bio.c:58-93 | while nobody refers to a buffer, one can be recycled exactly when fewer than NBUF blocks are pending |
| Log.MkfsLeavesABuffer | cs537/P5/xv6/log.c:217-218 | with the log of mkfs that is so when commit starts with a header no longer than the guard of log_write allows |
| Log.Log.WriteLog | cs537/P5/xv6/log.c:176-190 | the log area receives the pending data in the order of the header, image by image |
| Log.Log.WriteHead | cs537/P5/xv6/log.c:98-113 | the disk header becomes the one in memory, in one write |
| Log.Log.InstallTrans | cs537/P5/xv6/log.c:68-82 | each logged block is copied home in order and its buffer unpinned |
| Log.Log.Commit | cs537/P5/xv6/log.c:192-202 | passes through exactly the images of the crash theorem, leaves every pending block at home, empties the log, and adds exactly this transaction to the history of the boot |
| Log.Log.RecoverFromLog | cs537/P5/xv6/log.c:115-122 | passes through exactly the images of recovery and ends with the recovered disk and an empty log |
| Log.Log.LogWrite | cs537/P5/xv6/log.c:213-233 | takes the step of the admission model, panicking when it does, and adds the buffer's data to the pending ones |
| Log.Log.BeginOp | cs537/P5/xv6/log.c:125-141 | sleeps or is admitted as in the admission model |
| Log.Log.EndOp | cs537/P5/xv6/log.c:143-174 | the last operation out is the one that commits |
| Log.Log.EndOpCommit | cs537/P5/xv6/log.c:143-174 | what the last operation out does then: every pending block reaches its home, the header is empty, and admission is open again, as in the Committed step of the admission model |
| Log.Log.CrashAnywhere | cs537/P5/xv6/log.c:53-202 | at any time, power failing after any write since power-on leaves a disk that means what it did at power-on and the commits of the running log whose first header write it has seen |
| Log.InitLog | cs537/P5/xv6/log.c:53-66 | booting on any good disk installs what was committed and starts with an empty log and an empty history |
| RingSteps.ClientInv | cs537/P6/client.c:256-327 | each atomic step of a client keeps the invariant of ring, windows and board |
| RingSteps.ServerInv | cs537/P6/kv_store.c:147-180 | each atomic step of a server keeps it |
| RingSteps.CasStep | cs537/P6/ring_buffer.c:47-50 | a won compare-and-swap makes one new ticket, which nobody else has |
| RingSteps.GetCasStep | cs537/P6/ring_buffer.c:91-95 | a server that wins takes the next ticket, published and taken by no other |
| RingSteps.ReachableInv | cs537/P6/ring_buffer.c:28-117 | the invariant holds after every schedule |
| RingSteps.Run | cs537/P6/ring_buffer.c:28-117 | every schedule can be executed: no step of any thread leaves the ring, the board or its own arrays |
| RingSafety.Occupancy | cs537/P6/client.c:256-275 | live tickets occupy different windows, so there are at most as many as windows |
| RingSafety.RingSlotsDiffer | cs537/P6/ring_buffer.c:52-53 | two live tickets never share a slot of the buffer, so nothing is overwritten while it is copied |
| RingSafety.WindowsDiffer | cs537/P6/client.c:262-270 | two outstanding requests never share a slot of the status board |
| RingTheorems.FlowControl | cs537/P6/client.c:256-327 | in every reachable state the counters are in order, p_head - c_tail is at most threads times windows, nxt_comp is last_completed modulo the window size, and outstanding requests have different slots |
| RingTheorems.ExactlyOnce | cs537/P6/ring_buffer.c:28-117 | a server holds the very descriptor submitted under its ticket; no ticket is held or served twice, none is lost |
| RingTheorems.ResultsAnswer | cs537/P6/client.c:284-327 | res[i] answers reqs[i], with the value of the last PUT to the key that was served before, however the servers overtake each other |
| RingTheorems.LookupIsLastPut | cs537/P6/kv_store.c:85-131 | what the store holds for a key is the value of the last PUT to it, 0 without one |
| RingTheorems.FullTestIsStale | cs537/P6/ring_buffer.c:38-45 | submission goes back exactly when the loaded head is one below c_tail, and then that head is stale and the compare-and-swap would have failed anyway |
| RingTheorems.FillAll | cs537/P6/client.c:256-275 | there is a schedule in which all windows are in the ring at once |
| RingTheorems.NeverOverflowsIff | cs537/P6/ring_buffer.c:28-68 | the ring never holds more than RING_SIZE tickets exactly when all windows that can be in use together fit into it |
| RingProgress.TakesNext | cs537/P6/ring_buffer.c:74-117 | when everything taken has been released and a ticket is published, a server that looks for work and runs alone reaches the store with that ticket and the descriptor submitted under it |
| RingProgress.Advance | cs537/P6/client.c:256-327 | in every state with the invariant somebody can bring something forward: publish, release, serve, take, submit, acknowledge or finish |
| RingProgress.CanFinish | cs537/P6/client.c:256-327 | from every reachable state some schedule ends with every client finished and every request answered in its place |
| KvStore.HashTable.Insert | cs537/P6/kv_store.c:70-99 | the table becomes the old map with the key set, whether the chain had it or not |
| KvStore.HashTable.Search | cs537/P6/kv_store.c:102-124 | returns the value of the map, 0 for a missing key |
| KvStore.FindAfterStore | cs537/P6/kv_store.c:78-87 | overwriting a node changes lookups of its key only |
| KvStore.FindInLonger | cs537/P6/kv_store.c:88-96 | a new node does not disturb any old chain |
| FreeList.InsertOrdered | cs537/P5/xv6/umalloc.c:33-42 | freeing a block keeps address order and leaves no two free blocks adjacent, in all four cases of coalescing |
| FreeList.InsertUnits | cs537/P5/xv6/umalloc.c:33-42 | freeing adds exactly the block's units to the free ones |
| FreeList.TakeOrdered | cs537/P5/xv6/umalloc.c:75-82 | cutting the tail of a block off keeps the order, and the cut overlaps no free block |
| FreeList.TakeUnits | cs537/P5/xv6/umalloc.c:75-82 | cutting moves exactly its units out of the free ones |
| FreeList.TakeThenInsert | cs537/P5/xv6/umalloc.c:24-90 | freeing what was just allocated gives the old list back |
| FreeList.StopsAtGap | cs537/P5/xv6/umalloc.c:30-32 | free()'s search stops at one block of the circle and at no other: the one behind which the freed block belongs |
| Umalloc.FreeKeepsSound | cs537/P5/xv6/umalloc.c:24-44 | after free, free blocks and blocks in use still overlap nowhere and make up exactly the units from sbrk |
| Umalloc.TakeKeepsSound | cs537/P5/xv6/umalloc.c:75-84 | after an allocation they do, and the new block is none of the old ones |
| Umalloc.GrowKeepsSound | cs537/P5/xv6/umalloc.c:46-61 | units added at the break are fresh |
| Umalloc.InsertLinked | cs537/P5/xv6/umalloc.c:33-42 | the stores of free() link the new free list into one circle |
| Umalloc.TakeLinked | cs537/P5/xv6/umalloc.c:75-82 | so do the stores of malloc |
| Umalloc.Allocator.FindGap | cs537/P5/xv6/umalloc.c:30-32 | the circular search ends, at the gap |
| Umalloc.Allocator.Free | cs537/P5/xv6/umalloc.c:24-44 | memory is the circle of the list with the block put back; freep stands before it; no other block in use changes, header or payload |
| Umalloc.Allocator.Sbrk | cs537/P5/xv6/proc.c:161-181 | grants units at the break for a positive request if memory and address space allow, and is refused otherwise; a request that is not positive adds nothing, and one for minus the whole process is refused |
| Umalloc.Allocator.Morecore | cs537/P5/xv6/umalloc.c:46-61 | obtains the chunk and puts it into the list, is refused, or, from 2^28 units on, is given nothing, but for the one size that wraps to minus the whole process, which is refused |
| Umalloc.Allocator.Malloc | cs537/P5/xv6/umalloc.c:63-90 | ends after at most one morecore; cuts from the first fit behind the rover, in the list or in the list with the new chunk; fails exactly when nothing fits and the kernel refuses; other blocks keep their bytes; a returned block covers the request exactly up to 2^31 - 16 bytes, up to there no header is ever stored above the break, and from there to 2^32 - 8 no block is returned |
| Umalloc.ChunkFits | cs537/P5/xv6/umalloc.c:86-88 | after a successful morecore the walk meets a fitting block, also when the chunk has coalesced into freep |
| Umalloc.Allocator.Store | cs537/P5/xv6/umalloc.c:8-18 | whatever the program stores into the payload of a block it holds, the list and all headers stay as they are |
| Umalloc.Conservation | cs537/P5/xv6/umalloc.c:24-90 | free and used sizes add up to the units obtained |
| Umalloc.UnitsEnough | cs537/P5/xv6/umalloc.c:69 | the rounded size covers the request exactly for at most 2^32 - 8 bytes, and no smaller one would |
| Umalloc.SbrkSeesPositive | cs537/P5/xv6/umalloc.c:54 | the kernel sees a positive number exactly below 2^28 units |
| Umalloc.RequestsServed | cs537/P5/xv6/umalloc.c:63-90 | both hold exactly for requests up to 2^31 - 16 bytes |
| Umalloc.HugeRequests | cs537/P5/xv6/umalloc.c:63-90 | the first request beyond, and the largest one, as examples |
| AlphaBeta.BestOfIsMaximum | cs540/hw9/game.py:281-300 | the value of a maximising node bounds those of its successors and is one of them |
| AlphaBeta.MinimaxIs | cs540/hw9/game.py:281-321 | minimax is the outcome of a decided position, the heuristic at depth three, else maximum or minimum over the successors |
| AlphaBeta.SeesThreePlies | cs540/hw9/game.py:281-321 | games that look alike three plies ahead have the same value |
| AlphaBeta.MaxValue | cs540/hw9/game.py:281-300 | for every state, depth and window: upper bound, exact minimax or lower bound; exact for the infinite window; the move returned is the first successor that achieves the value, or justifies the cut |
| AlphaBeta.MinValue | cs540/hw9/game.py:302-321 | the same for the minimising side |
| Puzzle.MoveChangesByOne | cs540/hw8/funny_puzzle.py:7-39 | every move changes the estimate by exactly one, up or down |
| Puzzle.TileDistance | cs540/hw8/funny_puzzle.py:7-39 | the share of each tile is the least number of steps between neighbouring cells from its cell to its cell in the goal |
| Puzzle.Consistent | cs540/hw8/funny_puzzle.py:7-39 | one move lowers the estimate by at most one |
| Puzzle.ZeroAtGoal | cs540/hw8/funny_puzzle.py:7-39 | it is zero at the goal only |
| Puzzle.GetManhattanDistance | cs540/hw8/funny_puzzle.py:7-39 | the loop computes the estimate, the sum of these shares |
| Puzzle.MoveIsReversible | cs540/hw8/funny_puzzle.py:101-129 | every move can be undone by a move |
| Puzzle.GetSucc | cs540/hw8/funny_puzzle.py:79-155 | exactly the boards one legal move away, each once, sorted |
| Puzzle.LessMeans | cs540/hw8/funny_puzzle.py:155 | the order of the boards is decided by their first difference |
| AStar.Admissible | cs540/hw8/funny_puzzle.py:235-239 | the estimate never exceeds the moves left on any path to the goal |
| AStar.Improve | cs540/hw8/funny_puzzle.py:233-267 | a better way to a state keeps links, queue and closed states consistent |
| AStar.Pop | cs540/hw8/funny_puzzle.py:201 | an outdated queue entry belongs to a state whose successors are all settled |
| AStar.Optimal | cs540/hw8/funny_puzzle.py:205-211 | when the goal is popped no path to it is shorter than its g |
| AStar.Exhausted | cs540/hw8/funny_puzzle.py:199-201 | when the queue is empty no path leads to the goal |
| AStar.ChainIsShortest | cs540/hw8/funny_puzzle.py:281-289 | the chain of predecessors is a legal path of g moves, and g counts along it |
| Solvable.Homecoming | cs540/hw8/funny_puzzle.py:101-129 | from every board moves lead to one with both blanks in the last two cells |
| Solvable.Exchange | cs540/hw8/funny_puzzle.py:101-129 | on such a board moves exchange any two tiles that follow each other, and nothing else |
| Solvable.Connected | cs540/hw8/funny_puzzle.py:281-289 | moves lead from every board to every other one, so following the links back from the goal never fails |
| AStar.Solve | cs540/hw8/funny_puzzle.py:159-305 | for every start and goal, prints a shortest legal path, each board with its estimate and the number of moves so far |
| Hac.FarthestOfUnion | cs540/hw4/hw4.py:83-85 | the larger of two linkages is the linkage of the union |
| Hac.MergeIsGood | cs540/hw4/hw4.py:60-77 | the smallest matrix entry is a closest pair of live clusters, no lower than the previous one, and the recorded size is the number of points |
| Hac.MergeKeepsState | cs540/hw4/hw4.py:59-87 | a merge keeps the matrix the complete linkage of the live clusters and keeps these a partition with recorded sizes |
| Hac.FindMin | cs540/hw4/hw4.py:62-68 | the scan finds a minimum, the first one in its order, above the diagonal |
| Hac.JoinRows | cs540/hw4/hw4.py:79-87 | the in-place maxima and the deletions give the matrix of the merged clusters |
| Hac.Hac | cs540/hw4/hw4.py:27-92 | the n - 1 rows are a complete-linkage dendrogram of the points, and the last cluster has all of them |
| Hac.MergedOnce | cs540/hw4/hw4.py:70-77 | no cluster appears in two rows |
| Hac.HeightsRise | cs540/hw4/hw4.py:76 | the heights never decrease |
| FsBlocks.WordPut | cs537/P5/xv6/fs.c:390-393 | a word written into a block is read back, and no other word changes |
| FsBlocks.LittleEndian | cs537/P5/xv6/fs.c:390-393 | the bytes of a word stand least significant first, and the other bytes stay |
| FsBlocks.BitAfter | cs537/P5/xv6/fs.c:66-68 | setting or clearing one bit of the free map changes that bit only |
| Fs.InodesFillBlocks | cs537/P5/xv6/mkfs.c:84 | with twelve direct addresses inodes fill their blocks exactly |
| BlockMap.FileBlocksAreSlots | cs537/P5/xv6/fs.c:372-400 | the block numbers below MAXFILE are exactly the slots of a row but for the indirect one, each once |
| BlockMap.OneOwner | cs537/P5/xv6/fs.c:372-400 | a block is in at most one slot of one inode or indirect block |
| BlockMap.AssignOwned | cs537/P5/xv6/fs.c:378-396 | a new block in an empty slot keeps slots and owners one relation |
| BlockMap.BlocksAreSlots | cs537/P5/xv6/fs.c:407-435 | the blocks that truncation frees are the non-zero slots of the inode, all of them |
| BlockMap.EmptyOwned | cs537/P5/xv6/fs.c:407-435 | emptying an inode removes exactly its blocks |
| Fs.FileSystem.Balloc | cs537/P5/xv6/fs.c:55-78 | the first free block, marked and zeroed, nothing else changed; none exactly when all are in use |
| Fs.FileSystem.Bfree | cs537/P5/xv6/fs.c:80-95 | clears the bit of the block, any block of the disk, and panics exactly when it is clear, and logs the block of the free map that it changes |
| Fs.FileSystem.Bmap | cs537/P5/xv6/fs.c:370-400 | the block of the slot; when it had to be allocated, ownership, bitmap and the bytes of every file are kept; otherwise nothing at all changes |
| Fs.FileSystem.Itrunc | cs537/P5/xv6/fs.c:402-435 | frees exactly the inode's blocks, never meets a free one, touches no data and no other inode, and logs every block that it changes, the inode among them |
| Fs.FileSystem.Readi | cs537/P5/xv6/fs.c:449-476 | returns the bytes of the file that are there, allocates nothing and changes nothing |
| Fs.FileSystem.Writei | cs537/P5/xv6/fs.c:478-511 | splices the bytes into the file, across block and indirect boundaries, or fails and does nothing; no other file changes; the inode on disk stays the one in core; every block that changes is logged, and only the listed ones are |
| FileWrite.ChunkFits | cs537/P5/xv6/file.c:127-146 | a chunk at any offset logs at most seven different blocks when one bitmap block covers the disk |
| FileWrite.ChunksNeverFillTheLog | cs537/P5/xv6/file.c:127-133 | operations of that size never make log_write panic nor outgrow the log, even with the log of mkfs and with the guard outside the lock |
| FileWrite.SpliceTwice | cs537/P5/xv6/file.c:135-152 | writing piece after piece is writing at once |
| FileWrite.SplicedRead | cs537/P5/xv6/fs.c:449-511 | what was written is read back |
| FileWrite.File.FileRead | cs537/P5/xv6/file.c:96-113 | returns the bytes at the offset and advances it by their number |
| FileWrite.File.FileWrite | cs537/P5/xv6/file.c:117-156 | all of the source is spliced in, or a stated part before the file would grow too large; each transaction fits and there are no more than the pieces of three blocks need; the short write never happens |
| ProcTable.ClampIsNearest | cs537/P5/xv6/sysproc.c:124-132 | a value out of range goes to its nearest limit, -20 or 19 |
| ProcTable.NiceClamps | cs537/P5/xv6/sysproc.c:119-136 | the priority is moved into the range as documented exactly when the sum does not overflow |
| ProcTable.NiceOverflows | cs537/P5/xv6/sysproc.c:124-132 | an increment for which it is not: the sum wraps around and the lowest priority becomes the highest |
| ProcTable.SysNice | cs537/P5/xv6/sysproc.c:109-138 | changes the caller only, to a priority in range with the same elevated value |
| ProcTable.Wakeup1 | cs537/P5/xv6/proc.c:569-576 | exactly the sleepers on the channel become runnable |
| ProcTable.Schedule | cs537/P5/xv6/proc.c:408-458 | starts a runnable process of least elevated value, with the tie rule of the rotation |
| KernelMutex.AdvanceInv | cs537/P5/xv6/sysproc.c:109-186 | each step of nice, macquire, mrelease, sleep and wakeup keeps the invariant; the comparison with the holder takes two reads, the raise a read and a store, and nice an addition, a clamping and a store |
| KernelMutex.Safe | cs537/P5/xv6/proc.c:532-585 | in every run one process at most holds a mutex, elevated stays in -20 to 19 and so does priority but for the sum inside nice, a process without a mutex runs at its own priority, and a process sleeps on a free mutex only while its mrelease has not yet called wakeup |
| KernelMutex.CallsReturn | cs537/P5/xv6/sysproc.c:109-186 | in every run, when a step takes a process back to user code, the call it made last has done its work: after macquire it holds the mutex, after mrelease not, and the spinlock is dropped; nice has made its new priority its elevated value |
| MutexPriorities.RaisesDown | cs537/P5/xv6/sysproc.c:153-157 | when nice is called by processes without a mutex and macquire by holders of at most one, a raise stays below the priority of the holder and does not undo a raise of one that is in macquire itself |
| MutexPriorities.BelowStays | cs537/P5/xv6/sysproc.c:153-157 | between the comparison and the store no other process moves the holder below the value to be stored |
| MutexPriorities.Inheritance | cs537/P5/xv6/sysproc.c:150-160 | with one mutex at a time and no nice by holders, every step keeps priority inheritance |
| MutexRuns.BoundedRuns | cs537/P5/xv6/sysproc.c:109-186 | in every run from the start under the first discipline, elevated <= priority for everybody outside nice |
| MutexRuns.NiceBreaksBound | cs537/P5/xv6/sysproc.c:124-157 | a run in which a holder calls nice between the comparison and the store of a waiter, and then runs below its own priority |
| MutexRuns.ThirdMutexBreaksBound | cs537/P5/xv6/sysproc.c:142-157 | a run without nice that ends so, because a process that holds two mutexes and asks for a third reads its own value twice |
| MutexRuns.BoundedIff | cs537/P5/xv6/sysproc.c:109-186 | the inequality holds in every run exactly when nice needs no mutex held and macquire at most one |
| MutexRuns.HoldersInherit | cs537/P5/xv6/sysproc.c:142-186 | in every run from the start with one mutex at a time and no nice by holders, a holder runs at least as urgently as everyone who waits for it, until it starts to release |
| MutexRuns.BlockingRuns | cs537/P5/xv6/sysproc.c:142-157 | left alone, a process that asks for a taken mutex and is more urgent than its holder gives the holder its own elevated value, and sleeps |
| MutexRuns.YieldingRuns | cs537/P5/xv6/sysproc.c:142-157 | one that is not more urgent, the holder itself included, sleeps without a store |
| MutexPriorities.NestedRelease | cs537/P5/xv6/sysproc.c:176-180 | resetting the value on the release of another mutex keeps this exactly when no waiter is more urgent than the holder's own priority |
| MutexRuns.NestedReleaseLoses | cs537/P5/xv6/sysproc.c:165-186 | a run from the start after which it does not hold: a holder of two mutexes releases one and falls behind the process that waits for the other |
| MutexPriorities.NiceWhileHolding | cs537/P5/xv6/sysproc.c:124-135 | the store of nice while holding keeps it exactly when no waiter is more urgent than the new priority |
| MutexRuns.NicingRuns | cs537/P5/xv6/sysproc.c:124-135 | undisturbed, the steps of nice do what sys_nice does |
| MutexRuns.NiceLoses | cs537/P5/xv6/sysproc.c:109-138 | and one in which nice by nothing does the same |
| MutexRuns.LendingIff | cs537/P5/xv6/sysproc.c:109-186 | inheritance holds in every run exactly when neither nice nor macquire is called by a process that holds a mutex |
| MutexRuns.ResumingRuns | cs537/P5/xv6/sysproc.c:142-163 | a woken sleeper that is dispatched while the mutex is free takes it |
| MutexRuns.Handover | cs537/P5/xv6/sysproc.c:142-186 | a run from the start in which a sleeper is woken by mrelease and ends up with the mutex |
| Regexp.OneMatches | cs537/P5/xv6/grep.c:93-94 | a literal or dot in front matches exactly when the first character does and the rest matches |
| Regexp.StarMatches | cs537/P5/xv6/grep.c:98-106 | a starred character in front matches exactly when some run of it is followed by a match |
| Regexp.MatchHere | cs537/P5/xv6/grep.c:84-96 | true exactly when a prefix of the text is in the language of the pattern |
| Regexp.MatchStar | cs537/P5/xv6/grep.c:98-106 | the same behind a starred character |
| Regexp.Match | cs537/P5/xv6/grep.c:72-82 | true exactly when a substring, or a prefix for a pattern that starts with ^, is in the language |
| ShTokens.GetToken | cs537/P5/xv6/sh.c:265-308 | returns the next token with its ends and leaves the cursor before the rest |
| ShTokens.Peek | cs537/P5/xv6/sh.c:310-320 | looks at the first character of the next token and consumes spaces only |
| ShTokens.LexWords | cs537/P5/xv6/sh.c:295-299 | a word is not empty, has no space and no symbol in it, and ends before one |
| ShTokens.LexIff | cs537/P5/xv6/sh.c:262-308 | the tokens of a text are the only ones that, with spaces between, spell it |
| ShGrammar.ParseIff | cs537/P5/xv6/sh.c:327-446 | recursive descent accepts exactly the token lists of the grammar, with the command they mean |
| ShGrammar.Unambiguous | cs537/P5/xv6/sh.c:327-446 | a line has one meaning |
| ShOrder.SimpleInOrder | cs537/P5/xv6/sh.c:374-446 | the arguments of a simple command are the words that follow no redirection symbol, its redirections the pairs of symbol and word, in the order of the line |
| ShOrder.SimpleIff | cs537/P5/xv6/sh.c:415-446 | tokens make a simple command exactly when each redirection symbol is followed by a word, nothing else occurs, and there are nine arguments at most |
| ShOrder.LineOrder | cs537/P5/xv6/sh.c:327-446 | the same for the programs of a whole line, from left to right: `<` opens descriptor 0 for reading, `>` and `>>` descriptor 1 for writing |
| ShParser.ParseLine | cs537/P5/xv6/sh.c:344-359 | the parser over the moving cursor ends and agrees with the one on tokens, result, panic and place |
| ShParser.ParsePipe | cs537/P5/xv6/sh.c:361-372 | so does parsepipe |
| ShParser.ParseRedirs | cs537/P5/xv6/sh.c:374-397 | so does parseredirs |
| ShParser.ParseBlock | cs537/P5/xv6/sh.c:399-413 | so does parseblock |
| ShParser.ParseExec | cs537/P5/xv6/sh.c:415-446 | so does parseexec |
| ShParser.NulTerminate | cs537/P5/xv6/sh.c:448-493 | writes a NUL behind every word of the command and nowhere else |
| ShParser.LineWords | cs537/P5/xv6/sh.c:374-446 | the words of the command are the words of the line, all of them |
| ShParser.WordReads | cs537/P5/xv6/sh.c:448-493 | no terminator falls inside a word, so each reads up to its NUL as its own text |
| ShParser.ParseCmd | cs537/P5/xv6/sh.c:327-342 | returns the command that the line means, every string in it readable; panics exactly when the line means none |

## Left out

- Hardware, boot, interrupts and drivers: only the block transfer of the memory disk is modelled.
- Weak memory: atomics and plain accesses of the ring and the store are sequentially consistent; counters do not wrap around at 2^32.
- Liveness: spin loops, the rotation of the scheduler and starvation; concurrent parts are proved safe, and able to make progress under some schedule, not under every one.
- KvStore.HashTable.Insert: one thread at a time; in the ring model put and get are atomic steps on a map, so races inside a bucket are not covered.
- Log.Log.Commit: other processes do not use the cache while commit or recovery runs; there the sleep locks of buffers are free when taken.
- Log.Log.LogWrite: guard and append are one step here; LogRace has them as two, without contents. An operation stays within MAXOPBLOCKS distinct blocks, as the source asks of it; the calls of file-system operations between begin_op and end_op are arbitrary, not those of particular system calls.
- Umalloc.Allocator.Malloc: the process break is a multiple of the header size, which exec establishes; after a request that reaches the kernel as negative, nothing more is claimed, since the kernel may have unmapped pages of the process.
- Umalloc.Allocator.Free: a pointer that malloc did not return, or that was freed before, is outside its contract, as in the source.
- Fs.FileSystem.Balloc: a full disk, on which the source panics, ends the operation without a claim about the files.
- Fs.FileSystem.Itrunc: inodes are an array, in core and on disk; ialloc, iget, iput, directories, names and device files are not modelled, and mkfs is represented by the precondition of the constructor.
- FileWrite.File.FileWrite: pipes are not modelled; the bound on a transaction is stated for disks of at most 4096 blocks, larger than those of mkfs; a larger one may touch more bitmap blocks.
- AlphaBeta.MaxValue: succ, the winner test and the heuristic of the game are parameters; rounding is left out, values are reals with infinities. The move at the depth limit is the position itself.
- Hac.Hac: distances are a symmetric function into the reals; reading the features, rounding and plotting are left out.
- AStar.Solve: the order of the heap is that of tuples, its array layout is not modelled; the maximum queue length that is printed is left out.
- KernelMutex.Safe: processes do not exit while they hold a mutex, and only holders call mrelease; fork, exit and the reuse of table slots are left out.
- ProcTable.Schedule: one choice of the scheduler; context switches and idle loops are left out.
- ShParser.ParseCmd: command nodes are values, so the argument vector that the parser fills through a pointer inside redirections is rebuilt instead; running the commands is left out.
- Regexp.Match: grep's line buffering is left out.
- The other xv6 trees in P4 and P5 repeat the files modelled here; wmap, the FUSE file system, the wish shell, user utilities, mkfs and the remaining cs540 scripts are left out.
