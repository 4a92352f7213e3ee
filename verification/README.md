# Verified models of the exercise programs

The repository is a set of small C programs that work through the exercises of
a book on the Linux programming interface. Its own README says that the later
ones were mostly not checked and may have small bugs. This project models the
programs whose algorithms can be stated and proved, and proves what each is
meant to guarantee: a boundary-tag heap, concurrent insertion into a tree, a
chat over message queues, an unsynchronised counter, buffered line reading, two
kinds of semaphore, one-time initialisation, and four sequential programs.

`dafny verify dfyconfig.toml` checks everything.

## How the programs are modelled

| file | program | form |
|---|---|---|
| BlockList, LiveBlocks, Tags, Allocator, AllocatorAsWritten | 7-2-my_malloc_free.c | `Allocator.Heap` is a class over an array of words, with the macros as functions on it. BlockList says what each call does to the list of blocks, LiveBlocks what a caller sees of it, Tags how the list is written in memory. |
| SearchTree, ConcurrentTree, Pigeonhole | 30-2-thread-safe_binary-tree.c | any number of threads, one step at each lock, comparison, move, link and unlock |
| Talk | 46-6-talk_server.c, 46-6-talk_client.c | queues, roster and clients as a transition system |
| Counter | 30-1-changed_simple_thread.c | two threads, one step at each read and write of `glob` |
| ReadLine | 59-1-readLine.c | a class with the linked buffers in memory, by address, and the streams that `read` cuts into chunks at will, by an arbitrary plan; a freed node is no longer in memory, so that no path reads one |
| Semaphores | 47-4-reserverSemNB.c, 47-6-binary_sem_fifo.c | any number of processes over a kernel semaphore, and over the bytes in a FIFO |
| OneTimeInit | 31-1-one_time_init.c | any number of threads, with the start and the end of `init` as two steps |
| ProcessTree | 12-2-print_process_tree.c | a class over arrays of next pointers; a node is named by its pid |
| Tail | 13-5-my_tail.c | a class with the ring of line buffers |
| Getcwd | 18-5-my_getcwd.c | a class with the current directory, over a directory tree |
| Copy | 4-2-cp.c | a class with the write buffer, the zero count and the destination file |

Where a program changes state, its methods are proved against functions of the
old state, and the theorems are about those functions. In the concurrent
programs the theorems are about every schedule.

Every lemma switches automatic induction off; each induction is written out.

Sequences holds two functions that several files use.

## Repairs

The models follow the program except at the slips listed here. Each repaired
line carries a comment that starts with REPAIR. What some of the slips cost is
proved too, as an exact condition: see the members with AsWritten in their name
or module.

- 7-2-my_malloc_free.c: 40 (the epilogue is one word too far), 44-45 (the first
  block is tagged allocated), 52 (the epilogue is tested instead of the last
  block), 75 (an allocated block is looked for), 78 (one chunk is added whatever
  is asked for), 89 (only small requests are rounded up), 93-100 (an exact fit
  stays free), 109 (the size is read from the payload), 111 and 116 (the block
  itself is tested instead of its neighbours).
- 30-2-thread-safe_binary-tree.c: 47 and 57 (a lock is kept for ever);
  `initialize` returns the root.
- 59-1-readLine.c: 48 (`cur` never advances, and is indexed wrongly after a
  refill), 52-57 (a freed node is read), 54 (the predecessor of a new node).
- 12-2-print_process_tree.c: 27 (a placeholder is never filled in).
- 13-5-my_tail.c: 89 (the first line to print is left out).
- 18-5-my_getcwd.c: 62 (the root gives no string).
- 4-2-cp.c: 53 (the write buffer overflows), 59-63 (zeros at the end are lost).
- 47-6-binary_sem_fifo.c: `mkfifo` returns no descriptor; the FIFO is taken to
  be open.

## Model

| member | source | states |
|---|---|---|
| Allocator.Heap.MmInit | 7-2-my_malloc_free.c:37-47 | leaves a heap of one free block between prologue and epilogue, or nothing when the break cannot move |
| Allocator.Heap.WalkForward | 7-2-my_malloc_free.c:17 | NEXT_BLKP from the prologue steps through the blocks in order and meets list_end after the last one and not before; sizes sum to the heap less 16 bytes |
| Allocator.Heap.WalkBack | 7-2-my_malloc_free.c:16-18 | PREV_BLKP undoes NEXT_BLKP, and each footer repeats its header |
| Tags.PackRoundTrip | 7-2-my_malloc_free.c:11-14 | GET_SIZE and GET_ALLOC recover what PACK packed |
| Tags.MaskClears | 7-2-my_malloc_free.c:13 | GET_SIZE rounds a word down to a multiple of 8 |
| Tags.OddIsLowBit | 7-2-my_malloc_free.c:14 | GET_ALLOC is the lowest bit of a word |
| BlockList.AlignedIs | 7-2-my_malloc_free.c:8-12 | the addresses at which words may be read and written are the multiples of WSIZE |
| BlockList.UnitsForIs | 7-2-my_malloc_free.c:88-89 | the units of a request are what the rounding of line 89 computes |
| Allocator.Heap.NewChunk | 7-2-my_malloc_free.c:49-68 | adds one chunk, merged into a free last block, and touches no live payload; fails exactly when the break would pass its limit |
| Allocator.Heap.Scan | 7-2-my_malloc_free.c:70-77 | ends at the lowest free block that is large enough, or at list_end exactly when there is none |
| Allocator.Heap.FirstFitBlock | 7-2-my_malloc_free.c:70-80 | returns the lowest free block that fits, and grows the heap only when none does |
| Allocator.Heap.Extend | 7-2-my_malloc_free.c:78 | extends by the least number of chunks that will do, in finitely many steps |
| BlockList.GrowthIsLeast | 7-2-my_malloc_free.c:49-68 | after c extensions the request fits if and only if c has reached that number |
| BlockList.RoomMost | 7-2-my_malloc_free.c:24-32 | how many chunks Sbrk can still give, as a bound that is met |
| Allocator.Heap.Carve | 7-2-my_malloc_free.c:92-100 | tags the request and what is left over, which turns the list into Place and changes no live payload |
| Allocator.Heap.Malloc | 7-2-my_malloc_free.c:82-102 | the new block list and the result are those of MallocSpec, every live payload keeps every word, and the heap stays well formed |
| Allocator.Heap.Free | 7-2-my_malloc_free.c:104-123 | merges the block with its free neighbours; every other live payload keeps every word |
| Allocator.Heap.Merge | 7-2-my_malloc_free.c:106-119 | where the merged block starts and how long it is, read from the tags of its neighbours |
| Allocator.Heap.Session | 7-2-my_malloc_free.c:82-123 | any legal run of calls, from the first on: the block list is the one the run makes, every payload not freed in it keeps its length and every word, and the program exits if and only if some my_malloc of the run finds neither a block nor room |
| Allocator.Heap.Write | 7-2-my_malloc_free.c:101 | a caller that writes a word inside its payload leaves the heap well formed |
| LiveBlocks.MallocMeaning | 7-2-my_malloc_free.c:82-102 | the payload returned was not live, has room for the request and less than 8 bytes more, and is the only change to what is live |
| LiveBlocks.LowestFit | 7-2-my_malloc_free.c:70-91 | whenever a free block is large enough the request succeeds, with the payload of a free block no higher than any such block |
| LiveBlocks.GrownAtEnd | 7-2-my_malloc_free.c:49-80 | when none is, a request that succeeds gets the free block at the end of the heap, or the address behind the last block in use |
| LiveBlocks.Canonical | 7-2-my_malloc_free.c:104-123 | two well-formed heaps of one size with the same live payloads are the same list of blocks, whatever calls led to them |
| LiveBlocks.MallocGrowth | 7-2-my_malloc_free.c:70-80 | when my_malloc grows the heap, by how much, and when it fails: an exact condition for each |
| LiveBlocks.ReleaseLive | 7-2-my_malloc_free.c:104-123 | my_free ends exactly the payload it was given |
| BlockList.PlaceKeeps | 7-2-my_malloc_free.c:93-100 | placing keeps the list well formed and its total size |
| BlockList.ReleaseKeeps | 7-2-my_malloc_free.c:111-122 | releasing keeps the list well formed, coalesced and of the same total size |
| BlockList.GrowKeeps | 7-2-my_malloc_free.c:52-65 | growing keeps the list coalesced across the chunk boundary and adds one chunk |
| BlockList.FreeUndoesMalloc | 7-2-my_malloc_free.c:82-123 | freeing what was just placed gives back the list as it was |
| BlockList.NeverBothFree | 7-2-my_malloc_free.c:104-123 | no two neighbours of a coalesced list are both free |
| LiveBlocks.LiveDisjoint | 7-2-my_malloc_free.c:82-102 | live payloads do not overlap, with two tag words between them |
| LiveBlocks.LiveInside | 7-2-my_malloc_free.c:82-102 | a live payload lies inside the heap |
| LiveBlocks.LiveAligned | 7-2-my_malloc_free.c:88-89 | live payloads are 8-aligned |
| LiveBlocks.AnyRun | 7-2-my_malloc_free.c:82-123 | after any run of calls the list is well formed and within the limit, and what was not freed is still live at its length |
| LiveBlocks.FreeEverything | 7-2-my_malloc_free.c:104-123 | freeing all live payloads in any order leaves one free block covering the heap |
| LiveBlocks.AnyRunThenFreeAll | 7-2-my_malloc_free.c:82-123 | the same after any run |
| Tags.GrownTags | 7-2-my_malloc_free.c:52-66 | the words new_chunk writes encode the grown list |
| Tags.PlacedTags | 7-2-my_malloc_free.c:95-99 | the words my_malloc writes encode the placed list |
| Tags.ReleasedTags | 7-2-my_malloc_free.c:121-122 | the two words my_free writes encode the released list |
| AllocatorAsWritten.RoomAsWritten | 7-2-my_malloc_free.c:88-89 | unrepaired, the payload is long enough if and only if the request is at most 8 bytes |
| AllocatorAsWritten.SizeTWraps | 7-2-my_malloc_free.c:88-89 | repaired, in size_t arithmetic, it is long enough if and only if the request is at most 2^64 - 16 |
| AllocatorAsWritten.FindsLive | 7-2-my_malloc_free.c:70-80 | unrepaired, the block returned is free if and only if no block in use is large enough; otherwise it is a live payload |
| AllocatorAsWritten.ExactFit | 7-2-my_malloc_free.c:93-100 | unrepaired, the payload is live afterwards if and only if the block was cut; else the same request gets it again |
| AllocatorAsWritten.OneChunk | 7-2-my_malloc_free.c:78 | unrepaired, the request fits if and only if the last free block and one chunk hold it |
| AllocatorAsWritten.NeverMerges | 7-2-my_malloc_free.c:111-119 | unrepaired, the list stays coalesced if and only if neither neighbour is free |
| AllocatorAsWritten.FreshFails | 7-2-my_malloc_free.c:78-100 | on the heap of mm_init, one request fits exactly and one needs more than a chunk, so both slips are met |
| AllocatorAsWritten.FirstFreeFails | 7-2-my_malloc_free.c:75-119 | after a run of one request, freeing it unrepaired leaves two free neighbours, and the same request again is answered with the payload in use |
| ConcurrentTree.EveryRun | 30-2-thread-safe_binary-tree.c:27-63 | in every interleaving the nodes in memory are the tree that sequential insertion builds in the order of the links, and it is a search tree in the order of strcmp (LessMeans) |
| ConcurrentTree.StepKeeps | 30-2-thread-safe_binary-tree.c:35-62 | every step keeps: a thread's position is on the search path of its key, what it read under its lock still holds, locks are exclusive |
| ConcurrentTree.LinkStep | 30-2-thread-safe_binary-tree.c:44-48 | a link overwrites nothing and is one sequential insertion |
| ConcurrentTree.QuietStep | 30-2-thread-safe_binary-tree.c:37-43 | the other steps leave the tree and the other threads as they were |
| ConcurrentTree.OneLockEach | 30-2-thread-safe_binary-tree.c:38-61 | no thread holds two mutexes |
| ConcurrentTree.SomeoneCanStep | 30-2-thread-safe_binary-tree.c:35-62 | an unfinished add can step, or waits for a mutex whose holder can |
| ConcurrentTree.RunsAreShort | 30-2-thread-safe_binary-tree.c:35-62 | n adds are over within n(3n + 4) steps of any schedule |
| ConcurrentTree.StuckMeansDone | 30-2-thread-safe_binary-tree.c:27-63 | when nothing can step every add is done, each node was linked once, every key can be looked up, and the tree has exactly the entries that were added, as often as they were |
| ConcurrentTree.AsWrittenOneAdd | 30-2-thread-safe_binary-tree.c:47-57 | unrepaired, at most one add ever links, and all adds can finish if and only if there is at most one |
| ConcurrentTree.TwoAddsJam | 30-2-thread-safe_binary-tree.c:47-57 | a run of two adds, unrepaired, after which the second waits for ever |
| SearchTree.LessMeans | 30-2-thread-safe_binary-tree.c:40 | one key compares below another if and only if it is lesser at the first difference, or ends there |
| SearchTree.HasSide | 30-2-thread-safe_binary-tree.c:40-58 | what hangs to the left of a node compares above it, what hangs to the right does not |
| SearchTree.PathStays | 30-2-thread-safe_binary-tree.c:40-59 | insertion by others leaves a node on the search paths it was on, at the same depth |
| SearchTree.LinkInserts | 30-2-thread-safe_binary-tree.c:46 | linking a new node below the end of its search path is insertion |
| SearchTree.InsertOrdered | 30-2-thread-safe_binary-tree.c:40-59 | insertion keeps the (mirrored) order |
| SearchTree.InsertEntries | 30-2-thread-safe_binary-tree.c:29-31 | insertion adds exactly its key and value |
| SearchTree.LookupFinds | 30-2-thread-safe_binary-tree.c:40-59 | the search that add makes finds a key if and only if it is there |
| Talk.TotalOrder | 46-6-talk_server.c:92-140 | in every run what is put in a client's queue is one unbroken stretch of the texts in the order they were sent, from its login to its removal; only the text under way can be missing |
| Talk.RosterAtText | 46-6-talk_server.c:84-133 | when a text is taken no login or logout is pending, it is the oldest text, and the roster is exactly the clients logged in, not logged out and not dropped |
| Talk.LoginFirst | 46-6-talk_server.c:84-116 | a login is never received after the logout of the same client: when a logout is received, its login was, or none was sent and none will be |
| Talk.LogoutAlone | 46-6-talk_client.c:67-81 | a signal before the login is sent makes the server receive a logout without a login |
| Talk.StepKeeps | 46-6-talk_server.c:80-141 | every step of the server and of the clients keeps the invariant behind these |
| Talk.Pick | 46-6-talk_server.c:84 | receiving with type -3 takes the first message of the lowest type |
| Talk.ClientStep | 46-6-talk_client.c:77-166 | what clients send keeps the invariant |
| Talk.TimeOutStep | 46-6-talk_server.c:125-133 | dropping a client in the middle of a text keeps the invariant |
| Talk.SendGuardsHold | 46-6-talk_server.c:120-138 | in the middle of a text the server can go on exactly when the next queue still exists |
| Talk.ServerGoesOn | 46-6-talk_server.c:80-141 | in every run, while a message is pending or being sent on and the next queue exists, the server can do more than stop |
| Talk.TextEnds | 46-6-talk_server.c:120-138 | with n clients still ahead a text is sent on within n steps of the server, whatever the clients do |
| Talk.TextMissed | 46-6-talk_server.c:125-133 | a run in which a client is dropped and misses the text under way |
| Talk.TextsAnyTime | 46-6-talk_client.c:116-125 | a client that sent its login can send any number of texts, whatever the server is doing |
| Talk.LeavesAnyTime | 46-6-talk_client.c:153-166 | a client can leave at any time: its queue goes first, then its logout is pending |
| Talk.GoneForGood | 46-6-talk_client.c:132-175 | a client that has ended does nothing more, and its queue, if it left one, stays until the server drops it |
| Talk.HowItEnds | 46-6-talk_client.c:132-136 | a client that exits takes its queue with it for ever; one that is killed leaves it behind |
| Talk.ClosedQueueStopsServer | 46-6-talk_server.c:134-135 | a queue that its client has removed leaves the server only to stop |
| Talk.ClosedQueueReached | 46-6-talk_client.c:158-164 | one client that removes its queue before it sends LOGOUT can bring that about |
| Counter.FinalValues | 30-1-changed_simple_thread.c:17-56 | the values printed are exactly 2 to 2 loops (1 and 2 for one loop): no other, and each is reached |
| Counter.FinalBounds | 30-1-changed_simple_thread.c:20-23 | no schedule ends outside that range |
| Counter.Overwrite | 30-1-changed_simple_thread.c:20-23 | a schedule that loses exactly p + q increments, for all p and q below loops |
| Counter.EveryRunEnds | 30-1-changed_simple_thread.c:49-54 | both threads are joined exactly after 4 loops accesses, and one of them can step until then |
| ReadLine.Library.Call | 59-1-readLine.c:19-69 | fails exactly when nothing of the descriptor was held and the first read without a signal failed or found the end; else returns the line that unbuffered reading would, consumes exactly its bytes, and changes nothing for other descriptors, however read cuts the stream; only its last read can cost anything, and if that failed it is that line cut after all that was read |
| ReadLine.CutAgrees | 59-1-readLine.c:52-57 | a line cut after m bytes is the whole line if and only if m is all the room, it stopped by itself, or the stream is at its end |
| ReadLine.Library.Session | 59-1-readLine.c:16-69 | after any sequence of calls on any descriptors in which no read failed but those made again after a signal, each descriptor got what it would have got read alone and unbuffered |
| ReadLine.EachAnswer | 59-1-readLine.c:45-68 | so the answer to each call is the next line of what the calls on its descriptor before it left |
| ReadLine.Library.Fill | 59-1-readLine.c:45-68 | the loop that copies the line, across refills: only its last read can have failed, and unless it did the line is whole |
| ReadLine.Library.Take | 59-1-readLine.c:48-65 | one byte more of the line, or its newline, after which more room changes nothing |
| ReadLine.Library.NextByte | 59-1-readLine.c:48-60 | hands out the next byte of the stream and only that, and reads if and only if it was the last byte held |
| ReadLine.Library.Refill | 59-1-readLine.c:50-60 | makes one read, and unlinks and frees the node if and only if that read failed or found the end; otherwise the node is refilled |
| ReadLine.Library.Reload | 59-1-readLine.c:52-59 | the node then holds the bytes read, and no other descriptor's bytes change |
| ReadLine.Library.Open | 59-1-readLine.c:28-43 | reads until no signal interrupts, then a new node at the front of the list holds what was read, or nothing is lost; it fails if and only if that read failed or found the end |
| ReadLine.Library.FirstRead | 59-1-readLine.c:35 | a read that a signal interrupts is made again, and none other is |
| ReadLine.Library.Prepend | 59-1-readLine.c:30-42 | links the new node between header and the old first node |
| ReadLine.Library.Unlink | 59-1-readLine.c:54-56 | links the predecessor, header included, to the successor and takes the node out of memory; the chain is then the list without it, at most one node a descriptor |
| ReadLine.Library.Search | 59-1-readLine.c:24-26 | walks the chain to the node of the descriptor, with its predecessor, or to the end |
| ReadLine.LineAndLeft | 59-1-readLine.c:46-65 | a line, with a newline at its end if one was reached, is what is consumed; it stops early only at a newline or the end, and a full line leaves its newline |
| ReadLine.NothingLost | 59-1-readLine.c:62-68 | the lines that repeated calls return, with their newlines, make up the stream |
| Semaphores.OneToken | 47-4-reserverSemNB.c:31-71 | in every run of processes that release only what they reserved, value, holders and tokens lost to deaths add up to one: two processes never hold the semaphore |
| Semaphores.DeathSpares | 47-4-reserverSemNB.c:38-71 | with SEM_UNDO the adjustment of a process is what it holds less what it reserved without the flag, and its death spares the token if and only if it reserved nothing without the flag or another process holds the token |
| Semaphores.UndoKeepsToken | 47-4-reserverSemNB.c:31-45 | with SEM_UNDO and blocking calls alone the adjustment is what a process holds, and no death costs the token |
| Semaphores.DeathWithoutUndo | 47-4-reserverSemNB.c:38 | without SEM_UNDO nothing comes back: a death costs the token if and only if the process held it |
| Semaphores.LostForGood | 47-4-reserverSemNB.c:31-71 | a token that was lost is never reserved again |
| Semaphores.WaitsOnlyForHolder | 47-4-reserverSemNB.c:40-59 | reserving succeeds, blocking or not, if and only if nobody holds the token and it is not lost; the non-blocking form fails if and only if not |
| Semaphores.StartsAs | 47-4-reserverSemNB.c:11-29 | initSemAvailable lets the first call through, initSemInUse holds all back until somebody releases |
| Semaphores.ReserveRelease | 47-4-reserverSemNB.c:31-71 | when the token is free a process can reserve it, nobody else can then, and releasing it restores the semaphore and every adjustment |
| Semaphores.FailedCall | 47-4-reserverSemNB.c:40-59 | a call that does not reserve leaves the semaphore as it was and its process outside, unless it retries |
| Semaphores.Bystander | 47-4-reserverSemNB.c:31-71 | what one process does changes no other process, its holds or its adjustment |
| Semaphores.DeadForGood | 47-4-reserverSemNB.c:38 | a process that died takes no further part |
| Semaphores.TryTakeLoses | 47-4-reserverSemNB.c:47-71 | a run in which reserveSemNB with SEM_UNDO costs the token |
| Semaphores.ExtraRelease | 47-4-reserverSemNB.c:61-71 | a release by a process that holds nothing lets two reserve: the discipline is needed |
| Semaphores.FifoIsSemaphore | 47-6-binary_sem_fifo.c:19-61 | the FIFO and the System V semaphore allow the same schedules, and after each the bytes are the value |
| Semaphores.OneByte | 47-6-binary_sem_fifo.c:19-61 | bytes, holders and lost tokens of the FIFO add up to one in every run |
| OneTimeInit.OnceAndBefore | 31-1-one_time_init.c:10-24 | in every interleaving init is called at most once, and no call returns before it has returned |
| OneTimeInit.NoDeadlock | 31-1-one_time_init.c:12-22 | a call is held up only at the lock, by one that can go on |
| OneTimeInit.NoLockAfterwards | 31-1-one_time_init.c:12-13 | once init has been done, a call that begins never comes to the lock |
| OneTimeInit.EachReturns | 31-1-one_time_init.c:10-24 | the calls begun are those returned and those under way; when none is under way and there was one, init has been done |
| OneTimeInit.CallsAreShort | 31-1-one_time_init.c:10-24 | n calls are over within 7n steps |
| ProcessTree.Table.CreateNode | 12-2-print_process_tree.c:25-49 | in any order of listing the child lists are those of the processes listed so far, latest first, each process in one list; a second listing is ignored |
| ProcessTree.Table.Adopt | 12-2-print_process_tree.c:122-131 | moves all children of one unlisted parent to process 1 |
| ProcessTree.Table.Reparent | 12-2-print_process_tree.c:120-132 | afterwards the lists are those of the final relation, in their exact order |
| ProcessTree.Table.PrintTree | 12-2-print_process_tree.c:51-82 | ends, and visits what hangs under a process in preorder |
| ProcessTree.Run | 12-2-print_process_tree.c:91-134 | for any list that has process 1, whose parent relation has no cycle and in which the chain of parents of 1 ends at 0, what is printed is each descendant of process 1 exactly once, in preorder: before all that hangs under it, and siblings with all of theirs in the order of their list |
| ProcessTree.RankedExactly | 12-2-print_process_tree.c:120-134 | when process 1 is listed, the final forest has no cycle if and only if the chain of parents of 1 ends at 0 |
| ProcessTree.OneUnderUnlisted | 12-2-print_process_tree.c:120-134 | a list in which it ends elsewhere |
| ProcessTree.FinalLists | 12-2-print_process_tree.c:120-132 | a process is in a list if and only if that is its parent's, or process 1's when the parent was not listed; and once |
| ProcessTree.ListsInOrder | 12-2-print_process_tree.c:47-132 | which of two processes in one list comes first: the one listed later under a listed parent, the one listed earlier under an unlisted one, and the children of unlisted parents from the last parent to the first, before all others |
| ProcessTree.KeptFirst | 12-2-print_process_tree.c:27 | a process that is listed again keeps the parent it was first listed with |
| ProcessTree.KidsAreOwned | 12-2-print_process_tree.c:47-48 | the lists and the owner relation are the same thing |
| ProcessTree.VisitsOnce | 12-2-print_process_tree.c:59-80 | the preorder has each process under the root once and no other |
| ProcessTree.VisitsInPreorder | 12-2-print_process_tree.c:56-80 | the visit begins with its root, puts each process before all that hangs under it, and keeps the order of siblings |
| ProcessTree.AdoptingItself | 12-2-print_process_tree.c:122-131 | at i == 1 the adoption loop ends if and only if process 1 was listed or has no children |
| ProcessTree.HiddenFirst | 12-2-print_process_tree.c:38-49 | a list after which it does not end |
| Tail.Run | 13-5-my_tail.c:38-90 | for every file and chunking, prints the last lines in order and counts them |
| Tail.Ring.Put | 13-5-my_tail.c:64-80 | one byte keeps the ring holding the last lines and the index below the capacity; a byte that fills the buffer in use doubles it, and no other capacity changes |
| Tail.Ring.Finish | 13-5-my_tail.c:84-85 | an unterminated last line counts |
| Tail.Ring.Print | 13-5-my_tail.c:89-90 | the lines printed are the last n, as C strings |
| Tail.LinesMakeUp | 13-5-my_tail.c:66-73 | the lines and their newlines make up the file |
| Tail.LinesExactly | 13-5-my_tail.c:66-85 | the lines, each with a newline, are the file, and one newline more if it does not end in one |
| Tail.LastAt | 13-5-my_tail.c:89-90 | how many lines are last, and which each of them is |
| Tail.ShownUpToNull | 13-5-my_tail.c:90 | what is shown of a line is its longest beginning without a null byte |
| Sequences.FlatJoins | 13-5-my_tail.c:53-82 | chunks after chunks are file after file, and one chunk is itself |
| Tail.SlotIsRemainder | 13-5-my_tail.c:64 | the slot of a line is its number modulo the number of slots |
| Tail.ShownExactly | 13-5-my_tail.c:90 | printing hides nothing if and only if no line has a null byte |
| Tail.AsWritten | 13-5-my_tail.c:89 | unrepaired, the output is right if and only if the file has fewer lines than asked for |
| Getcwd.Process.MGetcwd | 18-5-my_getcwd.c:14-80 | a result resolves to the directory where the climb began; ERANGE if and only if the path and its terminator do not fit; the process is left in the root |
| Getcwd.Process.Climb | 18-5-my_getcwd.c:23-59 | ends with the names from the root down, or fails if and only if a directory on the way is not listed above |
| Getcwd.Process.Search | 18-5-my_getcwd.c:36-58 | finds the first entry that is the directory just left |
| Getcwd.Process.Assemble | 18-5-my_getcwd.c:61-76 | writes the path and its terminator if and only if they fit |
| Getcwd.PathResolves | 18-5-my_getcwd.c:61-79 | the path of a directory resolves to it |
| Getcwd.PathParts | 18-5-my_getcwd.c:69-71 | splitting the path at its slashes gives the names back |
| Getcwd.NamesLeadBack | 18-5-my_getcwd.c:50-57 | the names found on the way up lead back down |
| Getcwd.NamesExactly | 18-5-my_getcwd.c:23-59 | there are no names if and only if some directory on the way has no entry above it; else there is one for each step from the root |
| Getcwd.NameOfIs | 18-5-my_getcwd.c:45-57 | the name is that of the first entry that is the directory |
| Getcwd.PathLength | 18-5-my_getcwd.c:61-71 | the path is as long as its names and a slash before each |
| Getcwd.Process.AsWritten | 18-5-my_getcwd.c:61-79 | unrepaired, the root leaves the buffer unchanged and reports success, so the caller has the path if and only if it did not start there or the buffer already held "/" |
| Copy.Run | 4-2-cp.c:31-65 | for every input and chunking the destination ends up as the input over what it held, and as the input when it was empty |
| Copy.Copier.EatZero | 4-2-cp.c:35-44 | what was laid down, the zeros counted and the bytes buffered are always the input consumed |
| Copy.Copier.EatOther | 4-2-cp.c:45-54 | the same for the other bytes, with a hole for the zeros before |
| Copy.Copier.Finish | 4-2-cp.c:59-63 | nothing is left over at the end |
| Copy.WriteLays | 4-2-cp.c:39-49 | a write after a seek past the end reads back as zeros and then the bytes |
| Copy.OverIsCopy | 4-2-cp.c:27-28 | the copy is the input if and only if the destination was not longer and was zero wherever the input is |
| Copy.AsWrittenCopy | 4-2-cp.c:59-65 | unrepaired, the copy into an empty file is the input if and only if the input does not end in a zero |

## Left out

- The programs that only show what system calls do (signals, fork and wait,
  process groups, scheduling, login records, sockets, terminals, mappings,
  ACLs): their content is the kernel's behaviour and printing.
- The other small programs (14-1, 5-7, 6-3, 44-2, 44-3, 55-2, 45-2, 23-1,
  get_num.c, file_perms.c): finite or one-expression facts that would only add
  easy members.
- `delete` of 30-2-thread-safe_binary-tree.c and 59-3-unix_domain_lib.c: they
  are unfinished.
- errExit and error_functions.c: a fatal error is a stop.
- Weak memory, overflow of counters, and malloc failing: not modelled.
- Allocator.Heap.Malloc: sizes are unbounded numbers, which is what the program
  computes up to 2^64 - 16 bytes (AllocatorAsWritten.SizeTWraps); the break is
  below 4 GiB, as a size has to fit in a tag; memory is indexed by byte address,
  with one word at each multiple of four.
- Allocator.Heap.Sbrk: nothing else moves the break between two chunks, as the
  program assumes when it ignores what Sbrk returns at line 51.
- Allocator.Heap.Free: the caller must pass a live payload, as C demands.
- ConcurrentTree.EveryRun: nodes are cells in a sequence, and each thread's new
  cell is there from the start; strings are compared byte by byte.
- Talk.TotalOrder: each pid logs in once, and a pid names its client's queue;
  the roster is a sequence instead of linked nodes; what the client's child
  prints is not modelled.
- Counter.FinalValues: the extra read of `glob` for printf at line 24 changes
  nothing and is not a step.
- ReadLine.Library.Call: when a refill fails, the line ends there, after m
  bytes; the bytes of a node's buffer past `size` are not kept. What becomes of
  each read (a chunk of some size, a signal, a failure) is a plan of any length,
  fixed beforehand and arbitrary.
- Semaphores.FifoIsSemaphore: the limits of a full FIFO and of SEMVMX are not
  modelled; neither is reached by processes that release only what they
  reserved.
- OneTimeInit.NoDeadlock: an `init` that never returns, or that calls
  one_time_init itself, is not modelled.
- ProcessTree.Run: reading /proc, the column layout and `mark` are not modelled;
  lists that leave process 1 out, or put it under an unlisted process, are what
  AdoptingItself and RankedExactly are about.
- ProcessTree.Table.PrintTree: gives the pids in order, not the text.
- Tail.Ring.Put: a line buffer is a sequence held in the array of lines, so the
  buffers cannot alias.
- Getcwd.Process.MGetcwd: stat, chdir, opendir and lstat do not fail, and the
  tree does not change during the call.
- Copy.Run: writes are complete and lseek does not fail.
