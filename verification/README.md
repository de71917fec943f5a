# Lilac: models and proofs of the kernel's data structures and protocols

Lilac is a small x86 kernel. This project models the parts of it whose correctness is hard to see by
reading one function, and proves what callers rely on. Modules follow the kernel's components. Code that
changes things in place is modelled by classes and methods with loops; each method is tied by its contract
to a function or a relation on values, and the laws are proved of that. `dafny verify dfyconfig.toml`
checks the whole project.

| component | modules |
|---|---|
| shared | `Common` (options, sequences), `Bits` (numbers as binary words) |
| red-black trees | `RbShape`, `RbOrder` (values), `RbMemory` (nodes), `RbInsert`, `RbErase`, `RbEraseColor`, `RbWalk`, `RbFind`, `RbCached` |
| kernel allocator | `KmSlots`, `KmPow2`, `KmState` (invariant), `KmList`, `KmSteps`, `KmGood`, `KmRemote` (steps that keep it), `KmIntact` (what stays), `KmCalls` (what calls promise), `Kmalloc` (the calls), `KmAccount` (consequences), `KmRuns` (all CPUs at once) |
| scheduler | `SchedState` (invariant), `SchedSteps`, `SchedRuns` (runs), `SchedOrder`, `SchedLaws` (what steps mean), `SchedFacts`, `Sched` (the code) |
| mutex | `Mutex` (steps and runs), `MutexCalls` (whole calls), `MutexFacts` |
| page tables | `PtState`, `PtFlags`, `PageTables` |
| terminals | `LdEditor` (the line editor), `LdKeys` (what keys and settings do), `Ldisc` (the ring buffer), `LdFacts` (what readers get) |
| memory areas | `VmaSpec`, `Vma` |
| bitmaps, FAT32, MTRRs, clocks | `Bitmap`; `FatChains`, `Fat32`; `MtrrSpec`, `Mtrr`; `Clock` |

## How the parts are modelled

**Red-black trees.** Nodes are objects with a parent-and-colour word and two child pointers. A snapshot of
the rows of a set of nodes carries a tree if every child pointer and every parent pointer agrees with it. A
loop holds a place in the tree as a zipper path, and its invariant is a rule on the path and a rule on the
subtree: for insertion, only the node and its parent may both be red; for erasure, exactly one place is one
black level short. The results are about the whole tree: red-black again, all parent pointers right, the
sort order the old one with or without the node.

**Kernel allocator.** Memory is a map of page headers and a map of words, the words free lists and remote
records are threaded through. The invariant is that the first `free_count` links of a superblock reach that
many distinct aligned slots, which together with the live slots are all its slots; what the last link says
is never relied on, so reading it may give anything. Superblock lists are linked both ways, bucket counts
are exact, and each waiting remote free is a record on exactly one list. `Good` is kept by every call,
including the recursive ones, in which a list of remote frees is worked through while freeing its own
records makes new ones. `KmRuns` takes the calls apart into steps and lets all CPUs take them in any order.

**Scheduler and mutex.** Each locked region of the scheduler, and each atomic access of the mutex, is one
step; a run is any sequence of enabled steps on any CPUs by any tasks. The scheduler's methods are proved to
take exactly these steps, and what each step does to tasks, queues and CPUs is stated besides (`SchedLaws`).

**Page tables.** A ghost map says which table is where in the tree; the flat map from virtual pages to
frames, as the processor sees them, is read off it. The walk by entries alone gives the same for every
address (`PageTables.Levels`); `__get_physaddr` does not (see below).

**Terminals.** The ring with its cursors stands for two strings, what is ready and the line being edited;
reading, typing and mode changes act on both alike.

**The rest.** Memory areas are a linked list of objects that stands for a sequence of ranges with attributes.
Bitmaps are arrays of 64-bit words. The FAT is an array; chains are sequences. MTRRs are two arrays of
register words, read as regions. Clock arithmetic is on numbers with wrap-around written out.

## What the code does that its comments do not say

- A running task may be queued on its own CPU while it runs, against kernel/kernel/sched.c:63.
  `SchedOrder.StepCurrs` and `SchedOrder.RunCurrs` say exactly when. One consequence is that the check at
  kernel/kernel/sched.c:323 can fail (`SchedFacts.PanicReachable`); `SchedRuns.StepGood` gives the exact
  state. Another is that a queue can be out of the order of its keys: `SchedOrder.StepOrder` and
  `SchedOrder.RunOrder` say exactly when, and `SchedFacts.QueueOutOfOrder` that it happens.
- `set_task_running` reads the task's CPU before it takes a lock (kernel/kernel/sched.c:168), and so do
  `set_task_stopped`, `set_task_sleeping` and `set_task_uninterruptible`. If the task migrates in between,
  the wrong run queue is used. `SchedFacts.StaleWake`, `SchedFacts.StaleStop` and `SchedFacts.StaleBlock`
  give the exact conditions; in one run two CPUs come to run the same task (`SchedFacts.StaleWakeRunsTwice`).
- A task can queue for a mutex after its owner has left, and then waits until somebody else takes the mutex
  and releases it (`MutexFacts.StrandedHow`, `MutexFacts.StrandedStays`). The unlocker
  can read a waiter's record that is gone; `MutexFacts.RecordLost` gives the one step that loses it.
- `next_pow_2` in kernel/mm/kmalloc.c shifts by 1 to 8, not by powers of two; it is right exactly for the
  arguments `KmPow2.NextPow2` names, which include all from 1 to 2^37.
- The header of a large block has 16 bits for its page count. From 65536 pages on, freeing it gives back too
  few pages, and resizing it sees too little room, or without end (`KmCalls.NothingCutOff`,
  `KmCalls.RoomSeenWrong`).
- `__get_physaddr` adds only 12 bits of the address also in large pages, by which all physical memory is
  mapped (kernel/arch/x86/kernel/paging64.c:128-147); it is right exactly in their first 4 KiB
  (`PtState.FirstPageOnly`).
- Frame addresses are int products, right exactly below 2 GiB (`Bitmap.AddrRight`). Every 4 GiB the address
  is null, which reads as failure: the run is lost and the search goes on (`Bitmap.Allocator.AllocFrames`).
- Freeing a remote record is itself a remote free, so the number of waiting frees never falls
  (`KmCalls.Drained`, `KmCalls.Freed`).
- Turning canonical mode on drops the buffered bytes that the comment at kernel/drivers/tty/ldisc.c:197
  says are moved. The end-of-file character after a partial line marks no end (kernel/drivers/tty/ldisc.c:324):
  the line becomes ready, but the read goes on waiting (`LdFacts.CanonReadWaits`).
- A fixed mapping of length 0 is let through and leaves an empty area in the list; a file that cannot be
  mapped leaves the range unmapped all the same (`Vma.Mm.MmapFixed`). The page count is an `int`, so the
  range is the one asked for exactly up to 2^31 - 1 pages (`Vma.EndAsAsked`).
- Walking a chain past a last cluster marked with exactly 0x0FFFFFF8 leaves the table
  (`Fat32.FatDisk.GetClstNum`).
- Reading 0 bytes from a file gives -1 at a cluster boundary and 0 elsewhere; so does reading what takes 2^32
  bytes in whole clusters; a file whose first cluster is
  a multiple of 65536 reads as empty (`Fat32.FatDisk.Read`).
- The write-combining range starts at the buffer's start rounded down to the rounded-up size, so its end can
  lie before the buffer's (`Mtrr.BufferCovered`, `Mtrr.NothingBeyond`).

## Model

| member | source | states |
|---|---|---|
| RbShape.PlugRedBlack | kernel/lib/rbtree.c:12-27 | The rules split along any cut: a rule-abiding subtree on a path that expects its black height makes a red-black tree |
| RbShape.RedBlackCut | kernel/lib/rbtree.c:12-27 | The converse: every cut through a red-black tree leaves such a path and such a subtree |
| RbShape.PlugInorder | kernel/lib/rbtree.c:461-514 | The sort order of the whole is what lies before the cut, the subtree, and what lies after |
| RbOrder.BalancedMeans | kernel/lib/rbtree.c:12-27 | The inductive rule holds exactly if no red node has a red child and all leaf paths meet the same number of black nodes |
| RbOrder.RedBlackHeight | kernel/lib/rbtree.c:18-27 | Height at most 2 log2(n + 1), stated as 2^height at most (n + 1)^2 |
| RbOrder.DistinctInorder | kernel/lib/rbtree.c:461-514 | A tree holds no node twice exactly if its sort order does not |
| RbMemory.SetParentColor | kernel/include/lib/rbtree_augmented.h:191-195 | Writes parent and colour |
| RbMemory.Repaint | kernel/include/lib/rbtree_augmented.h:191-195 | For a node that keeps its parent that repaints the node in the tree that memory carries, and nothing else |
| RbMemory.SetBlack | kernel/lib/rbtree.c:58-61 | Adding the black bit to a red node paints it black |
| RbMemory.ChangeChild | kernel/include/lib/rbtree_augmented.h:197-208 | The parent, or the root if there is none, points to the new child instead of the old one |
| RbMemory.RotateSetParents | kernel/lib/rbtree.c:73-81 | The new subtree root takes over parent and colour, the old one becomes its child with the given colour |
| RbMemory.RotationRows | kernel/lib/rbtree.c:175-179 | Which rows a rotation writes lie in which of the subtrees and on the path |
| RbMemory.RotatedRightAt | kernel/lib/rbtree.c:175-179 | What a right rotation writes is the rotated tree at the same place, with all parent links right |
| RbMemory.RotatedLeftAt | kernel/lib/rbtree.c:209-214 | The mirror image |
| RbInsert.RepairRedPair | kernel/lib/rbtree.c:112-217 | One round: the red pair moves two levels up with one more black level below it, or every rule holds; the sort order stays |
| RbInsert.FlippedFits | kernel/lib/rbtree.c:116-136 | Case 1 leaves a single possible red pair, two levels up |
| RbInsert.SettledLeftFits | kernel/lib/rbtree.c:138-181 | Cases 2 and 3 with the uncle on the right make a red-black tree with the same sort order |
| RbInsert.SettledRightFits | kernel/lib/rbtree.c:194-216 | The mirror image |
| RbInsert.InsertColor | kernel/lib/rbtree.c:83-219 | After linking a red leaf anywhere: a red-black tree again, parent links and all, with the same sort order; the loop ends by climbing |
| RbEraseColor.SiblingExists | kernel/lib/rbtree.c:231-241 | A place one black level short has a sibling |
| RbEraseColor.RestoredFits | kernel/lib/rbtree.c:291-350 | Cases 3 and 4 make a red-black tree of a tree with one short place |
| RbEraseColor.RestoredInorder | kernel/lib/rbtree.c:291-350 | and keep its sort order |
| RbEraseColor.RepairLeft | kernel/lib/rbtree.c:239-350 | One round on the left: the shortage moves up or is gone; the sort order stays |
| RbEraseColor.RepairRight | kernel/lib/rbtree.c:351-404 | The mirror image |
| RbEraseColor.EraseColor | kernel/lib/rbtree.c:225-406 | From a tree with one place one black level short: a red-black tree with the same sort order; the loop ends by climbing |
| RbErase.FindSuccessor | kernel/include/lib/rbtree_augmented.h:247-284 | The first node of the right subtree, its parent, and the path to it |
| RbErase.BypassedAt | kernel/include/lib/rbtree_augmented.h:222-245 | A node with at most one child is replaced by that child at its place, all links right |
| RbErase.ReplacedAt | kernel/include/lib/rbtree_augmented.h:293-308 | A node that gets another node's row and neighbours stands in its place |
| RbErase.Unlink | kernel/include/lib/rbtree_augmented.h:213-313 | Unlinks a node in all three cases: the rest is in order, and either all rules hold or exactly the place reported is one black level short |
| RbErase.Erase | kernel/lib/rbtree.c:437-450 | Erasing any node of a red-black tree gives one whose sort order is the old one without that node |
| RbErase.ReplaceNode | kernel/lib/rbtree.c:544-558 | The new node takes the victim's place; everything else stays |
| RbWalk.First | kernel/lib/rbtree.c:461-471 | The first of the sort order, or null |
| RbWalk.Last | kernel/lib/rbtree.c:473-483 | The last of the sort order, or null |
| RbWalk.Next | kernel/lib/rbtree.c:485-514 | What follows the node in the sort order, or null |
| RbWalk.Prev | kernel/lib/rbtree.c:516-542 | What precedes the node in the sort order, or null |
| RbWalk.PrecedesFollows | kernel/lib/rbtree.c:485-542 | Stepping back undoes stepping forward, and the other way round |
| RbWalk.VisitInOrder | kernel/lib/rbtree.c:461-514 | Stepping from the first node until there is none visits exactly the sort order |
| RbWalk.LeftDeepest | kernel/lib/rbtree.c:560-570 | The first node of a subtree in postorder |
| RbWalk.FirstPostorder | kernel/lib/rbtree.c:590-596 | The first node of the postorder, or null |
| RbWalk.NextPostorder | kernel/lib/rbtree.c:572-588 | What follows in the postorder, or null |
| RbWalk.DistinctPostorder | kernel/lib/rbtree.c:560-596 | The postorder lists every node once |
| RbWalk.ChildrenFirst | kernel/lib/rbtree.c:560-596 | and every node after all nodes below it |
| RbWalk.VisitPostorder | kernel/lib/rbtree.c:560-596 | The postorder walk visits exactly the postorder |
| RbCached.LinkNode | kernel/include/lib/rbtree.h:84-91 | The new node is a red leaf at the place the link stands for |
| RbCached.FindPlace | kernel/include/lib/rbtree.h:180-200 | The walk down ends at the empty place where each turn was the one `less` asks for; it went left all the way exactly if the new node comes first |
| RbCached.TurnsSplit | kernel/include/lib/rbtree.h:180-200 | In a sorted tree all before that place is at most the new node and all after it is greater |
| RbCached.InsertColorCached | kernel/include/lib/rbtree.h:124-132 | The cached node changes exactly if the new node comes first |
| RbCached.RbRootCached.constructor | kernel/include/lib/rbtree.h:42-48 | An empty tree |
| RbCached.RbRootCached.Add | kernel/include/lib/rbtree.h:180-202 | The tree stays red-black over exactly the old nodes and the new one; in a sorted tree the node goes in front of the first greater one; `leftmost` stays the first node; the result tells whether it changed |
| RbCached.RbRootCached.Erase | kernel/include/lib/rbtree.h:134-145 | The sort order loses exactly the node; `leftmost` stays the first node, or null; the result is the new first node if that changed |
| RbOrder.InsertSorted | kernel/include/lib/rbtree.h:160-202 | With a strict weak order a sorted sequence stays sorted, and the new node comes after all equal ones |
| RbCached.RunSorted | kernel/include/lib/rbtree.h:134-202 | In every run of insertions and removals the sort order is sorted and free of duplicates |
| RbFind.FindFirst | kernel/include/lib/rbtree.h:299-318 | The first node that matches the key: nobody before it does, and it is null exactly if nobody does |
| RbFind.NextMatch | kernel/include/lib/rbtree.h:329-337 | The next node if it matches, else null |
| RbFind.VisitMatches | kernel/include/lib/rbtree.h:346-348 | The loop over matches visits all matching nodes, in order |
| RbFind.MatchingIs | kernel/include/lib/rbtree.h:346-348 | The matching nodes are all that match and no others, each in its place |
| KmPow2.NextPow2 | kernel/mm/kmalloc.c:457-467 | In 64-bit arithmetic the result is the least power of two at or above the argument exactly if that is neither 0 nor above 2^63 and its predecessor has no 37 zeros below a one |
| KmPow2.SmallNoGap | kernel/mm/kmalloc.c:457-467 | There is no such gap up to 2^37 |
| KmPow2.FirstGap | kernel/mm/kmalloc.c:457-467 | 2^37 + 1 is rounded wrongly: all shifts together reach 36 places |
| KmPow2.Log2 | kernel/lib/math/log2.c:10-18 | The position of the leading one bit; 0 for 0 |
| KmSlots.SlotInPage | kernel/mm/kmalloc.c:375-401 | A slot lies behind the header, inside the page, aligned to its size |
| KmSlots.SlotsFill | kernel/mm/kmalloc.c:375-401 | The slots lie one behind the other, from the first place behind the header aligned to their size, to the end of the page |
| KmSlots.SlotsApart | kernel/mm/kmalloc.c:375-401 | Different slots share no byte |
| KmSlots.SlotsPigeonhole | kernel/mm/kmalloc.c:281-285 | A list of distinct slots is no longer than the superblock, and as long only if it holds every slot |
| KmList.MoveToFront | kernel/mm/kmalloc.c:404-415 | The list keeps its links and its other elements' order, with the superblock in front |
| KmList.AddToFront | kernel/mm/kmalloc.c:418-426 | Which links change when a superblock is put in front |
| KmList.TakeOut | kernel/mm/kmalloc.c:431-443 | Which links change, and which head results, when a superblock leaves a list of several |
| KmList.BypassedChain | kernel/mm/kmalloc.c:431-443 | The list without that superblock is well linked both ways |
| KmList.FrontedChain | kernel/mm/kmalloc.c:418-426 | The list with the superblock in front is well linked both ways |
| KmGood.GoodTaken | kernel/mm/kmalloc.c:342-348 | Handing out the first free slot keeps every invariant, whatever the last free slot links to |
| KmGood.GoodPut | kernel/mm/kmalloc.c:274-279 | Putting a held block back keeps every invariant |
| KmGood.GoodGrown | kernel/mm/kmalloc.c:310-322 | A fresh superblock at the front of its bucket keeps every invariant |
| KmGood.GoodReleased | kernel/mm/kmalloc.c:429-455 | Releasing a superblock all of whose slots are free keeps every invariant, and no live block was in it |
| KmGood.GoodPushed | kernel/mm/kmalloc.c:236-251 | Parking a block and its record on the owner's list keeps every invariant |
| KmRemote.GoodDetached | kernel/mm/kmalloc.c:253-258 | Taking a remote free list off whole keeps every invariant |
| KmRemote.GoodRecordTaken | kernel/mm/kmalloc.c:260-265 | Taking the first record of a list in hand keeps every invariant |
| KmRemote.GoodListDone | kernel/mm/kmalloc.c:260-265 | Dropping a list that has been worked through keeps every invariant |
| KmRuns.StepGood | kernel/mm/kmalloc.c:212-401 | Each of the twelve steps the CPUs take, in any order, keeps every invariant |
| KmRuns.RunGood | kernel/mm/kmalloc.c:212-401 | In every state of every run of all CPUs, with pushes onto a remote list while its owner works through the one it took off, the invariant holds |
| KmRuns.StepConserves | kernel/mm/kmalloc.c:230-296 | A step brings into use only what was not in use, and takes out of use only what a caller held; no other block comes or goes |
| KmRuns.StepHolds | kernel/mm/kmalloc.c:212-401 | Which blocks callers hold and which pages are in use after each step; a pushed block and its record wait for their owner, who holds both when it takes the record |
| KmRuns.StepWaits | kernel/mm/kmalloc.c:236-265 | A waiting free stays on a list of the CPU that owns its block until exactly the step in which that CPU takes it |
| KmRuns.RunWaits | kernel/mm/kmalloc.c:236-265 | Over every run a waiting free is served or still waits for the same CPU |
| KmIntact.BlocksApart | kernel/mm/kmalloc.c:212-401 | Different blocks share no byte, whether slots or large allocations |
| KmIntact.LiveDisjoint | kernel/mm/kmalloc.c:212-401 | Live blocks share no byte with each other or with any header |
| KmIntact.GoodWritten | kernel/mm/kmalloc.c:35-64 | A caller may write anything into a block it holds: invariants and all other blocks stay |
| KmAccount.SlotUse | kernel/mm/kmalloc.c:230-288 | Every slot is in exactly one of four uses: free, held, waiting for its owner, or a record of a waiting free |
| KmAccount.SlotsCounted | kernel/mm/kmalloc.c:281-285 | Live slots and the free count together make up all slots of a superblock |
| KmAccount.FreeWalk | kernel/mm/kmalloc.c:375-401 | The first `free_count` links lead to distinct aligned slots nobody uses; later links are not relied on |
| KmAccount.BucketWalk | kernel/mm/kmalloc.c:98-123 | The next pointers lead through exactly `num_sb` superblocks, all of that size and CPU; their free counts add up to the bucket's |
| KmAccount.Waiting | kernel/mm/kmalloc.c:236-265 | Every waiting free is found on the remote list of the CPU that owns the block |
| KmCalls.SizeClass | kernel/mm/kmalloc.c:300-304 | The size class is the least power of two of at least 8 bytes that holds the request, and its logarithm |
| KmCalls.CountReserved | kernel/mm/kmalloc.c:357-361 | The page count is the one asked for exactly below 2^31 - 1 pages less a header |
| KmCalls.CountRecorded | kernel/mm/kmalloc.c:357-367 | The 16-bit count in the header is that count exactly below 65535 pages less a header |
| KmCalls.NothingCutOff | kernel/mm/kmalloc.c:230-234 | Freeing gives back all pages exactly if there are at most 65535 |
| KmCalls.RoomSeenRight | kernel/mm/kmalloc.c:181-186 | The room that resizing sees is the room there is exactly if there are at most 65535 pages |
| KmCalls.RoomSeenWrong | kernel/mm/kmalloc.c:181-186 | Otherwise it sees less, or, for a multiple of 65536 pages, more than any request |
| KmCalls.ResizedRight | kernel/mm/kmalloc.c:167-205 | With at most 65535 pages resizing leaves room for the request and keeps all contents, and moves them only if the block was too small |
| Kmalloc.Kmem.constructor | kernel/mm/kmalloc.c:80-88 | Before the first request: empty buckets, nothing held |
| Kmalloc.Kmem.InitSuper | kernel/mm/kmalloc.c:375-401 | The header, the bucket counts, and a free list through all slots; the last link is left as it was |
| Kmalloc.Kmem.AddSuper | kernel/mm/kmalloc.c:310-322 | A new page with free blocks at the head of its bucket; no live block is touched |
| Kmalloc.Kmem.FindSuper | kernel/mm/kmalloc.c:325-333 | The first superblock with a free block; the branch that reports none is never reached |
| Kmalloc.Kmem.Take | kernel/mm/kmalloc.c:342-351 | Hands out the first free block of the superblock |
| Kmalloc.Kmem.MallocSmall | kernel/mm/kmalloc.c:298-352 | A block nobody held, of the least size class; a page is added only if none was free; a superblock with room left heads its list |
| Kmalloc.Kmem.MallocLarge | kernel/mm/kmalloc.c:355-372 | Pages nobody used or ever lost, with room behind the header |
| Kmalloc.Kmem.Kmalloc | kernel/mm/kmalloc.c:126-157 | Null for 0 bytes; otherwise an aligned block that was not live, with room for the request, all live blocks intact |
| Kmalloc.Kmem.ManageEmpty | kernel/mm/kmalloc.c:429-455 | Releases the empty superblock exactly if its bucket has more than ten; invariants and live blocks stay |
| Kmalloc.Kmem.Put | kernel/mm/kmalloc.c:274-279 | The block is first on its page's free list |
| Kmalloc.Kmem.FreeLocal | kernel/mm/kmalloc.c:267-288 | The block is free; its page is given back exactly if empty in a bucket of more than ten, else it heads its list |
| Kmalloc.Kmem.FreeLarge | kernel/mm/kmalloc.c:230-234 | The pages that the header counts are given back, the others stay reserved; no live block is touched |
| Kmalloc.Kmem.FreeRemote | kernel/mm/kmalloc.c:236-251 | The block waits in a fresh record at the front of its owner's list |
| Kmalloc.Kmem.ServeRecord | kernel/mm/kmalloc.c:260-265 | The first record of the list and the block it asks for leave the hands of this CPU, held blocks intact |
| Kmalloc.Kmem.Drain | kernel/mm/kmalloc.c:253-265 | The whole list is served; held blocks are intact, and as many frees wait as before, since every record becomes one |
| Kmalloc.Kmem.Kfree | kernel/mm/kmalloc.c:212-296 | The block leaves the caller's hands: no longer live if it is local or large, waiting for its owner otherwise; all held blocks are intact; the number of waiting frees never falls; exactly the pages the header does not count are lost |
| Kmalloc.Kmem.Krealloc | kernel/mm/kmalloc.c:167-205 | All four cases; a block is moved exactly if the request exceeds the room seen in it, and as much as that room is copied |
| SchedState.NoneLost | kernel/kernel/sched.c:166-227 | A queued task runs, on the CPU it is queued on, and a running one is queued or current on its CPU |
| SchedState.OnePlace | kernel/kernel/sched.c:301-379 | No admitted task is current on two CPUs, in two queues, or queued on one CPU and current on another |
| SchedSteps.EnqueueKeeps | kernel/kernel/sched.c:147-153 | Queueing a task keeps all queues, counts and flags right |
| SchedSteps.DequeueKeeps | kernel/kernel/sched.c:128-134 | Dequeueing a task leaves only that task out of place |
| SchedRuns.WakeGood | kernel/kernel/sched.c:166-183 | Waking keeps the invariant and never panics |
| SchedRuns.StepGood | kernel/kernel/sched.c:166-416 | Every step from a good state ends in a good state, or panics; it panics exactly if it would steal another CPU's current task |
| SchedRuns.ScheduleGood | kernel/kernel/sched.c:342-379 | Rescheduling panics exactly if the first task of the first queue it would steal from is current there; otherwise it keeps the invariant |
| SchedRuns.RunGood | kernel/kernel/sched.c:166-443 | In every state of every run from boot, on any number of CPUs, in any interleaving, the invariant holds |
| SchedLaws.StopDoes | kernel/kernel/sched.c:185-197 | A stopped task is stopped and on no queue; its CPU, its key, all other tasks, the order of all queues and all current tasks are as before |
| SchedLaws.BlockDoes | kernel/kernel/sched.c:199-227 | Blocking does the same to a running task, which then sleeps, and leaves any other task alone |
| SchedLaws.WakeDoes | kernel/kernel/sched.c:166-183 | A woken task runs and waits on its CPU, once, unless it is current there; a running one is left alone, and so is everybody else |
| SchedLaws.AdmitDoes | kernel/kernel/sched.c:255-268 | A new task runs and waits on the chosen CPU, a little behind the task that made it; nobody else is touched |
| SchedLaws.TickDoes | kernel/kernel/sched.c:382-398 | The current task is charged if it runs, queued or not; nothing else changes |
| SchedLaws.MigrateDoes | kernel/kernel/sched.c:301-339 | A task is taken over exactly if some other CPU whose lock is got has more than one waiting: the first one of the first such CPU; it fails exactly if that one is current there |
| SchedLaws.ScheduleDoes | kernel/kernel/sched.c:342-379 | Who runs next, who waits afterwards and in which order, on every CPU; states and keys stay; and it fails exactly if the CPU that gives has its current task first in its queue |
| SchedFacts.IdleOnlyWithoutWork | kernel/kernel/sched.c:342-379 | A CPU idles only if its queue was empty and every other CPU whose lock it got had at most one task queued |
| SchedFacts.ScheduleMovesOnly | kernel/kernel/sched.c:301-379 | Rescheduling changes nobody's state or key; at most one task changes CPU, from the front of another queue to the CPU that had nothing |
| SchedFacts.PanicReachable | kernel/kernel/sched.c:323-325 | From boot a state can be reached in which an idle CPU looking for work panics |
| SchedOrder.TickKeys | kernel/kernel/sched.c:389-398 | A tick adds to the key of the current task, queued or not, what is charged if it runs, and nothing otherwise; no other key moves |
| SchedOrder.SearchFinds | kernel/kernel/sched.c:116-121 | In a queue in order the tree search finds the place after all smaller and equal keys |
| SchedOrder.TickOrder | kernel/kernel/sched.c:389-398 | Charging the current task keeps all queues in order exactly if it is not queued, or not past the task behind it |
| SchedOrder.StepOrder | kernel/kernel/sched.c:128-416 | Every other step keeps them in order |
| SchedOrder.RunOrder | kernel/kernel/sched.c:128-443 | Over a run from boot the queues are always in order exactly if no tick carries a queued current task past the one behind it |
| SchedFacts.QueueOutOfOrder | kernel/kernel/sched.c:382-416 | A run can do so |
| SchedOrder.CurrAfter | kernel/kernel/sched.c:342-379 | After rescheduling the current task is queued exactly if the last one was running, not idle, and first in its queue, or alone with no work elsewhere |
| SchedOrder.StepCurrs | kernel/kernel/sched.c:128-416 | No other step queues a current task |
| SchedOrder.RunCurrs | kernel/kernel/sched.c:63-64 | Over a run from boot no current task is ever queued exactly if no CPU ever goes on with a task in that way |
| SchedFacts.StaleWake | kernel/kernel/sched.c:166-183 | Waking through the CPU read before the locks is right exactly if the task is still on that CPU or runs already |
| SchedFacts.StaleStop | kernel/kernel/sched.c:185-197 | Stopping through the CPU read before the locks is right exactly if the task is still on that CPU or on no queue, whatever erasing from the wrong tree does to the trees |
| SchedFacts.StaleBlock | kernel/kernel/sched.c:199-227 | The same for putting a task to sleep |
| SchedFacts.StaleWakeRunsTwice | kernel/kernel/sched.c:166-183 | Otherwise two CPUs can come to run the same task |
| Sched.Scheduler.constructor | kernel/kernel/sched.c:424-443 | Every CPU runs its idle task |
| Sched.Scheduler.RqDel | kernel/kernel/sched.c:128-134 | Takes exactly the dequeueing step |
| Sched.Scheduler.RqAdd | kernel/kernel/sched.c:147-153 | Takes exactly the queueing step |
| Sched.Scheduler.SetTaskRunning | kernel/kernel/sched.c:166-183 | Takes exactly the waking step, and fails only for a zombie; with the run queue of the task's CPU the task runs, once queued or current, and nobody else is touched |
| Sched.Scheduler.SetTaskStopped | kernel/kernel/sched.c:185-197 | The task is stopped and on no queue; all else is as before; keeps the invariant |
| Sched.Scheduler.SetTaskBlocked | kernel/kernel/sched.c:199-227 | A running task sleeps, interruptibly or not as asked, on no queue; any other is left alone; all else is as before; keeps the invariant |
| Sched.Scheduler.ScheduleTask | kernel/kernel/sched.c:255-268 | Admits a new task with the current key plus the granularity, and keeps the invariant |
| Sched.Scheduler.CrossCpuTask | kernel/kernel/sched.c:301-339 | Takes the first task of the first other CPU whose lock it gets and that has several waiting; nothing exactly if there is none; fails exactly if that task is current there |
| Sched.Scheduler.Schedule | kernel/kernel/sched.c:342-379 | Runs the first waiting task, else the one it takes over, else goes on or goes idle, with all queues and tasks told; fails exactly if it would take a current task; keeps the invariant |
| Sched.Scheduler.SchedTick | kernel/kernel/sched.c:382-416 | Charges the current task if it runs, queued or not, and nobody else; asks for rescheduling exactly if the first waiting task is far behind it |
| Mutex.LockGood | kernel/kernel/sync.c:54-92 | The fast path and joining the waiters keep the invariant |
| Mutex.WaitGood | kernel/kernel/sync.c:54-74 | Looking at the owner and waking up keep the invariant |
| Mutex.UnlockGood | kernel/kernel/sync.c:102-113 | Clearing the owner or naming the first waiter keeps the invariant |
| Mutex.PassGood | kernel/kernel/sync.c:113-115 | Taking the new owner off the waiters keeps the invariant |
| Mutex.RunGood | kernel/kernel/sync.c:47-117 | In every state of every run of any number of tasks, with wake-ups from elsewhere at any time, the invariant holds |
| Mutex.MutualExclusion | kernel/kernel/sync.c:76-117 | At most one task is between a returned `mutex_lock` and giving the mutex up, and `owner` names it |
| Mutex.OwnerNamesHolder | kernel/kernel/sync.c:54-117 | The owner has the mutex, or has been handed it and waits in the slow path |
| Mutex.FirstComeFirstServed | kernel/kernel/sync.c:54-117 | Over every run the waiters are handed the mutex in the order in which they queued |
| MutexCalls.LockFree | kernel/kernel/sync.c:76-92 | A free mutex is taken at once, whoever waits and whoever has the wait lock |
| MutexCalls.LockWaits | kernel/kernel/sync.c:54-92 | Otherwise, undisturbed, the task joins the end of the queue and sleeps without the wait lock, and goes no further before it is woken |
| MutexCalls.WokenLooks | kernel/kernel/sync.c:61-73 | A task that is woken has the mutex if it was handed it, and sleeps on in its place if not |
| MutexCalls.UnlockFrees | kernel/kernel/sync.c:94-108 | An undisturbed unlock with nobody waiting leaves the mutex free |
| MutexCalls.UnlockHands | kernel/kernel/sync.c:94-117 | With waiters it makes the first of them owner, takes it off the queue and wakes it |
| MutexCalls.WaitsWhen | kernel/kernel/sync.c:54-117 | A task is held up exactly by the wait lock or asleep in the queue |
| MutexFacts.NoLostWakeUp | kernel/kernel/sync.c:60-117 | Over every run a task handed the mutex while asleep is awake or about to be woken |
| MutexFacts.RecordLost | kernel/kernel/sync.c:58-116 | A waiter's record is lost in exactly one way: the new owner leaves its slow path while it is still to be woken |
| MutexFacts.RunAlive | kernel/kernel/sync.c:54-117 | Over every run, whatever wakes the waiters, the records are alive whenever they may be read exactly if no waiter leaves so |
| MutexFacts.RecordAlive | kernel/kernel/sync.c:110-116 | Without wake-ups from elsewhere none does |
| MutexFacts.RecordGone | kernel/kernel/sync.c:110-116 | With one, a run leads there |
| MutexFacts.StrandedHow | kernel/kernel/sync.c:58-108 | Waiters for a mutex nobody owns come about exactly by queueing after the owner was cleared |
| MutexFacts.StrandedStays | kernel/kernel/sync.c:61-73 | Such a waiter stays, whatever wakes it, until another task takes the mutex and releases it |
| MutexFacts.StrandedReachable | kernel/kernel/sync.c:54-117 | A run leads there from a fresh mutex |
| PtState.PathIsPage | kernel/arch/x86/include/paging.h:23-27 | Two addresses take the same four indices exactly if they lie in the same virtual page |
| PtState.EntryWritten | kernel/arch/x86/kernel/paging64.c:77-116 | Writing one entry of a page table changes the translation of exactly that page |
| PtState.TableAdded | kernel/arch/x86/kernel/paging64.c:25-62 | Hanging a zeroed table into an empty entry changes no translation |
| PtFlags.PageFlagBits | kernel/arch/x86/kernel/kmm.c:17-34 | Bit by bit, the translated flags are exactly the entry bits that the mapping flags ask for |
| PtFlags.MergedBits | kernel/arch/x86/kernel/paging64.c:66 | Entries get the bits asked for, the present bit, and the raw mapping flags besides |
| PtFlags.MergedFlags | kernel/arch/x86/kernel/paging64.c:66 | The flags merged with the raw mapping bits are present, small-page flags below the frame number |
| PtFlags.EntryMade | kernel/arch/x86/kernel/paging64.c:29-83 | An entry made of a frame and flags is present and names that frame |
| PageTables.AddressSpace.GetOrAllocTable | kernel/arch/x86/kernel/paging64.c:25-62 | The table below an entry, made if it was not there; no translation changes |
| PageTables.AddressSpace.GetOrAllocPdpt | kernel/arch/x86/kernel/paging64.c:25-36 | The same at the first level |
| PageTables.AddressSpace.GetOrAllocPd | kernel/arch/x86/kernel/paging64.c:38-49 | The same at the second level |
| PageTables.AddressSpace.GetOrAllocPt | kernel/arch/x86/kernel/paging64.c:51-62 | The same at the third level |
| PageTables.AddressSpace.MapPages | kernel/arch/x86/kernel/paging64.c:64-87 | Succeeds exactly if none of the pages was mapped; then exactly those pages translate to the frames asked for plus the offset and all others as before, and their entries carry exactly the merged flags; on failure the pages before the first mapped one are mapped |
| PageTables.AddressSpace.UnmapPages | kernel/arch/x86/kernel/paging64.c:89-120 | Succeeds exactly if all pages were mapped; then exactly those are gone; on failure the pages before the first unmapped one are gone |
| PageTables.AddressSpace.FindTable | kernel/arch/x86/kernel/paging64.c:92-109 | Finds the page table exactly if all levels above it are present |
| PageTables.AddressSpace.GetPhysAddr | kernel/arch/x86/kernel/paging64.c:181-205 | The result is what the processor uses exactly if nothing is mapped, or the entry has no bits above the address and its bits between its low 12 and its frame are those of the address |
| PtState.TakenExactly | kernel/arch/x86/kernel/paging64.c:192-204 | That condition for one entry, for 4 KiB, 2 MiB and 1 GiB pages |
| PtState.FirstPageOnly | kernel/arch/x86/kernel/paging64.c:192-199 | For an aligned large page it holds exactly in its first 4 KiB; so for the map of physical memory in lines 128-147 |
| PageTables.Levels | kernel/arch/x86/kernel/paging64.c:181-205 | Following the entries alone, as the processor does, gives what the tree of tables gives |
| PtState.TableFound | kernel/arch/x86/kernel/paging64.c:15-18 | The code finds every table where the processor does |
| PageTables.RankOf | kernel/arch/x86/kernel/paging64.c:64-87 | Which page of a range an address is in, also for ranges that wrap around the 48-bit space |
| Ldisc.Tty.constructor | kernel/drivers/tty/ldisc.c:17-22 | An empty buffer |
| Ldisc.Tty.NcAddChar | kernel/drivers/tty/ldisc.c:24-32 | The byte is ready at once, unless 1023 bytes are held |
| Ldisc.Tty.CAddChar | kernel/drivers/tty/ldisc.c:34-40 | The byte joins the edit line, unless 1023 bytes are held |
| Ldisc.Tty.CEraseChar | kernel/drivers/tty/ldisc.c:42-49 | The last byte of the edit line goes, and nothing that is ready |
| Ldisc.Tty.CKillLine | kernel/drivers/tty/ldisc.c:51-54 | The edit line goes |
| Ldisc.Tty.CCommitLine | kernel/drivers/tty/ldisc.c:56-62 | The edit line becomes ready |
| Ldisc.Tty.CEraseWord | kernel/drivers/tty/ldisc.c:151-174 | Blanks at the end and the word before them go; the result is their number |
| Ldisc.Tty.FlushInput | kernel/drivers/tty/ldisc.c:176-186 | The edit line, or in non-canonical mode what is ready, goes |
| Ldisc.Tty.SetTermios | kernel/drivers/tty/ldisc.c:189-219 | Turning canonical mode on drops everything; turning it off makes the edit line ready behind what was ready; other changes leave both alone |
| Ldisc.Tty.SignalChar | kernel/drivers/tty/ldisc.c:246-281 | Which characters signal, and which of them flush |
| Ldisc.Tty.FlowChar | kernel/drivers/tty/ldisc.c:284-303 | Which characters stop and start output |
| Ldisc.Tty.HandleCChar | kernel/drivers/tty/ldisc.c:306-363 | Erase drops the last byte, kill the line, the word key the blanks and the word at the end; reprint nothing; end of file makes a line ready or marks the end; newline and end of line end the line; any other byte joins it |
| Ldisc.Tty.ReceiveBuf | kernel/drivers/tty/ldisc.c:390-419 | For every byte stream the ring does what the line editor does, cursors staying in order and at most 1023 apart |
| Ldisc.Tty.ReadChar | kernel/drivers/tty/ldisc.c:64-76 | The first ready byte, as a signed number |
| Ldisc.Tty.CRead | kernel/drivers/tty/ldisc.c:421-461 | A canonical read does to the ring what it does to the line editor, from any start or wake-up to the next wait or the end |
| Ldisc.Tty.NcRead | kernel/drivers/tty/ldisc.c:463-552 | The same for a non-canonical read |
| LdKeys.WordErased | kernel/drivers/tty/ldisc.c:151-174 | What is erased is one word and the blanks after it; what stays is empty or ends with a blank |
| LdKeys.KeyEdits | kernel/drivers/tty/ldisc.c:306-419 | What one more byte typed after any others does in canonical mode, key by key: erase, kill, word erase, reprint, end of file, end of line, newline, and plain bytes, with a full buffer too |
| LdKeys.KeyReady | kernel/drivers/tty/ldisc.c:366-419 | In non-canonical mode the byte is ready at once, if there is room |
| LdKeys.KeySignals | kernel/drivers/tty/ldisc.c:246-281 | Interrupt and quit drop the edit line, or in non-canonical mode what is ready; suspend drops nothing; none of them is input |
| LdKeys.KeyHolds | kernel/drivers/tty/ldisc.c:284-303 | Start and stop let output go and hold it, and are not input |
| LdKeys.FlagsDo | kernel/drivers/tty/ldisc.c:222-243 | What each input flag does to a byte: 0 and ignored returns do nothing; a stripped, translated or lower-cased byte is as good as the one it stands for |
| LdKeys.ReturnEnds | kernel/drivers/tty/ldisc.c:235-243 | The return key ends the line where it is translated |
| LdKeys.EraseUndoes | kernel/drivers/tty/ldisc.c:310-349 | Erasing n times takes back the last n bytes typed, and nothing else |
| LdKeys.SwitchChanges | kernel/drivers/tty/ldisc.c:189-219 | What a mode change leaves ready and in the edit line |
| LdKeys.PlainTyped | kernel/drivers/tty/ldisc.c:342-349 | Plain bytes join the edit line as they are |
| LdKeys.LineTyped | kernel/drivers/tty/ldisc.c:333-349 | A line of plain bytes and a newline become ready together |
| LdFacts.CanonReadTakes | kernel/drivers/tty/ldisc.c:421-461 | A canonical read gets the 7-bit bytes of what is ready, all of it up to `nr` bytes or the first newline; the end mark is spent exactly by a read that ends by it |
| LdFacts.CanonReadWaits | kernel/drivers/tty/ldisc.c:421-461 | It waits exactly if there is no newline, too little, and no end of file |
| LdFacts.RawReadTakes | kernel/drivers/tty/ldisc.c:463-552 | A non-canonical read takes all that is ready up to `nr` if `vmin` is 0, up to `vmin` if the timer runs, and up to the more of both otherwise |
| LdFacts.RawReadWaits | kernel/drivers/tty/ldisc.c:463-552 | It waits exactly while it has fewer than `vmin` bytes |
| LdEditor.CleanSplit | kernel/drivers/tty/ldisc.c:421-552 | Which bytes reach the reader is decided byte by byte, in order |
| LdEditor.CleanOne | kernel/drivers/tty/ldisc.c:64-76 | and those are the bytes of 7 bits |
| LdFacts.KeepsReady | kernel/drivers/tty/ldisc.c:176-219 | Nothing ready is lost exactly if the step is neither an interrupt in non-canonical mode nor a switch to canonical mode while bytes are ready |
| LdFacts.ReadInOrder | kernel/drivers/tty/ldisc.c:390-552 | Over every run of input, mode changes and reads that drops nothing, readers get exactly the 7-bit bytes that became ready, in order |
| VmaSpec.CarveOrdered | kernel/mm/mm.c:227-271 | Carving keeps the list in order and leaves nothing in the range |
| VmaSpec.CarveFind | kernel/mm/mm.c:227-271 | Addresses in the range find nothing, all others what they found |
| VmaSpec.InsertOrdered | kernel/mm/mm.c:62-97 | Insertion keeps the list in order exactly if the area is not empty and there is room for it |
| VmaSpec.InsertFind | kernel/mm/mm.c:62-97 | The inserted range finds the area, all other addresses what they found |
| VmaSpec.Overrides | kernel/mm/mm.c:299-331 | A fixed mapping overrides: its range finds the new area, all else what it found; the list stays in order exactly if the range is not empty |
| VmaSpec.BytesMapped | kernel/mm/mm.c:227-331 | The bytes accounted for are exactly the addresses that find an area |
| Vma.Mm.FindVma | kernel/mm/mm.c:37-47 | The area the address lies in, or null |
| Vma.Mm.LinkFront | kernel/mm/mm.c:67-79 | The area heads a well-linked list |
| Vma.Mm.LinkAfter | kernel/mm/mm.c:85-92 | The area follows its predecessor in a well-linked list |
| Vma.Mm.LastBefore | kernel/mm/mm.c:67-83 | What a new area is linked after |
| Vma.Mm.VmaListInsert | kernel/mm/mm.c:62-97 | Sorted insertion in a well-linked list, with the account moved; the list stays valid exactly if the area is not empty and has room |
| Vma.Mm.VmaListRemove | kernel/mm/mm.c:99-113 | The list without the area, well linked, with the account moved |
| Vma.Mm.SplitAround | kernel/mm/mm.c:242-258 | An area that spans the range becomes two, linked in place |
| Vma.Mm.CarveOne | kernel/mm/mm.c:236-269 | All four cases leave of an area what lies outside the range |
| Vma.Mm.UnmapRange | kernel/mm/mm.c:227-271 | The list is the carved list, well linked; `total_vm` changes by the change in mapped bytes |
| Vma.Mm.MmapFixed | kernel/mm/mm.c:286-363 | The list is the overridden list; refused ranges change nothing; a file that cannot be mapped leaves the range unmapped; `total_vm` changes by the change in mapped bytes; an empty area is left exactly if no pages are asked for |
| Vma.FixedWhen | kernel/mm/mm.c:286-304 | A fixed range is accepted exactly at a page other than the first, if with its length rounded up to pages, fewer than 2^31 after 32-bit truncation, it ends below the limit; and it ends there |
| Vma.EndAsAsked | kernel/mm/mm.c:290-302 | The range ends where the caller asked, rounded up, exactly up to 2^31 - 1 pages |
| Vma.NothingMapped | kernel/mm/mm.c:290-302 | No page is mapped exactly for lengths that round up to a multiple of 2^44, as 0 does |
| Bitmap.SeesFree | kernel/mm/pmem.c:184-197 | A free bit lengthens the run or completes the first one long enough |
| Bitmap.SkipsFull | kernel/mm/pmem.c:124-136 | A full word ends every run |
| Bitmap.AddrRight | kernel/mm/pmem.c:211 | The address, an int product, is that of the page exactly below page 2^19 |
| Bitmap.AddrNull | kernel/mm/pmem.c:211 | It is null exactly for page 0 and every 4 GiB above it |
| Bitmap.AddrBack | kernel/mm/pmem.c:8-9 | Dividing it gives the page back exactly below page 2^19 |
| Bitmap.Allocator.DoAlloc | kernel/mm/pmem.c:202-212 | Sets exactly the bits of the run; the address is the product the code computes for its first page |
| Bitmap.Allocator.CheckBitmap | kernel/mm/pmem.c:182-200 | Looks through one word, carrying a run over from earlier words |
| Bitmap.Allocator.AllocFrames | kernel/mm/pmem.c:114-143 | Exact first fit on page numbers, unless the address of the lowest run is null: then that run is taken as well, and a later one may be returned; fails without change if there is no run |
| Bitmap.Allocator.FreeFrames | kernel/mm/pmem.c:145-160 | Clears exactly the bits of the run whose first page the address divides to |
| Bitmap.Allocator.MarkFrames | kernel/mm/pmem.c:162-179 | Sets exactly n bits from any bit of any word on |
| Bitmap.Allocator.NumFreeFrames | kernel/mm/pmem.c:239-249 | The number of free pages |
| Bitmap.FreeRestores | kernel/mm/valloc.c:27-72 | Freeing what was allocated restores the bitmap, word for word; the heap page allocator runs the same search |
| FatChains.FreeOnNone | kernel/fs/fat32/fat32.c:163-179 | A free cluster is on no chain |
| FatChains.Adds | kernel/fs/fat32/fat32.c:181-190 | Adding a free cluster at the end of a chain, or as a new one, keeps all chains finite, acyclic and disjoint, and changes no other |
| FatChains.Taken | kernel/fs/fat32/fat32.c:181-190 | The free clusters lose exactly the one taken |
| FatChains.SomeFree | kernel/fs/fat32/fat32.c:163-179 | While the count is right and not zero, and nothing below the hint is free, there is a free cluster at or above the hint |
| Fat32.FatDisk.FatValue | kernel/fs/fat32/fat_internal.h:148-158 | The low 28 bits of an entry |
| Fat32.FatDisk.FatSetValue | kernel/fs/fat32/fat_internal.h:148-166 | One entry is written; its top bits are cleared |
| Fat32.FatDisk.FindFreeClst | kernel/fs/fat32/fat32.c:163-179 | The first free cluster from the hint on; the scan leaves the table exactly if the count is not zero and there is none |
| Fat32.FatDisk.AddNewClst | kernel/fs/fat32/fat32.c:181-190 | Links the cluster at the chosen tail; count, hint and chains stay right |
| Fat32.FatDisk.FindAllocClst | kernel/fs/fat32/fat32.c:192-198 | The lowest free cluster, that was on no chain, now last of the chosen chain or a chain of its own; no other entry or chain changes; none exactly if the count is zero |
| Fat32.FatDisk.GetClstNum | kernel/fs/fat32/fat32.c:148-161 | The cluster so many places down the chain; the end mark or -1 beyond its end; leaves the table exactly if it goes on from a last cluster marked 0x0FFFFFF8 |
| Fat32.FatDisk.DoRead | kernel/fs/fat32/file.c:84-103 | The contents of up to n clusters of the chain, in order |
| Fat32.FatDisk.Read | kernel/fs/fat32/file.c:12-44 | Byte by byte what the chain holds that starts at the cluster of which the directory entry has the two halves, from the position on, as much as asked for and there is; -1 exactly for none at the start of a cluster or for 2^32 bytes in whole clusters |
| Fat32.FirstClstHalves | kernel/fs/fat32/fat_internal.h:168-171 | The first cluster is the number whose remainder by 2^16 is the low half and whose quotient is the high half, so that two files start alike exactly if both halves agree |
| Fat32.BytesHeld | kernel/fs/fat32/file.c:84-103 | The bytes of a file are those of its clusters, in the order of the chain |
| Fat32.RoundedUp | kernel/fs/fat32/fat_internal.h:99 | The mask rounds up to whole clusters, but forgets what is beyond 32 bits |
| Fat32.Window | kernel/fs/fat32/file.c:12-44 | The clusters read hold the bytes asked for at the offset |
| MtrrSpec.ChunkFacts | kernel/arch/x86/kernel/kmm.c:151-161 | The chunk is the largest power of two within the size that divides the base |
| MtrrSpec.TilesCover | kernel/arch/x86/kernel/kmm.c:164-184 | The chunks cover each address of the range once and no other |
| MtrrSpec.TilesNatural | kernel/arch/x86/kernel/kmm.c:164-184 | Each is a power of two of pages aligned to itself, within the range |
| MtrrSpec.FillAdds | kernel/arch/x86/kernel/kmm.c:164-184 | The addresses of the first chunks, as many as there are free registers, gain the type, and no others; with enough registers all of the range |
| MtrrSpec.SplitKeeps | kernel/arch/x86/kernel/kmm.c:215-245 | Splitting a region around the buffer keeps the types of every address outside it |
| Mtrr.ReadsBack | kernel/arch/x86/kernel/kmm.c:118-148 | A register pair reads back as the base, size and type set |
| Mtrr.MatchesRegion | kernel/arch/x86/kernel/kmm.c:137-148 | The processor's mask comparison holds for exactly the addresses of the region |
| Mtrr.PowerTest | kernel/include/lilac/math.h:11-14 | A number shares no bit with its predecessor exactly if it is a power of two |
| Mtrr.RoundUp | kernel/include/lilac/math.h:6-14 | The least power of two at or above the size |
| Mtrr.Mtrrs.FindFree | kernel/arch/x86/kernel/kmm.c:96-107 | The first register that is not valid; -1 exactly if all are |
| Mtrr.Mtrrs.GetRegion | kernel/arch/x86/kernel/kmm.c:118-135 | Base, size and type of a valid register; size 0 otherwise |
| Mtrr.Mtrrs.SetRegion | kernel/arch/x86/kernel/kmm.c:137-148 | The register holds exactly the region set |
| Mtrr.Mtrrs.LargestPow2Region | kernel/arch/x86/kernel/kmm.c:151-161 | The chunk as specified |
| Mtrr.Mtrrs.SetRegionMulti | kernel/arch/x86/kernel/kmm.c:164-184 | The free registers take the chunks in order, as far as there are any |
| Mtrr.Mtrrs.FindOverlapping | kernel/arch/x86/kernel/kmm.c:186-205 | The first register that shares an address with the range; -1 exactly if none does |
| Mtrr.Mtrrs.MakeRoom | kernel/arch/x86/kernel/kmm.c:215-245 | With enough free registers the first register that meets the range loses it, and no address has another type gained or lost; regions stay sound |
| Mtrr.Mtrrs.MapBufferWc | kernel/arch/x86/kernel/kmm.c:207-260 | The range around the start of the buffer has a size that is the least power of two that is enough; with enough free registers it is write-combining and has beside that only the types of registers behind the first that meets it; all else is as before; regions stay sound |
| Mtrr.FirstFound | kernel/arch/x86/kernel/kmm.c:186-205 | The search finds the first register that shares an address with the range, if there is one |
| Mtrr.BufferTyped | kernel/arch/x86/kernel/kmm.c:207-260 | With enough free registers the range is write-combining, every other address keeps exactly its types, and in the range only later registers' types are left beside |
| Mtrr.BufferAlone | kernel/arch/x86/kernel/kmm.c:207-260 | If at most one register meets the range, it has no other type than write-combining |
| Mtrr.FillSound | kernel/arch/x86/kernel/kmm.c:164-184 | Chunks keep all regions whole pages within the address space |
| Mtrr.BufferCovered | kernel/arch/x86/kernel/kmm.c:207-260 | The whole buffer is then write-combining exactly if what lies beyond the range was so before |
| Mtrr.NothingBeyond | kernel/arch/x86/kernel/kmm.c:207-211 | and nothing lies beyond exactly if the buffer's offset in the range and its size fit it |
| Clock.OneFits | kernel/arch/x86/kernel/timer.c:60-76 | A shift of 1 fits 32 bits for every frequency of at least 1 Hz |
| Clock.NoWrap | kernel/arch/x86/kernel/timer.c:60-76 | The scaled sum never wraps |
| Clock.ClockSource.SetClockScale | kernel/arch/x86/kernel/timer.c:60-76 | The largest shift whose rounded factor fits 32 bits; the fallback is never reached |
| Clock.TicksClose | kernel/include/lilac/timer.h:89-99 | Below 2^64 the result is within t / 2^(shift + 1) + 1 of t * 10^9 / freq |
| Clock.MulU64U32Shr | kernel/include/lilac/timer.h:73-87 | The product in halves equals the wide product, shifted, mod 2^64 |

## Left out

- Augmentation callbacks, lockless lookups, `rb_add`, `rb_find` and `rb_find_add`: the same walks without the cached node.
- Kmalloc.Kmem.Kmalloc: requests of 8 TiB and more, for more pages than the frame bitmap has numbers; `KmCalls.CountReserved` shows that this is where the count stops being right. Running out of pages is not modelled.
- Kmalloc.Kmem.Krealloc: contents are carried over word by word of 8 bytes, not byte by byte; the same limit on sizes holds.
- Kmalloc.Kmem.Kfree: one call at a time. `KmRuns` has the interleavings, of steps that are proved with the same lemmas; that every call is a sequence of these steps is not stated as a theorem.
- Kmalloc.Kmem.Drain: likewise.
- `kzmalloc`, `kcalloc`, the canary and the debug checks of the allocator.
- SchedRuns.RunGood: a locked region is one step, together with the read of the task's CPU before it. `SchedFacts.StaleWake`, `SchedFacts.StaleStop` and `SchedFacts.StaleBlock` say when a step with an earlier read is still right; runs that go on after one that is not are left out.
- SchedRuns.RunGood: the place a task takes in a queue is any place, since keys may have changed; `SchedOrder.SearchFinds` says where it goes in a queue in order. Idle tasks never block.
- `do_exit` and `sigsuspend` store the task state directly and are not among the steps. Context switching, interrupts and floating-point state.
- Mutex.RunGood: pids are distinct, locking is not recursive, and accesses are sequentially consistent. The model is on values, since what counts are the interleavings.
- Semaphores.
- PageTables.AddressSpace.MapPages: frames and tables lie below 2^48, flags are the kernel's own mapping bits, there are enough zeroed frames for tables, and no page of the range lies in a huge page. Shifts and masks are written as divisions and remainders.
- PageTables.AddressSpace.FindTable: no large page in the way; the code would take its memory for a table.
- PageTables.AddressSpace.GetPhysAddr: the null pointer for an address that is not mapped is a case of its own.
- PageTables.AddressSpace.UnmapPages: no page of the range lies in a huge page. Tables are never freed, as in the source.
- What the flags along the way permit, and TLB flushing.
- Ldisc.Tty.ReceiveBuf: echo, delivery of signals, and the waking of readers. Cursors are unbounded.
- Ldisc.Tty.SetTermios: changes that do not go through the read lock while a read is at work; a missing old setting counts as non-canonical.
- Ldisc.Tty.CRead: a read ended by a signal.
- Output processing.
- `brk`, `sbrk` and `create_new_vma_after`: the first two do not account, the third does not look at later areas.
- Vma.Mm.MmapFixed: allocations succeed; flags, file and segment are one attribute; which error a file gives is one case.
- Bitmap.Allocator.AllocFrames: page numbers fit an int; how often runs are lost in one call when their addresses are null is not counted.
- The write path of FAT files, which passes the end mark as the last cluster; directories, names and time stamps; writing the table to disk.
- Fat32.FatDisk.Read: the file's chain holds its size, clusters are a power of two below 64 KiB (the field for their size has 16 bits), sectors are a map from clusters to bytes, and memory for the buffer is there.
- Mtrr.Mtrrs.MapBufferWc: the buffer is larger than half a page and within the physical address space, and the registers hold regions of whole pages within it. Only the first overlapping register is split, as in the source. Disabling and enabling caches.
- Mtrr.BufferTyped: enough free registers; without, `Mtrr.Mtrrs.SetRegionMulti` and `MtrrSpec.FillAdds` say how far they go.
- Clock.ClockSource.SetClockScale: a frequency of 0, which divides by 0.
