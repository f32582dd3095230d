# A verified model of parts of OS/161

This project models six parts of the OS/161 1.99 kernel and its C library, and proves what
they are for.

- **64-bit millicode** (`Digits`, `AlgorithmD`, `QDivRem`, `LongLong`): Knuth's Algorithm D
  (The Art of Computer Programming, volume 2, section 4.3.1) for any base and any lengths,
  instantiated at base 2^16; signed division and remainder; the three-product multiplication.
- **Kernel heap** (`HeapSpec`, `HeapProof`, `HeapRuns`, `Kmalloc`): the heap as pages, blocks
  and owners; every run of allocations and frees with the lock dropped in the middle; and the
  allocator itself, with its page descriptors, bitmap, linked lists and in-page free lists.
- **Threads** (`ThreadList`, `Migration`, `Scheduler`, `Semaphore`, `LockCv`, `Spl`, `Fifo`): thread
  lists at the level of pointers; migration against an arbitrary environment; and step systems
  for where threads are, for semaphores, for locks and condition variables, and for the
  interrupt count.
- **Cats and mice** (`CatMouse`): the simulation checked against its monitor.
- **Virtual memory** (`VmSpec`, `VmProof`, `Vm`): page tables filled on demand and the TLB as
  a cache of them.
- **printf, atoi, memmove** (`PrintfSpec`, `PrintfLaws`, `Printf`, `Atoi`, `RoundTrip`,
  `Memmove`).

`Common` holds what the modules share. Code that changes things in place is modelled by
classes and methods whose contracts tie each new state to a function of the old one; protocols
are modelled by steps, with theorems about every run. In a step system each step is one access
under a lock or one critical section, and any thread or CPU may take the next step.

Where a property does not hold of the code, the model keeps the code and states exactly when
the property holds: `HeapRuns.LargeSafe`, `VmProof.RegionMapped`,
`VmProof.LayoutServed`, `VmProof.RunProtected`, `RoundTrip.RoundTrip` and `LongLong.DivDi3`.

The comment on the printf number buffer (`common/libc/printf/__printf.c`, lines 76-84)
promises one character to spare. The size that the code computes has none, as
`Printf.NumberFillsBuffer` shows; it is enough all the same (`Printf.NumberFits`).

## Assumptions

- `alloc_kpages` and `getppages` return fresh, page-aligned runs of pages, none of them page
  zero; `free_kpages` never recycles.
- C arithmetic is two's complement, and `int` and `long` have 32 bits.
- `lk_owner` of a new lock names no thread.
- A page fault other than a write to a read-only page is taken only on a page not in the TLB.
- A thread enters `thread_switch` holding no spinlock but those that `thread_switch` releases.

## Model

| member | source | states |
|---|---|---|
| `AlgorithmD.EstimateDigit` | os161-1.99/common/gcc-millicode/qdivrem.c:193-210 | for any base, the estimate loop leaves the best digit that the leading two digits of the divisor allow, after at most two corrections if the divisor is normalised |
| `AlgorithmD.CorrectEstimate` | os161-1.99/common/gcc-millicode/qdivrem.c:205-210 | the correction loop goes from any estimate not below the best digit down to exactly it |
| `AlgorithmD.DigitEstimate` | os161-1.99/common/gcc-millicode/qdivrem.c:185-210 | for all digit strings with dividend part below divisor times base, that best digit is the true quotient digit or one more |
| `AlgorithmD.LeadingDigitBound` | os161-1.99/common/gcc-millicode/qdivrem.c:185-191 | while the dividend part is below the divisor times the base, its leading digit is at most the divisor's, so the two branches of the estimate cover all cases |
| `AlgorithmD.MultiplySubtract` | os161-1.99/common/gcc-millicode/qdivrem.c:217-223 | the digits now denote the old value minus qhat times the divisor, plus a power of the base exactly when a borrow is reported |
| `AlgorithmD.SubtractWord` | os161-1.99/common/gcc-millicode/qdivrem.c:217-221 | one word of the subtraction, in wrapped 32-bit arithmetic, is one exact digit and an exact borrow |
| `AlgorithmD.SubtractTop` | os161-1.99/common/gcc-millicode/qdivrem.c:222-223 | the top word absorbs the last borrow; its high half is nonzero exactly when the subtraction went below zero |
| `AlgorithmD.BorrowMeansTooLarge` | os161-1.99/common/gcc-millicode/qdivrem.c:224-230 | a borrow is left if and only if the estimate was one too large |
| `AlgorithmD.AddBack` | os161-1.99/common/gcc-millicode/qdivrem.c:230-238 | adding the divisor back restores the exact remainder, with the carry out of the top digit cancelling the borrow |
| `AlgorithmD.AddWord` | os161-1.99/common/gcc-millicode/qdivrem.c:232-236 | one word of the add-back is one exact digit and an exact carry |
| `AlgorithmD.DividedAllowsStep` | os161-1.99/common/gcc-millicode/qdivrem.c:182-192 | before every turn of the digit loop the digits under division are below the divisor times the base |
| `AlgorithmD.DivideStep` | os161-1.99/common/gcc-millicode/qdivrem.c:182-239 | one turn of the digit loop: the estimate is corrected at most twice, the digit stored is the true quotient digit, and what is left is the true remainder, below the divisor |
| `AlgorithmD.DivideDigits` | os161-1.99/common/gcc-millicode/qdivrem.c:182-240 | for every base, divisor length n >= 2 and quotient length, the digit loop computes quotient and remainder exactly |
| `QDivRem.ShiftLeft` | os161-1.99/common/gcc-millicode/qdivrem.c:270-279 | shl multiplies the number in the digit array by the power of two, when nothing falls out |
| `QDivRem.ShiftRight` | os161-1.99/common/gcc-millicode/qdivrem.c:248-253 | the denormalising loop shifts the number in the digits down by d bits, in place, losing exactly the low bits |
| `QDivRem.NormalisingShift` | os161-1.99/common/gcc-millicode/qdivrem.c:169-171 | the shift found is the one that makes the leading digit at least half the base |
| `QDivRem.Normalise` | os161-1.99/common/gcc-millicode/qdivrem.c:169-175 | dividend and divisor are both multiplied by the same power of two and the divisor becomes normalised |
| `QDivRem.ScaledDivision` | os161-1.99/common/gcc-millicode/qdivrem.c:242-246 | scaling both operands leaves the quotient alone and scales the remainder |
| `QDivRem.ShortDivide` | os161-1.99/common/gcc-millicode/qdivrem.c:136-147 | the unrolled short division gives the exact quotient digits and remainder for a one-digit divisor |
| `QDivRem.ShortPath` | os161-1.99/common/gcc-millicode/qdivrem.c:123-149 | a divisor of one digit is divided by exactly: the true quotient and the true remainder |
| `QDivRem.SkipLeadingZeros` | os161-1.99/common/gcc-millicode/qdivrem.c:157-158 | the dividend pointer stops at its first nonzero digit |
| `QDivRem.ClearBelow` | os161-1.99/common/gcc-millicode/qdivrem.c:159-161 | the quotient digits below the computed ones are zero |
| `QDivRem.Load` | os161-1.99/common/gcc-millicode/qdivrem.c:112-122 | the four digits denote the 64-bit number |
| `QDivRem.Store` | os161-1.99/common/gcc-millicode/qdivrem.c:260-262 | the number assembled is the one that the four digits denote |
| `QDivRem.StoreRemainder` | os161-1.99/common/gcc-millicode/qdivrem.c:247-258 | the remainder stored is the denormalised one |
| `QDivRem.DivideNormalised` | os161-1.99/common/gcc-millicode/qdivrem.c:176-240 | the loop, run on the normalised operands inside the arrays, gives the exact quotient |
| `QDivRem.LongDivide` | os161-1.99/common/gcc-millicode/qdivrem.c:152-262 | for divisors of two to four digits, quotient and remainder are exact |
| `QDivRem.QDivRem` | os161-1.99/common/gcc-millicode/qdivrem.c:67-263 | for every dividend and every nonzero divisor, u = q*v + r with r < v, on every path; a zero divisor, and only that, is reported as a division by zero |
| `LongLong.TruncLaw` | os161-1.99/common/gcc-millicode/divdi3.c:40-43 | the quotient truncated toward zero and the remainder with the dividend's sign satisfy a = q*b + r with r smaller than b in magnitude |
| `LongLong.DivDi3` | os161-1.99/common/gcc-millicode/divdi3.c:44-62 | the result is the truncated quotient except for the one overflowing case, and always congruent to it modulo 2^64 |
| `LongLong.ModDi3` | os161-1.99/common/gcc-millicode/moddi3.c:45-62 | the result is the truncated remainder, for every dividend and nonzero divisor |
| `LongLong.DivModLaw` | os161-1.99/common/gcc-millicode/divdi3.c:44-62 | q*b + r is congruent to a modulo 2^64 for all a and all b other than 0, the most negative values included |
| `LongLong.LMulQ` | os161-1.99/common/gcc-millicode/muldi3.c:183-241 | the product of two 32-bit numbers, exact in 64 bits |
| `LongLong.MiddleTerm` | os161-1.99/common/gcc-millicode/muldi3.c:202-210 | magnitude and sign of the middle term are those of the product of the differences |
| `LongLong.AssembleProduct` | os161-1.99/common/gcc-millicode/muldi3.c:214-240 | the words accumulated with carry and borrow tests are the exact sum of the shifted terms |
| `LongLong.AddWords` | os161-1.99/common/gcc-millicode/muldi3.c:224-232 | the unsigned comparison after an addition is exactly the carry |
| `LongLong.SubtractWords` | os161-1.99/common/gcc-millicode/muldi3.c:219-223 | the unsigned comparison after a subtraction is exactly the borrow |
| `LongLong.Karatsuba` | os161-1.99/common/gcc-millicode/muldi3.c:54-70 | the three-product identity on which both multiplications rest |
| `LongLong.MulMagnitudes` | os161-1.99/common/gcc-millicode/muldi3.c:124-158 | the product of two 64-bit magnitudes modulo 2^64, on the short and the general path |
| `LongLong.MulDi3` | os161-1.99/common/gcc-millicode/muldi3.c:99-164 | the result is the product wrapped to 64 bits, for all signed operands including the most negative |
| `HeapProof.BlocksConserved` | os161-1.99/kern/vm/kmalloc.c:480-505 | on every page the free blocks and the live blocks together are all the blocks of the page |
| `HeapProof.TakeKeeps` | os161-1.99/kern/vm/kmalloc.c:422-450 | taking a block keeps the heap invariant: free lists without repetition and in bounds, and the bitmap, the list of all pages and the lists by size naming the same pages |
| `HeapProof.AddPageKeeps` | os161-1.99/kern/vm/kmalloc.c:480-505 | adding a fresh page keeps the heap invariant |
| `HeapProof.GiveKeeps` | os161-1.99/kern/vm/kmalloc.c:566-576 | returning a block keeps the heap invariant |
| `HeapProof.DropKeeps` | os161-1.99/kern/vm/kmalloc.c:577-584 | dropping an empty page keeps the heap invariant |
| `HeapProof.FreeBlockKeeps` | os161-1.99/kern/vm/kmalloc.c:566-587 | a page leaves all three records exactly when its last live block is freed |
| `HeapProof.LiveDisjoint` | os161-1.99/kern/vm/kmalloc.c:601-619 | any two different live blocks, small or large, are disjoint |
| `HeapProof.LargeIsNotSubpage` | os161-1.99/kern/vm/kmalloc.c:529-546 | no page of the subpage allocator covers the address of a large block |
| `HeapProof.SmallAligned` | os161-1.99/kern/vm/kmalloc.c:489-499 | a small block is aligned to its size |
| `HeapProof.TakeUndoesGive` | os161-1.99/kern/vm/kmalloc.c:424-450 | the block freed last is the next to be allocated from its page, and allocating it restores the heap |
| `HeapProof.GiveUndoesTake` | os161-1.99/kern/vm/kmalloc.c:566-574 | freeing the block just allocated restores the heap |
| `HeapRuns.BlockType` | os161-1.99/kern/vm/kmalloc.c:379-386 | the size class is the smallest that fits |
| `HeapRuns.LargeEnough` | os161-1.99/kern/vm/kmalloc.c:604-610 | a large request gets enough pages if and only if rounding its size up does not wrap around 32 bits |
| `HeapRuns.NoPageTooMany` | os161-1.99/kern/vm/kmalloc.c:604-610 | and never a page more than it needs |
| `HeapRuns.HugeRequestGetsNothing` | os161-1.99/kern/vm/kmalloc.c:604-610 | every request whose rounded size wraps asks for no pages at all |
| `Kmalloc.FirstFitIs` | os161-1.99/kern/vm/kmalloc.c:416-451 | the page used is the first of its size list that has a free block; none is used when none has one |
| `HeapRuns.HitSafe` | os161-1.99/kern/vm/kmalloc.c:412-450 | an allocation from an existing page returns a good block, and no other block changes |
| `HeapRuns.FreshSafe` | os161-1.99/kern/vm/kmalloc.c:469-508 | so does an allocation from a page obtained while the lock was dropped |
| `HeapRuns.LargeSafe` | os161-1.99/kern/vm/kmalloc.c:604-615 | a large allocation returns a good block if and only if its size rounded up does not wrap around 32 bits; otherwise nothing changes |
| `HeapRuns.FreeSafe` | os161-1.99/kern/vm/kmalloc.c:621-633 | freeing a live block removes that block alone |
| `HeapRuns.StepSafe` | os161-1.99/kern/vm/kmalloc.c:396-633 | every step of every thread keeps the invariant and is safe |
| `HeapRuns.RunSafe` | os161-1.99/kern/vm/kmalloc.c:396-633 | in every run, with any interleaving while the lock is dropped, each block returned is large enough, of the smallest class or with no page to spare, aligned, new, and disjoint from every live block; for a large request that holds if and only if its rounded size does not wrap |
| `HeapRuns.RunPolicy` | os161-1.99/kern/vm/kmalloc.c:396-508 | in every run, a page is asked for only when no page of the class that fits has a free block; the first page of the list that has one, and its first block, are used; a fresh page takes the lowest descriptor and is leaked only when all are in use |
| `HeapRuns.RequestTaken` | os161-1.99/kern/vm/kmalloc.c:601-619 | every request of an idle thread is taken up: from a page, by asking for a page, or with whole pages |
| `Kmalloc.PabFields` | os161-1.99/kern/vm/kmalloc.c:114-116 | page address and block type are recovered from the packed word |
| `Kmalloc.Kheap.constructor` | os161-1.99/kern/vm/kmalloc.c:138-142 | an empty heap |
| `Kmalloc.Kheap.DoAlloc` | os161-1.99/kern/vm/kmalloc.c:424-449 | the in-page free list loses its head, which is returned, and the pageref's offset and count follow; the assertions hold |
| `Kmalloc.Kheap.SearchSize` | os161-1.99/kern/vm/kmalloc.c:412-451 | the walk of the linked list finds the first page with a free block, or none |
| `Kmalloc.Kheap.AllocPageRef` | os161-1.99/kern/vm/kmalloc.c:144-167 | the lowest descriptor not in use is claimed in the bitmap; NULL exactly when all are in use |
| `Kmalloc.Kheap.ThreadPage` | os161-1.99/kern/vm/kmalloc.c:489-499 | the loop threads all blocks of the fresh page into a free list, last block first, touching nothing else |
| `Kmalloc.Kheap.InstallPage` | os161-1.99/kern/vm/kmalloc.c:471-508 | the second critical section adds the page and allocates from it, or leaks it when no descriptor is left |
| `Kmalloc.Kheap.Unlink` | os161-1.99/kern/vm/kmalloc.c:352-375 | removal from a singly linked list removes exactly that page and keeps the order of the rest |
| `Kmalloc.Kheap.FillDeadbeef` | os161-1.99/kern/vm/kmalloc.c:40-50 | every word of the block holds the pattern, and nothing outside it changes |
| `Kmalloc.Kheap.PushFree` | os161-1.99/kern/vm/kmalloc.c:566-574 | the block becomes the head of its page's free list |
| `Kmalloc.Kheap.RemovePage` | os161-1.99/kern/vm/kmalloc.c:577-583 | the empty page leaves the bitmap and both lists |
| `Kmalloc.Kheap.FindPage` | os161-1.99/kern/vm/kmalloc.c:529-546 | for any address, the search finds the page that covers it, or none when none does |
| `Kmalloc.Kheap.SubpageKfree` | os161-1.99/kern/vm/kmalloc.c:511-596 | for any address not of a free block: 0 and the live block there returned to its page; -1 and nothing changed when no page covers the address; a panic, written -2, when it is on a page but at no block |
| `Kmalloc.Kheap.Kfree` | os161-1.99/kern/vm/kmalloc.c:621-633 | for any address not of a free small block: the live block there is released, of either kind; nothing changes if there is none; it panics or asserts exactly on a misplaced address |
| `Kmalloc.SecondFreeBreaks` | os161-1.99/kern/vm/kmalloc.c:561-577 | pushing a block that is already free leaves a descriptor and memory that stand for no free list, because the list runs in a circle; the assertion on the count still passes if and only if a block of the page is live, and the page counts as wholly free if and only if one is |
| `Kmalloc.LiveWellPlaced` | os161-1.99/kern/vm/kmalloc.c:550-552 | the address of a live block passes the checks of kfree |
| `Kmalloc.OneLiveAt` | os161-1.99/kern/vm/kmalloc.c:529-546 | no two live blocks start at one address, so kfree has one block to release |
| `Kmalloc.SearchIsStep` | os161-1.99/kern/vm/kmalloc.c:412-451 | what the first critical section does is a hit or a miss of the run system, and a hit returns the address of a good block |
| `Kmalloc.InstallIsStep` | os161-1.99/kern/vm/kmalloc.c:469-508 | what the second critical section does is an allocation from a fresh page, which returns the address of a good block, or its failure |
| `Kmalloc.KfreeIsStep` | os161-1.99/kern/vm/kmalloc.c:621-633 | what kfree does to a live block is a free of the run system |
| `Kmalloc.Kheap.ClientStore` | os161-1.99/kern/vm/kmalloc.c:100-102 | the owner of a live block may write anywhere in it without disturbing a free list |
| `Kmalloc.FreeApartFromLive` | os161-1.99/kern/vm/kmalloc.c:100-102 | a free block and a live block never overlap |
| `Kmalloc.FindBlockType` | os161-1.99/kern/vm/kmalloc.c:377-393 | the scan of the size table finds the smallest class that fits; sizes above the largest class panic |
| `ThreadList.Thread.constructor` | os161-1.99/kern/thread/threadlist.c:39-48 | a new thread's node is on no list |
| `ThreadList.List.constructor` | os161-1.99/kern/thread/threadlist.c:60-72 | the two sentinels point at each other; the list is empty |
| `ThreadList.List.IsEmpty` | os161-1.99/kern/thread/threadlist.c:91-97 | true exactly for the empty list |
| `ThreadList.List.InsertAfterNode` | os161-1.99/kern/thread/threadlist.c:105-120 | links in both directions now run through the new node, after the given one; order and contents otherwise unchanged |
| `ThreadList.List.InsertBeforeNode` | os161-1.99/kern/thread/threadlist.c:125-140 | the same, before the given node |
| `ThreadList.List.RemoveNode` | os161-1.99/kern/thread/threadlist.c:145-157 | the node is bypassed in both directions and its own links are null |
| `ThreadList.List.AddHead` | os161-1.99/kern/thread/threadlist.c:162-170 | the thread is prepended; the count is the length |
| `ThreadList.List.AddTail` | os161-1.99/kern/thread/threadlist.c:172-180 | the thread is appended; the count is the length |
| `ThreadList.List.RemHead` | os161-1.99/kern/thread/threadlist.c:182-198 | the first thread, removed and detached; NULL exactly for the empty list |
| `ThreadList.List.RemTail` | os161-1.99/kern/thread/threadlist.c:200-216 | the last thread, removed and detached; NULL exactly for the empty list |
| `ThreadList.List.InsertAfter` | os161-1.99/kern/thread/threadlist.c:218-224 | the thread is inserted after a thread on the list |
| `ThreadList.List.InsertBefore` | os161-1.99/kern/thread/threadlist.c:226-232 | the thread is inserted before a thread on the list |
| `ThreadList.List.Remove` | os161-1.99/kern/thread/threadlist.c:234-240 | the thread, wherever it is on the list, is removed and detached |
| `Migration.Share` | os161-1.99/kern/thread/thread.c:871 | the ceiling of the thread count divided by the CPU count |
| `Migration.TotalIsSize` | os161-1.99/kern/thread/thread.c:861-869 | the total that is counted is the number of threads on the queues |
| `Migration.AllThreadsConcat` | os161-1.99/kern/thread/thread.c:861-869 | the multiset of threads of two lots of queues is the sum of theirs |
| `Migration.RoomEnough` | os161-1.99/kern/thread/thread.c:871-876 | the other queues always have room, up to the share, for everything that a CPU has above it |
| `Migration.TakeKeepsPlaced` | os161-1.99/kern/thread/thread.c:879-882 | taking a thread from the own queue keeps every thread in one place and on its own CPU |
| `Migration.GiveKeepsPlaced` | os161-1.99/kern/thread/thread.c:921-922 | so does handing one to another CPU |
| `Migration.NextVictim` | os161-1.99/kern/thread/thread.c:892-926 | one turn of the hand-out loop on the list of victims: the current thread goes to the end, any other leaves |
| `Migration.Machine.Count` | os161-1.99/kern/thread/thread.c:859-869 | counts taken one lock at a time; the own count is never more than the own queue holds afterwards; without interference the total is the number of threads queued |
| `Migration.Machine.TakeVictims` | os161-1.99/kern/thread/thread.c:876-883 | the last threads of the own queue, in order; no dequeue comes back empty |
| `Migration.Machine.Fill` | os161-1.99/kern/thread/thread.c:890-935 | a queue is filled up to the share and not beyond; the victims always outnumber what is still to be sent; the current thread is never handed over |
| `Migration.Machine.HandOut` | os161-1.99/kern/thread/thread.c:885-936 | every victim is given away or still held; without interference, all are given away except the current thread |
| `Migration.Machine.PutBack` | os161-1.99/kern/thread/thread.c:943-949 | the leftovers are back at the end of the own queue, in order |
| `Migration.Machine.ConsiderMigration` | os161-1.99/kern/thread/thread.c:850-953 | under any interference, no thread is lost, duplicated or on a foreign CPU's queue and the current thread stays; without interference the own queue ends with exactly its share, no other rises above it, and the multiset of threads is preserved |
| `Scheduler.ForkKeeps` | os161-1.99/kern/thread/thread.c:479-533 | a fork keeps each live thread in exactly one place |
| `Scheduler.YieldKeeps` | os161-1.99/kern/thread/thread.c:583-586 | so does a yield |
| `Scheduler.SleepKeeps` | os161-1.99/kern/thread/thread.c:588-605 | so does going to sleep |
| `Scheduler.ExitKeeps` | os161-1.99/kern/thread/thread.c:606-609 | so does an exit |
| `Scheduler.PickKeeps` | os161-1.99/kern/thread/thread.c:632-650 | the thread chosen was on no other CPU's stack, and belongs to the choosing CPU |
| `Scheduler.ReapKeeps` | os161-1.99/kern/thread/thread.c:273-284 | a reaped zombie leaves no trace: nobody runs on it and it holds nobody in transit |
| `Scheduler.WakeKeeps` | os161-1.99/kern/thread/thread.c:1029-1086 | so does a wakeup |
| `Scheduler.MakeRunnableKeeps` | os161-1.99/kern/thread/thread.c:436-467 | so does making a thread runnable |
| `Scheduler.GiveKeeps` | os161-1.99/kern/thread/thread.c:892-926 | a migrated thread was no CPU's current thread and moves with its t_cpu |
| `Scheduler.StepKeeps` | os161-1.99/kern/thread/thread.c:436-1086 | every step keeps each live thread in exactly one place |
| `Scheduler.RunSafe` | os161-1.99/kern/thread/thread.c:273-1086 | in every run: each live thread in exactly one place, current threads distinct, each on its own CPU, threads on a CPU's queue belong to it, and no zombie is reaped while it is any CPU's current thread |
| `Scheduler.RunLife` | os161-1.99/kern/thread/thread.c:273-1086 | in every run, each thread goes where its life takes it: from its CPU to the queue, a channel or the zombies; from the head of a queue to its CPU or from the tail into migration; from the head of a channel to its waker and then to the queue of its own CPU; t_cpu changes only by migration and the current thread only by a pick; a forked thread is with its creator, on the creator's CPU |
| `Scheduler.RunExit` | os161-1.99/kern/thread/thread.c:779-803 | in every run, a thread that has exited is a zombie of its CPU or gone, until its name is forked again |
| `Scheduler.RunZombie` | os161-1.99/kern/thread/thread.c:273-284 | and it is on the zombie list of its CPU until a reaping takes it from the head |
| `Scheduler.DeadIsIdle` | os161-1.99/kern/thread/thread.c:606-609 | such a thread is on no CPU, queue or channel and is never picked |
| `Scheduler.RunSleep` | os161-1.99/kern/thread/thread.c:588-605 | in every run, a thread that goes to sleep is on its channel until a wakeup takes it from the head |
| `Scheduler.RunYield` | os161-1.99/kern/thread/thread.c:583-586 | in every run, a thread that yields is on its CPU's queue until it is picked from the head or migrates from the tail |
| `Scheduler.RunWake` | os161-1.99/kern/thread/thread.c:1029-1086 | in every run, a wakeup takes the head of the channel, which is then in the waker's hands until made runnable on the queue of its own CPU |
| `Scheduler.RunFifo` | os161-1.99/kern/thread/thread.c:632-650 | in every run, of two threads that stay on a run queue, channel or zombie list, the later one is never at the head |
| `Scheduler.RunCourse` | os161-1.99/kern/thread/thread.c:546-708 | in every run, a CPU that leaves a thread chooses, lands, unlocks and reaps in that order, and has no zombies when it runs; it idles only with an empty queue, and nobody else touches its queue while it holds the lock |
| `Scheduler.RunDiscipline` | os161-1.99/kern/thread/thread.c:546-609 | in every run, threads fork, yield, sleep and exit only while running, and sleep or exit with nobody in hand; threads change hands only on a CPU that runs or idles |
| `Semaphore.TestZeroStep` | os161-1.99/kern/thread/synch.c:104-123 | a thread that decides to sleep has seen a count that nobody can have promised to another |
| `Semaphore.SleepStep` | os161-1.99/kern/thread/synch.c:122-126 | going to sleep under the channel's lock keeps the invariant |
| `Semaphore.NobodyWaiting` | os161-1.99/kern/thread/synch.c:134-145 | a V that finds the channel empty finds nobody on the way to it either |
| `Semaphore.WakeStep` | os161-1.99/kern/thread/synch.c:134-145 | a V that finds a sleeper passes its increment on |
| `Semaphore.StepKeeps` | os161-1.99/kern/thread/synch.c:91-145 | every step of every thread keeps the semaphore's invariant |
| `Semaphore.RunCount` | os161-1.99/kern/thread/synch.c:91-145 | in every interleaving the count is the initial value plus Vs minus Ps, never negative, and the assertions in P and V hold |
| `Semaphore.RunNoLostWakeup` | os161-1.99/kern/thread/synch.c:104-145 | outside V's window between increment and wakeup, while anybody sleeps the count is at most the number of woken threads still to re-test |
| `Semaphore.RunQuiescent` | os161-1.99/kern/thread/synch.c:104-145 | when all threads are outside or asleep and one sleeps, the count is zero |
| `Semaphore.RunFifo` | os161-1.99/kern/thread/synch.c:104-145 | in every interleaving a V wakes the thread that has slept longest and no other; a P returns after exactly one decrement, a V after exactly one increment and one wakeup |
| `Semaphore.StepProgress` | os161-1.99/kern/thread/synch.c:91-145 | every step inside P or V brings the thread nearer to its return or to sleep |
| `Semaphore.RunNoDeadlock` | os161-1.99/kern/thread/synch.c:91-145 | in every interleaving, while a thread is inside P or V and awake, some such thread can step |
| `LockCv.TakeOwners` | os161-1.99/kern/thread/synch.c:207-222 | whoever takes the lock is alone in doing so |
| `LockCv.ClearOwners` | os161-1.99/kern/thread/synch.c:236-244 | giving the lock up affects no other thread's lock |
| `LockCv.PopKeeps` | os161-1.99/kern/thread/synch.c:236-245 | a wakeup takes exactly the first thread, or for a broadcast all, off its channel and sends each on its way; every other thread is left alone |
| `LockCv.StepKeeps` | os161-1.99/kern/thread/synch.c:199-393 | every step keeps spinlocks, channels and owners consistent |
| `LockCv.RunExclusion` | os161-1.99/kern/thread/synch.c:199-250 | in every interleaving at most one thread is past lock_acquire, is_locked says whether there is one, and the assertion in lock_acquire holds |
| `LockCv.PopFindsSleeper` | os161-1.99/kern/thread/synch.c:236-245 | a wakeup in lock_release finds a sleeper whenever a thread is blocked on the lock |
| `LockCv.RunNoLostWakeup` | os161-1.99/kern/thread/synch.c:199-250 | in every interleaving, while a thread sleeps on a lock that is not held, some thread is between clearing that lock and its wakeup, or was woken and is still to test the lock again |
| `LockCv.RunQuiescent` | os161-1.99/kern/thread/synch.c:199-250 | in every interleaving, when every thread is outside or asleep and one sleeps on a lock, that lock is held |
| `LockCv.AtPop` | os161-1.99/kern/thread/synch.c:322-393 | at a wakeup on a CV, a thread waits if and only if it is on the channel |
| `LockCv.RunSignal` | os161-1.99/kern/thread/synch.c:322-393 | in every interleaving, a signal or broadcast is made by the holder of the lock and finds on the channel exactly the threads that gave a lock up in cv_wait and have not been woken; a broadcast wakes them all, a signal one of them and no more |
| `LockCv.RunWakes` | os161-1.99/kern/thread/synch.c:199-393 | in every interleaving, a channel holds its sleepers in the order in which they slept; a signal or a release wakes the one that has slept longest, a broadcast all; a thread sleeps on the CV it waits on, or on the lock it acquires |
| `LockCv.RunReturns` | os161-1.99/kern/thread/synch.c:199-393 | in every interleaving: lock_acquire and cv_wait return holding the lock, cv_wait after giving it up, seeing to its sleepers and being woken from the CV; lock_release returns after giving it up and seeing to its sleepers; cv_signal and cv_broadcast return after the wakeup, still holding it |
| `LockCv.StepProgress` | os161-1.99/kern/thread/synch.c:199-393 | every step inside a call brings the thread nearer to its return or to sleep |
| `LockCv.HeldInOrder` | os161-1.99/kern/thread/synch.c:199-393 | spinlocks of CVs, locks and channels are taken in that order |
| `LockCv.RunNoDeadlock` | os161-1.99/kern/thread/synch.c:199-393 | in every interleaving, while a thread is inside a call and awake, some such thread can step |
| `Spl.Current.SplRaise` | os161-1.99/kern/thread/spl.c:86-104 | the count goes up; interrupts go off with the first reason |
| `Spl.Current.SplLower` | os161-1.99/kern/thread/spl.c:106-124 | the count goes down; interrupts come on with the last reason |
| `Spl.Current.Splx` | os161-1.99/kern/thread/spl.c:131-155 | sets the level to the one asked for, moves the count by the difference, and returns the previous level |
| `Spl.RaiseLower` | os161-1.99/kern/thread/spl.c:86-124 | a reason added and taken away again leaves no trace, in either order |
| `Spl.SplxRestores` | os161-1.99/kern/thread/spl.c:131-155 | after splx the level is as asked, high means interrupts off, and splx of the old level restores everything |
| `Spl.WantKeeps` | os161-1.99/kern/thread/spinlock.c:72-88 | starting to acquire a spinlock charges the thread and turns interrupts off |
| `Spl.ReleaseKeeps` | os161-1.99/kern/thread/spinlock.c:116-127 | releasing one, whichever thread acquired it, takes the charge back |
| `Spl.ForkKeeps` | os161-1.99/kern/thread/thread.c:519-524 | a new thread starts charged for its level and for the run-queue lock it will release |
| `Spl.SwitchKeeps` | os161-1.99/kern/thread/thread.c:641-708 | the run-queue lock changes hands with the CPU and the counts still balance |
| `Spl.CanSwitch` | os161-1.99/kern/thread/thread.c:641-660 | at splhigh and under the run-queue lock alone, a CPU can switch to any thread that is not running |
| `Spl.TrapKeeps` | os161-1.99/kern/arch/mips/locore/trap.c:184-190 | the assertions on interrupt entry hold |
| `Spl.TrapReturnKeeps` | os161-1.99/kern/arch/mips/locore/trap.c:197-202 | the assertions on interrupt exit hold |
| `Spl.RunBalanced` | os161-1.99/kern/thread/spl.c:86-155 | in every run of spinlock, spl, fork, switch and interrupt steps, a thread's count is its level plus the spinlocks charged to it, and interrupts are off exactly when it is positive |
| `Spl.RunLevels` | os161-1.99/kern/thread/spl.c:131-155 | in every run, splx gives the current thread the level it names, an interrupt raises it and the return lowers it, and nothing else changes any level; the current thread changes only by a switch |
| `Spl.RunLocks` | os161-1.99/kern/thread/spinlock.c:72-127 | in every run, a CPU holds exactly the spinlocks it got and has not released, no lock is got while any CPU holds it, and a CPU that spins does nothing else and never spins for a lock of its own |
| `CatMouse.FirstFree` | os161-1.99/kern/synchprobs/catmouse.c:185-186 | the search stops at a free bowl whenever there is one |
| `CatMouse.FindBowl` | os161-1.99/kern/synchprobs/catmouse.c:185-186 | the loop computes that, and finds the first free bowl |
| `CatMouse.PickNoPanic` | os161-1.99/kern/synchprobs/catmouse.c:180-188 | the bowl-search assertion never fails |
| `CatMouse.EatNoPanic` | os161-1.99/kern/synchprobs/bowls.c:199-243 | no check of the monitor ever fails, at either end of a meal |
| `CatMouse.RoundExclusive` | os161-1.99/kern/synchprobs/catmouse.c:173-178 | cats and mice are never in the round together |
| `CatMouse.CountFree` | os161-1.99/kern/synchprobs/catmouse.c:189-191 | within lockBowl the count of available bowls is at most one ahead of the bowls |
| `CatMouse.FreeBowlFree` | os161-1.99/kern/synchprobs/catmouse.c:195-200 | and it is right again when the lock is released |
| `CatMouse.OwnBowlKeeps` | os161-1.99/kern/synchprobs/bowls.c:225-243 | changing the record of one's own bowl affects nobody else's |
| `CatMouse.StepKeeps` | os161-1.99/kern/synchprobs/catmouse.c:170-207 | every step of every cat and mouse keeps the invariant, the unlocked final writes included |
| `CatMouse.RunSafe` | os161-1.99/kern/synchprobs/catmouse.c:138-333 | for any number of cats, mice, bowls and turns and any interleaving: no panic, no mixed eating, a right count of free bowls whenever lockBowl is free, and one owner for each occupied bowl, which carries its letter |
| `CatMouse.RunMeals` | os161-1.99/kern/synchprobs/catmouse.c:152-211 | in every interleaving, each cat and mouse has eaten once for each turn, and exactly numLoops times when it finishes |
| `CatMouse.RunTurns` | os161-1.99/kern/synchprobs/catmouse.c:170-213 | in every interleaving, a thread enters the round exactly when it is its species' turn and the other is out; the turn passes when the time is up or a thread has finished; the time runs by each meal |
| `CatMouse.OthersStay` | os161-1.99/kern/synchprobs/catmouse.c:152-213 | every step moves one thread, along the order of the program |
| `CatMouse.RunNoDeadlock` | os161-1.99/kern/synchprobs/catmouse.c:138-333 | in every interleaving, while any thread is not finished, some thread can step |
| `VmProof.IndexOk` | os161-1.99/kern/vm/vm.c:163-193 | a page that vm_fault assigns to a segment is inside its page table, 32-bit wrap-around of the segment's end included |
| `VmProof.LookupFacts` | os161-1.99/kern/vm/segments.c:37-60 | a lookup touches one entry, keeps its frame if it had one, returns that frame, and marks the page dirty if and only if it was or this is a write |
| `VmProof.LookupTouches` | os161-1.99/kern/vm/pt.c:12-25 | all other page-table entries are as before |
| `VmProof.FaultFrames` | os161-1.99/kern/vm/pt.c:12-18 | a fault that takes a fresh frame keeps all page-table entries of all address spaces on distinct frames |
| `VmProof.TranslateKeeps` | os161-1.99/kern/vm/segments.c:37-60 | touching one page changes no other page's translation |
| `VmProof.FaultKeeps` | os161-1.99/kern/vm/vm.c:163-252 | a fault keeps the TLB in agreement with the page tables |
| `VmProof.ActivateKeeps` | os161-1.99/kern/vm/addrspace.c:208-235 | so does an activation, and the case of no address space |
| `VmProof.DefineKeeps` | os161-1.99/kern/vm/addrspace.c:276-330 | so does the definition of a region |
| `VmProof.RunAgrees` | os161-1.99/kern/vm/vm.c:104-252 | in every run, each valid TLB entry maps its page as the current address space does, no page is mapped twice, and distinct page-table entries of all address spaces hold distinct frames |
| `VmProof.RunInBounds` | os161-1.99/kern/vm/segments.c:37-41 | in every run, no fault indexes outside a page table |
| `VmProof.RunFault` | os161-1.99/kern/vm/vm.c:163-252 | in every run, a fault fills one slot, an invalid one while there is one, and no other; the entry maps the page to its frame, the old one or a fresh one on first touch, and is writable unless the page is loaded code; a page is dirty from its first write on |
| `VmProof.RunLoaded` | os161-1.99/kern/vm/addrspace.c:361-371 | in every run, a space counts as loaded exactly from the completion of its load on |
| `VmProof.RunProtected` | os161-1.99/kern/vm/vm.c:170-173 | in every run, a TLB slot holds a writable entry for code of a loaded space if and only if it held that entry when the load was completed and there has been no activation since |
| `VmProof.Survives` | os161-1.99/kern/vm/vm.c:52-59 | an entry installed by replacement survives the next NUM_TLB - 1 replacements if no flush intervenes |
| `VmProof.RoundCovers` | os161-1.99/kern/vm/addrspace.c:284-291 | the rounding alone: a region's pages span all its bytes, with less than a page to spare, if and only if the rounding does not overflow |
| `VmProof.RegionMapped` | os161-1.99/kern/vm/vm.c:163-186 | after a region is defined, vm_fault consults its own segment for every byte of it if and only if the region is empty or ends at least a page below 4 GB, and, for a data region, no page of it is in the code segment, which is tried first |
| `VmProof.ClearExactly` | os161-1.99/kern/vm/vm.c:163-186 | that overlap as a check on the two ranges: no page of a region is in a segment if and only if the segment's 32-bit range is empty or lies wholly above or below the region's pages |
| `VmProof.PageZero` | os161-1.99/kern/vm/addrspace.c:299-324 | a region on page zero leaves a segment that fails the assertions of vm_fault and that the next definition overwrites; a region elsewhere is overwritten by none |
| `VmProof.ThirdRegion` | os161-1.99/kern/vm/addrspace.c:326-330 | once a space is set up, every further region is refused |
| `VmProof.LayoutServed` | os161-1.99/kern/vm/vm.c:154-196 | two regions defined in a new address space: the assertions hold and vm_fault consults for every byte of code, data and stack its own segment, if and only if neither region is on page zero, both end at least a page below 4 GB, and the three do not overlap |
| `VmProof.RunLayout` | os161-1.99/kern/vm/vm.c:154-196 | in every run, once the assertions of vm_fault hold of an address space they hold from then on, and which segment serves which page never changes |
| `VmProof.OverlapServedAsCode` | os161-1.99/kern/vm/vm.c:170-186 | a data region in the place of the code region is accepted, and each of its bytes is served as code |
| `VmProof.PageZeroReplaced` | os161-1.99/kern/vm/addrspace.c:299-324 | a region on page zero is accepted, then replaced by the next, and page zero is in no segment |
| `VmProof.TopRegionUnreachable` | os161-1.99/kern/vm/vm.c:163-166 | a region on the last page is accepted, and no address at all is assigned to it, because the end of the segment wraps to zero |
| `VmProof.RoundsToNothing` | os161-1.99/kern/vm/addrspace.c:284-291 | a size rounds to no pages exactly when it is zero on a page boundary or, counted from its page, within a page of 4 GB |
| `VmProof.RoundOverflows` | os161-1.99/kern/vm/addrspace.c:284-291 | a region whose rounded size wraps to no pages, so that the definition fails an assertion |
| `Vm.Prepare` | os161-1.99/kern/vm/segments.c:20-35 | a page table with no valid entry |
| `Vm.SegmentLookup` | os161-1.99/kern/vm/segments.c:37-60 | the frame of the page, allocated on first touch; the dirty mark |
| `Vm.Vm.constructor` | os161-1.99/kern/vm/vm.c:50 | no address space, an empty TLB |
| `Vm.Vm.RrVictim` | os161-1.99/kern/vm/vm.c:52-59 | victims in order, round and round |
| `Vm.Vm.ChooseSlot` | os161-1.99/kern/vm/vm.c:207-246 | the first invalid slot, or the next victim if there is none |
| `Vm.Vm.Fault` | os161-1.99/kern/vm/vm.c:104-252 | which faults are resolved, which end in an error, an exit or a failed assertion, and that the latter change nothing |
| `Vm.Vm.Install` | os161-1.99/kern/vm/vm.c:198-252 | the entry written is the page's translation, read-only exactly for loaded code |
| `Vm.Vm.Activate` | os161-1.99/kern/vm/addrspace.c:208-235 | all slots become invalid, unless there is no address space |
| `Vm.Vm.AsDefineRegion` | os161-1.99/kern/vm/addrspace.c:276-330 | the first two regions become code and data, a third is refused, and a region of no pages fails an assertion |
| `Printf.NumberFits` | os161-1.99/common/libc/printf/__printf.c:84 | the digits of any 64-bit number in base 8 to 16, with a NUL, fit the number buffer |
| `Printf.NumberFillsBuffer` | os161-1.99/common/libc/printf/__printf.c:76-84 | the largest 64-bit number in octal leaves no byte of the buffer spare |
| `Printf.NumberText` | os161-1.99/common/libc/printf/__printf.c:400-454 | the loop that fills the buffer from the right never leaves it and yields the digits of the number |
| `Printf.Snp.constructor` | os161-1.99/common/libc/printf/snprintf.c:111-118 | nothing sent yet |
| `Printf.Snp.Send` | os161-1.99/common/libc/printf/snprintf.c:73-93 | the buffer holds what was sent as far as it fits, and nothing beyond is touched |
| `Printf.Pf.constructor` | os161-1.99/common/libc/printf/__printf.c:561-568 | the initial printf state |
| `Printf.Pf.Print` | os161-1.99/common/libc/printf/__printf.c:143-149 | the text is sent on and counted |
| `Printf.Pf.EndField` | os161-1.99/common/libc/printf/__printf.c:154-168 | the state for the next field |
| `Printf.Pf.Modifier` | os161-1.99/common/libc/printf/__printf.c:178-228 | a modifier sets its flag, or extends the field width |
| `Printf.Pf.GetNum` | os161-1.99/common/libc/printf/__printf.c:235-298 | magnitude and sign of the argument, for each size and type, the most negative included |
| `Printf.Pf.SetBase` | os161-1.99/common/libc/printf/__printf.c:310-330 | base and prefix of the type |
| `Printf.Pf.PrintFill` | os161-1.99/common/libc/printf/__printf.c:335-344 | that many fill characters |
| `Printf.Pf.PrintStuff` | os161-1.99/common/libc/printf/__printf.c:352-391 | prefixes, text and padding in the order of the field's definition |
| `Printf.Pf.PrintNum` | os161-1.99/common/libc/printf/__printf.c:400-478 | the number's field |
| `Printf.Pf.SendInteger` | os161-1.99/common/libc/printf/__printf.c:511-521 | an integer conversion prints its field and resets the state |
| `Printf.Pf.SendChar` | os161-1.99/common/libc/printf/__printf.c:483-550 | one character of the format prints and changes the state as the format's meaning says |
| `Printf.Pf.VPrintf` | os161-1.99/common/libc/printf/__printf.c:557-575 | exactly the text the format denotes is sent, and its length returned |
| `Printf.VSnprintf` | os161-1.99/common/libc/printf/snprintf.c:98-142 | the buffer holds the longest prefix of the text that leaves room for its NUL, nothing beyond len is written, and the full length is returned |
| `PrintfLaws.DigitsDenote` | os161-1.99/common/libc/printf/__printf.c:426-446 | in every base the digits printed are a numeral for the number, without leading zeros |
| `PrintfLaws.FetchMeans` | os161-1.99/common/libc/printf/__printf.c:237-300 | the argument is taken in the width and signedness of its type |
| `PrintfLaws.NumberDenotes` | os161-1.99/common/libc/printf/__printf.c:237-300 | sign and digits denote the argument, for every size and conversion |
| `PrintfLaws.PrefixTellsBase` | os161-1.99/common/libc/printf/__printf.c:312-330 | with #, and always for pointers, prefix and digits are a C constant for the number; otherwise there is no prefix |
| `PrintfLaws.FieldMeans` | os161-1.99/common/libc/printf/__printf.c:352-391 | a field is exactly as wide as asked or as its text needs, its text is whole and where the flags say, and the rest is fill |
| `PrintfLaws.ModifiersMean` | os161-1.99/common/libc/printf/__printf.c:180-230 | what a string of modifiers means, in any order: the flags given, the width its digits spell, zero fill when the first digit is zero, and the size by the number of l |
| `PrintfLaws.FormatConcat` | os161-1.99/common/libc/printf/__printf.c:485-575 | a format followed by another prints what each prints alone, the second with the arguments left by the conversions of the first |
| `PrintfLaws.LiteralText` | os161-1.99/common/libc/printf/__printf.c:485-495 | text without a percent sign is printed as it is and takes no argument |
| `PrintfLaws.Directive` | os161-1.99/common/libc/printf/__printf.c:485-550 | what one directive prints of its argument, for each conversion, and that other characters stand for themselves |
| `PrintfLaws.NumbersInOrder` | os161-1.99/common/libc/printf/__printf.c:485-575 | any number of conversions print their arguments in order |
| `Atoi.ReadDigits` | os161-1.99/common/libc/stdlib/atoi.c:70-92 | the 32-bit accumulator holds the run of digits' number modulo 2^32 |
| `Atoi.AtoiC` | os161-1.99/common/libc/stdlib/atoi.c:49-101 | blanks, an optional sign, digits; the number they denote, wrapped to 32 bits |
| `RoundTrip.DecimalDigits` | os161-1.99/common/libc/printf/__printf.c:426-446 | the printed digits of a number denote that number |
| `RoundTrip.ParseNumber` | os161-1.99/common/libc/stdlib/atoi.c:49-101 | what atoi makes of blanks, a sign of either kind or none, digits or none, and anything else |
| `RoundTrip.SignedMeans` | os161-1.99/common/libc/stdlib/atoi.c:49-101 | the result is an int congruent to the number that the digits denote |
| `RoundTrip.ParseField` | os161-1.99/common/libc/printf/__printf.c:352-391 | what atoi makes of a number's field, for every padding |
| `RoundTrip.ShiftedDiffers` | os161-1.99/common/libc/printf/__printf.c:387-390 | appending zeros to a number other than zero always changes what atoi reads |
| `RoundTrip.SprintfNumber` | os161-1.99/common/libc/printf/__printf.c:483-550 | what %d prints under every string of modifiers |
| `RoundTrip.RoundTrip` | os161-1.99/common/libc/printf/__printf.c:352-478 | for every int and every string of modifiers, atoi gives the number back if and only if it is zero or zeros are not appended to it |
| `RoundTrip.BothFlagsLoseTheNumber` | os161-1.99/common/libc/printf/__printf.c:387-390 | %-05d prints 42 as 42000, which atoi does not read as 42 |
| `RoundTrip.BufferRoundTrip` | os161-1.99/common/libc/printf/snprintf.c:98-142 | the same through a buffer that is large enough |
| `Memmove.CopyWord` | os161-1.99/common/libc/string/memcpy.c:72-74 | one word is copied whole, from and to aligned addresses |
| `Memmove.Memcpy` | os161-1.99/common/libc/string/memcpy.c:47-86 | the bytes are copied and nothing else changes, on the word and byte paths, for a destination not above the source or apart from it |
| `Memmove.Move` | os161-1.99/common/libc/string/memmove.c:78-117 | for every overlap, on the word and byte paths, the destination holds the bytes the source had and nothing else changes |
| `Memmove.ExtendBack` | os161-1.99/common/libc/string/memmove.c:103-113 | the piece read next, going backwards, has not been overwritten |

## Left out

- Process creation, wait and exit, and system calls: not modelled.
- Copying and destroying address spaces, and zero-filling of pages: not modelled.
- Liveness under fair scheduling: proved are the order of queues, the absence of deadlock, and that every call has a bounded number of steps between sleeps.
- Byte swapping and the shift, compare, add and subtract millicode: easy, or not meaningful as written.
- Device drivers, file systems, ELF loading, the menu, the heap's debugging dump: input and output plumbing.
- Test-and-set, the stack switch, TLB instructions and inter-processor interrupts: taken as atomic steps.
- The on-off flip of interrupts inside `cpu_idle`, during which the recorded level stays high: taken as part of one step.
- `t_state` and `t_wchan_name`: the scheduler's model is about lists, not about these fields.
- Statistics counters, console output and stack checks: no effect on what is modelled.
- HeapRuns.HitSafe: the blocks' contents are not modelled here; `Kmalloc.Kheap.ClientStore` is about them.
- Kmalloc.Kheap.Kfree: the address of a small block that is already free is excluded; the code does not look for it, and `Kmalloc.SecondFreeBreaks` shows what it then leaves behind.
- Kmalloc.Kheap.SubpageKfree: excludes the address of a block that is already free, as `Kmalloc.Kheap.Kfree` does.
- Kmalloc.Kheap.AllocPageRef: a bitmap word is a sequence of 32 booleans, not an integer.
- Semaphore.RunCount: the count is unbounded, so its overflow past the largest int is not modelled.
- LockCv.RunExclusion: a thread that acquires a lock it already holds waits for ever, as in the code.
- CatMouse.RunSafe: a thread in `cv_wait` may come back for its lock at any time, woken or not, which allows more runs than the code does; the monitor's mutex makes its critical sections single steps.
- Scheduler.RunSafe: migration takes and gives one thread per step, which allows more interleavings than the code does.
- Spl.RunBalanced: a spinlock is released in one step.
- VmProof.RunAgrees: there is one TLB and one `next_victim`, that is, one CPU; the code has a TLB on each, and shootdown is not modelled.
- Vm.Prepare: a new page-table entry also has its dirty bit and frame cleared here; the code sets only its valid bit.
- Vm.Vm.Fault: address spaces are values in a map that the methods reassign, so aliasing between them is not modelled; `segment_lookup` and `as_define_region` likewise work on values.
- Printf.Pf.Modifier: the field width is unbounded; its overflow past the largest int is undefined in C.
- Printf.Pf.GetNum: fetching an argument that is missing or of the wrong kind is undefined in C and gives zero here.
- Memmove.Memcpy: overlapping blocks with the destination above the source are excluded, as C does.
- ThreadList.List.InsertAfter: the position of the thread on the list is a ghost argument, which the code does not need.
