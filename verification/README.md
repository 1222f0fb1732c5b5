# The shared structures and synchronisation of the TPC-C benchmark, verified

This project models, in Dafny 4.11, the containers, the thread synchronisation and
the random numbers that the benchmark in `TPCC/` runs on, and one run-level law of
its transactions. `dafny verify dfyconfig.toml` checks everything.

The containers take a comparison from the user. It is modelled as a total preorder
on pointers (`Compare.dfy`): distinct pointers may compare equal. Memory allocation
succeeds. The plain versions of the functions are modelled; their transactional and
pool-allocating copies run the same algorithms.

## What is modelled

* **Red-black tree** (`RbShape`, `RbTheory`, `RbTree`; `rbtree.c`). Nodes on the heap
  with parent links and no sentinel. A position in the tree is a zipper: a subtree and
  everything around it. `Focus` says that the heap is exactly the tree seen from a
  position, parent links included, so that every pointer write is a statement about a
  position. The phantom leaf of a deletion is a constructor of its own (`Hollow`). Each
  fix-up loop carries one invariant: insertion, a red subtree that may clash with its
  parent and is otherwise sound; deletion, a subtree that is one black node short.
* **AVL tree** (`AvlShape`, `AvlTheory`, `AvlTree`, `AvlTraversal`; `avltree.c`). The
  same zipper without parent links. Insertion is one pass that remembers a rebalance
  point, removal walks back up an explicit path of at most 64 entries, traversal keeps
  a path of its own, destruction is by rotation. Items that compare equal may repeat.
* **Group barrier** (`BarrierGroups`, `GroupBarrier`; `thread.c`). A transition system
  whose steps are single lock, wait, signal and counter operations of n threads, for
  any n from 2 and any number of rounds. A wait may wake spuriously wherever the code
  tests its condition again.
* **Thread pool** (`ThreadPool`; `thread.c`). The start/stop protocol on top of the
  abstract barrier of `AbstractBarrier.dfy`, which the group barrier is proved to
  implement. Started functions may call the barrier themselves, equally often on every
  thread. `PoolOnBarrier` puts the pool on the group barrier itself, step by step, and
  carries the results over to the two together.
* **Spin barrier** (`SpinBarrier`; `barrier.h`). A transition system over the three
  atomic counters, under sequential consistency.
* **Random numbers** (`MersenneTwister`, `MersenneTwisterLaws`; `mt19937ar.c`, `random.c`) on
  64-bit words. The in-place blocks are proved against the linear recurrence, and the
  sequence itself against inverses and literal values.
* **Hash table** (`List`, `HashTable`, `HashTableMap`, `HashTableIterator`; `list.c`, `hashtable.c`), in
  the build with resizing, without duplicates in lists and without the size field.
  Lists hold key/data pairs and compare the keys.
* **Ring buffer, heap, allocator** (`Queue`, `Heap`, `Memory`).
* **New-order transaction** (`NewOrder`; `manager.c`) as an atomic step of a serial run.

Where the code and its own comments disagree the code is followed. Five of its
properties hold only under a condition, which is stated exactly:

* `jsw_avlerase` on an empty tree reports success and counts one item fewer than none;
  the tree is valid afterwards exactly if it was not empty (`AvlTree.AvlTree.Erase`).
* The waits on `proceedAllCond` in `thread_barrier_no_limit` sit in no re-testing loop.
  For every number of threads from 2, the barrier keeps its promise in all runs of r
  calls a thread with at most k spurious wakeups on those waits if and only if k or r
  is 0 (`GroupBarrier.SafeIffNeverUnasked`): a single one can let a thread through
  before any other has come (`GroupBarrier.SpuriousProceedBreaks`).
* `hashtable_alloc` accepts a table of no buckets and a growth factor of zero, and nothing
  tests for them later. A division by zero is therefore an outcome of every call that
  takes a key. Looking up and removing come to it exactly if the table has no bucket, an
  insertion also if the growth factor is zero, the key is new and the size ratio asks for
  more buckets (`HashTable.HashTable.Insert`; `HashTable.GrowToNothing` is such a run).
* A loop over an AVL traversal ends at the first NULL. It has then seen all items exactly if
  none of them is NULL, which the tree does not forbid (`AvlTraversal.Ascending`).
* The path arrays of `jsw_avlerase` have 64 entries, and nothing tests for their end. Every
  tree of up to m items is low enough for them if and only if m < F(67)-1
  (`AvlTheory.ItemsBoundIsSharp`).

## Model

| member | source | states |
|---|---|---|
| RbTree.RbTree.RbInsert | TPCC/lib/rbtree.c:1407-1416 | from any valid red-black tree: valid again, TRUE exactly when no key compares equal, then exactly one binding more at its place in key order; otherwise nothing on the heap changes |
| RbTree.RbTree.RbDelete | TPCC/lib/rbtree.c:1441-1453 | valid again, TRUE exactly when the key was present, then exactly its binding is gone and no other; otherwise nothing changes |
| RbTree.RbTree.RbUpdate | TPCC/lib/rbtree.c:1481-1492 | FALSE exactly when the key was absent and is now bound; otherwise the binding keeps its key and gets the new value |
| RbTree.RbTree.RbGet | TPCC/lib/rbtree.c:1518-1526 | the value bound to a key that compares equal, NULL if there is none |
| RbTree.RbTree.RbContains | TPCC/lib/rbtree.c:1548-1553 | true exactly if some key compares equal |
| RbTree.RbTree.Lookup | TPCC/lib/rbtree.c:210-224 | finds the node of the key, or proves the key absent everywhere |
| RbTree.RbTree.RotateLeft | TPCC/lib/rbtree.c:267-288 | the pointer writes, parent links and root included, turn the subtree at any position into its left rotation and leave the rest of the tree as it was |
| RbTree.RbTree.RotateRight | TPCC/lib/rbtree.c:325-345 | the mirror image |
| RbTree.RbTree.FixAfterInsertion | TPCC/lib/rbtree.c:505-557 | from a new leaf anywhere in a balanced tree: terminates, dereferences no missing node, restores every red-black invariant, keeps the sequence of bindings |
| RbTree.RbTree.Insert | TPCC/lib/rbtree.c:625-678 | links the new node at the only place in key order and fixes the tree, or returns the node that already holds the key |
| RbTree.RbTree.Successor | TPCC/lib/rbtree.c:755-775 | the node of the next binding in key order, whether it lies below or above; null exactly after the last |
| RbTree.RbTree.FixAfterDeletion | TPCC/lib/rbtree.c:811-873 | from a subtree one black node short anywhere in the tree: terminates, restores every invariant, keeps the bindings |
| RbTree.RbTree.FixDeleteLeft | TPCC/lib/rbtree.c:815-840 | one round on the left: the shortage moves up, or is gone |
| RbTree.RbTree.FixDeleteRight | TPCC/lib/rbtree.c:841-866 | one round on the right: the shortage moves up, or is gone |
| RbTree.RbTree.DeleteNode | TPCC/lib/rbtree.c:952-1009 | takes exactly one binding out, through the successor copy, the splice of a node with one child, the single node and the phantom leaf |
| RbTheory.InsertLaw | TPCC/lib/rbtree.c:1407-1416 | read as a finite map: the key is bound, every other key finds what it found before |
| RbTheory.DeleteLaw | TPCC/lib/rbtree.c:1441-1453 | read as a finite map: the key is unbound, every other key finds what it found before |
| RbTheory.UpdateLaw | TPCC/lib/rbtree.c:1481-1492 | read as a finite map: the key finds the new value, every other key what it found before |
| RbTheory.RedBlackIsShallow | TPCC/lib/rbtree.c:1150-1194 | the invariants bound the height: 2^height is at most (size+1)^2 |
| AvlTree.AvlTree.Insert | TPCC/lib/avltree.c:349-409 | from any valid AVL tree: valid again, with the item put in at its lower bound; items that compare equal are kept |
| AvlTree.AvlTree.FindPlace | TPCC/lib/avltree.c:369-380 | the search ends at the lower bound, and below the remembered point it passed nodes of balance zero only |
| AvlTree.AvlTree.UpdateBalances | TPCC/lib/avltree.c:386-390 | exactly the balances from the remembered point to the new node move one towards it |
| AvlTree.AvlTree.InsertBalance | TPCC/lib/avltree.c:159-170 | the macro's writes turn the subtree into its single or double rotation and touch nothing outside |
| AvlTree.AvlTree.RemoveBalance | TPCC/lib/avltree.c:173-192 | the same after a removal; done is set exactly when the sibling leant neither way |
| AvlTree.AvlTree.SingleRotation | TPCC/lib/avltree.c:124-129 | the macro's writes are a single rotation of the subtree |
| AvlTree.AvlTree.DoubleRotation | TPCC/lib/avltree.c:132-141 | the macro's writes are a double rotation of the subtree |
| AvlTree.AvlTree.AdjustBalance | TPCC/lib/avltree.c:144-157 | the three balances set before a double rotation |
| AvlTheory.BumpedZero | TPCC/lib/avltree.c:369-390 | below the rebalance point every subtree on the way becomes exactly one higher and leans towards the new node |
| AvlTheory.BumpedFacts | TPCC/lib/avltree.c:386-398 | at the rebalance point either all balances are exact and the height is unchanged unless it was level, or exactly one rotation is due |
| AvlTheory.InsertBalancedFacts | TPCC/lib/avltree.c:394-398 | that rotation makes all balances exact and gives back the height from before the insertion |
| AvlTree.InsertPlan | TPCC/lib/avltree.c:392-404 | so the whole tree is balanced again though no ancestor of the rebalance point is looked at |
| AvlTree.AvlTree.Erase | TPCC/lib/avltree.c:473-564 | in a tree of height up to HEIGHT_LIMIT: removes one item that compares equal, if any, and says so; valid afterwards exactly if the tree was not empty |
| AvlTree.AvlTree.PromoteHeir | TPCC/lib/avltree.c:516-546 | with two children the next item in order moves up and its node is cut out, the path to it saved |
| AvlTheory.HeirElems | TPCC/lib/avltree.c:516-541 | which removes exactly the searched item from the sequence |
| AvlTree.AvlTree.WalkBack | TPCC/lib/avltree.c:548-563 | from a subtree one lower than its surroundings need: all balances exact again, the items kept, wherever the walk stops |
| AvlTheory.WalkStep | TPCC/lib/avltree.c:549-554 | stopping where the balance becomes one away from level is sound: nothing above has changed height |
| AvlTheory.RemoveBalancedFacts | TPCC/lib/avltree.c:555-562 | after the rotation all balances are exact, and the height is the old one exactly when done is set |
| AvlTree.AvlTree.Find | TPCC/lib/avltree.c:333-347 | an item that compares equal exactly when there is one, else NULL |
| AvlTree.AvlTree.Delete | TPCC/lib/avltree.c:276-302 | destruction by rotation terminates, frees every node once and releases the items in order |
| AvlTheory.HeightNeedsItems | TPCC/lib/avltree.c:94-96 | a tree of height h has at least F(h+2)-1 items |
| AvlTheory.FewItemsLowTree | TPCC/lib/avltree.c:476-525 | with fewer than F(67)-1 items the height is at most HEIGHT_LIMIT, so no path outgrows its array |
| AvlTree.AvlTree.FewItemsFit | TPCC/lib/avltree.c:94-96 | so the arrays are long enough for every valid tree of so few items |
| AvlTheory.Sparsest | TPCC/lib/avltree.c:94-96 | for every height h some balanced tree has exactly F(h+2)-1 items |
| AvlTheory.ItemsBoundIsSharp | TPCC/lib/avltree.c:476-525 | so the balanced trees of up to m items all stay within the limit if and only if m < F(limit+3)-1 |
| AvlTraversal.Traversal.Start | TPCC/lib/avltree.c:678-693 | comes to the first or the last item, NULL for an empty tree; the path is the chain of ancestors |
| AvlTraversal.Traversal.Move | TPCC/lib/avltree.c:699-727 | comes to the next item in the direction, NULL exactly past the end; the path stays the chain of ancestors |
| AvlTraversal.Ascending | TPCC/lib/avltree.c:729-747 | first and then next until NULL gives the items in order up to the first NULL item, so all of them exactly if none is NULL |
| AvlTraversal.Descending | TPCC/lib/avltree.c:729-747 | last and then prev until NULL gives the reverse, with the same exception |
| BarrierGroups.CeilLog2 | TPCC/lib/thread.c:243-245 | the least power of two that reaches the number of workers |
| BarrierGroups.ThreadsPerGroup | TPCC/lib/thread.c:242-245 | one for up to two workers; from two on the least g with 2^g at least the number of workers |
| BarrierGroups.GroupsPartitionWorkers | TPCC/lib/thread.c:242-258 | for every number of threads each worker lies in the group of exactly one coordinator, and takes itself for one exactly if it is |
| BarrierGroups.GroupRange | TPCC/lib/thread.c:247-258 | every group is a nonempty run of workers, the last one ending at the last worker |
| GroupBarrier.SignalAtNeed | TPCC/lib/thread.c:441-446 | for every group size the last arrival, and no other, signals its boss |
| GroupBarrier.NextKeepsInv | TPCC/lib/thread.c:365-531 | every step of every thread, and every tolerated spurious wakeup, keeps the invariant |
| GroupBarrier.NoSignalIsLost | TPCC/lib/thread.c:391-397 | whoever is about to be signalled on proceedAllCond is waiting on it |
| GroupBarrier.NobodyLeavesEarly | TPCC/lib/thread.c:365-531 | a call that one thread has completed, every thread has begun |
| GroupBarrier.RunIsSafe | TPCC/lib/thread.c:365-531 | so in every state of every run, over any number of rounds |
| GroupBarrier.RefinesAbstractBarrier | TPCC/lib/thread.c:365-531 | every step is a step of the abstract barrier or invisible to it |
| GroupBarrier.NoDeadlock | TPCC/lib/thread.c:365-531 | some thread can step exactly as long as calls are left to make or finish |
| GroupBarrier.RunEnds | TPCC/lib/thread.c:365-531 | the number of steps is bounded by the calls to make and the spurious wakeups, so every run gets to the end |
| GroupBarrier.SafeIffNeverUnasked | TPCC/lib/thread.c:451-456 | for every number of threads from 2, of calls r and of wakeups k: all runs with at most k spurious wakeups on proceedAllCond keep the promise if and only if k or r is 0 |
| GroupBarrier.SpuriousProceedBreaks | TPCC/lib/thread.c:451-456 | for every number of threads and at least one call: a run with one such wakeup in which a thread completes a call that no other has begun |
| AbstractBarrier.NextKeepsTogether | TPCC/lib/thread.c:359-364 | what a barrier promises: completed by one, begun by all |
| ThreadPool.ReadsItsPhase | TPCC/lib/thread.c:106-117 | a thread between start and function reads the shared variables of its own phase, and the primary is not about to write them |
| ThreadPool.ReadsNeverRace | TPCC/lib/thread.c:99-118 | so in every state of every run |
| ThreadPool.JobsRunInOrder | TPCC/lib/thread.c:182-210 | each thread has run the first so many dispatched functions, once each and in order; a secondary exits only after all of them and on shutdown |
| ThreadPool.NextKeepsInv | TPCC/lib/thread.c:99-118 | the invariant behind these |
| ThreadPool.StopsOnlyWhenDone | TPCC/lib/thread.c:198-210 | some thread can step until the primary has joined all secondaries |
| ThreadPool.RunEnds | TPCC/lib/thread.c:182-210 | and no run goes on for ever |
| PoolOnBarrier.RefinesPool | TPCC/lib/thread.c:99-118 | on the real barrier every step is a step of the pool over the abstract barrier or invisible to it, and the invariants of both hold on |
| PoolOnBarrier.JobsRunInOrder | TPCC/lib/thread.c:182-210 | so each thread runs the dispatched functions once each and in order there too, and reads those of its own phase |
| PoolOnBarrier.StopsOnlyWhenDone | TPCC/lib/thread.c:198-210 | pool and barrier together do not deadlock: some thread can take a step exactly until the primary has joined all secondaries |
| PoolOnBarrier.RunEnds | TPCC/lib/thread.c:182-210 | and the number of their steps is bounded, up to three for every tolerated spurious wakeup |
| SpinBarrier.NextKeepsInv | TPCC/lib/barrier.h:169-199 | the counters tell how many threads have reached each stage of the round, save while they are being reset |
| SpinBarrier.ResetStep | TPCC/lib/barrier.h:24-28 | the reset, done one write at a time while fast threads may call again, leaves the counters as at the start of a round |
| SpinBarrier.RefinesAbstractBarrier | TPCC/lib/barrier.h:169-199 | every step is a step of the abstract barrier or invisible to it |
| SpinBarrier.RunIsSafe | TPCC/lib/barrier.h:169-199 | nobody passes before all have arrived, in every round |
| SpinBarrier.OneLeaderPerRound | TPCC/lib/barrier.h:178-198 | of the calls of a round at most one returns 1, and one does once all have returned |
| SpinBarrier.NoDeadlock | TPCC/lib/barrier.h:169-199 | some thread is not spinning in vain exactly as long as calls are left |
| SpinBarrier.RunEnds | TPCC/lib/barrier.h:169-199 | leaving idle turns aside, no run goes on for ever |
| MersenneTwister.Generator.Seed | TPCC/lib/mt19937ar.c:122-139 | the state holds the first 624 words of the seed's sequence |
| MersenneTwister.Generator.Regenerate | TPCC/lib/mt19937ar.c:189-203 | the in-place block computation is the linear recurrence: it holds the next 624 words |
| MersenneTwister.Generator.Generate | TPCC/lib/mt19937ar.c:172-211 | the k-th output is the tempered word 624+k of the sequence, across all blocks, and below 2^32; an unseeded state takes seed 5489 |
| MersenneTwister.Recurrence | TPCC/lib/mt19937ar.c:189-203 | the recurrence of the sequence, of degree 624 with middle word 397 |
| MersenneTwister.TimesMatrix | TPCC/lib/mt19937ar.c:175-192 | on all 32-bit words the twist is the product with the matrix whose last row is 0x9908b0df, added to the word further on |
| MersenneTwisterLaws.SeedStepInverts | TPCC/lib/mt19937ar.c:127-135 | from every seed word the one before comes back, by the inverse of the multiplier modulo 2^32 |
| MersenneTwisterLaws.SeedWords | TPCC/lib/mt19937ar.c:122-139 | so for every seed: its own lower 32 bits first, then each word's inverse step leads back |
| MersenneTwisterLaws.SeedsStayApart | TPCC/lib/mt19937ar.c:122-139 | seeds that differ in their lower 32 bits never have a seed word in common at the same place |
| MersenneTwisterLaws.DefaultSeedWords | TPCC/lib/mt19937ar.c:127-135 | the first words of seed 5489, as numbers |
| MersenneTwisterLaws.TemperRows | TPCC/lib/mt19937ar.c:203-206 | the tempered value of each of the 32 words with a single bit, as numbers |
| MersenneTwisterLaws.TemperInverts | TPCC/lib/mt19937ar.c:203-206 | tempering is undone on all 32-bit words by an inverse written out, so no two words temper alike |
| MersenneTwisterLaws.OutputInverts | TPCC/lib/mt19937ar.c:172-211 | from every output of every seed the word 624+i of its sequence comes back |
| MersenneTwister.JoinedBits | TPCC/lib/mt19937ar.c:190-191 | the masked word has its top bit from one word and the other 31 from the next |
| MersenneTwister.WordsFit | TPCC/lib/mt19937ar.c:122-203 | every word of the sequence is below 2^32 |
| List.List.FindPrevious | TPCC/lib/list.c:492-506 | the node before the lower bound of a key |
| List.List.Find | TPCC/lib/list.c:538-553 | a pair whose key compares equal exactly when there is one |
| List.List.Insert | TPCC/lib/list.c:582-609 | puts the pair at its lower bound; refuses, changing nothing, exactly when a key compares equal |
| List.List.Remove | TPCC/lib/list.c:687-708 | takes out the one pair that compares equal, or changes nothing |
| HashTable.HashTable.constructor | TPCC/lib/hashtable.c:312-345 | an empty table; a negative ratio or growth factor selects the default |
| HashTable.AllocBuckets | TPCC/lib/hashtable.c:244-269 | one empty list more than asked for, none sharing a node |
| HashTable.HashTable.Rehash | TPCC/lib/hashtable.c:624-652 | divides by zero exactly if there are pairs and no new bucket to put them in; else keeps every pair, puts each in the bucket it hashes to, and never fails |
| HashTable.HashTable.Insert | TPCC/lib/hashtable.c:660-715 | divides by zero exactly if there is no bucket, or if the growth factor is zero, the key new and the ratio asks for growth; else TRUE exactly when no key compares equal, then the pairs are the old ones and the new one; the table grows exactly when the ratio asks for it, and with a bucket size stays below numBucket*resizeRatio for resizeRatio >= 1 and growthFactor >= 2 |
| HashTable.GrowToNothing | TPCC/lib/hashtable.c:687-703 | one bucket, ratio 1 and growth factor 0: the first insertion divides by zero, whatever the key |
| HashTable.HashTable.Remove | TPCC/lib/hashtable.c:762-787 | divides by zero exactly without a bucket; else TRUE exactly when the key is there, then exactly its pair is gone; the inner assertion holds |
| HashTable.HashTable.Find | TPCC/lib/hashtable.c:580-596 | divides by zero exactly without a bucket; else the data of the pair that compares equal, NULL if there is none |
| HashTable.HashTable.ContainsKey | TPCC/lib/hashtable.c:543-554 | divides by zero exactly without a bucket; else whether a key compares equal anywhere in the table, from one bucket |
| HashTable.HashTable.GetSize | TPCC/lib/hashtable.c:498-513 | the number of pairs |
| HashTableMap.InsertLaw | TPCC/lib/hashtable.c:660-715 | read as a finite map: an insertion binds its key and leaves every other one as it was |
| HashTableMap.RemoveLaw | TPCC/lib/hashtable.c:762-787 | read as a finite map: a removal unbinds its key and leaves every other one as it was |
| HashTable.RowsDistinct | TPCC/lib/hashtable.c:660-715 | no two pairs of the whole table compare equal |
| HashTable.InItsRow | TPCC/lib/hashtable.c:580-596 | looking in one bucket is enough, for any hash consistent with the comparison |
| HashTable.BucketIs | TPCC/lib/hashtable.c:580-596 | the bucket of a key among n is the amount by which its hash is above a multiple of n |
| HashTableIterator.Iterator.HasNext | TPCC/lib/hashtable.c:129-147 | true exactly while pairs remain, never looking past the dummy bucket |
| HashTableIterator.Iterator.Next | TPCC/lib/hashtable.c:180-204 | the data of the next pair in bucket order, NULL exactly when none remains |
| HashTableIterator.AllData | TPCC/lib/hashtable.c:104-204 | alternating the two from a reset gives the data of every pair once |
| Queue.Queue.Push | TPCC/lib/queue.c:284-332 | appends; doubles the buffer exactly when the last but one slot is to be filled; pop and push never meet |
| Queue.Queue.Grow | TPCC/lib/queue.c:296-325 | a wrapped or unwrapped layout is copied in order |
| Queue.Queue.Pop | TPCC/lib/queue.c:451-467 | takes the first, NULL when empty |
| Queue.Queue.Front | TPCC/lib/queue.c:473-488 | the first, NULL when empty |
| Queue.Queue.IsEmpty | TPCC/lib/queue.c:209-217 | true exactly when there is nothing in the queue |
| Queue.Queue.Clear | TPCC/lib/queue.c:224-229 | empties the queue |
| Queue.Queue.Shuffle | TPCC/lib/queue.c:251-277 | for n elements n rounds, the i-th of which swaps the places given by outputs d+2i and d+2i+1 of the generator modulo n; so a permutation of the contents, with two draws an element; pop, push and capacity stay |
| Queue.RingPush | TPCC/lib/queue.c:328-331 | writing one slot of the ring is appending to the queue |
| Heap.Heap.Insert | TPCC/lib/heap.c:197-224 | heap order and size < capacity hold again, with exactly one element more |
| Heap.Heap.Remove | TPCC/lib/heap.c:363-379 | heap order holds again; a largest element is returned and is exactly what is gone |
| Heap.Heap.SiftUp | TPCC/lib/heap.c:144-163 | repairs heap order broken at one element towards its parent, keeping the elements |
| Heap.Heap.Heapify | TPCC/lib/heap.c:268-306 | repairs heap order broken at one element towards its children, keeping the elements |
| Heap.Heap.IsValid | TPCC/lib/heap.c:410-425 | true exactly on heap-ordered arrays |
| Heap.RootIsLargest | TPCC/lib/heap.c:363-379 | heap order puts a largest element at index 1 |
| Heap.Drain | TPCC/lib/heap.c:363-379 | removing until empty gives all elements, from the largest down |
| Memory.Memory.constructor | TPCC/lib/memory.c:158-182 | every pool starts with one unused block, with the capacity and growth factor given or, where these are not positive, 16 and 2 |
| Memory.Memory.Get | TPCC/lib/memory.c:340-360 | the region is 8-byte aligned, inside the used part of its block, and apart from every region handed out before to any thread; exactly numByte+7 bytes come into use, in the newest block or in a new one, and nothing else changes; the bytes in use in all pools are those of all requests so far; the k-th block of a pool is at least init*growth^k large |
| Memory.Memory.GetMemoryFromPool | TPCC/lib/memory.c:316-332 | adds a block exactly when the newest is too full; the address, all blocks of the pool and its next capacity afterwards; the assertion of the next function holds |
| Memory.Memory.GetMemoryFromBlock | TPCC/lib/memory.c:298-308 | cuts exactly numByte bytes off the newest block, from the first unused one on, apart from all earlier stretches |
| Memory.Memory.AddBlockToPool | TPCC/lib/memory.c:269-291 | the new block, empty, has the next capacity, or a larger request times the growth factor; the next capacity is its own times the growth factor |
| Memory.GrantedLaws | TPCC/lib/memory.c:269-332 | a request adds its bytes to those in use; every block but the first is growth times as large as the one before, or growth times a request that exceeded this |
| Memory.ExactGrowth | TPCC/lib/memory.c:269-291 | so without a request above init*growth the k-th block is exactly init*growth^k large |
| NewOrder.Manager.NewOrder | TPCC/Server/manager.c:208-387 | -1 for unknown keys and nothing changes; else one complete order with lines 1..O_OL_CNT under the old D_NEXT_O_ID, which grows by one, and no other order or district changes; O_OL_CNT, items and quantities are the draws modulo 10, 100000 and 10; the stock of each item changes by the new order's lines as in SerialRun |
| NewOrder.Manager.FillOrder | TPCC/Server/manager.c:307-379 | the lines as drawn, all of them supplied from stock |
| NewOrder.SerialRun | TPCC/Server/manager.c:208-387 | over any serial run from any consistent start: each district's ids grow by its accepted orders, without a gap and with complete orders, each placed once; for each item S_YTD and S_ORDER_CNT grow by the units and the number of the item's new lines, S_QUANTITY+S_YTD stays the same modulo 91; S_QUANTITY, if it began at 10 or more and has been updated, is what the units ordered leave while this is above 10, and else the one number from 11 to 101 that agrees with it modulo 91 |
| NewOrder.SupplyConserves | TPCC/Server/manager.c:340-361 | one line supplied from stock keeps all these laws of the item |
| NewOrder.PlacedMore | TPCC/Server/manager.c:261-287 | one order more keeps the record of orders placed exact: the ids from the beginning up to D_NEXT_O_ID-1, each once |
| NewOrder.StaysConsistent | TPCC/Server/manager.c:261-287 | clauses 3.3.2.2 and 3.3.2.6 of TPC-C hold again after each order: contiguous ids, complete lines |
| NewOrder.LinesMore | TPCC/Server/manager.c:307-379 | one order more adds exactly its lines to the lines of the orders placed |

## Left out

- The software transactional memory, and the `TM*` and `P*` copies of every function.
- Allocation failure, and freeing: a freed node leaves the structure and is forgotten.
- Integer widths of counters and sizes, except in the random numbers; the wrap-around of the default comparisons.
- Weak memory ordering in the spin barrier, fairness of the scheduler, and the idle turns of spin loops.
- Floating point: the group sizes are the exact ceilings that the code computes through `log2` and `ceil`; the amounts of the transactions are not modelled.
- Mutexes and condition variables are taken at their POSIX meaning.
- The power-of-two barrier, which a later definition replaces, and `pthread_barrier` of the simulator build.
- Threads of the pool that call the barrier a different number of times from one another inside a dispatched function.
- `init_by_array`, and the 31-bit and real-valued draws.
- MersenneTwister.Generator.Seed: only seeding through `init_genrand`.
- The build of the hash table with a size field, and the one without resizing.
- HashTable.HashTable.constructor: a negative number of buckets, which asks `malloc` for nothing or for far too much.
- List.List.Insert: the build that allows duplicates in lists.
- `rbtree` and `avltree` verification, printing and test code; the default comparison of pointers.
- `TMqueue_get`, `TMqueue_delivery` and `queue_setlastorder`, which rely on a field that is never initialised.
- NewOrder.Manager.NewOrder: prices, taxes, dates and the fields derived from the parameters; the other transactions, and the disabled rollback.
- Sockets, request parsing, statistics, the scheduler and `timestretch`.
- `vector.c`, `hash.c` and `bitmap.c`; of `pair.c` only that a pair holds two pointers.
