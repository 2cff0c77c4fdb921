# Verified models of intrusive containers, a shared mutex and checksums

A Dafny model of the core of a C++ library of intrusive containers and small utilities, with proofs of what that code
promises. `dafny verify dfyconfig.toml` checks everything.

## What is modelled

**The intrusive AVL tree** (`AvlTrees`, `AvlRepair`, `AvlStore`, `AvlSearch`, `AvlDescent`, `AvlRemoval`, `AvlSubst`,
`AvlBuilding`, `AvlWalk`, `AvlTree`, `AvlIter`). Class `AvlTree` holds the node fields as a map from handle to less link,
greater link and balance factor, and changes them in place, loop by loop as the source does. `Shape` relates the links
from a handle to a tree value; a zipper (`Path`, `Plug`) describes the way down. What an operation does to the tree is
first a function on tree values (`Rebalance`, `Grow`, `Climb`, `BuildTree`), about which order, balance and depth are
proved for all trees; then each method is proved to leave the store in the shape of that function's value and to write no
other node. Class `Iter` has the path of handles, the bit set and the wrapping depth of the source.

**The rarely-unique shared mutex** (`Mutex` and the other `Mutex*` modules). A state machine with any number of threads that
come and go. Each step is one access to a shared variable, one operation on an internal mutex or one wait; a thread asleep
on a condition may wake at any time; `try_lock` may fail without a reason. `uniq` and the sharing flags are sequentially
consistent in the source, so steps interleave. The scan of the flags is a loop of separate loads. The field `chain` is not in
the source: it is the linked list as a sequence. The invariant (`MutexInv`) has one part for each piece of state;
`MutexEffects` and `MutexPaths` say what one step of each function may do, `MutexSteps` concludes that every step keeps it.
`MutexReturns` says with what each call returns, and that uniq_mtx is given up, whatever other threads do; `MutexAlone` says
how far each call gets when other threads pause, by a rank that falls with every step.

**The circular queue** (`CircQue`, `CircQueLockFree`). Indices are 32-bit unsigned numbers that wrap. Class `Queue` is the
single-thread form. The lock-free form is a state machine of one pushing and one popping thread: each atomic index is the
sequence of all values it has had, and the other thread may load any of them from the one it last saw to the newest.
Acquire and release order make the slot accesses before a store visible to whoever loads it; `NoRace` shows that no slot is
accessed by both sides at once, and `HandedOver` that what a side accesses was handed over by a store that it has loaded,
which is why slots can be read and written as ordinary memory.

**Lists and the hash table** (`Lists`, `BidirList`, `HashTable`). Links live in the elements, in a store that lists share; a
list is a head, perhaps a tail, and ghost contents that the links thread. Every operation with a direction is one function
of the contents seen in that direction, whether a tail is stored or not. The hash table is built of such lists and refines
a finite map; its iterator is proved also for tables from which other elements are removed during the iteration.

**Modulus hash and CRC-32** (`ModulusHash`, `Crc32`). The template recursion as functions in arithmetic of a given width;
the table of 256 constants, the table-driven step and the byte loop against a shift register that takes one bit at a time.
The register is that of section 8 of RFC 1952 without the complement at the end.

`Common` has what several of these need: handles, powers of two and remainders.

## Where code and documentation differ

- ru_shared_mutex.cpp:269-270 states the result of the scan the wrong way round: it is true if no flag is up.
- ru_shared_mutex.h:158-160 says a thread that sets `uniq` to `want` keeps uniq_mtx until it sets it to `no`; the wait at
  ru_shared_mutex.cpp:134 releases it while `uniq` is `want`.
- The transitions listed at ru_shared_mutex.cpp:41-64 are incomplete: seven more occur, and one listed, UWS to LNS, takes two
  steps (`MutexRuns.TableExact`, `MutexRuns.TwoSteps`).
- avl_tree.h:984-986 says a tree had one or two nodes when the removed node has no parent and is not replaced; it has one,
  for in a tree of two the root is replaced by its child and the parent is the root.
- The partial modulus hash is documented for fewer segments than the maximum (modulus_hash.h:151-155); the code also takes
  zero and more, and then hashes all segments.

## Model

| member | source | states |
|---|---|---|
| `AvlTrees.RebalanceCorrect` | avl_tree.h:556-680 | for every subtree one step out of AVL range: `balance` keeps the in-order sequence, gives an AVL subtree with exact factors, and the new root's factor is 0 exactly when the subtree lost a level, which is so unless the deeper child had factor 0 |
| `AvlTrees.RebalanceOrder` | avl_tree.h:556-680 | the rotations never change the in-order sequence |
| `AvlTrees.InOrderPlug` | avl_tree.h:706-734 | a path into a tree splits the order into what is before, the subtree, and what is after |
| `AvlTrees.BalancedSwap` | avl_tree.h:742-763 | a subtree may be replaced by another AVL subtree of the same depth without a change to any ancestor |
| `AvlRepair.GrowCorrect` | avl_tree.h:684-804 | for every path into every AVL tree: after the repair of `insert` the tree is AVL, the new node stands at its place in the order, and if some node of the path was unbalanced the depth is the old one, so no ancestor above the last such node needs a change |
| `AvlRepair.TiltUp` | avl_tree.h:765-781 | below the last unbalanced node every factor was 0; setting each to the branch taken makes it exact, and each subtree one level deeper |
| `AvlRepair.OverfullOneStepOut` | avl_tree.h:757-786 | when the last unbalanced node would get factor 2 or -2 its subtree is just one step out of range, so that one rotation is enough |
| `AvlRepair.LowerCorrect` | avl_tree.h:1048-1065 | one step of the climb of `remove`: AVL again, and the factor stored is 0 exactly when this subtree lost a level too |
| `AvlRepair.ClimbCorrect` | avl_tree.h:1041-1083 | the whole climb, for every path: AVL with exact factors, order kept |
| `AvlRepair.ClimbStops` | avl_tree.h:1046-1065 | once the depth has stopped shrinking no node higher up is changed |
| `AvlRepair.FewestNodes` | avl_tree.h:710-734 | an AVL tree of depth d has at least Fib(d + 2) - 1 nodes |
| `AvlRepair.DepthBound` | avl_tree.h:345-357 | with fewer than Fib(max_depth + 3) - 1 nodes the depth is at most max_depth, which is what the operations need so as to stay inside `branch` and `path_h` |
| `AvlTreeModel.AvlTree.FewEnough` | avl_tree.h:345-357 | so with fewer nodes than that the operations that need a bounded depth can be called |
| `AvlRepair.DepthBoundTight` | avl_tree.h:345-357 | with Fib(max_depth + 3) - 1 nodes, all different and in the order of their keys, an AVL tree can be too deep |
| `AvlTreeModel.TooDeep` | avl_tree.h:345-357 | and node fields can hold such a tree |
| `AvlRepair.HundredNodes` | avl_ex2.cpp:123-124 | 100 nodes need a depth of at most 9 |
| `AvlStore.ShapeUnique` | avl_tree.h:535-544 | the links determine the tree they stand for |
| `AvlSearch.CandidateIsBest` | avl_tree.h:823-847 | when the search falls off the tree the match noted last is the extreme one asked for |
| `AvlSearch.Narrow` | avl_tree.h:823-847 | every step of a search leaves all nodes to the left below, and all to the right above, what is sought |
| `AvlSearch.BestIsUnique` | avl_tree.h:806-848 | at most one node answers a search, so two searches with one answer agree |
| `AvlTreeModel.AvlTree.constructor` | avl_tree.h:112-118 | a new tree is empty and valid |
| `AvlTreeModel.AvlTree.Purge` | avl_tree.h:106 | the tree is empty, whatever the nodes hold |
| `AvlTreeModel.AvlTree.Search` | avl_tree.h:806-848 | returns the node with the key, or the greatest below, least above and so on as the search type says, or null exactly if there is none |
| `AvlTreeModel.AvlTree.SearchLeast` | avl_tree.h:850-868 | the first node in order, or null |
| `AvlTreeModel.AvlTree.SearchGreatest` | avl_tree.h:870-888 | the last node in order, or null |
| `AvlTreeModel.AvlTree.Balance` | avl_tree.h:556-680 | the stored subtree becomes the rebalanced one by one of four rotations; no other node is written |
| `AvlTreeModel.AvlTree.RotateToLess` | avl_tree.h:604-619 | single rotation towards less |
| `AvlTreeModel.AvlTree.RotateToLessTwice` | avl_tree.h:572-603 | double rotation towards less |
| `AvlTreeModel.AvlTree.RotateToGreater` | avl_tree.h:661-676 | single rotation towards greater |
| `AvlTreeModel.AvlTree.RotateToGreaterTwice` | avl_tree.h:629-660 | double rotation towards greater |
| `AvlTreeModel.AvlTree.FindSpot` | avl_tree.h:712-734 | finds a node with the same key or the place of the new leaf; remembers the last unbalanced node, its parent and depth, and the branches taken |
| `AvlTreeModel.AvlTree.SettleUnbalanced` | avl_tree.h:742-763 | the last unbalanced node gets its new factor unless it must be rotated |
| `AvlTreeModel.AvlTree.TiltDown` | avl_tree.h:765-781 | the factors from there down to the new leaf lean the way the path goes |
| `AvlTreeModel.AvlTree.RotateAt` | avl_tree.h:783-799 | one call of `balance`, and its result hung where the subtree was |
| `AvlTreeModel.AvlTree.Insert` | avl_tree.h:684-804 | a new key: AVL search tree over the old nodes and the new one, at its place in the order, nothing else written; a key already there: the tree is unchanged and the node that has it is returned |
| `AvlTreeModel.AvlTree.FindNode` | avl_tree.h:903-925 | finds the node with the key and the branches to it, or none |
| `AvlTreeModel.AvlTree.PickReplacement` | avl_tree.h:927-982 | the neighbour in order of the node to remove, taken from the deeper side, with at most one child |
| `AvlTreeModel.AvlTree.SpliceOut` | avl_tree.h:984-1014 | the replacement is cut out and put in the place of the removed node; the order is the old one without that node |
| `AvlTreeModel.AvlTree.ReverseLinks` | avl_tree.h:1018-1039 | the links from the root down to the shortened spot are reversed, and nothing else is changed |
| `AvlTreeModel.AvlTree.ClimbBack` | avl_tree.h:1041-1085 | the climb restores every reversed link and repairs the factors, so that the store holds the tree of the climb |
| `AvlTreeModel.AvlTree.Remove` | avl_tree.h:890-1088 | key present: AVL search tree over exactly the old nodes in the old order without the returned one, which has the key; key absent: null, and the store is as it was |
| `AvlTreeModel.AvlTree.Subst` | avl_tree.h:1090-1133 | the new node takes the place in the order of the node with the same key, which is returned; null and no change if there is none |
| `AvlBuilding.PowerOf2Test` | avl_tree.h:480-488 | `n & (n - 1)` is 0 exactly if n is a power of two |
| `AvlBuilding.LevelsIsLog` | avl_tree.h:418-427 | the number of levels of n nodes is floor(log2 n) + 1 |
| `AvlBuilding.BuildOrder` | avl_tree.h:371-518 | the built tree has the given sequence as its order |
| `AvlBuilding.BuildBalanced` | avl_tree.h:371-518 | every balance factor is exact, and no tree of n nodes or more is less deep |
| `AvlBuilding.BuildEvenlySplit` | avl_tree.h:397-399 | at every node the greater subtree has as many nodes as the less one or one more |
| `AvlBuilding.NestedFits` | avl_tree.h:405-427 | the sizes on the way down nest, and never need more bits than there are levels |
| `AvlBuilding.UnwindStep` | avl_tree.h:471-488 | going up, the size of the parent's subtree is recovered from the one remainder bit, and the node popped off the stack of `greater` links is the right one and gets the right factor |
| `AvlBuilding.NextStep` | avl_tree.h:495-511 | a finished less subtree goes to the next node of the sequence, which is pushed on that stack |
| `AvlTreeModel.AvlTree.BuildSmall` | avl_tree.h:429-462 | subtrees of one and of two nodes |
| `AvlTreeModel.AvlTree.Unwind` | avl_tree.h:464-489 | all finished greater subtrees are attached |
| `AvlTreeModel.AvlTree.Build` | avl_tree.h:371-518 | for every strictly sorted sequence whose bits fit: it ends with the tree described, over exactly the given nodes, writing no others |
| `AvlIter.Iter.constructor` | avl_tree.h:136-141 | past the end |
| `AvlIter.Iter.StartIter` | avl_tree.h:143-200 | stands at the node that `search` returns, or past the end if that is null |
| `AvlIter.Iter.StartIterLeast` | avl_tree.h:202-224 | stands at the first node in order |
| `AvlIter.Iter.StartIterGreatest` | avl_tree.h:226-248 | stands at the last node in order |
| `AvlIter.Iter.Current` | avl_tree.h:250-256 | the node at the iterator's place in the order, or null past the end |
| `AvlIter.Iter.Next` | avl_tree.h:258-295 | to the next place in the order or past the end, needing only the links that are still to be walked |
| `AvlIter.Iter.Prev` | avl_tree.h:297-334 | the same backwards |
| `AvlWalk.PassableFrame` | avl_tree.h:258-334 | a walk depends only on the fields of nodes that it has still to come to |
| `AvlIter.Walk` | avl_ex1.cpp:131-142 | from the least node to the end an iterator comes to every node once, in order |
| `AvlIter.DeathMarch` | avl_ex1.cpp:144-176 | a full walk from the least node that releases each node's storage once it has stepped past it comes to every node in order |
| `AvlIter.DeathMarchBack` | avl_ex1.cpp:152-160 | the same from the greatest node |
| `MutexInv.StartInv` | ru_shared_mutex.h:147-176 | the invariant holds before any thread has started |
| `MutexSteps.InvStep` | ru_shared_mutex.cpp:83-289 | every step of any thread keeps the whole invariant |
| `MutexSteps.MtxStep` | ru_shared_mutex.h:158-161 | who owns uniq_mtx is determined by where the threads are |
| `MutexSteps.ListLockStep` | ru_shared_mutex.h:167-169 | the list mutex has one writer or any number of readers, those at the statements between lock and unlock |
| `MutexSteps.FlagStep` | ru_shared_mutex.h:94-96 | a sharing flag is up exactly at certain statements of its thread |
| `MutexSteps.UniqStep` | ru_shared_mutex.h:149-152 | `uniq` is changed only by the owner of uniq_mtx, and is what the statement the owner is at requires |
| `MutexSteps.ChainStep` | ru_shared_mutex.cpp:83-105 | linking and unlinking keep the list free of duplicates and its members exact |
| `MutexSteps.WalkStep` | ru_shared_mutex.cpp:281-287 | a pointer of a scan or of an unlinking thread is always into the list |
| `MutexSteps.DekkerStep` | ru_shared_mutex.cpp:272-289 | although flags are read one at a time, no thread whose flag a writer's scan has passed holds the lock shared, and after a clear scan none does |
| `MutexList.Spliced` | ru_shared_mutex.cpp:95-102 | making the link before an entry skip it takes just that entry out |
| `MutexSafety.ReachableInv` | ru_shared_mutex.cpp:83-289 | the invariant holds in every state that any run of any number of threads reaches |
| `MutexSafety.MutualExclusion` | ru_shared_mutex.cpp:115-174 | a unique holder never coexists with another holder |
| `MutexSafety.UniqueWindow` | ru_shared_mutex.h:149-161 | `uniq` is `yes` exactly if one thread is between its store of `yes` and its store of `no`, and that thread owns uniq_mtx |
| `MutexSafety.HoldersVisible` | ru_shared_mutex.h:278-294 | every shared holder has its flag up, is registered and is on the list |
| `MutexSafety.NotifyExclusive` | ru_shared_mutex.cpp:257-267 | no two threads are in `notify_one` at once, nor in `notify_all` |
| `MutexSafety.AbstractMeans` | ru_shared_mutex.h:278-329 | the abstract lock names exactly the threads that hold it |
| `MutexSafety.Refinement` | ru_shared_mutex.cpp:115-289 | every step is a legal step of an abstract lock (free, shared by a set, owned by one), or no change of it |
| `MutexStates.EightStates` | ru_shared_mutex.cpp:26-66 | only the eight documented combinations of locked, `uniq` and flags occur |
| `MutexStates.Transitions` | ru_shared_mutex.cpp:41-64 | every step that changes the combination makes, by the event given for it, one of the documented transitions or one of seven others |
| `MutexRuns.TableExact` | ru_shared_mutex.cpp:41-64 | a change from one combination to another by an event occurs if and only if it is one of those: each of the fourteen documented single steps and of the seven others has a run |
| `MutexRuns.TwoSteps` | ru_shared_mutex.cpp:49 | the remaining documented transition, UWS to LNS, is no single step but two |
| `MutexRuns.GrantsOccur` | ru_shared_mutex.cpp:115-126 | a writer gets the lock with all flags down, and also rightly when a flag goes up after the scan has passed it |
| `MutexRuns.LostWakeUp` | ru_shared_mutex.cpp:141-156 | a run leads to a writer asleep while the lock is free, `uniq` is `no`, no flag is up and nobody else is in the code: after a failed `try_lock` the last reader left without a notification |
| `MutexProgress.CanUnlessBlocked` | ru_shared_mutex.cpp:83-289 | a thread can step exactly if it does not wait for a taken internal mutex |
| `MutexProgress.ListHolderRuns` | ru_shared_mutex.cpp:179-197 | a thread that holds the list mutex waits for nothing, least of all for uniq_mtx |
| `MutexProgress.AwaitedRuns` | ru_shared_mutex.cpp:115-289 | whoever is waited for is inside the code or holds the lock unique; a holder of the list mutex is not blocked, an owner of uniq_mtx at most on the list mutex |
| `MutexProgress.NoDeadlock` | ru_shared_mutex.cpp:115-289 | a blocked thread waits for some thread, and if that waits too then for one that does not, so no threads wait for each other; some thread waited for can step, and is inside the code or the client that owns uniq_mtx with the unique lock |
| `MutexProgress.ListIsRegistered` | ru_shared_mutex.cpp:179-197 | the list is acyclic, without duplicates, and holds exactly the registered threads whenever nobody is changing it |
| `MutexProgress.WalkUndisturbed` | ru_shared_mutex.cpp:272-289 | no other thread's step changes the list under a thread that walks along it |
| `MutexProgress.ScanAdvances` | ru_shared_mutex.cpp:281-287 | each round of a scan goes one place on in the list |
| `MutexProgress.UnlinkAdvances` | ru_shared_mutex.cpp:95-102 | the search of a leaving thread for its entry follows no null pointer and gets closer with each round |
| `MutexProgress.RankFalls` | ru_shared_mutex.cpp:179-197 | every own step of a holder of the list mutex lowers its rank or releases the mutex |
| `MutexProgress.RankStays` | ru_shared_mutex.cpp:272-289 | no step of another thread changes that rank |
| `MutexProgress.HoldEnds` | ru_shared_mutex.cpp:83-105 | in any stretch of a run in which a thread holds the list mutex it makes at most as many steps as its rank, which is at most the length of the list and 4: so registering, scanning and leaving end |
| `MutexReturns.CallsReturn` | ru_shared_mutex.cpp:115-255 | whatever other threads do meanwhile, `lock` and `lock_shared` return only with the lock, `try_lock` and `try_lock_shared` with it or outside, `unlock`, `unlock_shared` and the exit of a thread outside |
| `MutexReturns.MtxRankFalls` | ru_shared_mutex.cpp:115-252 | each own step of an owner of uniq_mtx inside the code releases it, returns with the lock, or lowers a rank: the phase first, then the place in the list |
| `MutexReturns.MtxRankStays` | ru_shared_mutex.cpp:115-252 | no step of another thread changes that rank |
| `MutexReturns.MtxHoldEnds` | ru_shared_mutex.cpp:115-252 | in any stretch of a run in which a thread inside the code owns uniq_mtx it makes at most as many steps as the rank, which is at most the greatest length of the list and 14: so uniq_mtx is released or the lock is returned with |
| `MutexReturns.UnlockReturns` | ru_shared_mutex.cpp:164-174 | after six own steps a thread that calls `unlock` has returned, and it waits for nothing meanwhile |
| `MutexAlone.LockAlone` | ru_shared_mutex.cpp:115-139 | called with the internal mutexes free and run alone, `lock` comes to return with the lock if no flag is up, and to sleep otherwise |
| `MutexAlone.LockGoesOn` | ru_shared_mutex.cpp:115-139 | from every statement inside, also from its sleep, `lock` comes to return with the lock when run alone with no flag up |
| `MutexAlone.TryLockAlone` | ru_shared_mutex.cpp:141-162 | run alone `try_lock` always returns, without the lock if a flag is up or uniq_mtx is taken |
| `MutexAlone.TryLockMay` | ru_shared_mutex.cpp:141-162 | and can return with the lock if no flag is up and the internal mutexes are free |
| `MutexAlone.UnlockAlone` | ru_shared_mutex.cpp:164-174 | run alone `unlock` returns, from every state |
| `MutexAlone.LockSharedAlone` | ru_shared_mutex.h:278-291 | called with the internal mutexes that it needs free and run alone, `lock_shared` comes to return with the lock if `uniq` is `no`, and to sleep if it is `want`, whether the thread is registered or has to register first |
| `MutexAlone.LockSharedGoesOn` | ru_shared_mutex.cpp:199-226 | from every statement inside, also from its sleep, `lock_shared` comes to return with the lock when run alone with `uniq` at `no` |
| `MutexAlone.TryLockSharedAlone` | ru_shared_mutex.h:296-318 | run alone `try_lock_shared` of a registered thread returns with the lock if and only if `uniq` is `no`; otherwise it returns without, or, if no other flag is up, comes to notify a writer that wants the lock |
| `MutexAlone.TryLockSharedNew` | ru_shared_mutex.h:296-318 | with `uniq` at `no` a thread that has to register first returns with the lock or without, and can return with it |
| `MutexAlone.UnlockSharedAlone` | ru_shared_mutex.h:320-329 | run alone `unlock_shared` returns if no writer wants the lock or another flag is up, and otherwise comes to notify a writer |
| `MutexAlone.UnlockSharedRepeats` | ru_shared_mutex.cpp:241-254 | and it notifies again and again until no writer wants the lock or a flag is up, and then returns |
| `MutexAlone.UnlockSharedGoesOn` | ru_shared_mutex.cpp:228-255 | from every statement inside it returns when run alone with `uniq` not at `want` |
| `MutexAlone.ExitAlone` | ru_shared_mutex.cpp:83-105 | run alone a thread that ends gets through the removal from the list |
| `CircQue.SizeIsDifference` | circ_que.h:130-133 | `size` in wrapping arithmetic is the difference of unbounded counters, even when its inner sum wraps |
| `CircQue.LookAheadExact` | circ_que.h:187-190 | look-ahead finds the right slot if and only if the sum of front and index does not wrap |
| `CircQue.LookAheadSafe` | circ_que.h:187-190 | every look-ahead in a queue is right if and only if its maximum size is at most 2^31 |
| `CircQue.LookAheadWraps` | circ_que.h:187-190 | at the first size above, in a full queue with the front at the last slot the last look-ahead goes to a wrong slot |
| `CircQue.Corruption` | circ_que.h:192-217 | a push when full makes the queue look empty, a pop when empty makes it look full |
| `CircQue.Queue.constructor` | circ_que.h:344 | empty |
| `CircQue.Queue.Purge` | circ_que.h:363-367 | empty again |
| `CircQue.Queue.GetSize` | circ_que.h:162-168 | the number of elements, at most the maximum |
| `CircQue.Queue.IsEmpty` | circ_que.h:170-174 | true exactly if there is no element |
| `CircQue.Queue.IsFull` | circ_que.h:245 | true exactly if there are as many elements as allowed |
| `CircQue.Queue.Front` | circ_que.h:182-185 | the oldest element |
| `CircQue.Queue.LookAhead` | circ_que.h:187-190 | the element at a place behind the front, or, if the sum of the indices wraps, what is in another slot |
| `CircQue.Queue.Init` | circ_que.h:259-276 | writing the next element changes nothing that is in the queue |
| `CircQue.Queue.PushRaw` | circ_que.h:281-283 | appends the element written before |
| `CircQue.Queue.Push` | circ_que.h:287-304 | appends the element |
| `CircQue.Queue.Pop` | circ_que.h:197-217 | takes off the oldest element |
| `CircQueLockFree.InvStep` | circ_que_lock_free.h:70-88 | every step of either thread keeps the relation of the indices, and of what each side has seen of the other's, to counters that do not wrap |
| `CircQueLockFree.SizesTrue` | circ_que.h:238-245 | the wrapped sizes are true for the values seen: the producer's is never below, the consumer's never above the real one |
| `CircQueLockFree.NoRace` | circ_que_lock_free.h:70-88 | the slot the producer may write is none the consumer may read |
| `CircQueLockFree.HandedOver` | circ_que_lock_free.h:70-88 | the pop that freed the slot being written is one the producer has loaded, and the push of an element being read one the consumer has loaded |
| `CircQueLockFree.PeekRight` | circ_que.h:182-190 | the consumer reads exactly the elements that come next, as far as look-ahead does not wrap |
| `CircQueLockFree.FirstInFirstOut` | circ_que_lock_free.h:49-54 | elements popped are a prefix of elements pushed, and never more than the maximum are in |
| `CircQueLockFree.Refinement` | circ_que_lock_free.h:49-88 | every step is a push into, a pop from, or no change of a bounded first-in-first-out queue |
| `CircQueLockFree.PopEnabled` | circ_que.h:170-174 | a pop is possible exactly when the popping thread has seen a push of an element not yet popped, and `is_empty` is true exactly when it has not |
| `CircQueLockFree.PushEnabled` | circ_que.h:245-304 | an element can be written exactly when the pushing thread has seen enough pops for one more to fit, and pushed exactly when it has been written |
| `CircQueLockFree.LoadsEnabled` | circ_que_lock_free.h:70-88 | a load of the other side's index can give exactly the values from the one last seen to the newest, and changes nothing else |
| `CircQueLockFree.CanPop` | circ_que.h:197-217 | with an element in the queue the popping thread can load the newest index and pop the oldest element |
| `CircQueLockFree.CanPush` | circ_que.h:287-304 | with room in the queue the pushing thread can load the newest index, write any element and push it |
| `Lists.ChainUnique` | list.h:329 | the links determine the sequence |
| `Lists.NoSelfLink` | list.h:125-133 | no element of a list is linked to itself, so a detached element can be told from it |
| `Lists.List.constructor` | list.h:89-101 | empty |
| `Lists.List.Link` | list.h:111-123 | the next element in either direction, or null |
| `Lists.List.Start` | list.h:139-156 | the first element in either direction, or null |
| `Lists.List.MakeDetached` | list.h:125-128 | links the element to itself; no list that it is not in is affected |
| `Lists.List.IsDetached` | list.h:130-133 | true exactly of an element linked to itself, which is then in no list at all |
| `Lists.List.Insert` | list.h:158-185 | in either direction the same function of the sequence seen in that direction, with and without a stored tail |
| `Lists.List.RemoveForward` | list.h:197-208 | takes out the element after the given one |
| `Lists.List.Remove` | list.h:210-225 | takes out the given element |
| `Lists.List.Push` | list.h:230-259 | puts an element at the front of the sequence seen in the given direction |
| `Lists.List.Pop` | list.h:264-296 | takes the front of the sequence seen in the given direction and returns it |
| `Lists.List.Empty` | list.h:298-300 | true exactly if there is no element |
| `Lists.List.Purge` | list.h:302-310 | empty again |
| `BidirList.List.constructor` | bidir_list.h:75-89 | empty |
| `BidirList.List.Link` | bidir_list.h:91-92 | the next element in either direction, or null |
| `BidirList.List.Start` | bidir_list.h:108-111 | the first element in either direction, or null |
| `BidirList.List.Empty` | bidir_list.h:198-200 | true exactly if there is no element |
| `BidirList.List.Purge` | bidir_list.h:202-204 | empty again |
| `BidirList.List.Insert` | bidir_list.h:113-127 | the same function of the sequence seen in either direction; both chains of links and both heads stay right |
| `BidirList.List.Remove` | bidir_list.h:139-157 | takes out the element, also at either end and as the last one |
| `BidirList.List.Push` | bidir_list.h:162-176 | puts an element at the front as seen in the given direction |
| `BidirList.List.Pop` | bidir_list.h:181-196 | takes the front as seen in the given direction and returns it |
| `BidirList.List.LinksInverse` | bidir_list.h:66-92 | the links between two neighbours are inverse to each other |
| `HashTable.Table.constructor` | hash_table.h:50-59 | over empty buckets the table is empty |
| `HashTable.Table.Search` | hash_table.h:101-113 | what the map holds for the key, or null |
| `HashTable.Table.Insert` | hash_table.h:96-99 | the map with the new key; the element is first in its bucket |
| `HashTable.Table.FindSpot` | hash_table.h:119-127 | the element with the key and the one before it in its bucket |
| `HashTable.Table.RemoveKey` | hash_table.h:115-138 | the map without the key; returns what it held, or null and no change |
| `HashTable.Table.Remove` | hash_table.h:140 | the map without the element's key |
| `HashTable.Table.Purge` | hash_table.h:142-147 | the empty map |
| `HashTable.FlatIsTable` | hash_table.h:61-62 | the buckets together hold exactly the elements of the map, each once and in the bucket of its hash value |
| `HashTable.FromWithout` | hash_table.h:149-150 | removing an element other than the current one takes just that one out of what an iteration has still to come to |
| `HashTable.Iter.constructor` | hash_table.h:158-168 | at the first element, or past the end; the index starts one below 0 and wraps |
| `HashTable.Iter.FindNext` | hash_table.h:199-205 | skips empty buckets |
| `HashTable.Iter.Next` | hash_table.h:194-206 | goes on to exactly the rest of what was to come; past the end the index counts on, and the iteration begins again only when it wraps |
| `HashTable.Visit` | hash_table.h:149-207 | a full iteration yields every element of the map exactly once |
| `HashTable.VisitRemoving` | hash_table.h:149-207 | if other elements than the current one are removed meanwhile, every element not removed is still yielded, and none twice; what the plan says is to be removed at an element is gone afterwards unless it is that element, and only what the plan of some element visited names is gone |
| `ModulusHash.CoeffRight` | modulus_hash.h:72-101 | each coefficient is 2^(s*i) modulo M, and the products it is made of fit |
| `ModulusHash.FullHash` | modulus_hash.h:142-149 | `val` is the number that the key stands for, modulo M |
| `ModulusHash.PartialHash` | modulus_hash.h:156-170 | the partial form hashes the lowest-numbered segments; a count of zero, or of more than there are, hashes all |
| `ModulusHash.PartialIsPrefix` | modulus_hash.h:156-170 | with a count from one to the number of segments the partial form, exact or fast, gives just what the full form gives for the key made of that many lowest-numbered segments |
| `ModulusHash.PartialIsWhole` | modulus_hash.h:156-170 | with a count of zero, or of more than there are, it gives what the full form gives for the whole key |
| `ModulusHash.MatchesHeader` | modulus_hash.h:24-41 | the code equals the recursion given in the header, which runs in the other order |
| `ModulusHash.NoOverflow` | modulus_hash.h:60-62 | with products one bit wider than modulus and segment together no intermediate value of `val` or of the coefficients overflows, not even as a signed number |
| `ModulusHash.FastHash` | modulus_hash.h:37-41 | for every key and modulus: the fast form agrees if and only if the odd part of the modulus divides the number of times that its sum wraps |
| `ModulusHash.FastPartialHash` | modulus_hash.h:190-205 | the same for the partial fast form |
| `ModulusHash.FastHashFits` | modulus_hash.h:252-263 | for any modulus: if the whole sum fits, the fast form agrees, and all its intermediate sums are as without a limit |
| `ModulusHash.FastPartialHashFits` | modulus_hash.h:265-279 | the same for the partial fast form |
| `ModulusHash.FastHashExact` | modulus_hash.h:252-263 | with room for the segments (for an odd modulus: their number times 2^s fits) the fast form agrees if and only if the sum fits, which is the condition the header gives |
| `ModulusHash.FastPartialHashExact` | modulus_hash.h:265-279 | the same for the partial fast form |
| `ModulusHash.RoomForAll` | modulus_hash.h:252-255 | the sum of every key fits if the width has room for as many products as there are segments |
| `ModulusHash.FastHashFails` | modulus_hash.h:37-41 | with the least width that the exact form needs the fast form may give another value: products of 8 bits, six segments of 5 bits, modulus 3 |
| `ModulusHash.FastHashByChance` | modulus_hash.h:37-41 | without room for the segments it may give the right value although its sum wraps: seventeen such segments |
| `Crc32.TableRight` | crc32.cpp:73-117 | each of the 256 constants is eight steps of the shift register on its index |
| `Crc32.NextIsEightSteps` | crc32.h:38-41 | one step through the table is eight steps of the bit-at-a-time register with polynomial 0xEDB88320, lowest bit of the byte first |
| `Crc32.FinalIsIdentity` | crc32.h:43 | the final step changes nothing |
| `Crc32.Crc` | crc32.cpp:121-130 | the loop computes the register fed with all the bits of the bytes |
| `Crc32.Pieces` | crc32.h:45 | the value of two pieces is that of the second started from that of the first |
| `Crc32.RegisterReversible` | crc32.cpp:14-24 | different registers stay different whatever bits follow |
| `Crc32.BurstDetected` | crc32.cpp:14-24 | two byte strings that differ only within 32 bits in a row never have the same value |

## Left out

- `read_error` and the `access` parameter of the AVL tree: nodes are in memory, and reading them never fails.
- The packed balance factor of avl_ex2.cpp: its `set_balance_factor` does not clear the sign when a factor goes from -1 to 1; the model's fields hold what was last stored.
- The test of the sign bit of `cmp ^ target_cmp` (avl_tree.h:186, avl_tree.h:836): comparisons are integers here and the test is whether both are negative or both not.
- Wrap-around of the `size` type in `build`: the sizes are those of subtrees and so never more than the number of nodes.
- AvlTreeModel.AvlTree.Insert: requires a depth of at most max_depth, as the bit set does; `AvlTreeModel.AvlTree.FewEnough` gives the number of nodes for which that holds.
- AvlIter.Iter.Next: speaks of a tree that is not changed meanwhile, except at nodes already passed.
- Fairness and priority of writers in the mutex, and that a sleeping writer is woken up; the latter does not hold (`MutexRuns.LostWakeUp`).
- Calls that a client may not make: the asserts on `status_count` are part of what a client of the mutex does, which holds the lock at most once and releases what it holds.
- A standard shared mutex may keep new readers waiting while a writer waits; in the model readers of the list wait only for its writer.
- `ru_shared_mutex::data::~data` (static destruction), cache-line alignment, thread-local storage and the hooks of the unit test.
- CircQueLockFree.PeekRight: with room for more than 2^31 elements look-ahead is right only as far as the sum of indices does not wrap (`CircQue.LookAheadExact`).
- Construction and destruction of elements in the circular queue, and blocking specialisations, of which there is none in the repository.
- CircQue.Queue.Push: requires room in the queue, and Pop an element, as the source warns; `CircQue.Corruption` says what happens otherwise.
- HashTable.Table.Insert: requires a key that is not in the table and an element that is in no list, as the source does.
- Self-links of detached elements in the bidirectional list (bidir_list.h:94-102), which are those of the list.
- Templates, forwarding constructors, `static_error_at_line` and the pointer casts of util.h; FNV hash, speed tests, test drivers and the shell script are not modelled.
- shared_mutex.txt: an early sketch; the model is of the shipped code.
