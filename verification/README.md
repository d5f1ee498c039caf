# Persistent-memory allocator, tree, B-tree, hash table and log: models and proofs

This project models the data structures of this repository in Dafny and proves what they promise,
above all what a power failure can leave of them.

**Memory and crashes.** Persistent memory is an array of 8-byte words. A program stores words and
persists ranges; a persist makes whole 64-byte lines durable, as the fault-injection build of libpmem
does. A power failure may come between any two of these; every word then has the value last made
durable or any value stored since, each word on its own. `PersistentMemory.Pmem` is the mapping with its
private copy and its file, and keeps the set of values each word may have after a failure.

**The allocator** (`Allocator.Pool`) is written word by word and persist by persist, on the memory that
it changes in place. Each call is proved to issue exactly the instruction list that the crash theorems
are about. What a restarted program sees of a pool file is its *view*: the allocated clumps and the words
in them and in the static area, after recovery. The theorems say which views a cut of each call can leave.
`Runs` puts calls, failures anywhere in them, and restarts that may fail again into whole runs.

**The word-count tree** (`WordCounts.WordTree`) is a client of the allocator: it reserves, fills and
activates nodes, bumps counts, and takes the tree down. `WordPrograms` writes each of its calls as the list
of stores and persists it makes of the memory it finds, and the code is proved to issue just these. In
`WordRuns` they make whole runs, with failures between any two instructions: as long as no insertion takes
memory at the header of a clump that has been merged away, every state holds a search tree and no other
allocation. `StaleTrees` proves that the first insertion that does take such memory loses the tree, and
gives a run with one.

**The B-tree** (`BTrees.BTree`) keeps its nodes in memory, with key and child arrays that are shifted in
place; **the hash table** (`HashTables.HashTable`, `HashIterators.Iterator`) keeps its chains in linked
entries; **the append log** (`LogPool.Log`) uses the same crash model as the allocator.

## What the code does not promise

These properties hold of the code only under a condition. Each is proved to hold exactly then, or a
concrete input shows the failure.

- Deleting from the B-tree gives back what was stored, and loses nothing, exactly if the search for the key
  does not meet case 2c with another object that compares equal: case 2c stores the search key itself
  (`BTreeSwaps.Swaps`, decided on the tree before the call; `BTrees.DeleteCanLose` is an input).
- Activating a clump, and freeing one, is all or nothing exactly if entries of its list with the same
  destination store the same value (`TornLists.WholeIffConsistent`, `TornLists.FreeWholeIffConsistent`).
- After a free the search cursor still is a clump exactly if that clump was not merged into a free
  neighbour below it. Otherwise a reservation that starts there succeeds and no walk over the pool finds it
  (`StaleCursor.FreeKeeps`, `StaleCursor.RecordedIffKept`).
- So tree_insert after tree_free in one process can lose the tree: the new node lies inside a free clump, and
  the root names no clump. An insertion leaves a tree exactly if it bumps a count, finds no room, or takes a
  clump of the chain (`StaleTrees.InsertExact`, `StaleTrees.RunExact`); right after a whole tree has been
  freed, exactly if the cursor is the first clump or there is no room (`StaleTrees.InsertAfterFree`). Opening
  a new pool, inserting two words, tree_free and a third word in one process is such a run
  (`StaleTrees.StaleRun`). Processes that do not insert after tree_free are safe (`WordRuns.FreshRun`).
- A power failure between registering the store that unlinks a tree node and freeing its clump leaves an
  entry in the clump's list that nothing removes; after three at the same node tree_free stops there. It
  completes exactly if no node's list is full (`WordCounts.WordTree.Free`, `WordRuns.CrashFillsList`).
- The consistency walk complains about such lists, and about the list of a reserved clump that was freed
  (`Checking.OnFreeLeavesList`, `Checking.ReleaseLeavesList`).
- A request for so many bytes that rounding up wraps around 64 bits gets too small a clump
  (`Reserving.ClumpBytesEnough`).
- The sum of the lengths given to appendv wraps around 64 bits; its check then decides as append's would
  exactly if the wrapped sum does not fit either (`LogPool.SumDecides`).
- Walking a log delivers its chunks and ends exactly if the step past the last chunk fits into 64 bits or
  the callback stops the walk before it (`LogPool.WalkDelivers`).
- The load limit of the hash table is 65 in 100 of the buckets, rounded up, exactly for tables of less than
  2^23 buckets: the float 0.65 is a little less than that (`HashTables.LimitPercent`).
- The halving logarithm is right for all arguments of a width exactly if half the bit count, rounded up, is a
  power of two (`BitLog.HalvingExact`, `BitLog.HalvingWrong`).

## Model

| member | source | states |
|---|---|---|
| `PersistentMemory.Pmem.Flush` | libpmem/pmem_fit.c:100-124 | the lines that cover the range, and no others, get the memory's contents in the file; the file stays one of the images a failure may leave |
| `PersistentMemory.Pmem.Write` | libpmem/pmem_fit.c:68-79 | a store changes one word of the private copy; after a failure that word may have the new value or any it could have before |
| `PersistentMemory.PersistShrinks` | LINUX_PMEM_API.txt:180-188 | a persist adds no image to those a failure may leave |
| `CrashSafety.GuardedEverywhere` | LINUX_PMEM_API.txt:180-188 | a program is guarded exactly in the sense that every image left by a cut after any number of its instructions is a good one |
| `CrashSafety.Flip` | LINUX_PMEM_API.txt:180-188 | one store and its persist: a failure shows the old view or the new one, afterwards the new one |
| `PoolImage.ChainUnique` | libpmemalloc/pmemalloc.c:115-171 | an image has at most one chain of clumps that tiles it, the one found by walking from the first header |
| `Activation.ActivateAtomic` | libpmemalloc/pmemalloc.c:660-707 | a failure anywhere in an activation shows the view before the call or the view with the clump allocated, all of its payload durable and all registered stores done |
| `Activation.CommitWhole` | libpmemalloc/pmemalloc.c:681-706 | from the deciding size word on, a failure shows the old view or the final one, for activating and for freeing; afterwards the pool is quiet again |
| `Activation.CommitEffect` | libpmemalloc/pmemalloc.c:690-706 | running and clearing the list leaves every word as the list says and the clump in its settled state |
| `Allocator.Pool.Activate` | libpmemalloc/pmemalloc.c:660-707 | the code issues exactly the instructions of the atomicity theorem; the list is replayed, the clump ACTIVE with an empty list, other headers as before |
| `TornLists.WholeIffConsistent` | libpmemalloc/pmemalloc.c:699-704 | activation is all or nothing under every cut exactly if entries with the same destination store the same value |
| `TornLists.FreeWholeIffConsistent` | libpmemalloc/pmemalloc.c:752-772 | the same for freeing an ACTIVE clump, up to the merging pass |
| `TornLists.CommitTears` | libpmemalloc/pmemalloc.c:702-703 | for a list that disagrees there is a cut and a surviving image with a destination word that the completed call never leaves |
| `Recovering.RecoverExact` | libpmemalloc/pmemalloc.c:107-174 | recovery, cut off anywhere and started again, ends in the same image word for word; every clump ends FREE or ACTIVE |
| `Recovering.RecoverAfterCuts` | libpmemalloc/pmemalloc.c:107-174 | any number of cut-off recoveries in a row leaves an image from which recovery makes what one uninterrupted run makes |
| `RecoveryFacts.HeadersResolved` | libpmemalloc/pmemalloc.c:124-168 | what recovery makes of every header word: settled states, cleared lists of clumps that were in use or in transit, everything else unchanged |
| `RecoveryFacts.WordAfter` | libpmemalloc/pmemalloc.c:133-149 | what recovery makes of every word outside the headers: the value of the one unfinished list that names it, or the word itself |
| `Allocator.Pool.Recover` | libpmemalloc/pmemalloc.c:107-174 | the loop issues the instructions of the recovery theorem and computes the resolved image |
| `Calls.RestartAtomic` | libpmemalloc/pmemalloc.c:107-250 | opening a pool shows the same view under every cut; at the end every clump is FREE or ACTIVE and no two neighbours are free |
| `Allocator.Pool.Open` | libpmemalloc/pmemalloc.c:278-385 | opening a file runs recovery and merging as in that theorem and starts the search at the first clump |
| `Calls.NewPoolRecoverable` | libpmemalloc/pmemalloc.c:315-329 | the layout arithmetic of a new pool: header area, first clump, terminator and rounded-off bytes add up to the file size, nothing is allocated |
| `Coalescing.CoalescePass` | libpmemalloc/pmemalloc.c:186-250 | merging shows the same view under every cut, leaves no two free neighbours, keeps every clump in use and every free byte |
| `Coalescing.CoalesceIdempotent` | libpmemalloc/pmemalloc.c:186-250 | a second pass does nothing |
| `Coalescing.MergedTiled` | libpmemalloc/pmemalloc.c:216-249 | a merged run with its summed size is a tiling again |
| `Allocator.Pool.CoalesceFree` | libpmemalloc/pmemalloc.c:186-250 | the walk with its two remembered clumps issues exactly the stores of the pass |
| `Reserving.ClumpBytesEnough` | libpmemalloc/pmemalloc.c:451 | the rounded size holds the request and a header exactly if the sum does not wrap around 64 bits, and is less than 128 bytes larger |
| `Reserving.ReserveAtomic` | libpmemalloc/pmemalloc.c:480-532 | a reservation shows nothing under every cut, splits or takes the clump, and loses no bytes |
| `Reserving.ReservedRoom` | libpmemalloc/pmemalloc.c:474-538 | the reserved payload has the requested bytes, begins on a 64-byte boundary, and touches no header and no live payload |
| `Reserving.CarvedTakes` | libpmemalloc/pmemalloc.c:480-532 | that is what the stores of the split or of taking the whole clump leave in memory: size words, states, cleared lists and the new header |
| `Allocator.Pool.Reserve` | libpmemalloc/pmemalloc.c:448-543 | first fit from the cursor: the first clump at or after it that is FREE and large enough, or 0, with nothing changed, exactly if there is none; the cursor moves to it. It is cut to the rounded size exactly if at least 128 bytes are left over, which become a FREE clump with an empty list; otherwise it keeps its size |
| `Registering.RegisterAtomic` | libpmemalloc/pmemalloc.c:570-590 | registering a store shows nothing under every cut: the value is durable before the offset |
| `Registering.ReleaseAtomic` | libpmemalloc/pmemalloc.c:774-775 | giving back a reservation shows nothing |
| `Registering.FillAtomic` | binarytree/tree_orig.c:151-154 | a plain store into reserved memory shows nothing |
| `Registering.PokeAtomic` | binarytree/tree_orig.c:163-168 | a store into visible memory and its persist: the old value or the new one |
| `Allocator.Pool.OnActive` | libpmemalloc/pmemalloc.c:555-592 | the first empty entry takes the store; refused exactly if there is none, with nothing changed |
| `Allocator.Pool.OnFree` | libpmemalloc/pmemalloc.c:604-650 | the same for the moment an ACTIVE clump is freed |
| `Calls.FreeAtomic` | libpmemalloc/pmemalloc.c:717-788 | a failure anywhere in a free shows the clump allocated with none of its stores done, or gone with all of them done; merging included |
| `Allocator.Pool.Free` | libpmemalloc/pmemalloc.c:717-788 | the code issues those instructions; other clumps in use keep their headers, free neighbours are merged, and the cursor stays a clump exactly if it was not merged downwards |
| `Runs.StepSafe` | libpmemalloc/pmemalloc.c:107-174 | every step of a run keeps the pool recoverable; opening never changes the view, and a call that is cut off shows the view from before it or from after it |
| `Runs.RunSafe` | libpmemalloc/pmemalloc.c:107-788 | every state of every run of legal calls, failures and restarts is recoverable, with the file's size |
| `Runs.RunTiles` | libpmemalloc/pmemalloc.c:321-327 | in every run of legal calls the sizes of the clumps are positive multiples of 64 that add up to what the file has room for, and the states are legal |
| `Runs.RestartsAgree` | libpmemalloc/pmemalloc.c:107-174 | however often opening fails, the pool that finally opens shows what the first image shows |
| `Checking.Check` | libpmemalloc/pmemalloc.c:906-971 | over a tiled pool the walk ends at the last header with all bytes accounted for, and complains exactly about lists on FREE or ACTIVE clumps |
| `Checking.OnFreeLeavesList` | libpmemalloc/pmemalloc.c:604-650 | after a registration on an ACTIVE clump it complains, before and after recovery |
| `Checking.ReleaseLeavesList` | libpmemalloc/pmemalloc.c:774-775 | after freeing a reserved clump it complains exactly if its list was not empty or it complained before |
| `Checking.RecoveryEmptiesLists` | libpmemalloc/pmemalloc.c:124-168 | recovery changes nothing about what it complains about |
| `StaleCursor.FreeKeeps` | libpmemalloc/pmemalloc.c:186-250 | after a free a clump of the chain is still one exactly if it was not merged into a free neighbour below it |
| `StaleCursor.FreeLeaves` | libpmemalloc/pmemalloc.c:773-787 | a clump that is merged away leaves its header, still looking free, inside a free clump |
| `StaleCursor.StaleReservation` | libpmemalloc/pmemalloc.c:456-460 | a reservation that starts at such a header succeeds, and neither the chain nor the view records it |
| `StaleCursor.RecordedIffKept` | libpmemalloc/pmemalloc.c:448-543 | a reservation that starts where the cursor was before a free is in the chain exactly if the free did not merge that clump downwards |
| `Trails.TrailFreed` | libpmemalloc/pmemalloc.c:717-788 | headers left inside free clumps still lead to the chain after any further free, and neither they nor the clumps that stay have become smaller |
| `Leftovers.CallKeepsHeaders` | libpmemalloc/pmemalloc.c:448-788 | no call changes, under any cut, the header of an ACTIVE clump other than the one it works on |
| `Leftovers.ActivateBare` | libpmemalloc/pmemalloc.c:694-706 | no cut of an activation leaves the clump ACTIVE with a list that is not empty |
| `Leftovers.OnFreeClears` | libpmemalloc/pmemalloc.c:636-646 | registering a zero, cut off anywhere, leaves a list that can store nothing else |
| `Leftovers.FreeClears` | libpmemalloc/pmemalloc.c:752-772 | as long as a cut of a free leaves the clump ACTIVE, its list is as it was |
| `Leftovers.RestartHeaders` | libpmemalloc/pmemalloc.c:107-250 | opening, cut off anywhere, leads to the same headers of the live clumps |
| `ByteWords.CompareEqual` | binarytree/tree_orig.c:161 | strcmp gives 0 exactly for equal words, and swapping its arguments swaps the sign |
| `ByteWords.ComparePrecedes` | binarytree/tree_orig.c:161 | strcmp is negative exactly if the first word is a proper prefix of the second or has the smaller byte where they first differ |
| `ByteWords.DigitsAreBytes` | binarytree/tree_orig.c:161 | the bytes of a word in memory, the least significant first, make up the word |
| `WordTrees.GrownCounts` | binarytree/tree_orig.c:136-178 | inserting a word keeps the search order, bumps its count modulo 2^32 and touches no other count |
| `WordTrees.FindsEntries` | binarytree/tree_orig.c:142-177 | in a search tree the search ends at a node exactly if the word is there |
| `WordTrees.InOrderLists` | binarytree/tree_orig.c:198-214 | left subtree, node, right subtree: of a search tree this lists every word exactly once, with its count, in dictionary order |
| `WordTrees.GrewHolds` | binarytree/tree_orig.c:185-190 | after an insertion the pool shows the grown tree, and the allocated clumps are its nodes, each once |
| `WordTreeSteps.HungGrows` | binarytree/tree_orig.c:151-157 | activating the filled node turns the empty place into the new leaf |
| `WordCounts.WordTree.CompareText` | binarytree/tree_orig.c:161 | the byte-by-byte comparison with the text in memory is 0 exactly for the same word, negative exactly if the given word comes first in the dictionary, positive exactly if it comes second |
| `WordCounts.WordTree.InsertSubtree` | binarytree/tree_orig.c:135-178 | the recursion issues the instructions of the place where the search ends, which add a node or bump the count; it fails exactly for want of room, with nothing changed |
| `WordInserts.FitIs` | libpmemalloc/pmemalloc.c:474-541 | the search over size words finds the first fit of the chain, or nothing |
| `WordInserts.SubtreeGrown` | binarytree/tree_orig.c:135-178 | the instructions of the call, read off the memory alone, make the grown subtree of the subtree under every cut or not at all, wherever the search for memory starts, as long as it ends at a clump of the chain |
| `WordCounts.WordTree.Insert` | binarytree/tree_orig.c:185-190 | the call issues its instruction list; the count of the word goes up by one modulo 2^32, or it is new with count 1, and no other word, count or list changes; a new node gets a clump that holds header, node and text; all of it atomic, and the cursor is a clump again |
| `WordCounts.WordTree.Walk` | binarytree/tree_orig.c:198-225 | the walk yields every word of the tree once, with its count and no others, ascending in dictionary order |
| `WordCounts.WordTree.FreeNode` | binarytree/tree_orig.c:243-246 | unlinking and freeing a bare node: done under every cut or not at all, refused exactly if its list is full |
| `WordCounts.WordTree.FreeSubtree` | binarytree/tree_orig.c:232-248 | left, right, node, as in the instruction list: completes exactly if no list in the subtree is full; a cut leaves the tree with some subtrees gone, the right part touched only after the left one is gone, the node after both |
| `WordFrees.ClumpsLeft` | libpmemalloc/pmemalloc.c:717-788 | a free makes no new clump, and those of before are clumps afterwards exactly if it does not merge them downwards |
| `WordFrees.TreeFreed` | binarytree/tree_orig.c:232-248 | the instructions of the call, read off the memory alone, take the subtree down, all of it exactly if no list is full; every cut leaves some subtrees gone, and no clump is left reserved |
| `WordCounts.WordTree.Free` | binarytree/tree_orig.c:254-259 | the whole tree goes, and all its memory, exactly if no list is full, otherwise a tree of the remaining nodes is left; the cursor is a clump afterwards exactly if it was one and no free merged it downwards, and, when a tree that is not empty is gone, exactly if it is the first clump |
| `WordCounts.WordTree.Init` | binarytree/tree_orig.c:80-87 | opening the pool of a tree gives back that tree, with a cursor that is a clump |
| `TakingDown.CutListed` | binarytree/tree_orig.c:232-248 | what is left after part of a tree is gone can be taken down further |
| `TakingDown.FreeingCuts` | libpmemalloc/pmemalloc.c:717-788 | a cut of freeing a bare node shows the node with its list clearing only its own place, or the node gone and the place empty |
| `TakingDown.GrownMarks` | binarytree/tree_orig.c:135-178 | after an insertion every list still can only clear the place of its own node, and no more entries are used |
| `Pruning.PrunesOrdered` | binarytree/tree_orig.c:232-248 | a tree with subtrees gone, left before right before the node itself, is a search tree, and the words left keep their counts |
| `WordRuns.InsertAllOrNothing` | README:238-244 | a failure between any two instructions of an insertion leaves a file that holds the old tree or the grown one, and no other allocation |
| `WordRuns.FreeLeavesTree` | binarytree/tree_orig.c:232-259 | a failure between any two instructions of taking the tree down leaves a search tree of some of its nodes, counts unchanged, and no other allocation |
| `WordRuns.OpeningLeavesTree` | libpmemalloc/pmemalloc.c:107-250 | a failure while the pool is opened leaves the same tree |
| `WordRuns.NewPoolMarked` | libpmemalloc/pmemalloc.c:315-329 | a new pool holds the empty tree |
| `WordRuns.PlantedUnique` | binarytree/tree_orig.c:58-70 | memory and root decide the tree |
| `WordRuns.CrashFillsList` | binarytree/tree_orig.c:243-246 | a failure between registering the unlinking store and the free leaves one more entry in the list after recovery |
| `WordRuns.RunHolds` | README:238-244 | in every run of insertions, tree_free, failures at any instruction and restarts from a new pool in which no insertion takes memory at a header that is no clump, every state holds one search tree and nothing else; trees and cursors change as the calls say |
| `WordRuns.FreshRun` | README:238-244 | runs in which no process inserts after tree_free are such runs |
| `SmallRuns.TwoWords` | binarytree/tree_orig.c:58-70 | a new pool after two words of one letter, in numbers: root pointer, size words, and in each node the pointers, the 4-byte count and the letter with its NUL; the smaller word hangs on the left |
| `StaleTrees.InsertExact` | binarytree/tree_orig.c:185-190 | from a cursor that may be stale: after the insertion the pool holds a tree and nothing else exactly if a count was bumped, no room was found, or a clump of the chain was taken |
| `StaleTrees.RunExact` | binarytree/tree_orig.c:185-190 | in a run whose earlier insertions took clumps of the chain the next insertion leaves a tree exactly if it takes none but a clump of the chain |
| `StaleTrees.InsertAfterFree` | libpmemalloc/pmemalloc.c:456-460 | after a whole tree has been freed an insertion leaves a tree exactly if the cursor is the first clump or there is no room; there is room for every word that would have fitted into the cursor's clump |
| `StaleTrees.StaleRun` | libpmemalloc/pmemalloc.c:456-460 | a new pool, two words, tree_free, a third word in one process: every state but the last holds a tree, the last holds none |
| `BitLog.HalvingExact` | btree-1.0/bt_code.c:190-211 | the halving loop computes the logarithm for all arguments of that width exactly if half the bit count, rounded up, is a power of two |
| `BitLog.RealLog2` | btree-1.0/bt_code.c:190-211 | for a power of two of bits and an argument in range the loop returns the integer logarithm |
| `BitLog.LogTable.Log2` | btree-1.0/bt_code.c:220-238 | the table answers with the logarithm, grows when asked for more, and stays correct for every tree that shares it |
| `BitLog.LogTable.NodeBits` | btree-1.0/bt_code.c:441-444 | the bit count of a tree is a power of two, larger than the number of bits of a node's key count and at most twice that |
| `KeySearch.FreshBit` | btree-1.0/bt_code.c:263-271 | the or of the search always adds a bit that is not yet there |
| `KeySearch.FindByBits` | btree-1.0/bt_code.c:246-275 | the bit-stepping search finds the last key that is at most k, and the sign of the comparison with it |
| `KeySearch.FindFromEnd` | btree-1.0/bt_code.c:277-296 | so does the linear search |
| `KeySearch.SearchesAgree` | btree-1.0/bt_code.c:246-296 | index and comparison of the two agree |
| `BTrees.LayoutFits` | btree-1.0/bt_code.c:404-445 | keys and child addresses tile the node, the node fits the size asked for, and one of two more keys would not |
| `BTrees.BTree.Create` | btree-1.0/bt_code.c:404-469 | an empty tree of the largest degree that fits |
| `BTrees.BTree.SplitChild` | btree-1.0/bt_code.c:471-526 | the full child becomes two nodes with its middle key between them, in the same order and shape |
| `BTrees.BTree.InsertNonFull` | btree-1.0/bt_code.c:573-600 | one more item in order below a node that is not full; only such nodes are entered |
| `BTrees.BTree.Insert` | btree-1.0/bt_code.c:528-571 | the in-order items gain exactly one occurrence of k, sorted with duplicates; every leaf stays equally deep, every node legally filled, and the tree grows by a level exactly if the root was full |
| `BTreeOrder.InsertedCount` | btree-1.0/bt_code.c:528-571 | that is one more in the multiset |
| `BTrees.BTree.Fatten` | btree-1.0/bt_code.c:783-877 | cases 3a and 3b: the child to enter has at least t keys, and the tree holds the same items in the same order; a sibling lends a key if it has t of them, and only otherwise two children are merged |
| `BTrees.BTree.DeleteHere` | btree-1.0/bt_code.c:694-767 | cases 2a to 2c: one item that compares equal goes, replaced by its predecessor if the child before it has t keys, else by its successor if the child behind it has; whether the search key takes its place is told beforehand |
| `BTrees.BTree.NodeDelete` | btree-1.0/bt_code.c:638-878 | one item goes, that found, the last or the first; shape and order stay, nodes entered have t keys or are the root |
| `BTrees.BTree.Delete` | btree-1.0/bt_code.c:602-628 | what is returned and what is left make up what was there exactly if the search does not meet case 2c with another object; shape, order and root shrinking are kept |
| `BTreeSwaps.SwapsWidened` | btree-1.0/bt_code.c:778-877 | giving the child a key or merging it with a sibling does not change what the search meets |
| `BTreeOrder.RemovedExactly` | btree-1.0/bt_code.c:638-878 | the multiset loses exactly the returned item if and only if the search key took no other object's place |
| `BTreeOrder.RemovedRanks` | btree-1.0/bt_code.c:638-878 | as far as the comparison can tell, exactly one occurrence goes in every case |
| `BTrees.DeleteCanLose` | btree-1.0/bt_code.c:746 | an input for which the search key comes back and the stored object is lost |
| `BTreeCheck.Find` | btree-1.0/bt_code.c:921-946 | finds an item that compares equal exactly if there is one |
| `BTreeCheck.FindMax` | btree-1.0/bt_code.c:891-910 | the last item in order |
| `BTreeCheck.FindMin` | btree-1.0/bt_code.c:897-919 | the first item in order |
| `BTreeCheck.TreeHeight` | btree-1.0/bt_output.c:138-153 | the number of levels |
| `BTreeCheck.TreeHolds` | btree-1.0/bt_output.c:138-153 | a tree that is not empty with h levels below the root holds at least 2 t^h - 1 items |
| `BTreeCheck.CheckNode` | btree-1.0/bt_output.c:91-136 | answers 1 exactly if lower bound, items in order and upper bound are strictly increasing |
| `BTreeCheck.CheckTree` | btree-1.0/bt_output.c:85-136 | the same for any non-empty tree of legal shape, sorted or not |
| `HashTables.CreateTable` | c-hashtable/hashtable_powers.c:13-35 | an empty table of the least power of two of buckets; none exactly if more than 2^31 are asked for |
| `HashTables.LimitPercent` | c-hashtable/hashtable_powers.c:10-33 | the load limit, rounded up from the float nearest to 0.65, is 65 in 100 rounded up exactly for tables of less than 2^23 buckets |
| `HashTables.HashTable.Expand` | c-hashtable/hashtable_powers.c:52-109 | the table doubles, by copying or in place, keeping all entries, each in its bucket; refused exactly at the size limit or without memory |
| `HashTables.HashTable.CopyRehash` | c-hashtable/hashtable_powers.c:61-79 | the new buckets hold what belongs there, in reversed order of the walk over the old ones |
| `HashTables.HashTable.SpreadRehash` | c-hashtable/hashtable_powers.c:80-105 | in place: entries that stay keep their order, those that move come out reversed |
| `Rehashing.CopyOrder` | c-hashtable/hashtable_powers.c:61-79 | entries that share an old and a new bucket all come from one old bucket, in its order, before the reversal |
| `HashTables.ExpansionsAgree` | c-hashtable/hashtable_powers.c:52-109 | both ways leave every bucket with the same entries |
| `HashTables.HashTable.Insert` | c-hashtable/hashtable_powers.c:119-142 | one more entry, at the head of its bucket; the others keep key and value, and the count goes up by one. The table doubles first exactly if the new count is above the load limit, there are fewer than 2^31 buckets and memory is to be had; otherwise buckets and limit stay |
| `HashTables.HashTable.Search` | c-hashtable/hashtable_powers.c:145-160 | the value of the first entry of its bucket with the key; none exactly if no entry of the table has it |
| `HashTables.HashTable.Remove` | c-hashtable/hashtable_powers.c:163-191 | takes out the first entry of its bucket with the key and returns its value; nothing changes if there is none |
| `HashTables.LookupMeans` | c-hashtable/hashtable_powers.c:145-160 | an entry for a key can only be in the bucket of its hash |
| `HashIterators.Iterator.Start` | c-hashtable/hashtable_itr.c:11-35 | starts before all entries of the table, each once |
| `HashIterators.Iterator.Advance` | c-hashtable/hashtable_itr.c:57-92 | goes on by one entry, and says whether there is one |
| `HashIterators.Iterator.Remove` | c-hashtable/hashtable_itr.c:102-137 | removes exactly the current entry, leaves the others to come and the links right for the next removal |
| `HashIterators.Iterator.Seek` | c-hashtable/hashtable_itr.c:140-170 | stands at the first entry of its bucket with the key exactly if there is one, and otherwise stays |
| `HashIterators.Iterator.VisitAll` | c-hashtable/hashtable_itr.c:57-92 | a walk visits every entry exactly once |
| `HashIterators.Iterator.RemoveAll` | c-hashtable/hashtable_itr.c:102-137 | removing from a fresh iterator until its end leaves an empty table with count 0 |
| `AppendLog.CopyHidden` | libpmem/log.c:364-372 | copying data behind the write offset shows nothing under any cut |
| `AppendLog.MoveAtomic` | libpmem/log.c:310-316 | storing and persisting the write offset: the old contents or the new ones |
| `AppendLog.CallAtomic` | libpmem/log.c:288-523 | a failure anywhere in append, appendv or rewind leaves the contents from before or from after the call |
| `AppendLog.CrashDecided` | libpmem/log.c:288-523 | whatever a failure leaves is one of the two |
| `AppendLog.RunHolds` | libpmem/log.c:288-523 | in every run with failures at any store the log is the concatenation of what was appended since the last rewind, each append counting wholly or not at all: a completed one exactly if the log was not full and the data fit into what was left, filling it to the end included |
| `AppendLog.CopyConcat` | libpmem/log.c:440-452 | copying piece after piece issues the stores of copying the concatenation |
| `LogPool.Log.Append` | libpmem/log.c:325-385 | appends all data exactly if the log is writable, not full, and the data fit into what is left, filling it to the end included; otherwise nothing changes |
| `LogPool.Log.AppendV` | libpmem/log.c:390-466 | does what one append of the concatenation does, errors included |
| `LogPool.SumDecides` | libpmem/log.c:424-437 | the room check on the wrapped sum decides as one on the sum would exactly if the sum does not wrap or the wrapped one does not fit |
| `LogPool.Log.Rewind` | libpmem/log.c:493-523 | empties the log |
| `LogPool.Log.Tell` | libpmem/log.c:471-488 | the number of bytes in the log |
| `LogPool.Log.Walk` | libpmem/log.c:531-572 | delivers the chunks of the contents in order, ending at the last one or at the first after which the callback asks for no more |
| `LogPool.ChunksInOrder` | libpmem/log.c:556-566 | the chunks joined are a prefix of the contents, and all of them unless the callback stopped |
| `LogPool.ChunkSizes` | libpmem/log.c:556-566 | no chunk is empty or larger than the chunk size, all but the last have just that size, and the callback has asked for more after each of them |
| `LogPool.WalkDelivers` | libpmem/log.c:556-566 | the loop with its 64-bit offset ends with just those chunks exactly if the step past the last one fits or the callback stops before it |

## Left out

- Pool creation: the file is taken as it is once the first clump and the pool header are written; a failure while it is being created is not modelled.
- Files whose size is not a multiple of 64: the bytes behind the last whole chunk are never touched and are not part of the image.
- Opening, mapping, locking, checksums, uuids and byte order of pools and logs; `struct pool_hdr` is declared in a file that is not part of this model, so the position of the log's offsets is a parameter of `AppendLog`.
- The flags `_NODATAPERSIST` and `_NOPERSIST`, the epoch timer and the instruction counter: they give up durability on purpose.
- C library copies: `memcpy` is a loop over bytes in the log, `memmove` a function on the arrays of the B-tree, and `memset` and `strcpy` are word stores; a copy cut off within a word is not modelled.
- Allocator.Pool.Reserve: requires that rounding up does not wrap around and that the search starts at a clump of the chain; `Reserving.ClumpBytesEnough` and `StaleCursor.RecordedIffKept` say what happens otherwise.
- Allocator.Pool.Activate: requires a list whose entries agree; `TornLists` says what happens otherwise.
- Allocator.Pool.Free: requires a list whose entries agree; `TornLists` says what happens otherwise.
- Runs.RunSafe: a reservation that starts at a clump merged away is no step of a run; `StaleCursor.StaleReservation` shows that it leaves the pool quiet and is recorded nowhere.
- Runs.RunTiles: the same.
- Checking.OnFreeLeavesList: the lemmas of `Checking` are about single steps; in which runs the walk stays silent is not stated.
- Checking.Check: takes a file whose clumps tile the pool; the endless loop on a damaged size below 64 is not modelled.
- WordCounts.WordTree.Insert: requires a cursor that is a clump, so the code is proved to issue its instruction list from there only; `StaleTrees.InsertExact` is about the same list from every other cursor that calls leave.
- WordCounts.WordTree.InsertSubtree: the same.
- Calls that end the process (no room for a node, a full list) return in the model, with the memory as they leave it; the process may go on or the pool be opened again.
- StaleTrees.RunExact: goes up to the first insertion that loses the tree; what later calls make of such a pool is not modelled.
- Crash atomicity of the B-tree: its persists are not ordered for it, so the model is of its effect in memory alone.
- The 15-bit field `n` of a B-tree node: counts are unbounded, nodes of more than 32767 keys are not excluded.
- Freed B-tree nodes and hash entries leave the heap at once; use after free and failures of malloc other than the ones given as parameters are not modelled.
- The statistics `numkeys` and `numnodes` of the B-tree, which deletion does not maintain.
- BTrees.BTree.Delete: requires that an item comparing equal to the key is present; the source disclaims the other case.
- BitLog.LogTable.Log2: requires an argument different from the table's length, for which the source reads past the end; node sizes are odd and tables even, which keeps it from happening in the B-tree.
- HashTables.HashTable.Insert: the key mixing of `hash` is any function, and memory that is not to be had is a parameter.
- Comparators and key equality given as function arguments: items carry their place in the order and the object they are.
- LogPool.Log.Walk: requires that the step past the last chunk fits into 64 bits or the callback stops first; `LogPool.WalkDelivers` says that this is exactly when the loop ends with the chunks.
- LogPool.Log.AppendV: requires that the wrapped sum of the lengths tells whether the data fit; `LogPool.SumDecides` says that this is exactly when its check is right.
- Programs, testers, printing and dumping; the other variants of the tree, the B-tree and the hash table.
