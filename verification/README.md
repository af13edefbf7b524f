# UnoDB: a verified model

This project models the four load-bearing parts of UnoDB in Dafny and proves what they are for.

**Reclamation (QSBR).** `QsbrProtocol` is the epoch protocol of `qsbr.cpp` and `qsbr.hpp` as a state machine: any
number of threads, every atomic load, exchange, compare-and-swap and fetch_sub a step of its own, thread-local work
between two of them one step. Epochs are unbounded history values that the model's code sees modulo four only. Every
thread carries the set of pointers it may still hold; it may pick up any linked object at any time, and must hold
nothing when it enters `quiescent()` or leaves. `QsbrInvariant` and `QsbrSteps` hold the invariant and one lemma per
step, `QsbrSafety` the results over all runs, `QsbrCalls` what a whole call does whatever the others do meanwhile,
`QsbrHandling` what becomes of orphans while they are handled, `QsbrProgress` what each atomic operation decides and
that no thread is ever stuck, `QsbrAlone` that undisturbed calls return, `QsbrOrphans` the safety of orphaned requests,
`QsbrHazard` two concrete runs in which it fails, `QsbrWord` the packed word, `QsbrPerThread` the per-thread object.

**The sequential tree.** `ArtTree` gives nodes, the invariant, lookup, insert and remove as functions. `ArtUpdate`,
`ArtCanonical`, `ArtOrder` and `ArtStats` prove what these make of the stored map, that the tree is determined by the
map, that its entries come in key order, and that every counter is exact; `ArtMemory` and `ArtNearest` say what the
counters are in terms of the stored keys and values alone. `ArtDb` is the object with its loops and counters,
`ArtHistory` whole histories of operations. `ArtPath`, `ArtSeek`, `ArtScan` and `ArtIterator` are the stack
iterator, its seek and the scans. `NodeLayouts` has the four array layouts and all six conversions, `KeyPrefix` the
64-bit packed prefix; `ArtLayouts` and `ArtPrefix` prove that what the tree does to its child lists and prefix bytes is
what these do to their arrays and words.

**Concurrent get and insert.** `OptimisticLock` is the lock word with its readers and writers, `LockSections` whole
critical sections of it. The `Olc` modules are
the lock-coupled descent over a changing heap: heap and search (`OlcHeap`), the four writes that commit an insert
(`OlcCommit`), the state machine (`OlcProtocol`), invariant and steps (`OlcInvariant`, `OlcSteps`), the results over all
runs (`OlcSafety`), the layouts of the nodes (`OlcCapacity`), the locks held (`OlcLocks`), calls that nobody disturbs
(`OlcAlone`), and the proof that the concurrent tree is the sequential one (`OlcTree`).

**Key codec.** `FloatCodec` is the sort key of floating-point bit patterns for any IEEE 754 width, `KeyCodec` the bytes
of composite keys and their order, `KeyBuffers` the growing encoder and the decoder.

`dafny verify dfyconfig.toml` checks everything.

## Results that are negative

Four places of the code decide how far a theorem goes. They are modelled as written.

* `unregister_thread` handles the orphan lists before its compare-and-swap and may then not advance the epoch
  (qsbr.cpp:333-349). `QsbrHazard.RotationWithoutAdvance` and `QsbrHazard.StaleSingleThreadMode` are complete runs of
  the protocol that end with an orphan freed while a reader holds it. `QsbrOrphans.OrphanSafety` proves all frees safe
  in every run in which no thread's registration takes effect between an advancing leaver's load and its
  compare-and-swap; every other interleaving in that window is allowed, so runs in which that stretch of
  `unregister_thread` is one step are included.
* The unwind loop of `seek` (art.hpp:1282-1295, 1312-1325) pops the parent unexamined and descends a child it has
  already visited. `ArtIterator.Iterator.Seek` proves that the declared contract (art.hpp:231-249) holds if and only if
  the guard `Stranded` is false, `ArtSeek.StrandedExample` gives a tree of three keys on which it is true.
* `encode_text` (art_common.hpp:471-488) neither keeps the order of texts with pad bytes inside nor keeps their codes
  prefix-free. `KeyCodec.TextOrder` says for exactly which pairs, `KeyCodec.MisorderedTexts` and
  `KeyCodec.PrefixOfAnotherCode` are concrete pairs.
* Concurrent removal rewrites the surviving node's prefix without that node's lock (art_internal_impl.hpp:1473-1477,
  called from olc_art.hpp:1558-1574). The concurrent results are about get and insert only.

Two comments disagree with their code: qsbr.hpp:177-181 gives the greatest thread count as 2^29-1 where the constant is
2^30-1, and art_internal_impl.hpp:164-166 describes the sign of `basic_leaf::cmp` the other way round. The model follows
the code.

## Model

| member | source | states |
|---|---|---|
| QsbrSafety.GracePeriod | qsbr.hpp:1267-1441 | in every run, a pointer freed at once or from a thread's own list is held by no thread |
| QsbrSafety.Accounting | qsbr.cpp:235-331 | in every reachable state the word counts exactly the registered threads and those still owing a quiescent state |
| QsbrSafety.ZeroMeansChange | qsbr.cpp:258-281 | with threads registered, the previous-epoch count is zero if and only if a thread is changing the epoch |
| QsbrSafety.ExclusiveHandler | qsbr.cpp:463-499 | at most one thread ever handles orphans, so the tail append never races another |
| QsbrSafety.WrapAroundExact | qsbr.hpp:83-161 | a registered thread's epochs lag the global one by at most one, and every two-bit comparison decides true equality |
| QsbrSafety.FreedOnTime | qsbr.hpp:1347-1385 | a request in a thread's own lists is freed exactly two epochs on, or one in single-thread mode |
| QsbrSafety.CountersNeverUnderflow | qsbr.cpp:295-309 | the asserts on the word: no counter is decremented at zero, and a leaver that finds zero has passed its quiescent state |
| QsbrSafety.Conservation | qsbr.cpp:164-232 | a submitted request is in exactly one container of the code, an unsubmitted pointer in none |
| QsbrSafety.FreedForGood | qsbr.hpp:1445-1465 | no step forgets a request or touches a freed one again |
| QsbrSafety.RunInv | qsbr.cpp:235-371 | the invariant holds in every state of every run |
| QsbrCalls.Deallocated | qsbr.hpp:1267-1325 | whatever other threads do meanwhile, the pointer is freed before the call returns if and only if fewer than two threads were registered at its load, else it is in the caller's current list; older requests move on with the epoch |
| QsbrCalls.QuiescentLists | qsbr.hpp:1387-1441 | the load decides by the registered threads what of the own lists is freed and what waits; the thread then pays its debt if it owes, and only counts if not |
| QsbrCalls.Departed | qsbr.cpp:311-371 | a leaver advances the epoch if and only if it is the last that owes, and its own lists catch up with the epochs it has seen |
| QsbrHandling.ChangeHandlesOrphans | qsbr.cpp:463-527 | by the time the last debtor changes the epoch, every request orphaned when it paid its debt is freed or has become a previous-interval orphan, by who was registered then |
| QsbrHandling.LeaverHandlesOrphans | qsbr.cpp:333-349 | the same from an advancing leaver's load to the end of its handling |
| QsbrHandling.OthersKeepOrphans | qsbr.cpp:164-195 | while a thread handles orphans, no other thread moves one |
| QsbrProgress.NeverStuck | qsbr.cpp:235-527 | in every reachable state every thread in the middle of a call can take its next step |
| QsbrAlone.ReturnsAlone | qsbr.cpp:235-527 | a call left to itself returns within eleven atomic operations, whatever state the others have left things in, unless it waits for an epoch change of another thread |
| QsbrProgress.RegistersAtOnce | qsbr.cpp:235-282 | a newcomer owes a quiescent state at once, or waits if an epoch change is going on |
| QsbrProgress.SpinsUntilOver | qsbr.cpp:262-276 | the wait ends exactly when the epoch it began in is over |
| QsbrProgress.LastPaysAndChanges | qsbr.cpp:420-451 | a thread that pays its debt goes on to change the epoch if and only if it was the last that owed |
| QsbrProgress.EpochTurns | qsbr.cpp:501-527 | the change of epoch makes exactly the registered threads owe |
| QsbrProgress.FinishesChange | qsbr.hpp:1387-1441 | the thread that changed the epoch frees and rotates its own lists once more |
| QsbrProgress.LastLeaverPrepares | qsbr.cpp:311-349 | a leaver handles orphans before its compare-and-swap if and only if it is the last that owes, and only once |
| QsbrProgress.LeavesTheCount | qsbr.cpp:311-371 | leaving takes exactly the leaver out of the registered and of the owing threads |
| QsbrProgress.HandsOver | qsbr.cpp:214-232 | all requests of a leaver become orphans of the interval they are from |
| QsbrSteps.StepKeepsInv | qsbr.cpp:235-527 | each of the twenty kinds of step, failed compare-and-swaps included, keeps the invariant |
| QsbrSteps.RegCasStep | qsbr.cpp:235-282 | registering during a change counts the thread without adding a debt and makes it wait |
| QsbrSteps.QFetchSubStep | qsbr.cpp:420-451 | only the thread that takes the previous-epoch count to zero goes on to change the epoch |
| QsbrSteps.HandleStep | qsbr.cpp:463-499 | taking, freeing and re-publishing the orphan lists one atomic operation at a time loses and duplicates nothing |
| QsbrSteps.ChangeCasStep | qsbr.cpp:501-527 | when the epoch changes, everyone registered owes again and whatever is still held was unlinked in the epoch that ends |
| QsbrSteps.LeaveCasStep | qsbr.cpp:285-371 | leaving removes the thread and its debt, if it has one, and advances the epoch only as the last debtor |
| QsbrInvariant.Execute | qsbr.hpp:1347-1385 | freeing the previous and rotating the current list at the right epoch frees only pointers nobody may hold |
| QsbrOrphans.OrphanSafety | qsbr.cpp:164-232 | with no registration inside an advancing leaver's window, no freed pointer, orphans included, is held by any thread |
| QsbrOrphans.StepKeepsOrphanInv | qsbr.cpp:333-349 | previous-interval orphans are a full epoch old unless a handler has just rotated them in, after every step outside such a window |
| QsbrOrphans.HandleUnheld | qsbr.cpp:463-499 | what one orphan-handling operation frees, nobody holds |
| QsbrHazard.StaleSingleThreadMode | qsbr.cpp:316-349 | a run in which a leaver's stale single-thread mode frees an orphan a reader holds |
| QsbrHazard.RotationWithoutAdvance | qsbr.cpp:333-349 | a run in which orphans rotated for an advance that does not happen are freed while a reader holds one |
| QsbrWord.UnpackPack | qsbr.hpp:204-228 | the packed word gives back its three fields, so comparing words compares fields |
| QsbrWord.WordFields | qsbr.hpp:417-442 | every word is 2^62 times the epoch, 2^32 times the thread count, 2^30 times two unused bits, and the previous-epoch count |
| QsbrWord.PackedStep | qsbr.hpp:262-420 | the arithmetic on the packed word carries every step of the protocol, while the thread count fits its thirty bits |
| QsbrPerThread.PerThread.ExecutePreviousRequests | qsbr.hpp:1347-1385 | the object's fields change as the protocol says, and each request freed was made two epochs ago, or one when single |
| QsbrPerThread.PerThread.AdvanceLastSeenEpoch | qsbr.hpp:1327-1345 | nothing happens in an epoch already seen, else exactly the previous requests are freed, the current ones too when single, and the lists move on by one epoch |
| QsbrPerThread.PerThread.OnNextEpochDeallocate | qsbr.hpp:1267-1325 | exactly which requests are freed, in which order, and which lists remain: the new one is freed at once when single, else it joins the current list after that list has caught up |
| OptimisticLock.Snapshot | optimistic_lock.hpp:755-795 | a successful check, read unlock or upgrade: all fields read since the read lock are one committed state, still current, with no writer |
| OptimisticLock.OneWriter | optimistic_lock.hpp:377-414 | at most one writer holds the lock, and then the word is write-locked |
| OptimisticLock.WordsGrow | optimistic_lock.hpp:289-356 | over any stretch of a run the word only grows until obsolete, obsolete is terminal, equal free words mean equal fields |
| OptimisticLock.CommittedForGood | optimistic_lock.hpp:683-712 | a version names one committed state for ever, so a saved version tag can be used later |
| OptimisticLock.StepKeepsInv | optimistic_lock.hpp:652-664 | every single load, store and compare-and-swap keeps the lock's invariant |
| LockSections.LetsIn | optimistic_lock.hpp:683-697 | a reader is let in if and only if nobody holds the lock and it is not obsolete |
| LockSections.ValidatesExactly | optimistic_lock.hpp:755-795 | check, read unlock and upgrade succeed if and only if the version was current on entry and no writer has come since |
| LockSections.ReadsOneState | optimistic_lock.hpp:755-795 | a reader that validates has read from each field its value on entry, which is still current |
| LockSections.CommitsItsWrites | optimistic_lock.hpp:388-397 | an unlock commits exactly the writer's own writes, in order, on top of the state it upgraded in, under a new version |
| LockSections.ObsoleteForEver | optimistic_lock.hpp:399-415 | once a lock is obsolete its fields stay, nobody is let in, and no validation succeeds |
| OlcSafety.Linearizable | olc_art.hpp:1674-1926 | every finished get or insert has an entry of its own, made during the call, in a legal sequential history of the map |
| OlcSafety.RealTimeOrder | olc_art.hpp:1658-1780 | a call that finished before another was invoked comes before it in the history |
| OlcSafety.OneEventPerCall | olc_art.hpp:1674-1926 | a step adds to the history at most one entry, that of its own thread's call, which had none |
| OlcSafety.CallBegan | olc_art.hpp:1658-1780 | restarts keep the operation and the instant of invocation of a call |
| OlcSafety.TreeIsMap | olc_art.hpp:1674-1926 | at every instant a search of the tree gives the answer of the history, for every key |
| OlcSafety.NeverLost | olc_art.hpp:1780-1926 | a key once inserted stays found with its first value in every later tree |
| OlcSafety.NoWildPointers | olc_art.hpp:1674-1926 | a descent over a changing heap only ever follows pointers to nodes of the kind it takes them for |
| OlcAlone.NeverStuck | olc_art.hpp:1674-1926 | in every reachable state every thread that is in a call can take a step of it |
| OlcAlone.ReturnsAlone | olc_art.hpp:1658-1926 | a call that runs while nobody else is in the middle of a write never restarts, returns within 42 steps, and gives the answer of the map at its start |
| OlcLocks.LocksAreHeld | olc_art.hpp:1404-1481 | in every reachable state every locked node is held by the thread that locked it, and an obsolete one is linked only until its replacement is |
| OlcLocks.AllFree | olc_art.hpp:1404-1481 | when no thread is in the middle of a write, every lock of the tree is free |
| OlcCapacity.CapacityFits | olc_art.hpp:1840-1889 | in every reachable state each inner node has the least of the capacities 4, 16, 48 and 256 that holds its children |
| OlcTree.ConcurrentIsSequential | olc_art.hpp:1674-1926 | in every reachable state the concurrent tree is the very tree that the sequential index makes of the inserts in the history |
| OlcSteps.StepKeepsInv | olc_art.hpp:1674-1926 | each of the eighteen kinds of step keeps tree, history and what every thread knows |
| OlcSteps.ValidateGood | olc_art.hpp:1715-1761 | a get may answer from a copied node only after the node's version is checked, and then the answer is the map's |
| OlcSteps.ReleaseParentGood | olc_art.hpp:1710-1713 | re-validating the parent after reading the child's version proves the child was still its child |
| OlcSteps.CheckParentGood | olc_art.hpp:1470-1477 | adding in place needs the parent unchanged after the node is locked |
| OlcSteps.GrowNodeGood | olc_art.hpp:1440-1457 | growing makes the old node obsolete and puts the larger one in its slot in the locked parent |
| OlcSteps.SplitNodeGood | olc_art.hpp:1840-1889 | splitting a leaf or a prefix under both locks adds exactly one key |
| OlcInvariant.FactsFrame | olc_art.hpp:1674-1926 | what a thread knows about unlocked nodes survives every step of every other thread |
| OlcCommit.AddKeepsTree | art_internal_impl.hpp:1389-1430 | a leaf added in place keeps paths, prefixes and child slots consistent |
| OlcCommit.SplitKeepsTree | art_internal_impl.hpp:1327-1339 | cutting a prefix and putting a four-way node above keeps every path in the tree |
| OlcCommit.GrowKeepsTree | olc_art.hpp:1440-1457 | moving all children to a larger node with one more leaf keeps the tree |
| OlcHeap.SearchIsMap | olc_art.hpp:1674-1763 | in a consistent heap a search from the root finds exactly the stored map |
| OlcHeap.Absent | olc_art.hpp:1717-1753 | a node with another key, another prefix or no child for the byte proves the key absent from the whole tree |
| OlcHeap.OneParent | olc_art.hpp:1423-1481 | a live node hangs in one slot only |
| ArtUpdate.InsertWf | art.hpp:930-1001 | insert keeps the invariant: child bounds per type, sorted distinct bytes, leaf keys extend their paths, depth plus prefix below eight |
| ArtUpdate.InsertLookup | art.hpp:930-1001 | insert adds an absent key, never overwrites, and changes no other lookup |
| ArtUpdate.RemoveWf | art.hpp:1003-1048 | remove keeps the invariant |
| ArtUpdate.RemoveLookup | art.hpp:1003-1048 | remove takes out the key and changes no other lookup |
| ArtUpdate.MergedPrefixFits | art_internal_impl.hpp:1473-1478 | when a child absorbs its parent's prefix and byte the result is at most seven bytes long |
| ArtUpdate.RoomForOne | art.hpp:812-852 | a 256-way node without a child for some byte is not full, so growing never runs out of types |
| ArtUpdate.SplitPrefixOk | art.hpp:970-986 | a prefix split keeps all old entries, adds the new one and keeps the invariant |
| ArtUpdate.DropKidOk | art.hpp:855-881 | dropping a leaf in place, by shrinking or by collapsing removes that entry only |
| ArtCanonical.Canonical | art_internal_impl.hpp:1216-1260 | well-formed trees that store the same map are equal, node types and prefixes included |
| ArtCanonical.SamePrefix | art_internal_impl.hpp:749-754 | prefixes are as long as the stored keys allow |
| ArtCanonical.InsertThenRemove | art.hpp:930-1048 | inserting an absent key and removing it again restores the very tree |
| ArtHistory.Refines | art.hpp:892-1048 | after any sequence of inserts, removes and clears the tree is well formed and stores exactly the map |
| ArtHistory.HistoryIndependent | art.hpp:930-1048 | operation sequences that end in the same map end in equal trees |
| ArtHistory.OneTreePerMap | art.hpp:812-881 | the tree is a function of the map alone |
| ArtHistory.LeafCountIsMapSize | art.hpp:607-617 | the leaf counter is the size of the map |
| ArtHistory.SizesByType | art_internal_impl.hpp:1216-1260 | after any history the four node types have 2 to 4, 5 to 16, 17 to 48 and 49 to 256 children |
| ArtMemory.MemoryIs | art_internal_impl.hpp:209-215 | memory use is 19 bytes an entry, the lengths of all values of the map, and 48, 160, 656 or 2064 bytes an inner node |
| ArtNearest.ChangeByKeys | art.hpp:944-1001 | whether an insert splits a leaf, splits a prefix or adds a child is decided by the stored keys that share most leading bytes with the new one |
| ArtDb.Db.constructor | art.hpp:632-643 | an empty index with all counters zero |
| ArtDb.Db.Get | art.hpp:892-923 | get returns the map's entry |
| ArtDb.Db.Insert | art.hpp:930-1001 | insert succeeds if and only if the key is absent, adds it then, and changes nothing otherwise; growth and prefix split counters move as the node counts and the stored keys say |
| ArtDb.Db.InsertInternal | art.hpp:930-1001 | the loop changes tree and counters as the specification functions say |
| ArtDb.Db.Remove | art.hpp:1003-1048 | remove succeeds if and only if the key is present and takes out that key only; the shrinkage counters move as the node counts do |
| ArtDb.Db.RemoveInternal | art.hpp:1003-1048 | the loop changes tree and counters as the specification functions say |
| ArtDb.Db.Fork | art.hpp:944-984 | leaf split and prefix split: new four-way node, one leaf more, the growth counted, a prefix split counted as such |
| ArtDb.Db.AddLeaf | art.hpp:812-852 | in place, or into the next larger type with the exchange of nodes counted |
| ArtDb.Db.DropLeaf | art.hpp:855-881 | in place, or into the next smaller type or the remaining child with the exchange counted |
| ArtDb.Db.Clear | art.hpp:1483-1494 | an empty index; the counts of what ever grew, shrank and split stay |
| ArtDb.Db.CurrentMemoryUse | art.hpp:523-525 | 19 bytes an entry, the lengths of the stored values, and the sizes of the inner nodes |
| ArtDb.Db.LeafCount | art.hpp:529-538 | the number of entries |
| ArtStats.InsertTotal | art.hpp:830-852 | an insert changes every node count and the memory total by exactly what its kind of change implies |
| ArtStats.RemoveTotal | art.hpp:868-881 | the same for a remove |
| ArtStats.InsertKeepsStats | art.hpp:957-983 | after an insert all counters are true of the tree and between clears n4 = g4 - g16 + s16 - s4 holds up the chain |
| ArtStats.RemoveKeepsStats | art.hpp:868-881 | the same after a remove |
| ArtStats.CountBounds | art.hpp:1500-1536 | the asserted bounds: growing counts are at least live and shrinking counts, for every type |
| ArtStats.GrowthCounted | art.hpp:1516-1525 | an insert counts a growth for a type exactly when there is one more node of the type |
| ArtStats.ShrinkageCounted | art.hpp:1527-1536 | a remove counts a shrinkage for a type exactly when there is one less node of the type |
| ArtStats.AccountConserves | art.hpp:1516-1536 | every kind of change conserves nodes per type |
| ArtStats.StartsAfresh | art.hpp:1472-1494 | conservation restarts at construction and after a clear |
| ArtKey.LessIsNumeric | art_internal.hpp:105-143 | comparing the stored bytes compares the numbers, and equal bytes are equal numbers |
| ArtKey.DigitsRoundTrip | art_internal.hpp:105-127 | the byte-swapped key gives the number back |
| ArtOrder.FlatIsLookup | art.hpp:892-923 | the entries from left to right are exactly what lookups find |
| ArtOrder.FlatIncreasing | art.hpp:1061-1183 | they come in strictly increasing numeric key order |
| ArtPath.Around | art.hpp:1061-1183 | a path on the stack cuts the sorted entries into those before, below and after it |
| ArtIterator.Iterator.First | art.hpp:1061-1068 | the first entry, or the end of an empty tree |
| ArtIterator.Iterator.Last | art.hpp:1072-1079 | the last entry, or the end of an empty tree |
| ArtIterator.Iterator.Next | art.hpp:1081-1108 | the next entry in order, the end after the last; the stack stays a root-to-leaf path |
| ArtIterator.Iterator.Prior | art.hpp:1111-1138 | the previous entry in order, the end before the first |
| ArtIterator.Iterator.LeftMostTraversal | art.hpp:1144-1163 | the first entry below the path |
| ArtIterator.Iterator.RightMostTraversal | art.hpp:1167-1190 | the last entry below the path |
| ArtIterator.Iterator.Current | art.hpp:1345-1369 | key and value of the entry at the iterator's place |
| ArtIterator.Iterator.Scan | art.hpp:1377-1395 | a scan visits every entry once, in increasing or decreasing order |
| ArtIterator.Iterator.Seek | art.hpp:1193-1341 | match is set if and only if the key is present; the iterator lands where the contract says if and only if the search is not stranded; a stranded one rests on an entry on the wrong side of the key or at the end, as `Strays` tells |
| ArtIterator.Iterator.StopAtLeaf | art.hpp:1204-1219 | a search that ends at a leaf lands right |
| ArtIterator.Iterator.StopAtPrefix | art.hpp:1222-1257 | a search that leaves a prefix lands right |
| ArtIterator.Iterator.StopAtGap | art.hpp:1259-1336 | a search with no child for its byte lands right if and only if it is not stranded |
| ArtIterator.Iterator.Unwind | art.hpp:1282-1325 | the unwind never gets past the entries before the search, and ends at the end if and only if no ancestor above the parent has a sibling |
| ArtIterator.Iterator.VisitForward | art.hpp:1440-1451 | from the iterator's place, every entry up to the first that has reached the second key, in order |
| ArtIterator.Iterator.VisitReverse | art.hpp:1460-1466 | the same downwards |
| ArtIterator.Iterator.ScanFrom | art.hpp:1399-1419 | the entries at or beyond the key are visited, all and in order, if and only if the search is not stranded |
| ArtIterator.Iterator.ScanRange | art.hpp:1423-1467 | exactly the entries between the keys, the second excluded, are visited in the direction of travel, if and only if the search is not stranded, or ends at the end and there are none |
| ArtSeek.BoundaryDecides | art.hpp:231-249 | for an absent key there is exactly one right place |
| ArtSeek.StrandedExample | art.hpp:1282-1295 | a well-formed tree of three keys whose forward seek ends at the end although a larger key exists |
| NodeLayouts.Node4.Two | art_internal_impl.hpp:1658-1678 | two children in byte order, unused places padded with 0xFF |
| NodeLayouts.Node4.From16 | art_internal_impl.hpp:1344-1377 | shrinking a five-child node removes that child from the map |
| NodeLayouts.Node4.InsertPosition | art_internal_impl.hpp:1389-1430 | the branch-free sum over the padded keys is the rank of the byte |
| NodeLayouts.PaddedRank | art_internal_impl.hpp:1389-1430 | with 0xFF in the unused places, counting smaller bytes among the first three gives the rank |
| NodeLayouts.Node4.AddToNonfull | art_internal_impl.hpp:1389-1430 | adds one child to the map and keeps the keys sorted |
| NodeLayouts.Node4.Remove | art_internal_impl.hpp:1431-1457 | removes one child from the map and restores the padding |
| NodeLayouts.Node4.LeaveLastChild | art_internal_impl.hpp:1460-1480 | the child left is the one the map keeps, with its byte |
| NodeLayouts.Node4.FindChild | art_internal_impl.hpp:1483-1544 | finds a child if and only if the map has one |
| NodeLayouts.Node4.GteKeyByte | art_internal_impl.hpp:1604-1620 | the least mapped byte not below a byte |
| NodeLayouts.Node4.LteKeyByte | art_internal_impl.hpp:1622-1640 | the greatest mapped byte not above a byte |
| NodeLayouts.Node4.Begin | art_internal_impl.hpp:1553-1558 | the least mapped byte |
| NodeLayouts.Node4.Last | art_internal_impl.hpp:1566-1573 | the greatest mapped byte |
| NodeLayouts.Node4.Next | art_internal_impl.hpp:1582-1590 | the least mapped byte beyond the child's, or the end if there is none |
| NodeLayouts.Node4.Prior | art_internal_impl.hpp:1592-1599 | the greatest mapped byte before the child's, or the end if there is none |
| NodeLayouts.Node16.From4 | art_internal_impl.hpp:1778-1815 | growing a full four-way node adds the child at its rank |
| NodeLayouts.Node16.From48 | art_internal_impl.hpp:1817-1847 | shrinking collects the remaining sixteen children in byte order |
| NodeLayouts.Node16.InsertPosition | art_internal_impl.hpp:2051-2087 | the rank of the byte among the keys in use |
| NodeLayouts.Node16.AddToNonfull | art_internal_impl.hpp:1849-1884 | adds one child to the map and keeps the keys sorted |
| NodeLayouts.Node16.Remove | art_internal_impl.hpp:1886-1906 | removes one child from the map |
| NodeLayouts.Node16.FindChild | art_internal_impl.hpp:1943-1949 | finds a child if and only if the map has one |
| NodeLayouts.Node16.Next | art_internal_impl.hpp:1977-1985 | the least mapped byte beyond the child's, or the end if there is none |
| NodeLayouts.Node16.Prior | art_internal_impl.hpp:1987-1994 | the greatest mapped byte before the child's, or the end if there is none |
| NodeLayouts.Node16.GteKeyByte | art_internal_impl.hpp:2015-2029 | the least mapped byte not below a byte |
| NodeLayouts.Node16.LteKeyByte | art_internal_impl.hpp:1998-2011 | the greatest mapped byte not above a byte |
| NodeLayouts.InsertedDense | art_internal_impl.hpp:1849-1884 | shifting the upper keys and storing at the rank is insertion into the map |
| NodeLayouts.RemovedDense | art_internal_impl.hpp:1886-1906 | closing the gap is deletion from the map |
| NodeLayouts.Node48.From16 | art_internal_impl.hpp:2164-2197 | growing a full sixteen-way node keeps the children in their places and adds the new one in the seventeenth |
| NodeLayouts.Node48.From256 | art_internal_impl.hpp:2199-2223 | shrinking a 49-child node keeps the other 48, in places by byte order |
| NodeLayouts.Node48.AddToNonfull | art_internal_impl.hpp:2225-2347 | the child goes into the first free place, the map gains it, and no other index or place changes |
| NodeLayouts.Node48.Remove | art_internal_impl.hpp:2350-2356 | removes one child and frees its place; no other index or place changes |
| NodeLayouts.Node48.FindChild | art_internal_impl.hpp:2359-2374 | finds a child if and only if the map has one |
| NodeLayouts.Node48.GteKeyByte | art_internal_impl.hpp:2479-2492 | the least mapped byte not below a byte |
| NodeLayouts.Node48.LteKeyByte | art_internal_impl.hpp:2463-2474 | the greatest mapped byte not above a byte |
| NodeLayouts.Node48.Begin | art_internal_impl.hpp:2393-2406 | the least mapped byte |
| NodeLayouts.Node48.Last | art_internal_impl.hpp:2414-2427 | the greatest mapped byte |
| NodeLayouts.Node48.Next | art_internal_impl.hpp:2431-2444 | the least mapped byte beyond the child's, or the end if there is none |
| NodeLayouts.Node48.Prior | art_internal_impl.hpp:2446-2458 | the greatest mapped byte before the child's, or the end if there is none |
| NodeLayouts.FreePlace | art_internal_impl.hpp:2225-2347 | fewer than 48 mapped bytes leave a place free, so the search for one ends |
| NodeLayouts.SparseAdded | art_internal_impl.hpp:2225-2347 | filling a free place is insertion into the map |
| NodeLayouts.SparseRemoved | art_internal_impl.hpp:2350-2356 | clearing index and place is deletion from the map |
| NodeLayouts.Node256.From48 | art_internal_impl.hpp:2690-2717 | growing a full 48-way node adds the child |
| NodeLayouts.Node256.AddToNonfull | art_internal_impl.hpp:2719-2733 | adds one child; the one-byte count is right modulo 256 |
| NodeLayouts.Node256.Remove | art_internal_impl.hpp:2735-2742 | removes one child; the one-byte count is right modulo 256 |
| NodeLayouts.Node256.FindChild | art_internal_impl.hpp:2746-2751 | finds a child if and only if the map has one |
| NodeLayouts.Node256.GteKeyByte | art_internal_impl.hpp:2841-2852 | the least mapped byte not below a byte |
| NodeLayouts.Node256.LteKeyByte | art_internal_impl.hpp:2825-2836 | the greatest mapped byte not above a byte |
| NodeLayouts.Node256.Begin | art_internal_impl.hpp:2759-2772 | the least mapped byte |
| NodeLayouts.Node256.Last | art_internal_impl.hpp:2776-2789 | the greatest mapped byte |
| NodeLayouts.Node256.Next | art_internal_impl.hpp:2791-2805 | the least mapped byte beyond the child's, or the end if there is none |
| NodeLayouts.Node256.Prior | art_internal_impl.hpp:2807-2819 | the greatest mapped byte before the child's, or the end if there is none |
| NodeLayouts.MinSizeTest | art_internal_impl.hpp:1216-1222 | comparing the wrapped count with the minimum size is right for every possible size |
| ArtLayouts.AddStores | art.hpp:812-845 | the tree's child list with a new child is the layouts' map with a new entry, and both change type together |
| ArtLayouts.DropKidStores | art.hpp:855-881 | the tree's child list without a child is the map without the entry, shrinking and collapsing included |
| ArtLayouts.SetStores | art.hpp:993-1000 | a child replaced in the list is an entry redirected in the map |
| ArtLayouts.FindStores | art_internal_impl.hpp:921-940 | list and map find the same child |
| ArtLayouts.StoresCount | art_internal_impl.hpp:1210-1222 | list and map have the same size, so the full and minimal-size tests agree |
| ArtLayouts.RankStores | art_internal_impl.hpp:1072-1115 | gte and lte on the map find the children on either side of the byte's rank in the list |
| ArtLayouts.NeighboursStore | art_internal_impl.hpp:1011-1065 | next and prior on the map go to the neighbours in the list |
| KeyPrefix.SharedLenIs | art_internal_impl.hpp:736-743 | xor, clamp bit and count of trailing zeros give the clamped longest common prefix |
| KeyPrefix.SharedWithKey | art_internal_impl.hpp:652-662 | the shared length with a key is the common prefix of the packed bytes and the key's |
| KeyPrefix.MadeOfShared | art_internal_impl.hpp:745-753 | a new node's prefix is what both keys share, at most seven bytes |
| KeyPrefix.WithLengthTakes | art_internal_impl.hpp:634-640 | the length constructor keeps the first bytes |
| KeyPrefix.CutDrops | art_internal_impl.hpp:678-686 | cut drops the first bytes |
| KeyPrefix.PrependConcatenates | art_internal_impl.hpp:688-706 | prepend puts the other prefix and the byte in front |
| KeyPrefix.SplitThenPrepend | art_internal_impl.hpp:1327-1339 | splitting at any byte and prepending the parts again restores the prefix |
| KeyPrefix.StaleBytesDoNotShow | art_internal_impl.hpp:678-706 | bytes that cut leaves above the length are observable through no operation |
| KeyPrefix.PackedPrefix.CutFront | art_internal_impl.hpp:678-686 | the word in place after a cut |
| KeyPrefix.PackedPrefix.PrependFront | art_internal_impl.hpp:688-706 | the word in place after a prepend |
| ArtPrefix.SharedLength | art.hpp:910-914 | the packed shared length is the common length the tree compares, and decides whether the prefix matches |
| ArtPrefix.SplitPacks | art_internal_impl.hpp:1327-1339 | the packed parts of a prefix split stand for the prefixes the tree gives the two nodes |
| ArtPrefix.CollapsePacks | art_internal_impl.hpp:1473-1478 | the packed result of a collapse stands for the prefix the tree gives the surviving node |
| ArtPrefix.ForkPacks | art_internal_impl.hpp:745-754 | the word made from two keys stands for the bytes their remainders share |
| FloatCodec.EncodeMonotone | duckdb_encode_decode.hpp:73-92 | the sort key orders all non-NaN patterns as numbers, infinities included, -0 below +0, exactly |
| FloatCodec.NanIsLargest | duckdb_encode_decode.hpp:74-78 | every NaN gets the largest key and nothing else does |
| FloatCodec.RoundTrip | duckdb_encode_decode.hpp:100-118 | decode gives back every non-NaN pattern bit for bit and the quiet NaN for any NaN |
| FloatCodec.NoCollisions | duckdb_encode_decode.hpp:73-92 | different numbers get different keys |
| FloatCodec.KeyOf | duckdb_encode_decode.hpp:73-92 | the least key is negative infinity's alone, the one below the NaNs positive infinity's alone; other numbers get their sign bit set or all bits complemented |
| FloatCodec.Keys32 | duckdb_encode_decode.hpp:73-92 | the key of every 32-bit pattern, in literals |
| FloatCodec.Keys64 | duckdb_encode_decode.hpp:73-92 | the key of every 64-bit pattern, in literals |
| FloatCodec.Decoded32 | duckdb_encode_decode.hpp:100-118 | the pattern of every 32-bit key, in literals |
| FloatCodec.Decoded64 | duckdb_encode_decode.hpp:100-118 | the pattern of every 64-bit key, in literals |
| FloatCodec.ProgramFormats | duckdb_encode_decode.hpp:73-92 | the results apply to the two widths the program instantiates |
| KeyCodec.SignFlip | art_common.hpp:315-356 | signed integers keep their order under the sign-bit flip and come back |
| KeyCodec.TextOrder | art_common.hpp:471-488 | a text is below another and its code is not, exactly for the pairs `Shadowed` names |
| KeyCodec.TextCodeSame | art_common.hpp:471-488 | texts have equal codes if and only if they are equal as padded to the maximal length |
| KeyCodec.SameCodeSameText | art_common.hpp:471-488 | texts have equal codes if and only if they agree in their first 65532 bytes, the shorter filled with zero bytes |
| KeyCodec.TextLayout | art_common.hpp:471-488 | the code of every text byte by byte: what precedes its trailing zero bytes among the first 65532, a zero byte, and the two-byte count of what is missing |
| KeyCodec.NoPadNotShadowed | art_common.hpp:471-488 | without interior pad bytes no pair fails |
| KeyCodec.MisorderedTexts | art_common.hpp:471-488 | two texts whose codes sort the wrong way |
| KeyCodec.PrefixOfAnotherCode | art_common.hpp:471-488 | a text whose code is a proper prefix of another's |
| KeyCodec.FieldOrder | art_common.hpp:307-488 | a component's code sorts as its value does, and only equal values share a code |
| KeyCodec.CompositeKeys | art_common.hpp:299-488 | for any fixed schema, comparing codes compares tuples, and no code is a proper prefix of another |
| KeyCodec.FieldRoundTrip | art_common.hpp:591-717 | a number's code has its fixed width and decodes to the number |
| KeyCodec.TupleRoundTrip | art_common.hpp:591-717 | a key of numbers decodes to the numbers encoded, any NaN to the quiet NaN |
| KeyBuffers.SwappedInMemory | art_common.hpp:242-247 | a byte-swapped integer lies in memory most significant byte first |
| KeyBuffers.SwappedFromMemory | art_common.hpp:570-576 | swapping an integer read from memory gives the number written most significant byte first |
| KeyBuffers.BitCeil | art_common.hpp:165-168 | a power of two, not below the request and less than twice it |
| KeyBuffers.KeyEncoder.EnsureCapacity | art_common.hpp:165-176 | a larger buffer with the same written bytes |
| KeyBuffers.KeyEncoder.EnsureAvailable | art_common.hpp:270-276 | room for the request; the buffer is replaced only when there was none |
| KeyBuffers.KeyEncoder.Reset | art_common.hpp:280-283 | nothing is written any more |
| KeyBuffers.KeyEncoder.AppendBytes | art_common.hpp:299-305 | the bytes are written after the others, across growth |
| KeyBuffers.KeyEncoder.EncodeUnsigned | art_common.hpp:369-405 | the code of the number is written after the others, across growth |
| KeyBuffers.KeyEncoder.EncodeSigned | art_common.hpp:315-356 | the same for signed numbers |
| KeyBuffers.KeyEncoder.EncodeFloat | art_common.hpp:423-438 | the same for floating-point numbers |
| KeyBuffers.KeyEncoder.StripPadding | art_common.hpp:474-479 | the loop finds the longest start that does not end in a pad byte |
| KeyBuffers.KeyEncoder.EncodeText | art_common.hpp:471-488 | truncated and stripped text, pad byte and run length are written after the others |
| KeyBuffers.KeyDecoder.DecodeUnsigned | art_common.hpp:642-677 | the next bytes are consumed and decoded as the specification says |
| KeyBuffers.KeyDecoder.DecodeSigned | art_common.hpp:591-631 | the same for signed numbers |
| KeyBuffers.KeyDecoder.DecodeFloat | art_common.hpp:695-717 | the same for floating-point numbers |

## Left out

- QsbrOrphans.OrphanSafety: one direction only. A registration inside a leaver's window makes an unsafe free possible, not certain, so the condition is not necessary in each single run; the two runs in QsbrHazard show that it cannot be dropped.
- QsbrSafety.GracePeriod: a thread that submits a pointer is taken to hold it no longer.
- QsbrWord.PackedStep: the thread count is assumed to fit its field, as the code assumes without a check.
- QSBR lists are sets of pointers, and freeing a whole list is one step. Statistics, debug registration of active pointers, heap allocation and exceptions are not modelled.
- All atomic operations are sequentially consistent steps. Memory orderings and fences are not modelled.
- OptimisticLock.WordsGrow: versions are unbounded; the 64-bit counter of the code wraps after 2^62 writes.
- Spinning threads may spin for ever if the scheduler does not let the others run: NeverStuck and ReturnsAlone say that a step is always possible and that an undisturbed call returns, but no fairness is assumed. Debug read counters are not modelled.
- OlcSafety.Linearizable: for get and insert without removals; scans and iterators are not among the calls.
- The concurrent model reads a node by one copy of all its fields, arbitrary when a writer interferes and true whenever the version is unchanged afterwards, which OptimisticLock.Snapshot justifies field by field. Node identities are never reused, which is what QSBR is for. Nodes cached between restarts of an insert, the four layouts and counters are left out there.
- The sequential tree is a value; the pointer to the slot being rewritten is the trail of parents and child indexes, and an assignment through it rebuilds the path. Aliasing between nodes is therefore not captured. The iterator's child index is the rank of the child among its siblings, which ArtLayouts relates to the layouts' own positions.
- The visitor callback's early exit, the iterator's key buffer, which the code maintains but does not read, and dump functions are left out.
- Keys are eight bytes. Trees over key_view are left out: two such keys that share more than seven further bytes break the assumption of the four-way constructor that its two bytes differ (art_internal_impl.hpp:749-752, 1658-1661).
- NodeLayouts.Node4.FindChild: the portable loop; the SSE, AVX2 and NEON paths and the bit trick that tests a word for a byte are left out, as they are for the other layouts.
- NodeLayouts.Node16.From48: the source node must have the size that calls for the conversion; reclaiming the source afterwards is left out, as for all conversions.
- KeyPrefix models the word with its bytes in little-endian order; the concurrent policy's atomic access to it is left out.
- FloatCodec: patterns are numbers and bit operations on whole words are written as arithmetic; NaN payloads are lost by design.
- KeyBuffers: the encoder's inline buffer is an array like the others; freeing buffers is left out. Unicode sort keys are text bytes.
- ArtStats: counters are unbounded integers. Node sizes are those of a 64-bit build without AVX2 (the 48-way node is larger with it) and a leaf header of two four-byte sizes.
- mutex_db, benchmarks, examples, fuzzers and tests are left out; they would add no harder property.
