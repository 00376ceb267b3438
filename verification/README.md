# Verified models of seven folly components

This project models the concurrent containers, the cancellation protocol, the string storage, the Rabin
fingerprints and the integer parser of folly, and proves what they are for. Each component has its own
modules.

- **AtomicHashArray and AtomicHashMap** (`HashArray.dfy`, `ProbeCoverage.dfy`, `HashMap.dfy`). A lock-free open-addressing table
  whose cells go from empty to locked to live to erased, and a chain of up to 16 such tables. One step is one
  atomic load, store, compare-and-swap or fetch-add of one thread. The results hold for every interleaving of
  any number of inserting, throwing, erasing and searching threads. The map reuses the table's theorems: each
  step of the map is a step, or no step, of each of its tables.
- **AtomicUnorderedInsertMap** (`InsertMap.dfy`). Lock-free chaining in which a bucket head and a slot state
  share one word. The main argument is that a head never returns to an old value, so a successful
  compare-and-swap proves that the chain just searched is the whole chain.
- **CancellationState** (`Cancellation.dfy`, `CancellationWitness.dfy`, `CallbackList.dfy`). One 64-bit word with
  a cancel bit, a lock bit and two reference counts guards a list of callbacks and the handshake between the
  thread that runs them and the threads that destroy them. Calls made by a callback while it runs are further
  calls of the same thread. The pointer surgery on the intrusive list is a class of its own.
- **ConcurrentSkipList** (`SkipListLayout.dfy`, `SkipList.dfy`, `Skipper.dfy`, `Recycler.dfy`). Writers run one
  after another, as validated locks make them, and every `setSkip` store is recorded, so a statement about the
  record is one about every state a reader can see. The two searches and the Skipper cursor are methods with
  loops; the node recycler is a system of interleaved threads.
- **fbstring_core and find** (`StringMemory.dfy`, `StringCore.dfy`, `StringFind.dfy`). Three storage layouts in
  one 24-byte union, told apart by the last byte, with reference-counted copy on write, are proved to behave as
  independent values. `find` with its lazily computed skip is proved to be the least match.
- **Fingerprint** (`PolynomialBits.dfy`, `Fingerprint.dfy`). Table-driven updates of 8, 32 and 64 bits on
  fingerprints of 64, 96 and 128 bits are proved to compute the remainder of the message polynomial, and the
  remainder is unique.
- **Integer parsing in Conv** (`Decimal.dfy`, `IntegerParse.dfy`). Chunked accumulation in wrapping arithmetic,
  an overflow test by string comparison and a sign test by wraparound are proved exact for every width, and to
  invert the 128-bit printer.

Concurrent components are relations between states, one labelled step per atomic operation, with an inductive
invariant (`Inv`), its preservation (`StepInv`), and theorems about whole runs (`IsRun`). Code that updates
objects, arrays or local variables in loops is written as methods and classes.

Six things one might expect do not hold of the code. Each has an input that shows it and the exact condition under
which it holds:

- that a table lookup of `digits_to` stays inside its table (`Accumulate`, `HighByteLeaves`);
- that the answer of `digits_to` depends on its range alone (`RangeDecidesExactly`, `EmptyRangeBeforeMinus`);
- that `reserve` on a small string copies within its block (`CopyFitsExactly`, `CopyOverruns`);
- that `requestCancellation` leaves the lock free when it returns early (`LockedAfterReturn`, `EarlyReturnWhileLocked`);
- that `Skipper::to` lands on the lower bound (`To`, `ToMissesKeyBehind`);
- that a table gives up only after it has probed every cell (`TriangularCoversExactly`, `ThreeCellsNotCovered`).

Assumptions:

- memory is sequentially consistent, and a spin loop is a step that may repeat;
- `numPendingEntries_` and the other thread-cached counters are exact atomic counters;
- hash and equality are fixed functions, and capacities and the decision to stop growing are arbitrary;
- a caller of `requestCancellation` keeps its source, and a registering caller its token, until the call returns;
- reference counts stay within their fields;
- the allocator refuses any requests, chosen in advance by their number; `goodMallocSize(n) >= n`, and no block is larger than the capacity field can say;
- the machine is little-endian with 64-bit words; characters are bytes, `char` is signed (`-fsigned-char`), and
  `isdigit` is false of a byte from 0x80 up;
- a node is given to the recycler at most once, by a thread that holds an accessor;
- keys of the skip list are integers in their usual order.

## Model

| member | source | states |
|---|---|---|
| HashArray.NextPowTwoIsLeast | folly/AtomicHashArray-inl.h:59-59 | the anchor mask belongs to the least power of two not below the capacity |
| HashArray.AnchorIs | folly/AtomicHashArray.h:421-425 | the first cell probed is the masked hash where that is a cell, else the hash modulo the capacity |
| HashArray.PathIsProbeSequence | folly/AtomicHashArray.h:41-59 | the probe functors visit cells at linear, or at triangular, distances from the anchor modulo the capacity |
| HashArray.LinearPathCovers | folly/AtomicHashArray.h:41-49 | linear probing inspects every cell before it gives up |
| ProbeCoverage.TriangularCoversExactly | folly/AtomicHashArray.h:51-59 | quadratic probing inspects every cell before it gives up exactly where the capacity is a power of two |
| ProbeCoverage.ThreeCellsNotCovered | folly/AtomicHashArray-inl.h:266-270 | with three cells it gives up before it has probed every cell |
| ProbeCoverage.LinearCovers | folly/AtomicHashArray-inl.h:266-270 | with linear probing it gives up only after every cell, whatever the capacity |
| HashArray.InitInv | folly/AtomicHashArray-inl.h:42-67 | the freshly constructed table satisfies the invariant |
| HashArray.StepMovesCells | folly/AtomicHashArray-inl.h:200-273 | every cell moves only along empty, locked, live, erased, or from locked back to empty; values change only in locked cells; a full table stays full |
| HashArray.StepInv | folly/AtomicHashArray-inl.h:171-342 | every atomic step of insert, throwing insert, find and erase by any thread keeps the invariant |
| HashArray.RunInv | folly/AtomicHashArray-inl.h:171-342 | every state of every run satisfies the invariant |
| HashArray.KeyLiveAtMostOnce | folly/AtomicHashArray-inl.h:171-273 | in every state of every run a key is live in at most one cell |
| HashArray.PathBeforeLiveKey | folly/AtomicHashArray-inl.h:200-273 | every cell before a live key on its probe path holds another key or is erased, and stays so for the rest of the run |
| HashArray.PendingIsExact | folly/AtomicHashArray-inl.h:178-199 | the pending counter is the number of threads inside the insert window |
| HashArray.QuietHasNoLock | folly/AtomicHashArray-inl.h:185-199 | once the table is known to have no pending insert, no cell is locked |
| HashArray.FrozenForever | folly/AtomicHashArray-inl.h:185-240 | after any thread has stored NO_PENDING_INSERTS no empty cell ever changes, even if a late thread overwrites the flag |
| HashArray.ClosedStays | folly/AtomicHashArray-inl.h:189-199 | a key that a full table cannot take any more stays so at every step |
| HashArray.ClosedIsAbsent | folly/AtomicHashArray-inl.h:189-199 | such a key is live in no cell |
| HashArray.FullMeansAbsentForever | folly/AtomicHashArray-inl.h:189-199 | when an insert reports the table full, its key is absent then and in every later state |
| HashArray.SizeIsExact | folly/AtomicHashArray-inl.h:235-243 | with no call in flight the entry counter minus the erase counter is the number of live cells |
| HashArray.LiveKeyIsReached | folly/AtomicHashArray-inl.h:103-122 | a find or erase of a key that is live at its start and erased by nobody else succeeds on that cell, whatever inserts run |
| HashArray.NotFoundWasAbsent | folly/AtomicHashArray-inl.h:103-122 | a find or erase that reports not found has an instant within its call at which the key was absent |
| HashArray.NewKeyByInserter | folly/AtomicHashArray-inl.h:204-233 | a key appears in a cell only by a step of a thread inserting it |
| HashArray.AnswersAreTrue | folly/AtomicHashArray-inl.h:244-262 | a find that succeeds and an insert that finds the key present name a cell that holds the key with its value constructed |
| HashArray.InsertedWasMade | folly/AtomicHashArray-inl.h:200-262 | an insert that answers inserted made that cell, which did not hold the key, hold its key and its value at a step of its own inside the call |
| HashArray.ErasedWasTaken | folly/AtomicHashArray-inl.h:281-342 | an erase that answers one took its key out of a cell that held it at a step of its own inside the call |
| HashArray.ThrewWasUndone | folly/AtomicHashArray-inl.h:211-232 | an insert that answers threw set a cell it had locked back to empty at a step of its own inside the call |
| HashArray.LiveKeyExists | folly/AtomicHashArray-inl.h:244-262 | an insert of a key that is live throughout the call answers exists with that cell |
| HashMap.StepOnSub | folly/AtomicHashMap-inl.h:134-207 | seen from one submap, a step of the map is a step of that table or nothing |
| HashMap.StepInv | folly/AtomicHashMap-inl.h:134-207 | every step of insert, find and erase over the submap chain keeps the invariant |
| HashMap.RunInv | folly/AtomicHashMap-inl.h:134-207 | every state of every run satisfies the invariant |
| HashMap.KeyLiveAtMostOnce | folly/AtomicHashMap-inl.h:134-207 | in every reachable state a key is live in at most one cell over all submaps |
| HashMap.InsertMovesOnOnlyWhenClosed | folly/AtomicHashMap-inl.h:138-152 | an insert works on submap j only after each earlier submap can never hold its key again, now and in every later state |
| HashMap.ClosedForever | folly/AtomicHashMap-inl.h:138-152 | a submap closed for a key stays closed for it over the rest of the run |
| HashMap.MapFullIsFinal | folly/AtomicHashMap-inl.h:138-163 | an insert that answers map full has its key absent from every submap then and in every later state, and the number of submaps is final: 16, or fewer where the map may not grow |
| HashMap.InsertedWasMade | folly/AtomicHashMap-inl.h:134-207 | an insert that answers inserted made that cell of that submap hold its key and its value at a step of its own inside the call |
| HashMap.ErasedWasTaken | folly/AtomicHashMap-inl.h:388-397 | an erase that answers one has a step of its own inside the call at which a cell of some submap stops holding its key |
| HashMap.FoundWasThere | folly/AtomicHashMap-inl.h:134-152 | a find that answers found and an insert that answers exists have an instant inside the call at which the cell they name held the key with its value constructed |
| HashMap.ThrewWasUndone | folly/AtomicHashMap-inl.h:134-152 | an insert that answers threw set a cell it had locked back to empty at a step of its own inside the call |
| HashMap.AllocFailedAtCreate | folly/AtomicHashMap-inl.h:162-184 | an insert answers allocation failed only from the store of a new submap, whose pointer then stays locked |
| HashMap.AnswersFit | folly/AtomicHashMap-inl.h:134-396 | each operation gives only answers of its own kind |
| HashMap.PublicationInOrder | folly/AtomicHashMap-inl.h:156-196 | a thread visits only submaps that exist, the thread that publishes a submap publishes the next one in order, the count never falls, and the publisher and those that waited call that submap next |
| HashMap.LiveKeyIsReached | folly/AtomicHashMap-inl.h:299-320 | a find or erase of a key live in some submap at its start, erased by nobody else, succeeds on it |
| HashMap.NotFoundWasAbsent | folly/AtomicHashMap-inl.h:388-396 | a not-found answer over the chain has an instant within the call at which no submap held the key |
| InsertMap.KeyToSlotIdx | folly/AtomicUnorderedMap.h:417-424 | the loop by subtraction gives the hash modulo a power of two reduced below the number of slots |
| InsertMap.StateUpdateKeepsHead | folly/AtomicUnorderedMap.h:388-391 | adding the difference of two states to the word changes the state bits to the new state and no head bit |
| InsertMap.InitInv | folly/AtomicUnorderedMap.h:217-230 | the constructed map, with slot 0 reserved, satisfies the invariant |
| InsertMap.StepInv | folly/AtomicUnorderedMap.h:261-316 | every atomic step of findOrConstruct, allocation and find keeps the invariant |
| InsertMap.RunInv | folly/AtomicUnorderedMap.h:261-316 | every state of every run has chains that satisfy the invariant |
| InsertMap.ChainUnique | folly/AtomicUnorderedMap.h:426-435 | the list reached from a bucket head is determined by the memory |
| InsertMap.ChainsWellFormed | folly/AtomicUnorderedMap.h:426-435 | in every run each chain is free of cycles, ends at 0 and holds only keys that hash to its slot |
| InsertMap.PublishedKeysDiffer | folly/AtomicUnorderedMap.h:285-301 | no two published slots hold equal keys |
| InsertMap.PublishedMeansLinked | folly/AtomicUnorderedMap.h:285-301 | the published slots are exactly the linked ones and those between the publishing compare-and-swap and the state update |
| InsertMap.SlotsMoveOneWay | folly/AtomicUnorderedMap.h:388-391 | a slot state moves only from empty to constructing and from there to linked or back to empty, slot 0 is never allocated, and head and state change together only when a slot publishes itself in its own bucket |
| InsertMap.PublishedForever | folly/AtomicUnorderedMap.h:285-301 | once published, a key stays published in the same slot with the same value for the rest of the run |
| InsertMap.KeyPublishedOnce | folly/AtomicUnorderedMap.h:285-316 | no key is published at two different steps of a run |
| InsertMap.PublishedKeyIsFound | folly/AtomicUnorderedMap.h:426-435 | every call that begins after a key was published finds it, in that slot |
| InsertMap.AnswersAreTrue | folly/AtomicUnorderedMap.h:261-316 | a slot returned by a call is published with the key, and an end iterator means that the key was absent when the call began |
| InsertMap.CreatedWasMade | folly/AtomicUnorderedMap.h:261-316 | a findOrConstruct that answers created published its key, which no slot held, with its value in that slot at a step of its own inside the call |
| InsertMap.ThrewWhileBuilding | folly/AtomicUnorderedMap.h:261-316 | a findOrConstruct that answers threw failed to build its key or value at a step of its own inside the call |
| InsertMap.NoSpaceAfterAttempts | folly/AtomicUnorderedMap.h:435-460 | a call that answers no space made 1000 attempts of its own; each read the word of a slot, attempt j below 8 that of slot start + j where there is one, and failed because the slot was in use then or had changed since |
| Cancellation.PackReads | folly/CancellationToken-inl.h:84-102 | flags, the can-be-cancelled test and the three deletion comparisons read from the packed word are those of its fields |
| Cancellation.PackAdds | folly/CancellationToken-inl.h:323-356 | an addition to the word changes the lock bit and the counts by what was added and leaves the cancel bit alone |
| Cancellation.PackInjective | folly/CancellationToken-inl.h:84-102 | the fields of the word are independent: equal words have equal fields |
| Cancellation.InitInv | folly/CancellationToken-inl.h:318-319 | a new state with one source satisfies the invariant |
| Cancellation.StepWord | folly/CancellationToken.cpp:179-209 | after every step the word is the packing of the cancel flag, the lock and the two holder counts, and the deletions are counted by both being zero |
| Cancellation.StepInv | folly/CancellationToken.cpp:38-177 | every step of registering, deregistering, cancelling and reference counting keeps the invariant |
| Cancellation.RunInv | folly/CancellationToken.cpp:38-177 | every state of every run satisfies the invariant |
| Cancellation.OneWinner | folly/CancellationToken.cpp:119-177 | at most one step of a run sets the cancel bit, and at most one call returns false |
| Cancellation.CancelledByWinner | folly/CancellationToken.cpp:119-126 | a cancelled state has exactly such a step before it |
| Cancellation.LoserSeesCancelled | folly/CancellationToken.cpp:119-123 | a requestCancellation call that ends without winning returns true on a cancelled state |
| Cancellation.WinnerLeavesEmptyList | folly/CancellationToken.cpp:163-177 | when the winner returns, early or not, the list is empty and the call itself does not hold the lock, and both stay so; after the return through the final unlock the lock bit is clear |
| Cancellation.NewestFirst | folly/CancellationToken.cpp:129-139 | requestCancellation takes callbacks from the front of the list: when it takes one, none that stood before it is listed any more |
| Cancellation.LockedAfterReturn | folly/CancellationToken.cpp:163-177 | once the winner has returned, the lock bit is set exactly while some call holds the lock, and such a call removes a callback |
| CancellationWitness.EarlyReturnWhileLocked | folly/CancellationToken.cpp:163-169 | a run in which the early return happens while a thread that removes the callback holds the lock, so that return need not leave the lock free |
| Cancellation.InvokedOnce | folly/CancellationToken.cpp:38-73 | a callback is invoked, inline or by the canceller, at no more than one step of a run |
| Cancellation.EveryCallbackSettles | folly/CancellationToken.cpp:38-177 | a finished callback has exactly one fate: run inline, run by the canceller, taken by it, still listed, deregistered before running, or never cancellable; after the winner returned it has run once or been deregistered |
| Cancellation.NeverCancellableStays | folly/CancellationToken-inl.h:365-370 | a callback that was not registered because no source was left is never missed by a later cancellation |
| Cancellation.RemovedElsewhereIsOver | folly/CancellationToken.cpp:75-117 | when removeCallback returns on another thread the callback is not running, is not listed, and is never run or accessed in the rest of the run |
| Cancellation.RemovedIsNeverAccessed | folly/CancellationToken.cpp:145-161 | after removeCallback returns on any thread, also from inside the callback, requestCancellation makes no further access to the object |
| Cancellation.NoAccessAfterDestroy | folly/CancellationToken.cpp:149-161 | in no reachable state is the signalling thread about to touch a destroyed callback |
| Cancellation.WordCountsHolders | folly/CancellationToken-inl.h:84-102 | the token field counts tokens and registered callbacks not yet destroyed, run or not; the source field counts sources |
| Cancellation.DeletedOnce | folly/CancellationToken-inl.h:330-356 | the state has been deleted exactly when both fields are zero, and once |
| Cancellation.NothingAfterDelete | folly/CancellationToken.cpp:194-209 | at the deletion no lock is held, no callback listed and no call in flight, and no later step touches the state |
| CallbackList.RelinkedAt | folly/CancellationToken.cpp:81-88 | writing through prevNext_ and fixing the next callback takes one callback out and keeps every other link |
| CallbackList.List.PushFront | folly/CancellationToken.cpp:57-62 | the pointers represent the old list with the callback in front |
| CallbackList.List.IsListed | folly/CancellationToken.cpp:81-84 | prevNext_ is non-null exactly when the callback is still in the list |
| CallbackList.List.Unlink | folly/CancellationToken.cpp:84-87 | the pointers represent the list without the callback, in the order it had |
| CallbackList.List.PopFront | folly/CancellationToken.cpp:129-138 | the first callback is returned and marked, the rest stays linked, and anyMore tells whether there is one |
| SkipListLayout.LayersAreSortedSubsequences | folly/ConcurrentSkipList.h:336-344 | in a well-formed memory the pointers of each layer lead through strictly growing keys and each layer is a subsequence of the one below |
| SkipListLayout.RaiseKeepsForm | folly/ConcurrentSkipList.h:338-341 | the store that links a node into one more layer keeps the memory well formed |
| SkipListLayout.LowerKeepsForm | folly/ConcurrentSkipList.h:390-392 | the store that unlinks a node from its topmost layer keeps the memory well formed |
| SkipListLayout.PresentAtBound | folly/ConcurrentSkipList.h:438-445 | a key is present exactly when the node at the lower bound has it |
| SkipLists.SkipList.FindNodeDownRight | folly/ConcurrentSkipList.h:450-474 | the node returned is the lower bound and the flag says whether the key is present, where every node is linked at the bottom |
| SkipLists.SkipList.FindNodeRightDown | folly/ConcurrentSkipList.h:478-492 | the same node and the same flag |
| SkipLists.LinkedPart | folly/ConcurrentSkipList.h:450-492 | in every well-formed state the nodes linked at the bottom form, in the same memory and under the same head, a list the searches accept |
| SkipLists.FindBetweenStores | folly/ConcurrentSkipList.h:450-492 | either search, run on any state between two stores, returns the least linked key not below the one sought and says whether it is linked |
| SkipLists.SkipList.FindInsertionPoint | folly/ConcurrentSkipList.h:222-249 | from any node of its layer: the neighbours in each searched layer of the lower bound, or of the start itself if that is past it, and the highest layer in which the key is found |
| SkipLists.SkipList.LockNodesForChange | folly/ConcurrentSkipList.h:271-297 | after a search with no other writer the validation succeeds, so there is no retry |
| SkipLists.SkipList.LinkAll | folly/ConcurrentSkipList.h:338-341 | after every single store all layers are well formed, and the new key appears with the first store that links the bottom layer |
| SkipLists.SkipList.UnlinkAll | folly/ConcurrentSkipList.h:390-392 | after every single store all layers are well formed, and the key disappears with the last store |
| SkipLists.SkipList.AddOrGetData | folly/ConcurrentSkipList.h:306-357 | the contents become the union with the key, the node returned holds it, and the size returned is 0 exactly when it was present; the node returned is one of the list's |
| SkipLists.SkipList.Remove | folly/ConcurrentSkipList.h:359-399 | it succeeds exactly when the key is present, and the contents become the difference |
| SkipLists.SkipList.GrowHeight | folly/ConcurrentSkipList.h:502-525 | the contents are unchanged in every state on the way, and the head is as tall as asked |
| SkipLists.SkipList.CopyHead | folly/ConcurrentSkipList-inl.h:87-95 | the new head gets the old pointers below and null above, and no layer changes meanwhile |
| SkipLists.SkipList.Run | folly/ConcurrentSkipList.h:306-525 | any sequence of add, remove and growHeight gives the answers and contents of a mathematical set, with every intermediate state well formed |
| Skippers.Skipper.constructor | folly/ConcurrentSkipList.h:727-743 | the cursor stands on the first node, and the hint of each layer is the next one up, the top layer's own for the top |
| Skippers.Skipper.Advance | folly/ConcurrentSkipList.h:742-752 | operator++ moves to the next node and keeps every layer at or behind the cursor |
| Skippers.Skipper.To | folly/ConcurrentSkipList.h:789-811 | for any target: at the end it stays and answers false; else it lands on the lower bound exactly if the cached predecessor it restarts from is the head or has a smaller key, and right behind that node if not; it answers true exactly where it lands on a key that is present; a target ahead of the cursor is always reached; the layer it restarts from becomes the hint of the current height, and no other hint changes |
| Skippers.ToMissesKeyBehind | folly/ConcurrentSkipList.h:789-811 | after ++ over the keys 1 and 2 of a one-layer list, to(1) stays past 1 and answers false |
| Skippers.Skipper.Run | folly/ConcurrentSkipList.h:727-811 | any legal sequence of ++ and to puts the cursor where the same moves over the sorted keys put it, though upper layers may be stale |
| Recycler.StepInv | folly/ConcurrentSkipList-inl.h:258-304 | every step of addRef, add and releaseRef keeps the invariant |
| Recycler.RunInv | folly/ConcurrentSkipList-inl.h:258-304 | every state of every run satisfies the invariant |
| Recycler.DestroyedOnce | folly/ConcurrentSkipList-inl.h:296-302 | a node is destroyed at no more than one step of a run, and only after it was recycled |
| Recycler.DestroyedAfterRelease | folly/ConcurrentSkipList-inl.h:270-304 | every accessor open when a node was recycled has been released when the node is destroyed, and is never open again |
| Recycler.CountersAreExact | folly/ConcurrentSkipList-inl.h:258-304 | refs_ counts the open accessors, and with the lock free dirty_ says whether nodes wait |
| Recycler.DestructorCompletes | folly/ConcurrentSkipList-inl.h:249-256 | when no accessor is left, what was destroyed and what the destructor destroys is each recycled node exactly once |
| Recycler.LastReleaseDestroys | folly/ConcurrentSkipList-inl.h:270-304 | a release that takes refs_ from 1 to 0 under the lock takes every node that waits, leaves none when it gives up the lock, and has destroyed them all when it returns |
| Recycler.FastReleaseReason | folly/ConcurrentSkipList-inl.h:274-283 | a release that skips the lock has read dirty_ as false or refs_ as more than one |
| StringMemory.LastByteTells | folly/FBString.h:397-412 | the category read from the last byte names the layout, size() is the length of the text, and capacity() inverts setCapacity, in all three layouts |
| StringMemory.DropKeeps | folly/FBString.h:450-489 | giving up one string leaves all other texts and makes each count the number of remaining owners |
| StringMemory.ShareKeeps | folly/FBString.h:663-669 | a copied large string has the text of the original and the count fits the owners |
| StringMemory.WriteKeeps | folly/FBString.h:339-349 | a write by the only owner of a block changes no other string |
| StringMemory.NoStringsNoBlocks | folly/FBString.h:450-489 | when no string is left no block is left |
| StringCore.Heap.Create | folly/FBString.h:275-288 | the new string has the given text; it is small up to 23 characters where small strings are enabled, which asks for no memory and succeeds, else plain up to 254 and counted above; it fails exactly if the allocator refuses its one request |
| StringCore.Heap.Copy | folly/FBString.h:247-264 | the copy has the text of the original and every other string keeps its own; a small or large string is copied without asking for memory, and a medium one fails exactly if the allocator refuses |
| StringCore.Heap.Move | folly/FBString.h:268-273 | the text moves over and the source becomes empty |
| StringCore.Heap.Swap | folly/FBString.h:328-332 | the two texts are exchanged |
| StringCore.Heap.Destroy | folly/FBString.h:290-295 | the string is gone, and its block is freed exactly if it was the last owner |
| StringCore.Heap.Reserve | folly/FBString.h:370-389 | no text changes, and the string alone owns room for the capacity asked for; done is answered only where the copy of a small string ends within the block allocated for it, overran only where it does not; within a capacity of its own it succeeds |
| StringCore.CopyFitsExactly | folly/FBString.h:827-841 | under every rounding of the allocator the copy of a small string fits exactly where small strings are enabled or the capacity asked for is not below the size |
| StringCore.CopyFitsHere | folly/FBString.h:827-841 | under one given rounding it fits exactly there or where the rounded block is larger than the size |
| StringCore.CopyOverruns | folly/FBString.h:833-841 | reserve(0) with small strings disabled, on one of five characters and without rounding, allocates one byte for six |
| StringCore.Heap.Unshare | folly/FBString.h:746-759 | no text changes, and the string becomes the only owner of a block at least as large, so its capacity does not fall |
| StringCore.Heap.Expand | folly/FBString.h:859-890 | the characters written through the returned pointer follow the old text, and no other string changes; within the capacity it succeeds; beyond it, exponential growth gives at least 46 characters or half as much again as before; it fails exactly if the allocator refuses |
| StringCore.InPlaceAsksNothing | folly/FBString.h:247-918 | a string of at most 23 characters, copies of small and large strings, moves, swaps, destruction, room and characters within a capacity of one's own, and writes and cuts in an unshared string ask for no memory |
| StringCore.Heap.Shrink | folly/FBString.h:358-367 | the string loses its last characters and no string sharing its block does; with one owner it succeeds |
| StringCore.Heap.WriteChar | folly/FBString.h:339-349 | a write through mutableData changes that character of that string only; with one owner it succeeds |
| StringCore.Heap.Run | folly/FBString.h:247-918 | any sequence of operations on any set of strings, some of whose allocations may fail, gives each string the contents of an independent value; without such a failure every allowed operation succeeds, unless a reserve compiled with small strings disabled meets a small string longer than it asks for, where the run stops; with one setting throughout the run no operation does, and with small strings disabled none ever holds characters in place; every block is freed at most once, and exactly once when no string is left; an operation throws only where it asks for memory, and those that work in place never do |
| StringFind.ComputeSkip | folly/FBString.h:2022-2029 | the skip is the distance from the last character of the needle to its previous occurrence |
| StringFind.SkipMissesNothing | folly/FBString.h:2019-2031 | no match begins within a skip from a place where the last character fits |
| StringFind.Find | folly/FBString.h:1981-2041 | the result is the least match at or after pos, or npos if there is none, also when pos plus the needle's length wraps around |
| PolynomialBits.MulXnLinear | folly/detail/FingerprintPolynomial.h:61-102 | multiplication by a power of X modulo P is linear |
| PolynomialBits.ShiftAndReduce | folly/Fingerprint.h:113-138 | shifting bits in and adding the residue of what was shifted out is feeding the bits one at a time |
| PolynomialBits.TableSumReduces | folly/Fingerprint.cpp:89-107 | the table entries of the bytes shifted out add up to their residue |
| PolynomialBits.FeedIsRemainder | folly/Fingerprint.h:104-117 | feeding a message gives its polynomial, with the starting value in front, modulo P: a quotient exists |
| PolynomialBits.RemainderIsUnique | folly/detail/FingerprintPolynomial.h:64-87 | no other polynomial of smaller degree than P is congruent to the message |
| Fingerprints.Polynomial.MulX | folly/detail/FingerprintPolynomial.h:54-62 | the carry loop shifts all words left by one bit |
| Fingerprints.Polynomial.MulXmod | folly/detail/FingerprintPolynomial.h:88-95 | the value becomes its product with X modulo P, and the unused low bits stay zero |
| Fingerprints.Polynomial.SetHigh8Bits | folly/detail/FingerprintPolynomial.h:111-119 | the value becomes the byte times the power of X that makes it highest |
| Fingerprints.MakePolyTable | folly/Fingerprint.cpp:89-107 | entry i, q is the polynomial of q times X to the k + 8 i modulo P |
| Fingerprints.Fingerprint.ShlOr8 | folly/Fingerprint.h:220-271 | for all three widths the bits leave on the left and enter on the right, and unused bits stay zero |
| Fingerprints.Fingerprint.ShlOr32 | folly/Fingerprint.h:227-279 | the same for 32 bits |
| Fingerprints.Fingerprint.ShlOr64 | folly/Fingerprint.h:234-287 | the same for 64 bits |
| Fingerprints.Fingerprint.Update8 | folly/Fingerprint.h:113-117 | the fingerprint becomes the one of the message with the byte appended |
| Fingerprints.Fingerprint.Update32 | folly/Fingerprint.h:119-129 | the fingerprint becomes the one of the message with four bytes appended |
| Fingerprints.Fingerprint.Update64 | folly/Fingerprint.h:131-138 | the fingerprint becomes the one of the message with eight bytes appended |
| Fingerprints.Fingerprint.Update | folly/Fingerprint.h:140-146 | the fingerprint becomes the one of the message with the string appended |
| Fingerprints.WideUpdateIsByteUpdates | folly/Fingerprint.h:119-138 | feeding a word is feeding its bytes one by one, the highest first |
| Fingerprints.Fingerprint.IsRemainder | folly/Fingerprint.h:104-111 | after any updates the fingerprint is the remainder, and the only one, of the message polynomial with a one and k - 1 zeros in front, modulo P |
| Fingerprints.Fingerprint.constructor | folly/Fingerprint.h:104-111 | the first word is 1 << 63 and every other word is zero |
| Fingerprints.Fingerprint.LowBitsZero | folly/Fingerprint.h:241-263 | a 96-bit fingerprint keeps the low 32 bits of its second word zero |
| Decimal.ComparesByValue | folly/Conv.cpp:636-640 | comparing numerals of one length as strings compares their values |
| Decimal.LongerIsLarger | folly/Conv.cpp:621-641 | a longer numeral without a leading zero is larger |
| IntegerParse.MaxStringIsMax | folly/Conv.cpp:53-91 | each MaxString is the decimal form of the largest value of its width |
| IntegerParse.ShiftSumTells | folly/Conv.cpp:93-110 | for bytes whose sign-extended index is inside the tables, the sum of the entries is out of range exactly when a character is not a digit, else it is the value |
| IntegerParse.PassedFits | folly/Conv.cpp:636-640 | after the overflow test no prefix of digits exceeds the width |
| IntegerParse.FailedOverflows | folly/Conv.cpp:636-640 | a numeral that fails the test does not fit |
| IntegerParse.AddFour | folly/Conv.cpp:648-659 | a lookup of the group leaves its table exactly if a byte is 0x80 or more; otherwise the four-digit step in wrapping arithmetic is exact on digits and refuses the rest |
| IntegerParse.Accumulate | folly/Conv.cpp:643-703 | a lookup leaves its table exactly if some byte from 0x80 up has only digits in the groups of four before its own; otherwise the unchecked conversion is exact on digits and reports any other character |
| IntegerParse.UnsignedAnswerMeans | folly/Conv.cpp:605-703 | the answer as a function of the characters is the value of the digits exactly when it fits, and else the overflow, the non-digit or the lookup outside a table, which bytes below 0x80 never cause |
| IntegerParse.DigitsTo | folly/Conv.cpp:618-703 | after the sign it succeeds exactly on a non-empty range of digits whose value fits, with that value, and else reports overflow, no digits or a non-digit, or reads outside a table exactly where the text passes the overflow test and leaves it; past the end the size wraps around and the answer is overflow |
| IntegerParse.DigitsToTarget | folly/Conv.cpp:605-703 | for any type it gives the signed value if it is in range and the overflow on its side if not, and says exactly when a lookup leaves its table; for a signed type and an empty range it answers by the byte behind the range: no digits for a digit, the overflow of its side for a sign, else an invalid leading character |
| IntegerParse.RangeDecidesExactly | folly/Conv.cpp:605-703 | there is one answer, and the characters of the range alone give it, exactly where the type is unsigned or the range is not empty, and no lookup leaves its table |
| IntegerParse.LowBytesStay | folly/Conv.cpp:643-703 | no range of bytes below 0x80 makes a lookup leave its table |
| IntegerParse.HighByteLeaves | folly/Conv.cpp:684-684 | the one byte 0xFF, for an unsigned type, indexes one entry before the table |
| IntegerParse.EmptyRangeBeforeMinus | folly/Conv.cpp:613-640 | an empty range before a minus sign reports negative overflow, before a null character an invalid leading character, before a digit no digits |
| IntegerParse.SignedValueHandler.Init | folly/Conv.cpp:539-550 | a sign is consumed for signed types only, and any other leading character is refused |
| IntegerParse.SignedValueHandler.Finalize | folly/Conv.cpp:557-580 | the sign test by wraparound accepts exactly the values of the type |
| IntegerParse.TypeBounds | folly/Conv.cpp:557-580 | the least and greatest accepted value of each of the ten types, as numbers: -128 to 127 for 8 signed bits, and so on |
| IntegerParse.FindFirstNonDigit | folly/Conv.cpp:43-51 | the position returned ends the maximal run of digits |
| IntegerParse.StrToIntegral | folly/Conv.cpp:743-788 | the signed value of the maximal run of digits after whitespace if in range, else the overflow with its sign, else the right error; exactly that prefix is consumed, and nothing on an error |
| IntegerParse.StringAnswerIs | folly/Conv.cpp:743-788 | the answer by the first character that is not whitespace: empty input, invalid leading character, no digits, non-digit, or the value of the run of digits |
| IntegerParse.SpacesAre | folly/Conv.cpp:749-759 | whitespace is tab, line feed, vertical tab, form feed, carriage return and space, and nothing else |
| IntegerParse.SpaceIsSkipped | folly/Conv.cpp:749-759 | any of the six in front of an input changes nothing |
| IntegerParse.ParseNumeral | folly/Conv.cpp:743-788 | the numeral of any number between the least and greatest value of the type is given back whole, one outside is an overflow on its side, and a minus sign is refused for unsigned types |
| IntegerParse.Telescope128 | folly/Conv.h:384-429 | the text denotes the number, has no leading zero and fits the buffer |
| IntegerParse.PrintSigned128 | folly/Conv.h:547-562 | a minus sign exactly for negative numbers, then the magnitude, also for the least value |
| IntegerParse.PrintThenParseSigned | folly/Conv.cpp:743-788 | parsing the printed signed 128-bit number gives it back and leaves nothing |
| IntegerParse.PrintThenParseUnsigned | folly/Conv.cpp:743-788 | the same for unsigned numbers |

## Left out

- Weak memory orders, back-off and sleeping, and the internals of ThreadCachedInt.
- Progress: that a waiting thread is eventually released is not stated; the results are about every state of every finite run.
- Floating-point load factors and growth sizes of AtomicHashArray and AtomicHashMap: any capacity and any decision to stop growing is allowed.
- AtomicHashMap `clear`, `spaceRemaining`, iterators, `findAt` with its index encoding, and lookups by other key types.
- AtomicUnorderedInsertMap iteration over linked slots, the huge-page allocation and the mutable-data wrapper.
- Cancellation states that merge several tokens or carry data, and tokens and sources without a state.
- CallbackList.List.Unlink: does not clear prevNext_ of the removed callback, because its destructor is running and nothing reads it again.
- The skip list with readers or writers interleaved inside a search: writers are serialised and searches run on one state, which may be any state between two stores.
- The random height distribution and the size limits: a height between 1 and the head's and any decision to grow are inputs.
- Iterators, `first`, `last` and `lower_bound` of the skip list, and the recycler for arena allocators.
- StringCore.Heap.Reserve: says nothing about memory after a copy beyond the end of its block; the model stops before that copy.
- StringCore.Heap.Expand: takes the characters its caller writes through the returned pointer; their value before the write is arbitrary.
- IntegerParse.DigitsTo: says nothing about the answer after a lookup outside a table; the model stops at that lookup.
- Growing a block in place by realloc is modelled as a new block and the freeing of the old one.
- Writes through the non-const `data()` of fbstring, strings adopted from malloc, wide characters, big-endian layouts, and the operators, streams and iterator overloads of basic_fbstring.
- The values of the three polynomials and their irreducibility: every result holds for any P of the right degree.
- IntegerParse.DigitsToTarget: for a signed type and an empty range requires a readable byte behind the range, because the code reads it before it looks at the end.
- The conversion of one 64-bit number to decimal text is specified by its digits, not modelled.
- Floating-point, boolean and arithmetic conversions of Conv.
