# Verified models of libdispatch components and of list and array algorithms

This project models parts of the repository and proves properties of the models, in Dafny
4.11. `dafny verify dfyconfig.toml` checks everything.

From the vendored libdispatch source (`GCD/libdispatch-1271.40.12/src`):

- **Dispatch data objects** (`DataObjects`, `DataCounts`, `DataStore`, `CountRaces`,
  `CountCalls`, `FlattenRace`). An object is a leaf over a buffer or a list of records,
  each a piece of a leaf. Every object denotes a byte sequence; every constructor and
  every walk is proved against that meaning, and against the places of the bytes in the
  leaves. The store keeps reference counts, and its books balance. `CountRaces` is the
  same books under any number of threads that retain, release, dispose, build and read
  objects, or hand out leaves of them, one count at a time; `CountCalls` is what these
  calls come to, in any interleaving and undisturbed. `FlattenRace` is the race of any
  number of threads to publish the flat copy of one object.
- **Parallel apply** (`Totals`, `ApplyProtocol`, `ApplyRuns`, `ApplyWrap`, `ApplyPlan`,
  `QueueWidth`, `ApplyRedirect`). A step machine of the caller and the workers that share
  an apply record; the planning of thread counts under nesting; and the walk along a chain
  of target queues that reserves width and gives it back.
- **The continuation allocator** (`Powers`, `MagazineLayout`, `FirstPage`, `SlotProtocol`,
  `SlotRuns`, `PageReclaim`, `StaleMarks`, `Magazine`). The address arithmetic of a
  magazine; a step machine of threads that allocate, free, mark bitmaps as full, and lock
  whole pages of bitmaps; and the sequential searches and updates on arrays.

From the Swift files under `Algorithm/Algorithm`: `FindRepeat`, `PartSort`,
`RepeatedPattern`, `ReverseBetween` and `ThreeSum`, over the helper module `Sorting`.
`Basics` has the few definitions that several of all these modules share.

How the models are built:

- Code that changes state in place is a class or a method with loops. Concurrent code is a
  step machine: one function (or relation) gives one atomic step of one thread, a run is a
  sequence of states in which each follows from the one before by a step of some thread, and
  the theorems are about every state of every run. All atomic operations are sequentially
  consistent.
- Bitmap words are the sets of the positions of their ones. `size_t` is a number with an
  explicit wrap or an explicit bound wherever the source can reach it.
- System calls, allocation failure and client callbacks are parameters or abstract steps:
  `mallocOk` in the data objects, `reply` for the client's applier. What the other threads
  make of a queue's `dq_state` is the arbitrary function `Queue.theirs`, one word for each
  atomic step of the call; at every moment `dq_state` is that word plus the width that the
  call holds, in 64-bit arithmetic.

The steps of the machines are `FlattenRace.Step` (`data.c:460-475` and `519-548`),
`CountRaces.Next` (`data.c:257-270`, `356-359`, `374`, `390`, `454-456`, `496`, `537`, `619`
and `623`),
`ApplyProtocol.Next` (`apply.c:29-94`; thread 0 is the caller, which waits) and
`SlotProtocol.Next` (`allocator.c:221-287`, `486-519` and `524-593`), each over one atomic
operation of the source.

Where a promise does not hold of the code on all inputs, there is a member with an input for
which it fails, and the exact condition under which it holds:

- `dispatch_data_create_concat` adds the two sizes without a check. The result is well
  formed, and means the concatenation, exactly when the sum fits in `size_t`
  (`DataStores.DataStore.Concat`; it fails in `DataStores.OverflowingConcat`).
- `da_index` can wrap when iterations plus threads exceed `SIZE_MAX` + 1, and an index is
  then handed out twice (`ApplyWrap.AtMostOnceIff`; `ApplyWrap.WrapRunsTwice`).
- Nested applies keep the number of threads within the parallelism exactly when that is
  below twice `DISPATCH_APPLY_MAX` (`ApplyPlan.NestingKeepsParallelismIff`;
  `ApplyPlan.SaturationExceeds`).
- A set supermap bit is meant to say that its bitmap is full. It can stay set on a bitmap
  that is not, with no call in flight (`SlotRuns.StaleMarkRemains`). With no call in flight
  the bitmap is full exactly when the swap that last set the bit did not come too late, that
  is, when at that swap the bitmap was full or a free was about to clear the bit
  (`StaleMarks.RestingMarkIff`), and a mark goes stale by such a swap alone
  (`StaleMarks.StaleStepIff`). In sequential use the bit is set exactly when the
  bitmap is full (`Magazines.Magazine.MarkIfFull`).
- The bitmaps of every page lie inside the maps exactly when the maps hold whole pages
  (`MagazineLayout.PagesStayInMapsIff`; `MagazineLayout.PagesCanLeaveMaps`).
- The static assertion that the slots of the first page end with it holds under the
  condition of `FirstPage.PacksIff` (it fails in `FirstPage.FirstPageCanFailToPack`).
- `threeSum2` negates, and traps on the least `Int` where `threeSum` returns an empty list
  (`ThreeSum.LeastIntHasNoNegation`). On arrays of values up to a bound the sums of `threeSum`
  stay in `Int` exactly when three times the bound does, and the negations and sums of
  `threeSum2` exactly when twice the bound does (`ThreeSum.BruteForceFitsIff`,
  `ThreeSum.TwoPointersFitIff`).
- `reverseBetween` loses the end of the list exactly when `right` is past it and `left` is
  not (`ReverseBetween.NothingLostIff`; `ReverseBetween.SomethingCanBeLost`).

A one-record object, a trivial subrange in the words of the header comment of `data.c`, need
not be a proper part of its leaf: `dispatch_data_create_subrange` on a leaf makes one that
covers the whole leaf exactly when the range starts at 0 and is longer than the leaf
(`DataStores.DataStore.Subrange`). `DataObjects.WellFormed` asks no more of such an object than
the comment does, that its record points to a leaf.

## Model

| member | source | states |
|---|---|---|
| `FindRepeat.FindRepeatNumber` | Algorithm/Algorithm/Interview/FindRepeatNumberController.swift:33-45 | with values in 0..n-1 the search ends, returns -1 exactly for a permutation, and otherwise a value that occurs at least twice in the input |
| `FindRepeat.SwapAddsFixedPoint` | Algorithm/Algorithm/Interview/FindRepeatNumberController.swift:37-42 | a swap that the loop performs keeps every fixed point and adds one, which is why the loop ends |
| `FindRepeat.PlacedSwap` | Algorithm/Algorithm/Interview/FindRepeatNumberController.swift:41 | a swap keeps the array a rearrangement of the input with its first places done |
| `FindRepeat.CollisionIsRepeat` | Algorithm/Algorithm/Interview/FindRepeatNumberController.swift:38-40 | when the place of a value holds an equal value, that value occurs twice in the input and the input is no permutation |
| `FindRepeat.RepeatIffNotPermutation` | Algorithm/Algorithm/Interview/FindRepeatNumberController.swift:25-33 | an input in range repeats a value if and only if it is not a permutation, so a repeat is found whenever there is one |
| `PartSort.SubSort` | Algorithm/Algorithm/Interview/PartSortController.swift:33-64 | (-1, -1) exactly for a sorted array; otherwise sorting the interval sorts the whole array and every interval with that effect contains it |
| `PartSort.IntervalSuffices` | Algorithm/Algorithm/Interview/PartSortController.swift:47-63 | sorting from the first element that is above a later one to the last that is below an earlier one sorts the whole array |
| `PartSort.InversionIsCovered` | Algorithm/Algorithm/Interview/PartSortController.swift:47-63 | every interval whose sorting sorts the array contains both ends of every inversion |
| `RepeatedPattern.DoublingTrick` | Algorithm/Algorithm/Interview/RepeatedSubstringPatternController.swift:29-42 | the test answers true if and only if the string is a shorter word repeated two or more times, for every string |
| `RepeatedPattern.RotationGcd` | Algorithm/Algorithm/Interview/RepeatedSubstringPatternController.swift:36-41 | rotations by a and by b that fix a string make the rotation by their gcd fix it |
| `RepeatedPattern.PeriodIsRepeat` | Algorithm/Algorithm/Interview/RepeatedSubstringPatternController.swift:29-30 | a string fixed by the rotation by g, of length m times g, is its first g characters m times |
| `RepeatedPattern.OccurrenceIsRepeat` | Algorithm/Algorithm/Interview/RepeatedSubstringPatternController.swift:36-41 | an occurrence in the trimmed double makes the string a shorter word repeated |
| `RepeatedPattern.RepeatOccurs` | Algorithm/Algorithm/Interview/RepeatedSubstringPatternController.swift:36-41 | a repeated word occurs in its double one copy further |
| `ReverseBetween.ReverseBetweenController.ReverseBetween` | Algorithm/Algorithm/Interview/ReverseBetweenController.swift:47-56 | the result is an acyclic list of the same node objects with positions left..right reversed, values being constants |
| `ReverseBetween.ReverseBetweenController.ReverseTopRight` | Algorithm/Algorithm/Interview/ReverseBetweenController.swift:57-68 | reverses the first `right` nodes in place and leaves the node behind them in the shared field, on all levels of the recursion; on a shorter list the head is lost |
| `ReverseBetween.ReverseBetweenController.PutBehind` | Algorithm/Algorithm/Interview/ReverseBetweenController.swift:65-66 | the two assignments put the head behind the last reversed node and the shared successor behind the head |
| `ReverseBetween.PlacesAfterReversal` | Algorithm/Algorithm/Interview/ReverseBetweenController.swift:47-56 | position by position: mirrored inside the interval, unmoved outside |
| `ReverseBetween.ReversalUndoes` | Algorithm/Algorithm/Interview/ReverseBetweenController.swift:47-56 | reversing the same interval again restores the list |
| `ReverseBetween.NothingLostIff` | Algorithm/Algorithm/Interview/ReverseBetweenController.swift:47-68 | no node is lost if and only if the interval lies inside the list or wholly behind it |
| `ReverseBetween.SomethingCanBeLost` | Algorithm/Algorithm/Interview/ReverseBetweenController.swift:47-68 | reversing positions 2 to 5 of the list 1, 2, 3 leaves the first node alone |
| `ThreeSum.ThreeSum` | Algorithm/Algorithm/Sum/ThreeSumController.swift:52-73 | brute force lists exactly the sorted zero-sum triples taken from different places, none twice, with sums of unbounded width |
| `ThreeSum.ThreeSum2` | Algorithm/Algorithm/Sum/ThreeSumController.swift:102-137 | two pointers list exactly the same triples, none twice, for every array, with sums and negations of unbounded width |
| `ThreeSum.TwoPointers` | Algorithm/Algorithm/Sum/ThreeSumController.swift:110-134 | the inner search finds exactly the answers that start at place i, none twice |
| `ThreeSum.MovePointer` | Algorithm/Algorithm/Sum/ThreeSumController.swift:129-133 | moving a pointer after a miss skips no answer |
| `ThreeSum.MovePastHit` | Algorithm/Algorithm/Sum/ThreeSumController.swift:117-127 | skipping equal members after a hit skips no answer that is not listed |
| `ThreeSum.SubsetHasPlaces` | Algorithm/Algorithm/Sum/ThreeSumController.swift:52-73 | a triple that is a sub-multiset of the array comes from different places of it |
| `ThreeSum.BruteForceFitsIff` | Algorithm/Algorithm/Sum/ThreeSumController.swift:64 | on all arrays of values up to a bound the sums stay in Int if and only if three times the bound does |
| `ThreeSum.TwoPointersFitIff` | Algorithm/Algorithm/Sum/ThreeSumController.swift:114-116 | on all such arrays the negations and sums of the two pointers do if and only if twice the bound does |
| `ThreeSum.LeastIntHasNoNegation` | Algorithm/Algorithm/Sum/ThreeSumController.swift:114 | on the array of the least Int alone the two pointers leave Int and brute force does not |
| `DataObjects.TilesMeaning` | GCD/libdispatch-1271.40.12/src/data.c:563-604 | the tiles of an object, with or without a flat buffer, cover [0, size) in order without gap and hold its bytes |
| `DataObjects.TileIsSlice` | GCD/libdispatch-1271.40.12/src/data.c:563-604 | every tile holds the slice of the whole at its offset |
| `DataObjects.AcrossRecords` | GCD/libdispatch-1271.40.12/src/data.c:416-457 | the bytes of a range from the middle of one record to the middle of a later one |
| `DataObjects.SpanningBytes` | GCD/libdispatch-1271.40.12/src/data.c:442-457 | the copied and patched records of a subrange mean that range |
| `DataObjects.RecordsBytesAppend` | GCD/libdispatch-1271.40.12/src/data.c:338-355 | the meaning of two record lists one behind the other is the concatenation |
| `DataObjects.PlaceHolds` | GCD/libdispatch-1271.40.12/src/data.c:563-584 | a byte of an object is the byte at its place in a leaf, so objects with the same places share memory and mean the same |
| `DataObjects.SpanningPlaces` | GCD/libdispatch-1271.40.12/src/data.c:442-457 | the copied and patched records keep every byte of the range at its place |
| `DataObjects.RecordPart` | GCD/libdispatch-1271.40.12/src/data.c:410-414 | a range taken from the leaf under one record is that range of the whole object, place by place |
| `DataObjects.JoinedPlaces` | GCD/libdispatch-1271.40.12/src/data.c:338-355 | a concatenation keeps every byte of both objects at its place |
| `DataStores.DataStore.Create` | GCD/libdispatch-1271.40.12/src/data.c:181-218 | a leaf with the client's bytes, over the client's buffer or a copy; for an empty buffer the empty object, with its destructor called at once, or the crashing block of the inline destructor queued; when it is out of memory or writes through null |
| `DataStores.DataStore.Concat` | GCD/libdispatch-1271.40.12/src/data.c:317-361 | the records of both; well formed and meaning the concatenation if and only if the sizes add up within size_t; counts balanced; fails exactly when the record storage overflows |
| `DataStores.DataStore.ConcatNonEmpty` | GCD/libdispatch-1271.40.12/src/data.c:332-360 | the same for two non-empty objects |
| `DataStores.OverflowingConcat` | GCD/libdispatch-1271.40.12/src/data.c:337 | a leaf of 2^63 bytes joined with itself succeeds and is not well formed |
| `DataStores.DataStore.Subrange` | GCD/libdispatch-1271.40.12/src/data.c:363-458 | the clamped slice of the bytes, as a part of the object: every byte stays in its leaf at its place, and there are as many records as the range meets, so nothing is copied and no flat buffer used; well formed, counts balanced, both crashes unreachable, the object itself for its whole range; of a leaf, one record of all its bytes exactly for a longer range from 0 |
| `DataStores.DataStore.SubrangeInside` | GCD/libdispatch-1271.40.12/src/data.c:384-414 | the same for a range inside the object, from a leaf, from one record, or from several |
| `DataStores.DataStore.SubrangeAcross` | GCD/libdispatch-1271.40.12/src/data.c:416-457 | the same for a range over several records |
| `DataStores.DataStore.FindStart` | GCD/libdispatch-1271.40.12/src/data.c:394-408 | finds the record that contains the offset; the crash behind the loop is unreachable |
| `DataStores.DataStore.FindEnd` | GCD/libdispatch-1271.40.12/src/data.c:416-440 | finds the record that contains the end and how much of it is used; the crash is unreachable |
| `DataStores.DataStore.ApplyFrom` | GCD/libdispatch-1271.40.12/src/data.c:563-584 | delivers the tiles of the range in order up to the first refusal, through trivial subranges and flat buffers |
| `DataStores.DataStore.Apply` | GCD/libdispatch-1271.40.12/src/data.c:586-604 | the applier gets the tiles of the object in order, up to and including the first it refuses; true exactly when it refuses none |
| `DataStores.DeliveredStops` | GCD/libdispatch-1271.40.12/src/data.c:571-584 | the delivered calls are a prefix, and either everything or ended by the first refusal |
| `DataStores.DataStore.Flatten` | GCD/libdispatch-1271.40.12/src/data.c:460-475 | a new buffer with exactly the bytes of the object |
| `DataStores.DataStore.CreateMap` | GCD/libdispatch-1271.40.12/src/data.c:481-517 | an object with the same bytes and a pointer to storage of that very object, its leaf's buffer or its flat buffer, that holds them; the object itself when it has one, otherwise a new leaf over exactly the new copy; null only when memory fails |
| `DataStores.DataStore.GetFlattenedBytes` | GCD/libdispatch-1271.40.12/src/data.c:519-548 | a pointer into storage of the object that holds its bytes and is what later walks use; null only for the empty object or when memory fails |
| `DataStores.DataStore.CopyRegion` | GCD/libdispatch-1271.40.12/src/data.c:663-674 | precisely the tile that contains the location, as the object, a leaf or a trivial subrange, with its offset; every byte stays in its leaf at its place |
| `DataStores.DataStore.CopyRegionFrom` | GCD/libdispatch-1271.40.12/src/data.c:606-661 | the same for a range of an object at a base offset |
| `DataStores.DataStore.FindRecord` | GCD/libdispatch-1271.40.12/src/data.c:636-660 | finds the record containing a location; the crash behind the loop is unreachable |
| `DataStores.DataStore.NewObject` | GCD/libdispatch-1271.40.12/src/data.c:336-360 | a new object whose caller holds one reference and whose record objects gained one each; the books still balance |
| `DataStores.DataStore.RetainRecords` | GCD/libdispatch-1271.40.12/src/data.c:356-359 | every record's object gains one reference for each record that points at it |
| `DataStores.DataStore.Retain` | GCD/libdispatch-1271.40.12/src/data.c:323-330 | one more reference held outside, books balanced |
| `DataStores.DataStore.Release` | GCD/libdispatch-1271.40.12/src/data.c:257-270 | an object disappears exactly when nothing refers to it any more; destructors and flat buffers are accounted for; books balanced |
| `DataStores.DataStore.ReleaseRecords` | GCD/libdispatch-1271.40.12/src/data.c:264-267 | releasing the records of a dead composite balances the books again |
| `DataCounts.DroppedBalances` | GCD/libdispatch-1271.40.12/src/data.c:257-270 | dropping a surplus reference balances the books, up to the records that a dead composite still owes |
| `DataCounts.DroppedOwing` | GCD/libdispatch-1271.40.12/src/data.c:257-270 | dropping a surplus reference, whatever is owed, leaves that owed and the records of the object if it died |
| `DataCounts.AddedBalanced` | GCD/libdispatch-1271.40.12/src/data.c:336-360 | a new object with retained records keeps counts equal to outside references plus records of live objects |
| `DataCounts.PublishedBalanced` | GCD/libdispatch-1271.40.12/src/data.c:534-542 | publishing a flat buffer keeps the books |
| `DataCounts.LiveObjectsAreBacked` | GCD/libdispatch-1271.40.12/src/data.c:257-270 | a live object never denotes a destroyed buffer |
| `DataCounts.NothingHeldNothingLeft` | GCD/libdispatch-1271.40.12/src/data.c:257-270 | when nothing is held outside, every object is gone, every leaf's destructor ran exactly once and every published flat buffer was freed once |
| `CountRaces.StepInv` | GCD/libdispatch-1271.40.12/src/data.c:257-270 | under every interleaving each step on one count, the hand-out of an inner leaf included, keeps every count equal to outside references plus records of live objects plus what running calls account for |
| `CountRaces.FinishedOwing` | GCD/libdispatch-1271.40.12/src/data.c:356-360 | the references that a constructor retained one by one become the records of its object |
| `CountRaces.HandOutBooks` | GCD/libdispatch-1271.40.12/src/data.c:410-414 | returning the leaf of a record to the caller keeps the books and makes the leaf held, also when nobody held it outside |
| `CountRaces.StepsTouchLiveCounts` | GCD/libdispatch-1271.40.12/src/data.c:264-267 | in every run no step increments or decrements the count of a disposed object |
| `CountRaces.DestructorRunsOnceAfterLastUse` | GCD/libdispatch-1271.40.12/src/data.c:257-270 | in every run a leaf's destructor has run once if the leaf is gone and not before; what is gone is held by no caller, no running call and no live object |
| `CountRaces.CallsReadLiveLeaves` | GCD/libdispatch-1271.40.12/src/data.c:563-584 | in every run, while a call runs, its arguments and every leaf they consist of are there and their destructors have not run |
| `CountRaces.DisposeEnds` | GCD/libdispatch-1271.40.12/src/data.c:264-267 | in every run a dispose that owes n records is over after n steps of its own thread and until then that thread can step |
| `CountRaces.NothingLeftAtRest` | GCD/libdispatch-1271.40.12/src/data.c:257-270 | in every run, once all calls have returned and nothing is held, every object is gone, every leaf's destructor ran once and every flat buffer was freed once |
| `CountCalls.HeldIsAcquired` | GCD/libdispatch-1271.40.12/src/data.c:323-361 | in every run, callers hold exactly the references that constructors, retains and hand-outs gave them, less those they released |
| `CountCalls.PublishedBySwap` | GCD/libdispatch-1271.40.12/src/data.c:537-542 | in every run, exactly the flat buffers whose compare-and-swap succeeded are published |
| `CountCalls.BuildsAlone` | GCD/libdispatch-1271.40.12/src/data.c:336-360 | from every reachable state a constructor that nobody disturbs makes its object, with the same change to the books as the sequential constructor |
| `CountCalls.EverythingCanGo` | GCD/libdispatch-1271.40.12/src/data.c:257-270 | from every reachable state without calls in progress, releases and disposes alone can end with every object gone, each leaf destroyed once and each flat buffer freed once |
| `FlattenRace.StepInv` | GCD/libdispatch-1271.40.12/src/data.c:519-548 | every step of every thread keeps the invariant of the race |
| `FlattenRace.PublishedForever` | GCD/libdispatch-1271.40.12/src/data.c:534-542 | a published buffer stays published with its content for the rest of the run |
| `FlattenRace.AllGetTheSame` | GCD/libdispatch-1271.40.12/src/data.c:519-548 | all threads that get a buffer get the same one; it holds the object's bytes and is never freed |
| `FlattenRace.GetsTheBuffer` | GCD/libdispatch-1271.40.12/src/data.c:519-548 | from every reachable state, so from the start too, a thread that has not returned gets a buffer by its own steps alone while there is memory: the published one, or its own if there is none, which then is published |
| `FlattenRace.CallEnds` | GCD/libdispatch-1271.40.12/src/data.c:519-548 | in every run a call is over after six of its own steps, and four once it has allocated, whatever the others do; a thread that has allocated gets a buffer |
| `FlattenRace.NullIffNoMemory` | GCD/libdispatch-1271.40.12/src/data.c:534-545 | in every run a thread has returned NULL if and only if its own malloc failed |
| `FlattenRace.LoadedIsReturned` | GCD/libdispatch-1271.40.12/src/data.c:529-532 | in every run a thread that loads a published pointer returns that buffer |
| `FlattenRace.LosersFreeOnce` | GCD/libdispatch-1271.40.12/src/data.c:537-542 | a thread that returned published its block or freed it exactly once |
| `FlattenRace.NoUseAfterFree` | GCD/libdispatch-1271.40.12/src/data.c:460-475 | no step reads or frees a freed block |
| `FlattenRace.MeaningUnchanged` | GCD/libdispatch-1271.40.12/src/data_internal.h:124-149 | a walk sees the same bytes before, during and after the race |
| `ApplyProtocol.StepInv` | GCD/libdispatch-1271.40.12/src/apply.c:29-94 | every step of caller and workers keeps the counters, owners and places consistent |
| `ApplyProtocol.IndexIsClaims` | GCD/libdispatch-1271.40.12/src/apply.c:36 | a claim reads the number of claims made before it |
| `ApplyRuns.AtMostOnce` | GCD/libdispatch-1271.40.12/src/apply.c:61-69 | under every schedule no index is begun or ended twice |
| `ApplyRuns.SignalledMeansDone` | GCD/libdispatch-1271.40.12/src/apply.c:78-82 | when the event is signalled, it was signalled once and every index was run exactly once |
| `ApplyRuns.CallerReturnsAfterAll` | GCD/libdispatch-1271.40.12/src/apply.c:84-87 | the caller gets past its wait only after every index has been run exactly once |
| `ApplyRuns.StackFrameIsAlive` | GCD/libdispatch-1271.40.12/src/apply.c:39-41 | a thread that reads da_dc or works on an index does so before the caller's wait ends |
| `ApplyRuns.FreedByTheLast` | GCD/libdispatch-1271.40.12/src/apply.c:88-93 | the record is freed at most once, exactly when every thread has left |
| `ApplyRuns.NoUseAfterFree` | GCD/libdispatch-1271.40.12/src/apply.c:88-93 | no thread that can still step sees a freed record |
| `ApplyRuns.FinishedRunFreed` | GCD/libdispatch-1271.40.12/src/apply.c:78-93 | a run that can go no further has signalled once, freed the record once and run every index once |
| `ApplyRuns.StepProgress` | GCD/libdispatch-1271.40.12/src/apply.c:29-94 | every step makes a measure smaller |
| `ApplyRuns.RunBounded` | GCD/libdispatch-1271.40.12/src/apply.c:29-94 | no run has more than 3 * iterations + 9 * threads steps |
| `ApplyRuns.SomeStartedThreadCanStep` | GCD/libdispatch-1271.40.12/src/apply.c:84-87 | until the caller has returned, some thread that has already started can step |
| `ApplyRuns.CompletesWithoutWorkers` | GCD/libdispatch-1271.40.12/src/apply.c:156-191 | from every reachable state the started threads alone bring the caller home; no queued worker need start |
| `ApplyRuns.TakesTheRest` | GCD/libdispatch-1271.40.12/src/apply.c:36-69 | from every reachable state any thread that has not failed a claim, caller or worker, can run every unclaimed index by its own steps alone |
| `ApplyWrap.WrapRunsTwice` | GCD/libdispatch-1271.40.12/src/apply.c:36-37 | when iterations plus threads exceed SIZE_MAX + 1 there is a run that begins index 0 twice |
| `ApplyWrap.AtMostOnceIff` | GCD/libdispatch-1271.40.12/src/apply.c:36-69 | every schedule begins each index at most once if and only if iterations plus threads do not exceed SIZE_MAX + 1 |
| `ApplyPlan.ChainWithin` | GCD/libdispatch-1271.40.12/src/apply.c:311-323 | nested calls keep the product of their thread counts within the parallelism, whatever width each is granted; `PlanIsLargest` and `EveryIterationItsThread` bound the plan from below |
| `ApplyPlan.NestingKeepsParallelismIff` | GCD/libdispatch-1271.40.12/src/apply.c:311-323 | they do at every depth and for every grant if and only if the parallelism is below twice DISPATCH_APPLY_MAX |
| `ApplyPlan.SaturationExceeds` | GCD/libdispatch-1271.40.12/src/apply.c:318-319 | three nested calls that exceed it from twice DISPATCH_APPLY_MAX on, by the saturated nesting |
| `ApplyPlan.PlanIsLargest` | GCD/libdispatch-1271.40.12/src/apply.c:311-323 | the planned thread count is the largest within the iterations and, times the enclosing iterations, within the parallelism, one thread being always allowed |
| `ApplyPlan.EveryIterationItsThread` | GCD/libdispatch-1271.40.12/src/apply.c:311-323 | nested calls with no more iterations in all than the parallelism, and with full grants, get a thread for every iteration at any depth |
| `ApplyPlan.GrantIsUsed` | GCD/libdispatch-1271.40.12/src/apply.c:311-345 | an outermost call with enough iterations works with exactly the parallelism when that is granted, and otherwise with the caller and one thread for each granted width |
| `ApplyPlan.ParallelPathIsLegal` | GCD/libdispatch-1271.40.12/src/apply.c:321-345 | the parallel path, with or without redirection, starts with at least two threads and no more than iterations, as the protocol theorems require |
| `QueueWidth.AddWidth` | GCD/libdispatch-1271.40.12/src/apply.c:212 | adding width to the state word moves the width field alone |
| `QueueWidth.ShareIsWidth` | GCD/libdispatch-1271.40.12/src/apply.c:212-226 | a share added to the word of the others is that much width and nothing else, as long as the field has room |
| `ApplyRedirect.Queue.TryReserve` | GCD/libdispatch-1271.40.12/src/apply.c:193-215 | adds to dq_state, in one atomic step, exactly the smaller of the wanted width and the width available in the word of that step, changes no other bit and never exceeds the full width |
| `ApplyRedirect.Queue.GiveBack` | GCD/libdispatch-1271.40.12/src/apply.c:226 | takes width that the call holds out of dq_state in one atomic step and, as long as the field has room for all shares, changes nothing else in it |
| `ApplyRedirect.Relinquish` | GCD/libdispatch-1271.40.12/src/apply.c:217-229 | takes that much width out of the dq_state of every queue from the top to the stop queue and is not at the others, whatever other threads do meanwhile |
| `ApplyRedirect.ReserveOne` | GCD/libdispatch-1271.40.12/src/apply.c:240-249 | after each turn the dq_state of every queue passed holds exactly what the narrowest offered |
| `ApplyRedirect.ReserveChain` | GCD/libdispatch-1271.40.12/src/apply.c:231-258 | the loop ends with nothing held, or with every dq_state of the chain holding da_width and da_thr_cnt == da_width + 1, da_width being the narrowest offer |
| `ApplyRedirect.Redirect` | GCD/libdispatch-1271.40.12/src/apply.c:231-262 | the work runs once, serially exactly when some queue offers no width; on both exits every dq_state is what the other threads alone made of it |
| `ApplyRedirect.NoRepeat` | GCD/libdispatch-1271.40.12/src/apply.c:257-258 | a target chain that ends at a root visits no queue twice |
| `Powers.MaskRoundsDown` | GCD/libdispatch-1271.40.12/src/allocator_internal.h:135-142 | the bitwise and with the complement of 2^k - 1 rounds down to a multiple of 2^k |
| `MagazineLayout.SlotsFit` | GCD/libdispatch-1271.40.12/src/allocator_internal.h:128-133 | the main array of slots ends inside the magazine |
| `MagazineLayout.SlotsInARow` | GCD/libdispatch-1271.40.12/src/allocator.c:74-93 | slots and bitmaps lie one behind the other in the order of their indices, from the second page and from the first map on |
| `MagazineLayout.LocateSlot` | GCD/libdispatch-1271.40.12/src/allocator.c:82-166 | from supermap, bitmap and index to the slot address and back is the identity |
| `MagazineLayout.SlotOfPlace` | GCD/libdispatch-1271.40.12/src/allocator.c:137-166 | from the address of any slot of the main array to its place and back is the identity |
| `MagazineLayout.BitmapIndices` | GCD/libdispatch-1271.40.12/src/allocator.c:102-120 | from a bitmap address back to its magazine, supermap and position |
| `MagazineLayout.FirstBitmap` | GCD/libdispatch-1271.40.12/src/allocator.c:191-208 | the mask goes back to the first bitmap of the group |
| `MagazineLayout.SameFirstBitmapSamePage` | GCD/libdispatch-1271.40.12/src/allocator.c:191-208 | two bitmaps have the same first bitmap if and only if their slots share a page |
| `MagazineLayout.MadviseFindsFirstBitmap` | GCD/libdispatch-1271.40.12/src/allocator.c:168-189 | looking up the page base gives the same first bitmap as the mask |
| `MagazineLayout.PagesStayInMapsIff` | GCD/libdispatch-1271.40.12/src/allocator.c:534-542 | the bitmaps of every page lie inside the maps if and only if the maps hold whole pages |
| `MagazineLayout.PagesCanLeaveMaps` | GCD/libdispatch-1271.40.12/src/allocator.c:534-542 | a legal layout with 320 bitmaps and 128 bitmaps in a page, where the page of bitmap 256 leaves the maps |
| `MagazineLayout.WholeSupermapsHoldPages` | GCD/libdispatch-1271.40.12/src/allocator_internal.h:124-131 | they hold whole pages when the bitmaps of a page divide the bitmaps of a supermap |
| `MagazineLayout.PowersAreLegal` | GCD/libdispatch-1271.40.12/src/allocator_internal.h:111-171 | power-of-two sizes meet the static assertions once the metadata fits in the first page |
| `MagazineLayout.UsualLayoutsAreLegal` | GCD/libdispatch-1271.40.12/src/allocator.c:598-648 | the static assertions hold for 64-byte slots and 64-bit words with 512 pages of 16384 or 4096 bytes and with 64 pages of 16384 bytes |
| `MagazineLayout.DoubleRounding` | GCD/libdispatch-1271.40.12/src/allocator.c:642-647 | rounding up to one power of two and then another aligns to both |
| `MagazineLayout.MasksRoundDown` | GCD/libdispatch-1271.40.12/src/allocator.c:95-135 | the address masks of the source are the rounding of the model |
| `FirstPage.PacksIff` | GCD/libdispatch-1271.40.12/src/allocator.c:631-641 | when the first-page slots end exactly with the page |
| `FirstPage.FirstPageCanFailToPack` | GCD/libdispatch-1271.40.12/src/allocator.c:638-640 | a legal layout whose first page has room for one slot and does not pack |
| `FirstPage.SmallMagazinePacks` | GCD/libdispatch-1271.40.12/src/allocator_internal.h:173-190 | a magazine of 64 pages of 16384 bytes packs three full bitmaps and 38 more slots into its first page |
| `FirstPage.FirstSlotsInARow` | GCD/libdispatch-1271.40.12/src/allocator.c:146-157 | first-page slots lie one behind the other in the order of their bitmaps and indices, and end with the page when it packs |
| `FirstPage.LocateFirstPageSlot` | GCD/libdispatch-1271.40.12/src/allocator.c:146-157 | every index a first-page bitmap may hand out lies in the first page and its address leads back to it |
| `FirstPage.FirstPageSlotOfPlace` | GCD/libdispatch-1271.40.12/src/allocator.c:146-157 | the address of any first-page slot leads to a bitmap and an index that may be handed out, and these lead back to it |
| `FirstPage.RealignCuts` | GCD/libdispatch-1271.40.12/src/allocator.c:363-399 | both ways of realigning cut the mapping into three pieces, the middle one being aligned magazines |
| `SlotProtocol.StepInv` | GCD/libdispatch-1271.40.12/src/allocator.c:221-593 | every step of every thread keeps owners, locks, bitmaps and supermaps consistent |
| `SlotProtocol.ClearBitIsFree` | GCD/libdispatch-1271.40.12/src/allocator.c:221-232 | the clear bit that an allocation sets belongs to no owner and no lock |
| `SlotProtocol.HeldBitIsSet` | GCD/libdispatch-1271.40.12/src/allocator.c:244-266 | while a thread holds a slot its bit is set and its bitmap is not locked |
| `SlotRuns.BitsAreOwners` | GCD/libdispatch-1271.40.12/src/allocator.c:221-266 | the ones of a bitmap are its owned slots, or it is locked, all ones and without owned slots |
| `SlotRuns.NoSlotTwice` | GCD/libdispatch-1271.40.12/src/allocator.c:486-519 | no slot is held by two threads, or by a thread and a caller |
| `SlotRuns.OwnershipChanges` | GCD/libdispatch-1271.40.12/src/allocator.c:486-593 | only an allocation of a clear bit starts an ownership, and only the free of the slot ends it |
| `SlotRuns.NoDoubleFreeCrash` | GCD/libdispatch-1271.40.12/src/allocator.c:256-266 | the crash for a clear bit is unreachable for callers that free what they own |
| `SlotRuns.AdvisedPageIsFree` | GCD/libdispatch-1271.40.12/src/allocator.c:543-563 | a page is madvised only while one thread holds all of its bitmaps and no slot on it is owned |
| `SlotRuns.PageSteps` | GCD/libdispatch-1271.40.12/src/allocator.c:524-573 | a bitmap is locked from all zeroes and goes back to all zeroes, on success and on giving up; no other bitmap changes and no other thread touches a held one |
| `PageReclaim.EmptyPageIsAdvised` | GCD/libdispatch-1271.40.12/src/allocator.c:524-573 | from every reachable state in which a free has emptied its bitmap and the whole page is empty, the freeing thread alone goes on to advise the page and becomes idle with every bitmap of the page empty again |
| `PageReclaim.EmptiedPageIsTried` | GCD/libdispatch-1271.40.12/src/allocator.c:586-592 | in every run, a thread whose free empties a bitmap is not idle again before it has advised the page or has seen a bitmap of the page that is not empty |
| `PageReclaim.FreesEnd` | GCD/libdispatch-1271.40.12/src/allocator.c:524-593 | in every reachable state a step inside a free brings it closer to its end and no other thread sets it back: 3 * perPage + 4 own steps at most |
| `PageReclaim.AllocatesAlone` | GCD/libdispatch-1271.40.12/src/allocator.c:486-519 | an idle thread that tries a bitmap with a clear bit gets the lowest one by its own steps alone, changes no other bit, and marks the bitmap if that filled it |
| `SlotRuns.SuperBitHasCause` | GCD/libdispatch-1271.40.12/src/allocator.c:268-287 | a set supermap bit's cause is still owned, or its free is about to clear the bit |
| `SlotRuns.QuiescentState` | GCD/libdispatch-1271.40.12/src/allocator.c:575-593 | with no call in flight the ones are the callers' slots and an all-zero bitmap has a clear supermap bit |
| `SlotRuns.StaleMarkRemains` | GCD/libdispatch-1271.40.12/src/allocator.c:276-286 | a run that leaves a supermap bit set on a bitmap that is not full |
| `StaleMarks.StaleStepIff` | GCD/libdispatch-1271.40.12/src/allocator.c:276-286 | under every interleaving a mark goes stale exactly by a swap that sets it while the bitmap is not full and no free is about to clear it |
| `StaleMarks.MarkChange` | GCD/libdispatch-1271.40.12/src/allocator.c:256-287 | a step sets the mark of a bitmap exactly by a successful swap for it and clears it exactly by a free of it; no other mark changes |
| `StaleMarks.RestingMarkIff` | GCD/libdispatch-1271.40.12/src/allocator_internal.h:232-234 | in every run, with no call in flight, the bitmap of a set supermap bit is full if and only if the last swap that set the bit did not come too late |
| `Magazines.Magazine.SetFirstUnsetBit` | GCD/libdispatch-1271.40.12/src/allocator.c:219-239 | sets the lowest clear bit, or reports that there is none exactly when the bitmap is full |
| `Magazines.Magazine.MarkIfFull` | GCD/libdispatch-1271.40.12/src/allocator.c:268-287 | restores that the supermap bit is set exactly for a full bitmap |
| `Magazines.Magazine.AllocFromSupermap` | GCD/libdispatch-1271.40.12/src/allocator.c:328-337 | the first free slot of a supermap, or none when its bitmaps are full |
| `Magazines.Magazine.AllocFromMagazine` | GCD/libdispatch-1271.40.12/src/allocator.c:317-340 | the first free slot of all, although full supermaps are skipped; none exactly when every bitmap is full |
| `Magazines.Magazine.AllocFromPage` | GCD/libdispatch-1271.40.12/src/allocator.c:495-511 | a free slot of the page of the last success, or none when that page is full |
| `Magazines.Magazine.Alloc` | GCD/libdispatch-1271.40.12/src/allocator.c:486-519 | takes one free slot, changes no other bitmap and remembers its page; none if and only if every bitmap is full; from the remembered page if that has one |
| `Magazines.Magazine.Free` | GCD/libdispatch-1271.40.12/src/allocator.c:575-593 | crashes if and only if the bit is clear; otherwise clears that bit alone and advises the page exactly when that left it empty |
| `Magazines.Magazine.MaybeMadvisePage` | GCD/libdispatch-1271.40.12/src/allocator.c:524-573 | advises the page exactly when all its bitmaps are empty and leaves every bitmap as it was |
| `Magazines.MapsDetermineSupermaps` | GCD/libdispatch-1271.40.12/src/allocator_internal.h:232-242 | in sequential use equal bitmaps mean equal supermaps, so an allocation and its free undo each other there too |

## Left out

- View controllers, table data sources, delegates and logging of the Swift application: user interface only.
- `ThreeSum.ThreeSum`, `ThreeSum.ThreeSum2`: sums and negations are unbounded integers; where Swift's `Int` traps is stated beside them.
- `threeSum1`, `fourSum`, the textbook sorts, binary search and string helpers: members that would only add easy proofs.
- `reverseBetween` for `left` below 1: the recursion of the source does not end there.
- The grapheme clusters of Swift strings: a string is a sequence of characters, and `contains` is occurrence at a position.
- Data objects: the `region` argument of the applier, dispatch queues and the bodies of destructors, `dispatch_data_create_alloc`, `dispatch_data_make_memory_entry`, debug output. A destructor run is one entry in the store's history.
- `DataStores.DataStore.Release`: whole operations one after the other; `CountRaces` has the interleaving of their steps on counts, without the bytes.
- `CountRaces.StepInv`: the decrement that ends an object and its destructor, or the free of its flat buffer, are one step, since nobody else reaches the object any more; callers keep one reference to the argument of a call until it returns.
- Data objects: `sizeof` of the object and of a record are fixed constants of a 64-bit build.
- `FlattenRace.MeaningUnchanged`: the object is an unflattened composite with at least two records, the only kind that reaches the race.
- Parallel apply: QoS, priorities, perfmon counters, autorelease frequency, thread frames and introspection builds.
- Parallel apply: the thread event is a counter, and its signal and its wait are one step each.
- Parallel apply: the body of the work function, and the serial loop `_dispatch_apply_serial`, which runs the indices in order on one thread.
- `ApplyRedirect.Queue.TryReserve`: a failing iteration of the compare-and-swap loop has no effect and is not modelled; the successful iteration is one atomic step after arbitrary interference.
- `ApplyRedirect.Redirect`: the parallel run itself is only recorded, with its thread count and with the width it needs reserved; `ApplyRuns` proves it for every legal thread count.
- Memory orders: every atomic step is sequentially consistent.
- Allocator: the chain of heaps and the race to create one, the per-CPU choice of a magazine, and the malloc fallback. `SlotProtocol` numbers the bitmaps of all magazines; `Magazine` is one of them.
- `SlotProtocol.StepInv`: an allocation may try any bitmap, which includes the search order of the source; reads of hints and supermaps that only guide the search are not steps.
- Allocator: the contents of slots and the scribbling of debug builds; madvise itself is a step without effect on bitmaps.
- `Magazines.Magazine.Alloc`: main-array slots only; the first-page slots are in `FirstPage` and, as bitmaps without a supermap, in `SlotProtocol`.
- `_dispatch_allocator_enumerate`, event links, block runtime glue, benchmarks and the Objective-C runtime tools.
