# Verified models of the clustered-hash dictionary, two heaps and three small codecs

This project models three data structures of the repository and three small pieces of arithmetic,
and proves that they do what they are for. `dafny verify dfyconfig.toml` checks all of it.

## What is modelled

**The dictionary** (`dict/OpenDict.{h,cc}`). An open-addressing table of `2^n + n` slots whose
entries are kept sorted by home bucket, with no hole between an entry and its bucket. Insertion
displaces the head of each following cluster to that cluster's end, removal pulls cluster tails
back, and growth is incremental: doubling moves nothing, and `remap_end`/`remaps` say which part of
the table may still hold entries placed for earlier sizes.

* `DictTable`: slots, bucket math, clustering, the search of one cluster.
* `DictChains`: the two displacement chains, as functions on the table.
* `DictResize`: the state of all the fields, the incremental-resize invariant, `SizeUp`, `Remap`.
* `DictSearch`: the multi-size search, its agreement with a scan, relocation by a lookup.
* `DictRecovery`: what the bulk pass makes of a table that an unsafe lookup left.
* `DictLoad`: with growth by load only, every resize is finished before the next one starts.
* `DictMap`, `DictRuns`: the public operations are those of a finite map, one by one and along
  whole runs; progress of the bulk remap; the load factor.
* `DictGaps`, `DictLimits`: a run from a new dictionary on which relocation by a lookup loses a key.
* `DictRescue`: an unsafe insertion that loses nothing.
* `DictKeys`: what an operation changes for a caller who passes bytes and a hash; the largest length.
* `DictIteration`: non-robust iteration interleaved with lookups.
* `OpenDict`: the class. Its methods work in place on an array with the loops of the source, and
  each is proved equal to the function of the same name on the value of all the fields, so that
  everything proved of those functions holds of the object.

The main result: on a dictionary that stands for a map `m` (`DictMap.Stands`) every operation
returns what the map would, and the dictionary goes on standing for the map exactly when the
operation is safe (`DictRuns.OpSafe`). A lookup that relocates does not adjust `remap_end` as an
insertion does, so it is not always safe.

* A lookup is safe exactly when the entry that its displacement chain carries across `remap_end`, if
  there is one, is in its bucket for the current size (`DictSearch.LookupSafe`).
* An insertion over a present key starts with such a lookup and ends with a pass of the bulk remap.
  An unsafe lookup leaves one stray entry, at a position known before the pass. A move of the pass
  brings it back exactly when the stray is the tail of the run behind `remap_end` and the entry taken
  out at `remap_end` is put behind `remap_end`, or when putting it grows the table
  (`DictRecovery.PullsBack`); every other move leaves one stray, at a position that is followed. The
  insertion is safe exactly when its lookup is, or when one of the moves of its pass brings the stray
  back (`DictMap.InsertSafe`). `DictRescue.UnsafeInsertionRecovers` has one that does. An insertion of
  a new key is always safe.
* A removal is always safe: what its lookup displaces, the removal pulls back.

Exactness is in terms of what a caller can see: after the operation every stored key can be found
if and only if the guard held before it, and a run is safe if and only if it never puts a stored key
out of reach (`DictRuns.RunLosesNoKeyIff`). With at most one outstanding resize every operation is
safe, and from a new dictionary there is never more than one as long as the table grows by its load
only, that is by at most one doubling, in an insertion at the threshold (`DictLoad.LoadRunIsMapRun`):
the passes after the insertions finish each resize before the load starts the next. `DictLimits.TwoResizesLoseAKey` is a run of twenty insertions and three lookups from a
dictionary made with initial size 32, after which a lookup of a stored key returns null.
`SizeUp`, the bulk `Remap()`, insertion of a new entry and removal of an entry keep the invariant for
any number of outstanding resizes.

**The B-heap** (`queue/prio_queue.hpp`). `HeapAddressing` is the index arithmetic, `BHeap` states
the three algorithms over any tree of indices, `SkipVector` is the vector that skips one slot per
block, and `PrioQueue` the class with its key and payload vectors, proved equal to `BHeap`. All of it
holds for every block size `2^k`, `k >= 1`, and every strict weak order.

**The timer heap** (`queue/PriorityQueue*.{h,cc}`). `TimerHeap` holds the algorithms on sequences;
`TimerQueue` is the class, whose elements store their own index. `PriorityQueue` and
`PriorityQueueUnrolled` differ in `BubbleDown` only, so they are one class with a constant `unrolled`
that chooses the recursion or the loop. `TimerRuns` follows whole runs of additions, removals from
the top and removals by handle: every outcome and every layout left is a function of the operations
alone (`TimerRuns.Play`), so the two queues agree step for step on every run. `Remove(e)` of a member
aborts exactly when `e` is not at the front and the front already has time `-HUGE_VAL`. No run gets
there that schedules nothing at `-HUGE_VAL` and adds no element again after cancelling it; adding one
again is enough to get there.

**Small pieces.** For base64 (`sha256-ssh-key-hashing.cc`), `Base64Alphabet` has the characters,
`Base64` the two functions on values, `Base64Texts` what they mean (the encoding as a number, and the
octets and the verdict of the decoder for every text and every room), `Base64Code` the loops. `SipHash`
has three implementations that agree; `Words` says what the word operations do to numbers and their
binary digits, and `SipHashExample` computes the value of the paper's example. `Checksum` is that of
`pcap2vxlan/pcap2vxlan.c`.

Modelling choices:

* A `void*` value is a natural number, null is 0. As in the source, a stored null cannot be told
  from an absent key by the returned pointer.
* A key is its bytes and the low 32 bits of its hash, as `DictEntry::Equal` compares them; the comment
  at `dict/OpenDict.h:112` speaks of 40 bits, but the mask has 32.
* Slot distances are unbounded; the reserved distance `0xFFFF` is the constructor `Empty`.
  `DictRuns.DistanceFitsSixteenBits` shows that no distance reaches `0xFFFF` while the capacity is
  below it.
* The lookup that is written inside an `ASSERT` (`dict/OpenDict.cc:516`) is not executed as a second,
  possibly relocating call; `DictSearch.LookupIsStable` proves what the assertion claims, of every
  lookup.
* The comment at `dict/OpenDict.cc:89` speaks of 75 percent above 20 entries; the code switches when
  `log2_buckets` exceeds `DICT_THRESHOLD_BITS`, which is 3, and the model follows the code.
* Times are minus infinity, a real number or plus infinity.
* Octets of `b64_pton`'s input other than the 64 symbols, the pad and the six spaces of the C locale
  are rejected. Its pads may stand anywhere, as in the code.

## Model

| member | source | states |
|---|---|---|
| DictTable.SameKeyIff | dict/OpenDict.h:111-115 | two byte strings with their hashes are one key exactly when the bytes and the low 32 bits of the hashes agree |
| DictTable.BucketOfMadeKey | dict/OpenDict.cc:111-126 | the bucket of a key is that of the hash it was made with |
| DictTable.BucketIsModulo | dict/OpenDict.cc:99-126 | a bucket is the 64-bit Fibonacci product modulo the number of buckets |
| DictTable.BucketIsShifted | dict/OpenDict.cc:111-126 | up to 64 bits, the bucket is that product shifted left and right by the other bits within a 64-bit word, and 0 for no bits |
| DictTable.BucketDoubles | dict/OpenDict.cc:111-126 | doubling the table keeps a key's bucket or moves it up by the old number of buckets |
| DictTable.NoHole | dict/OpenDict.cc:225-251 | between an entry's bucket and its position every slot is occupied, by entries of no larger bucket |
| DictTable.Sorted | dict/OpenDict.cc:225-251 | the whole table is sorted by effective bucket, and no effective bucket is negative |
| DictTable.DistanceBound | dict/OpenDict.cc:129-133 | a distance never exceeds its position |
| DictTable.EndOfCluster | dict/OpenDict.cc:157-164 | everything from the bucket up to the result belongs to the bucket or a smaller one, and what follows does not |
| DictTable.EndOfRun | dict/OpenDict.cc:177-190 | everything up to the result has exactly this bucket, and what follows does not |
| DictTable.ClusterSearch | dict/OpenDict.cc:537-550 | a hit has the key under the bucket searched; a miss has no such entry before the reported insert position, which ends the cluster |
| DictTable.MissMeansAbsent | dict/OpenDict.cc:537-550 | in a clustered table a failed search of one cluster means no slot below the end holds the key under that bucket |
| DictChains.DisplacedFits | dict/OpenDict.cc:660-667 | after one displacement the table is still clustered and the displaced entry fits at the end of its own run, further on |
| DictChains.InsertChain | dict/OpenDict.cc:639-669 | the whole chain keeps the table clustered and lengthens it only when it runs off the end |
| DictChains.InsertChainFrame | dict/OpenDict.cc:639-669 | the new entry is where it was written, and no slot outside the affected range changes |
| DictChains.InsertChainHomes | dict/OpenDict.cc:639-669 | the multiset of (entry, effective bucket) grows by exactly the entry inserted |
| DictChains.InsertChainCurrentIff | dict/OpenDict.cc:627-631 | after a chain everything above `remap_end` is in its current bucket exactly when the entry carried across it is |
| DictChains.CarriedIsCurrent | dict/OpenDict.cc:809-832 | when all entries from the insert position on are current, so is the one carried |
| DictChains.RemoveChain | dict/OpenDict.cc:745-764 | the whole removal chain keeps the table clustered and its length |
| DictChains.RemoveChainFrame | dict/OpenDict.cc:745-764 | no slot outside the affected range changes, and the last affected one is empty |
| DictChains.RemoveChainHomes | dict/OpenDict.cc:745-764 | the multiset of (entry, effective bucket) loses exactly the entry removed |
| DictChains.RemoveChainFills | dict/OpenDict.cc:733-737 | no slot between the removed position and the last affected one is left empty |
| DictChains.InsertThenRemove | dict/OpenDict.cc:639-764 | removing what was just inserted pulls the whole displacement chain back: the old table, or one slot longer when the chain ran off the end |
| DictChains.RemoveChainCurrent | dict/OpenDict.cc:745-764 | entries pulled forward by a removal stay in their current buckets |
| DictResize.SizeUpKeepsInv | dict/OpenDict.cc:686-702 | doubling, also in the middle of a chain, restores the resize invariant with one more outstanding size and keeps all entries in their buckets |
| DictResize.RelocateAndAdjustKeepsInv | dict/OpenDict.cc:620-631 | inserting a current entry keeps the resize invariant because `remap_end` follows the last affected position |
| DictResize.RelocateKeepsInvIff | dict/OpenDict.cc:826-829 | without that adjustment the invariant is kept exactly when no entry of an earlier size is carried across `remap_end` |
| DictResize.RelocateHomes | dict/OpenDict.cc:639-669 | growth inside a chain leaves every other entry's bucket alone too |
| DictResize.RemoveAtKeepsInv | dict/OpenDict.cc:745-764 | removal keeps the resize invariant for any number of outstanding resizes |
| DictResize.InsertionPointFits | dict/OpenDict.cc:824-828 | the end of the bucket's cluster is a place where the entry, with the matching distance, can be written |
| DictResize.RemapAtHomes | dict/OpenDict.cc:809-832 | moving an entry changes one effective bucket, that of the entry moved, to its current one |
| DictResize.RemapAtPosition | dict/OpenDict.cc:825-831 | the moved entry is at the reported position |
| DictResize.EarlierBucketBelow | dict/OpenDict.cc:501-505 | a bucket for an earlier size is never above the one for the current size |
| DictResize.BulkMoveKeepsInv | dict/OpenDict.cc:800-801 | moving the entry at `remap_end` keeps the invariant for any number of outstanding resizes |
| DictResize.NothingStale | dict/OpenDict.cc:805-806 | once `remap_end` is negative it is sound to forget all earlier sizes |
| DictResize.BulkRemap | dict/OpenDict.cc:787-807 | the pass terminates, although a move may grow the table and raise `remap_end`, and ends with no moves left or with the resize finished |
| DictResize.BulkRemapKeepsInv | dict/OpenDict.cc:787-807 | the bulk pass keeps the resize invariant, also when a move inside it grows the table |
| DictSearch.SearchCurrent | dict/OpenDict.cc:492-499 | a failed search of the current size reports the end of the bucket's cluster |
| DictSearch.FindIsComplete | dict/OpenDict.cc:492-521 | no stored key escapes the multi-size search |
| DictSearch.FindIsLinearSearch | dict/OpenDict.cc:472-531 | in every state with the resize invariant the search and a scan of the whole table agree on the position or both fail, exactly on absent keys, and the reported insert position is usable |
| DictSearch.LookupIndexCorrect | dict/OpenDict.cc:482-532 | a lookup with its relocation changes no binding and reports where the key now is |
| DictSearch.LookupKeepsInvIff | dict/OpenDict.cc:513-517 | a lookup keeps the resize invariant exactly when its guard holds |
| DictSearch.LookupLosesNoKeyIff | dict/OpenDict.cc:482-532 | after a lookup every key of the map can still be found exactly when the guard held before it, for any number of outstanding resizes |
| DictSearch.StaleAboveIsLost | dict/OpenDict.cc:501-521 | an entry of an earlier size above `remap_end` is out of reach of every search |
| DictSearch.OneResizeIsSafe | dict/OpenDict.cc:501-517 | with at most one outstanding resize every lookup's guard holds |
| DictSearch.LookupIsStable | dict/OpenDict.cc:516 | after any lookup, safe or not, looking again finds the key at the position returned |
| DictSearch.MoveKeepsMap | dict/OpenDict.cc:809-832 | moving any entry to its current bucket changes no binding |
| DictSearch.RemovalUndoesUnsafeLookup | dict/OpenDict.cc:713-717 | removing the key that an unsafe lookup relocated leaves what removing it from its old place leaves |
| DictRecovery.RemovalFollows | dict/OpenDict.cc:745-764 | a removal chain moves the one stray entry to a known place and keeps all others current |
| DictRecovery.InsertionFollows | dict/OpenDict.cc:639-669 | an insertion chain of a current entry moves the one stray entry to a known place and keeps all others current |
| DictRecovery.CarriedStrays | dict/OpenDict.cc:826-829 | the chain of an unsafe relocation leaves exactly one stray entry, the one carried across `remap_end` |
| DictRecovery.PulledBackIff | dict/OpenDict.cc:800-801 | a move that does not grow the table leaves the stray entry at or below `remap_end` exactly when that entry is the tail of the run behind `remap_end` and the entry taken out is put above it |
| DictRecovery.MoveRestoresIff | dict/OpenDict.cc:800-801 | a move of the pass restores the resize invariant exactly when it brings the stray entry back; otherwise that is still the only stray entry, at the place followed |
| DictRecovery.PassRestoresIff | dict/OpenDict.cc:787-807 | a pass restores it exactly when one of its moves does; otherwise a stale entry is left above `remap_end` |
| DictMap.LookupStrays | dict/OpenDict.cc:513-517 | an unsafe lookup leaves one stray entry, at the place known before the pass |
| DictRescue.UnsafeInsertionRecovers | dict/OpenDict.cc:559-617 | there is a dictionary standing for a map on which an unsafe insertion loses nothing, for every value |
| DictLimits.Reached | dict/OpenDict.cc:559-617 | twenty insertions and two lookups from a dictionary made with initial size 32 lead to a given table with two outstanding resizes |
| DictLimits.LookupLoses | dict/OpenDict.cc:513-517 | on that table a lookup of one stored key is unsafe and makes another stored key impossible to find |
| DictLimits.TwoResizesLoseAKey | dict/OpenDict.cc:464-617 | a run from a new dictionary whose results differ from those of the finite map, because its last lookup returns null for a stored key |
| DictLimits.TwoResizesLoseAKeyOnInsert | dict/OpenDict.cc:559-617 | inserting over the key instead of looking it up loses a key too |
| DictGaps.InsertAndPass | dict/OpenDict.cc:595-614 | inserting a new key behind the last slot doubles the table and runs a pass of sixteen moves |
| DictMap.ThresholdIsThreeQuarters | dict/OpenDict.cc:87-97 | the threshold is the capacity up to 8 buckets, and above them three quarters of it, rounded up |
| DictMap.OneSizeUpIsEnough | dict/OpenDict.cc:87-97 | one doubling always lifts the threshold by at least one entry, and the threshold never exceeds the capacity, across the switch from full to three-quarter load |
| DictMap.InsertKeepsLoad | dict/OpenDict.cc:598-608 | after every insertion the number of entries is within threshold and capacity |
| DictMap.LookupIsMapGet | dict/OpenDict.cc:464-469 | a lookup returns the bound value, or null, and the dictionary stands for the same map afterwards exactly when the lookup was safe |
| DictMap.InsertIsMapUpdate | dict/OpenDict.cc:559-617 | an insertion returns the previous value, or null, and the dictionary stands for the map with that key rebound exactly when the insertion was safe |
| DictMap.InsertLosesNoKeyIff | dict/OpenDict.cc:559-617 | after an insertion every bound key can be found exactly when the insertion was safe |
| DictMap.RemoveIsMapErase | dict/OpenDict.cc:708-727 | every removal, for any number of outstanding resizes, returns the stored value, or null, and the dictionary stands for the map without that key |
| DictMap.OneResizeOperationIsSafe | dict/OpenDict.cc:569 | a lookup or insertion that starts with at most one outstanding resize is safe |
| DictRuns.StepIsMapStep | dict/OpenDict.cc:464-727 | one operation of a run returns what the map has, and is a step of the map exactly when it is safe |
| DictRuns.RunIsMapRun | dict/OpenDict.cc:464-727 | along every safe run the returned pointers and lengths are those of the finite map |
| DictRuns.RunLosesNoKeyIff | dict/OpenDict.cc:464-727 | a run is safe exactly when after each of its operations every key of the map can be found |
| DictRuns.OneResizeRunIsSafe | dict/OpenDict.cc:464-727 | runs whose lookups and insertions start with at most one outstanding resize are safe |
| DictRuns.NewDictRunsAsMap | dict/OpenDict.cc:384-400 | the same from a new dictionary of any initial size and the empty map |
| DictLoad.RoomForMoves | dict/OpenDict.cc:87-97 | between two growths by load there are enough insertions, of sixteen moves each, to move every entry |
| DictLoad.PassKeepsUp | dict/OpenDict.cc:787-807 | a pass without growth finishes the resize or makes up for one insertion |
| DictLoad.LightStep | dict/OpenDict.cc:559-727 | an operation that grows the table by its load only leaves at most one resize going on, which the passes to come finish in time |
| DictLoad.LoadRunIsOneResizeRun | dict/OpenDict.cc:559-727 | a run that grows the table by its load only never starts an operation with two outstanding resizes |
| DictLoad.LoadRunIsMapRun | dict/OpenDict.cc:464-727 | from a new dictionary of any initial size such a run is a run of the finite map |
| DictKeys.InsertChangesOnly | dict/OpenDict.cc:559-617 | after a safe insertion, lookups of its bytes with its low 32 hash bits find the value and all others find what they found before |
| DictKeys.RemoveChangesOnly | dict/OpenDict.cc:708-727 | after a removal, lookups of its bytes with its low 32 hash bits find nothing and all others find what they found before |
| DictKeys.InsertCounts | dict/OpenDict.cc:559-617 | an insertion raises the length by one exactly when the key was not bound, safe or not |
| DictKeys.RunKeepsLargest | dict/OpenDict.h:165-167 | along every run the counter is the largest length there has been |
| DictKeys.LargestIsLargest | dict/OpenDict.h:165-167 | that value is at least every length seen and one of them, or the one at the start |
| DictRuns.DistanceFitsSixteenBits | dict/OpenDict.h:49-55 | below a capacity of 0xFFFF no distance reaches the empty marker |
| DictRuns.MovesLowerStale | dict/OpenDict.cc:798-804 | without growth every move of the pass lowers the number of stale entries by one |
| DictRuns.RemapPassProgress | dict/OpenDict.cc:787-807 | a pass finishes the resize, leaving no stale entry, or makes exactly `DICT_REMAP_ENTRIES` moves; with fewer stale entries than that and no growth it finishes |
| DictIteration.NextUsed | dict/OpenDict.cc:200-208 | the result is the first occupied position, everything before it is empty |
| DictIteration.FrozenLookup | dict/OpenDict.cc:513 | while an iteration is open a lookup changes nothing |
| DictIteration.AdvanceTakesFirst | dict/OpenDict.cc:870-942 | one call yields the first position still to visit, or ends the iteration when there is none |
| DictIteration.IterateYieldsRemaining | dict/OpenDict.cc:870-942 | any mix of calls and lookups yields the remaining positions in order |
| DictIteration.IterationVisitsAllOnce | dict/OpenDict.cc:856-942 | an iteration yields every occupied position once in increasing order, then leaves the dictionary as it was, also in the middle of a resize |
| OpenDict.Dictionary.Log2 | dict/OpenDict.cc:63-69 | the result is the floor of the base-2 logarithm, and 0 for 0 |
| OpenDict.Dictionary.constructor | dict/OpenDict.cc:384-400 | a new dictionary is valid and stands for the empty map; a requested size sets the number of buckets |
| OpenDict.Dictionary.Init | dict/OpenDict.cc:441-447 | allocates a table with every slot empty |
| OpenDict.Dictionary.Clear | dict/OpenDict.cc:407-439 | returns to the state of a new dictionary but for the cumulative count |
| OpenDict.Dictionary.EndOfClusterByBucket | dict/OpenDict.cc:157-164 | the loop finds the end of the cluster |
| OpenDict.Dictionary.TailOfClusterByPosition | dict/OpenDict.cc:177-185 | the loop finds the last entry of the run |
| OpenDict.Dictionary.EndOfClusterByPosition | dict/OpenDict.cc:187-190 | one past the run |
| OpenDict.Dictionary.Next | dict/OpenDict.cc:200-208 | the loop finds the next occupied position, also from -1 |
| OpenDict.Dictionary.SizeUp | dict/OpenDict.cc:686-702 | in place: the array is replaced by one twice as large that starts with the old slots |
| OpenDict.Dictionary.InsertAndRelocate | dict/OpenDict.cc:639-669 | the in-place swap loop leaves exactly the table of the chain, growing in mid-chain if needed, and reports the last affected position |
| OpenDict.Dictionary.InsertRelocateAndAdjust | dict/OpenDict.cc:620-631 | the same with `remap_end` adjusted |
| OpenDict.Dictionary.RemoveAndRelocate | dict/OpenDict.cc:745-764 | the in-place pull loop leaves exactly the table of the chain and returns the removed entry |
| OpenDict.Dictionary.Lift | dict/OpenDict.cc:819-828 | in place: the entry is taken out, and its slot and place under the current size are computed |
| OpenDict.Dictionary.RemapPosition | dict/OpenDict.cc:809-832 | in place: one entry moved to its current bucket, or nothing |
| OpenDict.Dictionary.Remap | dict/OpenDict.cc:787-807 | the in-place loop terminates and leaves exactly the state of the pass |
| OpenDict.Dictionary.LinearLookupIndex | dict/OpenDict.cc:472-478 | the loop finds the first position of the key, or -1 |
| OpenDict.Dictionary.SearchCluster | dict/OpenDict.cc:537-550 | the loop finds what the cluster search finds, and otherwise the insert position |
| OpenDict.Dictionary.SearchEarlierSizes | dict/OpenDict.cc:501-521 | the loop over earlier sizes, latest first |
| OpenDict.Dictionary.LookupIndex | dict/OpenDict.cc:482-532 | in place: the search over all sizes with its relocation |
| OpenDict.Dictionary.Lookup | dict/OpenDict.cc:464-469 | the exact new state; on an object standing for a map, the map's binding is returned, and the object still stands for it exactly when the call was safe; a safe one changes nothing that any bytes and hash find |
| OpenDict.Dictionary.Insert | dict/OpenDict.cc:559-617 | the exact new state; the previous binding is returned, and the object stands for the updated map exactly when the call was safe; the length grows by one exactly for a new key; a safe one changes what is found for its bytes with its low 32 hash bits and for no others |
| OpenDict.Dictionary.Remove | dict/OpenDict.cc:708-727 | the exact new state; the binding is returned and the object stands for the map without the key, always; it makes its bytes with its low 32 hash bits unknown and no others |
| OpenDict.Dictionary.InitForIteration | dict/OpenDict.cc:856-860 | opens an iteration before the first slot |
| OpenDict.Dictionary.StopIteration | dict/OpenDict.cc:862-868 | closes an iteration |
| OpenDict.Dictionary.NextEntry | dict/OpenDict.cc:870-942 | returns the value at the cookie and advances it, or closes the iteration |
| HeapAddressing.ParentInvertsChild | queue/prio_queue.hpp:652-679 | for every block size `2^k` the parent of both children is the index itself, and children come later |
| HeapAddressing.ChildOfParent | queue/prio_queue.hpp:652-679 | every usable index but 1 is a child of a strictly smaller usable index |
| HeapAddressing.OnlyOneParent | queue/prio_queue.hpp:652-679 | no index is the child of two |
| HeapAddressing.ParentDefined | queue/prio_queue.hpp:667-679 | the unsigned subtraction in `parent_of` never goes below zero, and its result is usable |
| HeapAddressing.ChildInBlock | queue/prio_queue.hpp:655-658 | inside a block the children are the slots at twice the offset and the next |
| HeapAddressing.ChildOfLeaf | queue/prio_queue.hpp:659-660 | the children of a block leaf are the roots of two consecutive blocks |
| HeapAddressing.ParentOfRoot | queue/prio_queue.hpp:675-678 | the parent of a block root is the leaf that its block number determines |
| BHeap.BlocksIsTree | queue/prio_queue.hpp:652-679 | block addressing is a tree of indices, which is all the heap algorithms rely on |
| BHeap.RootIsLeast | queue/prio_queue.hpp:535-543 | in heap order no key comes before the one at index 1 |
| BHeap.PushKeepsHeap | queue/prio_queue.hpp:467-484 | sifting the appended pair up restores heap order and only rearranges pairs |
| BHeap.PopKeepsHeap | queue/prio_queue.hpp:490-528 | pop keeps heap order, with a right child equal to the last index counted as absent |
| BHeap.PopRemovesTop | queue/prio_queue.hpp:490-528 | pop removes exactly the top pair, in any array |
| BHeap.RescheduleKeepsHeap | queue/prio_queue.hpp:585-605 | rescheduling restores heap order and exchanges exactly the top pair |
| SkipVectors.PushIndexUsable | queue/prio_queue.hpp:193-208 | a push never stores at a multiple of the block size and passes over no usable index |
| SkipVectors.PopEndFacts | queue/prio_queue.hpp:213-218 | a pop drops one usable index and, with it, a skipped one before it |
| SkipVectors.PushThenPop | queue/prio_queue.hpp:193-218 | a push and a pop restore the end index |
| SkipVectors.SizeStep | queue/prio_queue.hpp:623-630 | the size formula counts the usable indices below the end |
| SkipVectors.SkipVector.PushBack | queue/prio_queue.hpp:193-208 | stores at the next usable index, keeping every element's index, growing if needed |
| SkipVectors.SkipVector.Grow | queue/prio_queue.hpp:224-249 | reallocation keeps every element and stores the new one in the next block |
| SkipVectors.SkipVector.PopBack | queue/prio_queue.hpp:213-218 | drops the last element |
| PrioQueues.PrioQueue.constructor | queue/prio_queue.hpp:372-436 | a new queue is valid and empty |
| PrioQueues.PrioQueue.SiftUpFrom | queue/prio_queue.hpp:473-483 | the hole loop on both vectors leaves the sifted sequence of pairs |
| PrioQueues.PrioQueue.Push | queue/prio_queue.hpp:454-484 | the queue stays valid and its multiset of (key, payload) pairs grows by the pair pushed |
| PrioQueues.PrioQueue.WalkDown | queue/prio_queue.hpp:495-510 | the first loop of pop walks the hole to the bottom |
| PrioQueues.PrioQueue.TakeTop | queue/prio_queue.hpp:495-525 | both loops leave the popped heap below the last slot |
| PrioQueues.PrioQueue.Pop | queue/prio_queue.hpp:490-528 | the queue stays valid and loses exactly the top pair |
| PrioQueues.PrioQueue.RescheduleTop | queue/prio_queue.hpp:562-605 | the queue stays valid and the top pair's key alone is exchanged |
| PrioQueues.PrioQueue.Empty | queue/prio_queue.hpp:611-617 | true exactly when no pair is queued |
| PrioQueues.PrioQueue.Size | queue/prio_queue.hpp:623-630 | the formula is the number of queued pairs, so pushes minus pops |
| PrioQueues.PrioQueue.Top | queue/prio_queue.hpp:551-556 | the top is a queued pair that no queued key comes before |
| PrioQueues.ItemsCardinality | queue/prio_queue.hpp:623-630 | the number of queued pairs is the number of usable indices below the end |
| PrioQueues.UsableIsSize | queue/prio_queue.hpp:623-630 | that number is the size formula |
| PrioQueues.DrainStep | queue/prio_queue.hpp:490-528 | taking a least pair and appending it keeps the output sorted and before the rest |
| PrioQueues.Drain | queue/prio_queue.hpp:490-528 | repeated pop empties the queue in sorted order, yielding exactly its pairs |
| TimerHeap.BubbleUpOrders | queue/PriorityQueue.cc:95-107 | bubbling up restores heap order disturbed at one slot |
| TimerHeap.BubbleUpPermutes | queue/PriorityQueue.cc:95-107 | it only rearranges |
| TimerHeap.BubbleDownOrders | queue/PriorityQueue.cc:109-144 | bubbling down restores heap order disturbed below one slot, from slot 0 with its single real child too |
| TimerHeap.BubbleDownPermutes | queue/PriorityQueue.cc:109-144 | it only rearranges |
| TimerHeap.DownTurnIsRecursion | queue/PriorityQueueUnrolled.cc:113-149 | one turn of the loop and then the recursion is the recursion, and the loop stops exactly where the recursion does |
| TimerHeap.AddKeepsHeap | queue/PriorityQueue.cc:63-79 | adding keeps heap order and adds exactly the new element |
| TimerHeap.WithoutTopKeepsHeap | queue/PriorityQueue.cc:23-41 | removing the front keeps heap order, and by the numbers no queued time is less than the front's |
| TimerHeap.WithoutTopItems | queue/PriorityQueue.cc:23-41 | removing the front removes exactly that element, in any array |
| TimerHeap.MinimizedKeepsHeap | queue/PriorityQueue.cc:49-50 | giving a member the least time and bubbling it up keeps heap order and changes only its time |
| TimerHeap.MinimizedTakenOff | queue/PriorityQueue.cc:49-52 | taking the minimized member off the top leaves the old heap without it |
| TimerHeap.MinimizedReachesTopIff | queue/PriorityQueue.cc:49-58 | the minimized member ends at the front exactly when it was there or the front was not at `-HUGE_VAL` |
| TimerQueues.PriorityQueue.constructor | queue/PriorityQueue.cc:8-13 | a new queue is valid and empty, in either form |
| TimerQueues.PriorityQueue.Top | queue/PriorityQueue.h:15-21 | the front element, null exactly when empty; by the numbers no queued time is less than its time |
| TimerQueues.PriorityQueue.SetElement | queue/PriorityQueue.h:67-71 | writes the slot and the element's index |
| TimerQueues.PriorityQueue.Swap | queue/PriorityQueue.h:73-78 | exchanges two slots and keeps every element's index right |
| TimerQueues.PriorityQueue.BubbleUp | queue/PriorityQueue.cc:95-107 | in place: leaves exactly the bubbled heap, with all indices right |
| TimerQueues.PriorityQueue.BubbleDownRecursive | queue/PriorityQueue.cc:109-144 | in place: leaves exactly the bubbled heap, with all indices right |
| TimerQueues.PriorityQueue.BubbleDownUnrolled | queue/PriorityQueueUnrolled.cc:109-150 | the loop terminates and leaves exactly what the recursion leaves, from every start state |
| TimerQueues.PriorityQueue.Add | queue/PriorityQueue.cc:63-79 | the queue stays valid, grows by the element, counts it, and has room for the next |
| TimerQueues.PriorityQueue.Resize | queue/PriorityQueue.cc:81-93 | a larger array with the same contents |
| TimerQueues.PriorityQueue.Remove | queue/PriorityQueue.cc:23-41 | returns an earliest element, or null, removes exactly it and marks it as not queued; by the numbers no queued time was less than its time |
| TimerQueues.PriorityQueue.IsQueued | queue/PriorityQueue.cc:45-47 | the test on the stored index decides membership |
| TimerQueues.PriorityQueue.RemoveElement | queue/PriorityQueue.cc:43-61 | a non-member changes nothing; a member is removed and nothing else, or the call aborts, exactly when the member is not at the front and the front has time `-HUGE_VAL`; the layout left is stated for both |
| TimerRuns.RunIsSound | queue/PriorityQueue.cc:23-144 | every run keeps heap order, queues no element twice and keeps every queued time equal to its element's |
| TimerRuns.FiresEarliest | queue/PriorityQueue.cc:23-41 | along a run the element taken off has a time that, by the numbers, no queued element is before |
| TimerRuns.DiesIff | queue/PriorityQueue.cc:52-58 | a removal by handle aborts exactly when another element than the one asked for comes to the top |
| TimerRuns.LivelyRunNeverDies | queue/PriorityQueue.cc:43-61 | no removal by handle aborts in a run that schedules nothing at `-HUGE_VAL` and adds no element again after cancelling it |
| TimerRuns.TwoMinimaDie | queue/PriorityQueue.cc:43-61 | with two elements at `-HUGE_VAL`, removing the second by its handle aborts |
| TimerRuns.AgainAfterCancelDies | queue/PriorityQueue.h:27-29 | from any two times: add, cancel, add again, add another, cancel that one aborts |
| TimerRuns.RenamedWithoutTop | queue/PriorityQueueUnrolled.cc:23-41 | removal from the top does not depend on what the elements are |
| TimerRuns.Play | queue/PriorityQueueUnrolled.cc:23-150 | a whole run of either queue from any array size returns the outcomes and leaves the layout that the operations alone determine |
| Base64Alphabet.SymbolInTable | sha256-ssh-key-hashing.cc:71-72 | the symbol of a value is the character at that place of the 64-character alphabet |
| Base64Alphabet.SextetInTable | sha256-ssh-key-hashing.cc:16-32 | the decoding table accepts the alphabet and the pad alone, gives each symbol its place and the pad zero |
| Base64Alphabet.SpaceInSet | sha256-ssh-key-hashing.cc:35-36 | the characters skipped are the six of the C locale, none of them a symbol or a pad |
| Base64.AcceptsIffLegal | sha256-ssh-key-hashing.cc:12-47 | without a destination, characters are consumed to the end exactly when all are spaces, symbols or pads |
| Base64Texts.CountedIff | sha256-ssh-key-hashing.cc:34-64 | without a destination the count is not -1 exactly when every character before the NUL is one of six spaces, 64 symbols and the pad, and a multiple of four are no spaces |
| Base64Texts.RunReads | sha256-ssh-key-hashing.cc:34-60 | for every text and every room, the octets are those of the characters before the stop, and the loop ends at the NUL exactly when the stop is there |
| Base64Texts.StopIsFirst | sha256-ssh-key-hashing.cc:34-45 | the stop is the first NUL, illegal character, or symbol that finds the destination full |
| Base64Texts.OutcomeOf | sha256-ssh-key-hashing.cc:12-64 | the count returned, or -1, and the octets written, for every text and every room, without the accumulator |
| Base64.OctetsCut | sha256-ssh-key-hashing.cc:47-62 | the octet a character completes depends on the last two sextets only, although the accumulator is never cleared |
| Base64.GroupDecodes | sha256-ssh-key-hashing.cc:43-64 | decoding one encoded group yields its one to three octets, also into exactly enough room |
| Base64.EncodingDecodesFrom | sha256-ssh-key-hashing.cc:43-103 | decoding the encoding of a suffix appends that suffix, from any accumulator between groups |
| Base64.Encode | sha256-ssh-key-hashing.cc:67-103 | the encoding has four characters for every started group of three octets |
| Base64Texts.EncodingNumber | sha256-ssh-key-hashing.cc:83-102 | the symbols' places in the alphabet, read in base 64, are the octets, filled up with zeros to a multiple of three, read in base 256; as many pads stand at the end, and nowhere else |
| Base64.RoundTrip | sha256-ssh-key-hashing.cc:12-103 | decoding the stored encoding gives back the octets and their number, into a destination of exactly that size, whatever lies behind the terminator |
| Base64Code.Ntop | sha256-ssh-key-hashing.cc:67-103 | the size needed for a null target, -1 with the target untouched when it is too small, else the encoding, a terminator and the rest of the target untouched; what is written is, in base 64, the number of the octets |
| Base64Code.PutGroup | sha256-ssh-key-hashing.cc:83-99 | one round of the loop writes four characters that are, in base 64, the number of its three octets, zeros for missing ones, with pads exactly for these |
| Base64Code.Pton | sha256-ssh-key-hashing.cc:12-64 | returns the count or -1, and writes exactly the octets, that the characters before the stop determine, also when it fails |
| Base64Code.TakeCharacter | sha256-ssh-key-hashing.cc:34-60 | one round of the loop is one step of the decoder |
| Words.MachineLaws | hashing/stock/siphash24.cc:37-49 | or and exclusive or on 64-bit words have the laws the agreement rests on |
| Words.MachineNumbers | hashing/stock/siphash24.cc:25-41 | addition is modulo 2^64; a rotation is the number times 2^b modulo 2^64 plus what 2^(64-b) divides off; a loaded octet is multiplied by 256^i; or and exclusive or act on binary digits |
| SipHash.StartReference | hashing/stock/siphash24.cc:80-95 | the reference starts from the constants and adds the key, which the other two do the other way round |
| SipHash.RoundReference | hashing/stock/siphash24.cc:43-59 | the reference round is the SipRound of section 2 of the SipHash paper |
| SipHash.RoundInterleaved | hashing/floodyberry/siphash.c:33-41 | the interleaved round is the same round |
| SipHash.DoubleRound | hashing/siphash-bench/siphash24.cc:33-43 | four half rounds with swapped lanes are two rounds |
| SipHash.LengthForms | hashing/floodyberry/siphash.c:31 | shifting the length by 56 bits keeps its low octet, masked or not |
| SipHash.TailsAgree | hashing/stock/siphash24.cc:112-130 | the three ways of building the last word give the one of the paper |
| SipHash.TailCopy | hashing/siphash-bench/siphash24.cc:66-76 | the copying tail, with its four-octet store, yields the zero-padded last octets |
| SipHash.SipHashReference | hashing/stock/siphash24.cc:78-165 | the block loop and switch compute the hash of the whole words and the reference's last word |
| SipHash.SipHashInterleaved | hashing/floodyberry/siphash.c:18-72 | the same for the interleaved form |
| SipHash.SipHashHalfRounds | hashing/siphash-bench/siphash24.cc:46-84 | the same for the half-round form |
| SipHash.AllThree | hashing/stock/siphash24.cc:78-165 | for every key and message the three forms return the same value, SipHash-2-4, although they set up the key, build the last word and fold the lanes in different orders |
| SipHash.AllThreeOnWords | hashing/siphash-bench/siphash24.cc:46-84 | the same on 64-bit machine words |
| SipHashExample.PaperValue | hashing/stock/siphash24.cc:184 | for key octets 0 to 15 and message octets 0 to 14 the value is that of the paper and of the table in the source |
| Checksum.OnesSumResidue | pcap2vxlan/pcap2vxlan.c:117-128 | the plain sum and the one's-complement sum agree modulo 65535 and on being zero |
| Checksum.TwoFoldsSuffice | pcap2vxlan/pcap2vxlan.c:130-131 | two folds bring any 32-bit sum into 16 bits without changing its residue or losing a non-zero |
| Checksum.SumFits | pcap2vxlan/pcap2vxlan.c:111-128 | up to 131072 octets and any 16-bit `add` the 32-bit sum cannot overflow |
| Checksum.FoldIsOnesSum | pcap2vxlan/pcap2vxlan.c:111-131 | the folded sum is the one's-complement sum of section 1 of RFC 1071 |
| Checksum.PktChecksum | pcap2vxlan/pcap2vxlan.c:109-134 | the method returns the complement of that sum; beyond 131072 octets, of the sum truncated to 32 bits |
| Checksum.StoredChecksumVerifies | pcap2vxlan/pcap2vxlan.c:286-288 | storing the result into a zeroed header word makes the recomputed checksum 0 |
| Checksum.ChecksumOfNumber | pcap2vxlan/pcap2vxlan.c:109-134 | the checksum and `add` and the octets as one big-endian number, with a zero behind an odd last octet, add up to zero modulo 65535; it is 65535 exactly when all of that is zero |

## Left out

- OpenDict.Dictionary.Insert: robust cookies, insertion order and the ownership of key memory are not modelled; with an iteration open the call is outside the model, as the source asserts unless all cookies are robust.
- OpenDict.Dictionary.Remove: the same three, and the `dont_delete` flag, which the source asserts to be off.
- OpenDict.Dictionary.NextEntry: the inserted and visited lists of robust cookies and the returned hash key are not modelled.
- OpenDict.Dictionary.StopIteration: deleting the cookie is memory management and not modelled.
- OpenDict.Dictionary.Clear: running the delete function and freeing keys are not modelled.
- Integer widths in the dictionary: key sizes are not truncated to 16 bits, and the counters, `remaps` and `num_iterators` are unbounded.
- DictRuns.RunIsMapRun: requires the run to be safe, which DictRuns.RunLosesNoKeyIff shows to be exactly when no key is lost on the way; DictLimits.TwoResizesLoseAKey is a run that is not.
- OpenDict.Dictionary.constructor: the ordering argument and the insertion-order vector are not modelled.
- Elements whose time is NaN: the timer heap is stated for times without NaN; the B-heap takes any strict weak order.
- PrioQueues.PrioQueue.Push: the specialization without payloads, exceptions, allocators and move or copy overloads are not modelled; moved-from slots keep their old value.
- PrioQueues.PrioQueue.Drain: a caller's loop over pop, written out because the source has no such function.
- TimerQueues.PriorityQueue.constructor: an initial size of 0 is excluded; the source accepts it, and its first `Add` then writes behind an array of length 0 before it resizes.
- TimerQueues.PriorityQueue.Add: an element that is already queued is excluded; the source does not test for it, and would queue it twice with one stored index.
- TimerQueues.PriorityQueue.RemoveElement: `delete` of elements is not modelled.
- TimerRuns.Play: a caller's loop, written out because the source has none; it starts with an array of at least one slot and does not add an element that is queued.
- Base64Code.Pton: the `int` counters are unbounded, `isspace` is that of the C locale, or-ing a sextet into the accumulator's six zero bits is written as addition.
- Base64Code.Ntop: the `int` conversion of the needed size is not modelled.
- SipHash.SipHashReference: the 128-bit output under `DOUBLE` and writing the word out octet by octet are not modelled; word loads are little-endian.
- `HeadOfClusterByBucket`, `TailOfClusterByBucket`, `HeadOfClusterByPosition`, dumps, statistics and memory accounting: unused, debugging only, or part of robust cookies.
- `queue/PriorityQueueVect`, `dict/fifo_map.hpp`, `dict/List.h`, `dict/Hash.*`: wrappers or easy containers.
- Everything that is input, output, event loops or library calls: not part of this model.
