# Mega-KV, verified model

Mega-KV is an in-memory key-value store that keeps its index on a GPU. This
project models its four state-changing parts in Dafny and proves what each of
them keeps over single steps, over whole runs, and under interleaving:

* **The cuckoo index.** Buckets of eight (signature, location) slots; every
  signature has a home bucket and an alternative bucket, and full buckets push
  entries on through a bounded displacement chain.
* **The item store.** Slabs carved into items, 32-bit locations that name them,
  per-worker free lists threaded through the items, and a reversed clock over
  64-bit words that picks what to evict.
* **The pipeline.** Each worker's receiver, the one scheduler and each worker's
  sender pass three buffers round through shared variables; the receiver adds
  inserts without a lock and checks afterwards whether its buffer was swapped.
* **Requests and replies.** The request format with its writers and its parser,
  the receiver's run-length job list, and the sender's response loop that packs
  replies into frames of at most 1514 bytes.

Constants are those of the configuration in the repository: 2^24 buckets of
eight slots, `MAX_CUCKOO_NUM` 5, eight insert regions, 2^15 items in a slab,
eight classes, 2^28 items at most in a class, three buffers a worker.

## How it is organised

| files | subject |
|---|---|
| `Bits.dfy`, `Arithmetic.dfy`, `Wire.dfy`, `Wrappers.dfy` | bitwise operators on naturals with their digit laws; remainders; little-endian fields; the optional value |
| `GpuHash.dfy` | mask arithmetic of the two candidate buckets and of the regions |
| `CuckooSpec.dfy` | search, insert and delete as functions on table values |
| `CuckooLaws.dfy`, `CuckooPlacement.dfy`, `CuckooNewEntry.dfy`, `CuckooRegions.dfy` | conservation, uniqueness and lookup; where displaced entries end up; what becomes of the inserted one; independence of regions |
| `CuckooKernel.dfy` | the kernels in place on the bucket array, ballots and rotated masks included |
| `SlotVotes.dfy`, `SlotMoves.dfy`, `SlotRace.dfy` | the outcome of a round of writes, whoever votes; votes and writes of a home-bucket round in any order; many lane groups racing for home buckets |
| `EvictionRace.dfy`, `EvictionRuns.dfy`, `EvictionChains.dfy`, `EvictionTwins.dfy` | racing for second buckets with displacement: round by round, over whole races, as single inserts where buckets have room, and groups that carry the same victim |
| `CuckooExamples.dfy` | runs from the empty index that go wrong |
| `ClockSpec.dfy`, `ClockFairness.dfy`, `ClockBitmap.dfy`, `TouchRace.dfy` | the clock as a value, its guarantees over runs, the bitmap in place, and unlocked touches around and during a visit |
| `SlabSpec.dfy`, `FreeLists.dfy`, `ItemStore.dfy`, `StoreRuns.dfy` | locations and carving; interleaved workers; the allocator and evictor in place; runs of allocations on a new store |
| `BatchSpec.dfy`, `TripleBuffer.dfy`, `PipelineJobs.dfy`, `PipelineSchedule.dfy`, `PipelineOrder.dfy`, `MegaBatch.dfy` | buffer hand-over: steps, rotation invariant, jobs, progress and schedule, order of execution, the functions in place |
| `InsertRetry.dfy`, `InsertExample.dfy` | the optimistic insert against scheduler and sender; a run that loses one |
| `JobList.dfy`, `ReplySpec.dfy`, `ResponseLoop.dfy` | job compaction; packing as a function; the sender's loops in place |
| `GetPath.dfy`, `EvictPath.dfy` | a GET from the index to its reply; a SET from its key to the delete job of its item |
| `PacketSpec.dfy`, `PacketKeys.dfy`, `PacketTurns.dfy`, `PacketIO.dfy` | packet format and parser as functions; the keys of the generators; the turns of GET and SET; parse loop and frame writers in place |

Words are natural numbers with explicit bounds; wrap-around and truncation are
written out where the source relies on them.

## Results worth knowing before reading

* **The displacement chain is not what its comment says.** The comment at
  libgpuhash/gpu_hash.cu:376-377 wants a victim reinserted into its alternative
  bucket, but the code computes the next bucket from the hash of the element
  being inserted and never moves that hash on. `DisplacedOutOfSight` gives
  seventeen inserts into an empty index of which the last moves another key's
  entry to a bucket no search for that key looks at. `VictimStaysInPair` and
  `InsertPlacedIff` say exactly when the code does keep entries where searches
  look; after one displacement it does only if the inserted signature has no low
  bits at all (`OneDisplacementPlacedIff`). `RepairedRunPlaced` and
  `RepairedIndexFindsAll` show that with `hash = second_hash` it always does,
  locations that pass from key to key included.
* **An insert can be forgotten.** A victim with the low 21 bits of the inserted
  signature is led back to the very bucket it was thrown out of. The two entries
  throw each other out of one lane until the chain gives up, and the sixth write
  drops the new one: the insert changes nothing at all
  (`SameLowBitsForgotten`; `BouncedOut` reaches such an index from the empty one).
  `InsertReportedIff` says, for every duplicate-free index, exactly which inserts
  are found afterwards.
* **Equal signatures in one race.** In home buckets nothing separates the votes of one
  warp from the writes of another (libgpuhash/gpu_hash.cu:300-314; the barrier at :315
  comes behind both). A round is some sequence of single inserts, whoever survives, if
  and only if its voters of one signature and bucket agree on their lane
  (`RoundLinearizesIff`), and a race of such rounds is too (`RaceLinearizes`). They agree
  if the signatures are distinct (`ApartAgrees`) or all vote before anybody writes, as in
  one warp (`VotesFirstAgrees`); a group that votes after another has written its
  signature puts it into the bucket twice (`LateVoteDuplicates`). In second buckets a
  barrier separates votes from writes. There a race is some sequence of single inserts
  as long as no racing group meets a full bucket and groups of one signature
  agree on their lane (`RaceIsChains`): a co-survivor's entry is replaced as by an
  ordinary second insert. Otherwise two things can happen. Groups of one signature
  and bucket that vote for different lanes put the signature there twice, and only
  then does this happen (`RoundsUniqueIff`, `SignatureTwice`). Groups that share a
  lane of a full bucket both carry its old entry on, and only then is an entry
  counted twice (`RoundsConserveIff`). Those two are then on the same way
  (`SharersAreTwins`), and the race goes through the tables it would go through
  without one of them (`TwinsMerge`), so the copy in hand never becomes a copy in
  the index; the barriers at libgpuhash/gpu_hash.cu:369 and 386 order the steps as
  `Lockstep` says.
* **A delete leaves an entry behind exactly when both candidate buckets hold
  it** (`DeletedIsGone`).
* **`mega_gpu_get_batch` returns one worker's buffer id for all workers.** That
  is right, because all ids are functions of the hand-over counts (`OneIdForAll`).
* **The optimistic insert compares buffer ids only.** Three swaps inside one
  attempt look like none (`ComparisonPassesIff`). `ThreeSwapsLoseInsert` is such a
  run from the start: the second element ends finished and uncounted, and the one
  counted is the first, left over in position 0. `FinishedCountedIff` says exactly when a
  finished attempt is counted, and with fewer than three swaps it always is
  (`CountedInNextBatch`).
* **Taking a search request back after a swap goes to the wrong job** unless the
  request was the last client's: the inner `job` of src/mega_recv.c:340 shadows the
  one the undo decrements (`TakenBackIff`).
* **With `NUM_SCHED_INS_DEL` = N and 3 dividing N + 1, two of the three buffers
  are never executed**, and an insert or delete received into one of them waits
  there for good (`StarvedJobNeverExecutes`). Otherwise every run executes every
  buffer within any 3 (N + 1) cycles (`EveryBufferExecutesIff`).
* **A delete overtakes an earlier insert of its buffer, for every N**
  (`DeleteOvertakesInsert`): all deletes of a buffer run before its inserts
  (src/mega_scheduler.c:439-500), so the delete of an item evicted while the insert of
  that item still waits finds nothing. `ExecutedInTurn` gives the cycle and the kernel of
  every job and `OvertakenIff` compares two. With N = 0 a job is overtaken exactly when
  both were in one buffer, an insert first and then a delete (`OvertakenAtZeroIff`); whole
  buffers are executed in the order they were filled iff N = 0 (`BufferOrderKeptIff`).
* **A reply without `KEY_MATCH` carries the value only if it repeats the key.**
  Key and value are copied but the frame advances by the value's length only
  (`ReplyCarriesValueIff`, `ReplyWithoutValue`).
* **Nothing is evicted before a slab has been refused**, over every run of
  allocations by any number of workers (`FullIff`), and slabs exceed the memory limit by
  at most one slab for each class (`MemoryBound`). From then on memory counts as full for
  every class.
* **A SET whose lengths add up to 2^32 or more is skipped by the wrapped sum only**
  (`OverlongSet`), so the parser goes on inside what the query claims to hold.
* **The response loop ends exactly when every reply fits an empty frame**
  (`LoopEndsIff`); otherwise it stands at the first that does not, for good.
* **Running senders touch without the lock**, so a touch can be undone by another
  sender; `TouchLastsIff` says exactly when. In the middle of a visit a touch counts
  if the scan has not come to the item yet (`TouchedInTime`).

## Model

| member | source | states |
|---|---|---|
| GpuHash.AltInvolution | libgpuhash/gpu_hash.cu:334-335 | the alternative-bucket map is an involution: applied twice it leads back to the home bucket, from either bucket of the pair |
| GpuHash.AltBit | libgpuhash/gpu_hash.h:61-69 | for every hash and signature, the alternative bucket flips exactly the low 21 digits set in the signature and no other |
| GpuHash.PairInOneRegion | libgpuhash/gpu_hash.h:66-69 | both candidate buckets of any entry share the top three bits of the bucket number |
| GpuHash.AltIsHome | libgpuhash/gpu_hash.cu:334-335 | an entry has one candidate bucket instead of two iff its signature's low 21 bits are zero |
| GpuHash.VictimStaysInPair | libgpuhash/gpu_hash.cu:376-405 | a victim displaced by the code as written reaches a bucket of its own pair iff the evicting signature's low 21 bits are zero or equal the victim's |
| GpuHash.AdvancedHashStaysInPair | libgpuhash/gpu_hash.cu:376-405 | with the hash moved on to the bucket just left, a victim always reaches the other bucket of its pair |
| CuckooKernel.MatchBallot | libgpuhash/gpu_hash.cu:279-282 | ballot and find-first-set elect a lane iff some lane holds the signature, and then the first such lane |
| CuckooKernel.EmptyBallot | libgpuhash/gpu_hash.cu:299-307 | the 16-to-32-bit rotated ballot elects the first empty lane from the major lane on, wrapping around, and none iff the bucket is full |
| CuckooKernel.HashTable.constructor | libgpuhash/gpu_hash.h:61-64 | a new table has 2^24 buckets and every slot is empty |
| CuckooKernel.HashTable.InsertOne | libgpuhash/gpu_hash.cu:258-424 | the insert kernel for one element, in place, ends in the table of the sequential specification |
| CuckooKernel.HashTable.ReplaceChain | libgpuhash/gpu_hash.cu:330-424 | the loop from the second bucket on terminates and ends in the table of the displacement chain |
| CuckooKernel.HashTable.InsertBlock | libgpuhash/gpu_hash.cu:258-424 | an insert block whose elements one group takes in order is the run of its inserts |
| CuckooKernel.HashTable.DeleteOne | libgpuhash/gpu_hash.cu:454-477 | the delete kernel clears the entry in the home bucket, and in the second bucket only if the home bucket did not hold it |
| CuckooKernel.HashTable.ClearLanes | libgpuhash/gpu_hash.cu:459-468 | all lanes holding exactly this (signature, location) and no others are emptied, and the ballot reports whether there was one |
| CuckooKernel.HashTable.Search | libgpuhash/gpu_hash.cu:47-72 | whatever order the lanes write in, each output is a matching lane's location or 0; with duplicate-free buckets it is the map lookup of its bucket |
| CuckooLaws.InsertConserves | libgpuhash/gpu_hash.cu:256-424 | live entries after an insert plus the lost one are the live entries before plus the new one, as multisets |
| CuckooLaws.InsertLoss | libgpuhash/gpu_hash.cu:333-424 | an entry is lost only by an overwrite under its own signature or at the end of a chain of six writes that met only full buckets; displacement presupposes two full candidate buckets |
| CuckooLaws.DeleteConserves | libgpuhash/gpu_hash.cu:454-477 | a delete removes one copy of its entry iff a candidate bucket holds it, and nothing else |
| CuckooLaws.RunUnique | libgpuhash/gpu_hash.cu:276-287 | over any run of inserts and deletes no bucket holds a nonzero signature twice |
| CuckooLaws.SearchIsLookup | libgpuhash/gpu_hash.cu:54-71 | in a duplicate-free bucket the racing lane writes can only produce the map lookup, and do produce it |
| CuckooLaws.BucketMapItems | libgpuhash/gpu_hash.h:79-82 | the map a duplicate-free bucket stands for holds an entry iff some slot stores it |
| CuckooLaws.DeletedIsGone | libgpuhash/gpu_hash.cu:454-477 | after a delete a search still reports the location iff two different candidate buckets both held the entry |
| CuckooPlacement.EveryLiveEntryIsFound | libgpuhash/gpu_hash.cu:47-72 | if every entry sits in its own pair and buckets are duplicate-free, a search for a live entry's key reports its location |
| CuckooPlacement.InsertPlacedIff | libgpuhash/gpu_hash.cu:258-424 | an insert as written keeps every entry in its own pair iff the home bucket takes it or the chain, judged by the low bits of the signatures it meets, is faithful |
| CuckooPlacement.ChainPlacedIff | libgpuhash/gpu_hash.cu:333-424 | the same for the chain from any point on, with entries already misplaced on the way |
| CuckooPlacement.OneDisplacementPlacedIff | libgpuhash/gpu_hash.cu:376-405 | an insert that ends after a single displacement has met a victim with other low bits than its own signature, and keeps the table placed iff that signature has no low bits |
| CuckooNewEntry.InsertReportedIff | libgpuhash/gpu_hash.cu:256-424 | in every duplicate-free table, right after its insert a search reports the new location iff the key is not forgotten: both buckets full without it, and the first hand with its low bits comes back with its very signature or with an even number of moves left |
| CuckooNewEntry.SameLowBitsForgotten | libgpuhash/gpu_hash.cu:333-424 | both buckets full without the key and the entry in its way with the same low bits: after six writes the whole table is as it was, the new entry is lost, and a search finds nothing |
| CuckooNewEntry.ForgottenIsTheLoss | libgpuhash/gpu_hash.cu:333-424 | for an entry the table did not hold, that condition on the table before tells whether the insert's loss is the new entry itself |
| CuckooExamples.BouncedOut | libgpuhash/gpu_hash.cu:376-423 | seventeen inserts into an empty index, of which the last changes nothing and its key cannot be found |
| CuckooExamples.DisplacedOutOfSight | libgpuhash/gpu_hash.cu:376-405 | seventeen inserts into an empty index: after sixteen every entry is found, after the last one another key's live entry is impossible to find |
| CuckooPlacement.RepairedRunPlaced | libgpuhash/gpu_hash.cu:376-405 | with the hash moved on, every run of inserts and deletes keeps all entries in their own pairs, while locations no live entry bears may pass to other keys at any time |
| CuckooPlacement.RepairedIndexFindsAll | libgpuhash/gpu_hash.cu:376-405 | so, started empty, that index answers the search for every live entry under its present key with its location after any such run |
| CuckooRegions.StepFrame | libgpuhash/gpu_hash.cu:334-335 | an insert, its whole chain included, or a delete leaves every bucket of other regions unchanged |
| CuckooRegions.StepLocal | libgpuhash/gpu_hash.cu:334-335 | its effect on its own region depends on that region only |
| CuckooRegions.RunProjects | libgpuhash/gpu_hash.h:66-69 | after any run a region is as if only its own operations had run |
| CuckooRegions.SchedulesAgree | libgpuhash/test/insert_test.c:117-124 | two schedules that order each region's operations alike build the same table |
| CuckooRegions.DifferentRegionsCommute | libgpuhash/test/insert_test.c:117-124 | operations with homes in different regions commute |
| SlotVotes.LandedIsFold | libgpuhash/gpu_hash.cu:300-320 | whatever the votes, the outcome of a round is its winners' writes one after the other, in any order that lists the one whose location stays last for its slot |
| SlotMoves.AlwaysInPhase | libgpuhash/gpu_hash.cu:299-314 | after any interleaving of votes and signature writes each vote was cast on the bucket as it was before plus the slots written by then, and a slot is filled iff it was before or somebody has written there |
| SlotMoves.OrderBySlots | libgpuhash/gpu_hash.cu:299-320 | the winners can be listed slot by slot in the order of the first writes, the one whose location stays last in each |
| SlotRace.RoundFills | libgpuhash/gpu_hash.cu:299-320 | after a round each written slot was empty before and holds the whole entry of a group that leaves; all other slots are unchanged, equal signatures or not, in whatever order votes and writes fell |
| SlotRace.RoundFillsBucket | libgpuhash/gpu_hash.cu:300-327 | a group that must try again has seen an empty slot of its bucket go |
| SlotRace.RaceBound | libgpuhash/gpu_hash.cu:300-327 | a group still racing after k rounds began on a bucket with at least k empty slots, so at most eight rounds claim slots and a ninth finds the bucket full |
| SlotRace.RoundLinearizes | libgpuhash/gpu_hash.cu:299-327 | a round whose voters of one signature and bucket agree, votes and writes in any order and with arbitrary winners, equals single inserts of its winners in some order |
| SlotRace.RoundLinearizesIff | libgpuhash/gpu_hash.cu:299-327 | for any votes and writes from a duplicate-free table: every outcome equals single inserts of its winners in some order iff voters of one signature and bucket agree |
| SlotRace.RaceLinearizes | libgpuhash/gpu_hash.cu:299-327 | so does the whole race: no group wins twice, and the table is that of the winners' inserts one by one |
| SlotRace.ApartAgrees | libgpuhash/gpu_hash.cu:299-314 | voters agree if no two groups with one home bucket bring one signature, whoever votes after whose write |
| SlotRace.VotesFirstAgrees | libgpuhash/gpu_hash.cu:299-314 | voters agree, equal signatures or not, if all vote before anybody writes |
| SlotRace.LateVoteDuplicates | libgpuhash/gpu_hash.cu:299-320 | two inserts of one key, the second voting after the first has written, while the home bucket has two empty lanes: the bucket can hold the signature twice |
| SlotRace.RaceOutcome | libgpuhash/gpu_hash.cu:300-327 | every group ends as winner or leaves a full bucket behind, and none is still racing after nine rounds |
| SlotRace.SomeRound | libgpuhash/gpu_hash.cu:300-327 | from every state a round is possible, so races go on until they end |
| EvictionRace.RoundIsSequential | libgpuhash/gpu_hash.cu:351-423 | any round over second buckets, displacements included, is the writes of the groups whose entries stay, one after the other |
| EvictionRace.RoundAccounts | libgpuhash/gpu_hash.cu:351-423 | the account of any round, whoever wins: table, hands and losses (overwritten co-survivors included) hold every entry as often as before, plus the victims an overwritten survivor of a full bucket carries on as well |
| EvictionRace.RoundConserves | libgpuhash/gpu_hash.cu:351-423 | if no two groups of one signature share a lane of a full bucket, every entry is kept exactly as often as before |
| EvictionRace.RoundsConserveIff | libgpuhash/gpu_hash.cu:351-423 | for every state, all rounds from it conserve all entries iff no two groups of one signature share a lane of a full bucket |
| EvictionRace.RoundUnique | libgpuhash/gpu_hash.cu:351-423 | if groups of one signature and bucket vote for one lane, no bucket gets a signature twice |
| EvictionRace.RoundsUniqueIff | libgpuhash/gpu_hash.cu:351-423 | all rounds from a duplicate-free state keep it duplicate-free iff groups of one signature and bucket vote for one lane |
| EvictionRace.SomeRound | libgpuhash/gpu_hash.cu:351-423 | from every state a round is possible, with the winners of two slots chosen at will |
| EvictionRuns.RaceAccounts | libgpuhash/gpu_hash.cu:333-423 | the account of any whole race with its doubled victims; apart from those no group gives up more than one entry |
| EvictionRuns.RaceConserves | libgpuhash/gpu_hash.cu:333-423 | whole races conserve every entry as long as no round starts with two groups of one signature sharing a lane of a full bucket |
| EvictionRuns.RaceUnique | libgpuhash/gpu_hash.cu:333-423 | whole races keep buckets duplicate-free as long as each round starts with such groups agreeing |
| EvictionRuns.RaceEnds | libgpuhash/gpu_hash.cu:330-423 | no group takes part in more than 54 rounds, whatever the signatures and the winners |
| EvictionRuns.LoneGroupIsChain | libgpuhash/gpu_hash.cu:330-423 | with one group the race is the second-bucket part of the sequential insert: same table, same loss |
| EvictionChains.RaceIsChains | libgpuhash/gpu_hash.cu:333-423 | a whole race whose rounds meet no full bucket, with groups of one signature agreeing, ends in the table of the second-bucket parts of its finished groups' inserts, each once, in some order |
| EvictionTwins.SharersAreTwins | libgpuhash/gpu_hash.cu:360-405 | two groups of one signature that share a lane of a full bucket and survive with moves left hold the same victim on the same way |
| EvictionTwins.TwinsMerge | libgpuhash/gpu_hash.cu:333-423 | every race in which rounds wait for all checks can be followed by the race without one twin, every other group doing the same in it, and the tables equal except between the two checks of the twins |
| EvictionTwins.MergedTables | libgpuhash/gpu_hash.cu:333-423 | when all groups have finished, the table is that of a race without one of the twins: a victim carried twice does not get into the index twice |
| CuckooExamples.VictimsDuplicate | libgpuhash/gpu_hash.cu:351-405 | two fresh inserts with full second buckets whose victims have one signature and go to one bucket: the race puts that signature there twice |
| CuckooExamples.SignatureTwice | libgpuhash/gpu_hash.cu:351-405 | an instance: twenty-four single inserts into an empty index, then two racing ones, leave signature 17 in bucket 17 twice |
| ClockFairness.EvictionLaw | src/bitmap.c:84-131 | an item nobody touches is evicted at every second pass of the hand, at the first one if it starts idle, with visits, other touches and growth interleaved freely |
| ClockFairness.SecondChance | src/bitmap.c:152-162 | an item touched, under the lock as bitmap_touch does it, since the hand last passed survives the next visit |
| TouchRace.TouchLastsIff | src/mega_send.c:221-228 | an unlocked touch, a load and a store, lasts through any other touches iff no sender that had read the word before it, with the bit set, writes it back for another item without reading again |
| TouchRace.TouchDuringVisit | src/bitmap.c:95-117 | for the word, a touch between a visit's load and store counts as after the visit for an idle item and as before it for a busy one |
| TouchRace.VisitWithTouches | src/bitmap.c:95-117 | a visit with any unlocked loads and touches between its steps evicts exactly the items idle in the live word as its scan comes past them, and its store leaves idle exactly those busy at its load |
| TouchRace.TouchedInTime | src/bitmap.c:99-117 | an item touched before the scan comes to it, and not written back, is not evicted in this visit; idle at the visit's load, it is not left idle either |
| ClockFairness.UntouchedIsEvicted | src/bitmap.c:94-123 | an item untouched while the hand passes twice is evicted exactly once |
| ClockFairness.EveryItemOnce | src/bitmap.c:94-123 | any 2 * current_size consecutive visits evict every offset below 64 * current_size exactly once and no other |
| ClockFairness.BatchDistinct | src/bitmap.c:84-131 | a batch of at most 64 * current_size offsets has no duplicates and takes at most two rounds |
| ClockBitmap.MaskedFfs | src/bitmap.c:98-113 | find-first-set under the mask splits off the next set bit of the word, or reports that none is left |
| ClockBitmap.IdleVisit | src/bitmap.c:94-123 | a visit that evicts nothing leaves one all-zero word fewer |
| ClockBitmap.Bitmap.constructor | src/bitmap.c:32-47 | all items start idle, the class empty |
| ClockBitmap.Bitmap.EvictBatch | src/bitmap.c:84-131 | terminates for a non-empty class; returns between num and num + 63 offsets, exactly those the clock evicts in the fewest visits that yield num, distinct when num is at most the items of the class |
| ClockBitmap.Bitmap.VisitWord | src/bitmap.c:94-123 | one pass of the outer loop is one visit of the clock, wrap-around and mask reset included |
| ClockBitmap.Bitmap.DrainWord | src/bitmap.c:98-116 | the inner loop emits exactly the set bits of the word, ascending |
| ClockBitmap.Bitmap.Update | src/bitmap.c:133-150 | growth that would use up the reserved words is refused and changes nothing; otherwise the class grows and the hand stays |
| ClockBitmap.Bitmap.TouchItem | src/bitmap.c:152-162 | touching clears the item's bit and no other |
| SlabSpec.LocRoundTrip | src/slabs.c:132-146 | for every item the bitmap's cap admits, decoding its location gives back its class, slab and index; the offset never carries into the class bits |
| SlabSpec.LocInjective | src/slabs.c:316-326 | different items have different locations |
| SlabSpec.CarvedChain | src/slabs.c:315-326 | the items of a fresh slab form one acyclic list that ends at the last, without item 0 |
| FreeLists.FreeIff | src/slabs.c:361-366 | an item is marked free iff it is in some worker's list or is the item with location 0 |
| FreeLists.PopKeeps | src/mega_recv.c:93-98 | popping an item keeps all lists sound; the item was free, in this worker's list alone, and is in no list afterwards |
| FreeLists.EvictKeeps | src/items.c:85-93 | evicting an item in use puts it into exactly one list; one that is free is left alone |
| FreeLists.CarveKeeps | src/slabs.c:315-330 | carving brings only new items into the lists and never item 0 |
| FreeLists.NoDoubleAllocation | src/mega_recv.c:80-99 | in any interleaving of any number of workers, an item allocated twice was evicted in between |
| FreeLists.PopIsExclusive | src/mega_recv.c:80-99 | an allocated item was free, of the class wanted, not item 0, and afterwards is in nobody's list |
| ItemStore.Store.constructor | src/slabs.c:235-287 | without preallocation: aligned chunk sizes growing by the factor, eight empty bitmaps, no slab, an empty store |
| ItemStore.Store.AllocBatch | src/slabs.c:299-335 | a slab is refused iff the memory limit is exceeded and the class has one already, or the bitmap is at its cap; otherwise it is carved and accounted for |
| ItemStore.Store.WriteItems | src/slabs.c:315-326 | the loop writes location, flags and next of every item of the new slab and of no other |
| ItemStore.Store.Reclaim | src/items.c:77-93 | one step of the eviction loop is one eviction step of the free-list model |
| ItemStore.Store.EvictBatch | src/items.c:73-118 | the clock's offsets are reclaimed in order into one list; each item freed gets a delete job with its own key words and location, up to the one at which the job buffer is full, which ends the batch |
| ItemStore.Store.ItemAllocBatch | src/items.c:48-137 | memory becomes full exactly if it was, or the limit or the bitmap's cap refuses a slab; otherwise a fresh slab is carved and accounted for and nothing else changes; once full, evicted items; no list comes back iff nothing the clock named was in use |
| ItemStore.Store.BatchAlloc | src/mega_recv.c:80-99 | the first item of the worker's list is taken into use and the list moves on; an empty list is filled up first, by a new slab or, exactly if one has been refused, by what the clock of the class evicts; with a list in hand neither memory_full nor the delete jobs change |
| StoreRuns.FullIff | src/items.c:66-124 | over every run of allocations by any workers on a new store, memory is full iff somebody with an empty list has been refused a slab, and before that no item has been taken back |
| StoreRuns.GrowsIff | src/slabs.c:299-312 | in every run an allocation carves a slab iff its list is empty, none has been refused before, the bytes of all slabs and the new one stay within the limit or the class has none, and the class keeps below 2^28 items |
| StoreRuns.StaysAllocated | src/mega_recv.c:80-99 | until a slab has been refused, every item handed out stays in use and is not handed out again |
| StoreRuns.MemoryBound | src/slabs.c:307-332 | in every run the bytes counted are those of the slabs, at most the limit and one slab for each class that has any |
| StoreRuns.AllocatesInView | src/mega_recv.c:80-99 | what one worker's allocation does to its own list it does to the system of all workers, the other lists staying as they are |
| EvictPath.JobNamesEntry | src/items.c:95-107 | the delete job of an evicted item names signature, hash and location of the entry that the item's SET has inserted |
| EvictPath.EvictedIsGone | src/items.c:95-107 | a new key's entry, inserted and then deleted by the job of its item, is not found any more |
| ItemStore.BatchAllocKeeps | src/mega_recv.c:80-99 | done by one worker among many, this keeps every worker's list sound and returns an item that was free and is in nobody's list |
| MegaBatch.WorkerBatch.constructor | src/mega_recv.c:195-202 | sets up exactly that initial state |
| MegaBatch.WorkerBatch.GetAvailableBufId | src/mega_scheduler.c:146-172 | takes the older available buffer and moves the younger up |
| MegaBatch.GetBatch | src/mega_scheduler.c:174-194 | performs the take step on every worker and returns the last worker's id |
| MegaBatch.GiveToSender | src/mega_scheduler.c:196-219 | performs the give step on every worker, with delay 0 iff this cycle executed inserts and deletes |
| MegaBatch.WorkerBatch.RefreshBuffer | src/mega_send.c:128-146 | empties the sender's buffer iff its jobs were executed |
| MegaBatch.WorkerBatch.GiveAvailableBuffer | src/mega_send.c:148-185 | refreshes, pushes and only then forgets the buffer; the third-buffer branch is dead under its precondition |
| TripleBuffer.AlwaysInStep | src/mega_scheduler.c:146-219 | the hidden invariant: after every run of any interleaving all buffer variables of all workers are functions of the hand-over counts modulo 3 |
| TripleBuffer.OneOwnerEach | src/mega_send.c:158-170 | receiver, available queue, sender and GPU always hold a rotation of (0,1,2), also between a sender's push and its reset |
| TripleBuffer.OneIdForAll | src/mega_scheduler.c:393-394 | in every cycle the single id returned is the buffer taken from every worker, and it is the cycle number modulo 3 |
| TripleBuffer.NoAssertionFails | src/mega_send.c:162-167 | a swap always finds an available buffer and a free GPU slot, and "Three buffers available" is unreachable |
| TripleBuffer.OnlySpinningWaits | src/mega_scheduler.c:204-206 | outside the spin loops every step is possible when its turn comes: no buffer index is ever out of range |
| PipelineJobs.AlwaysOnSchedule | src/mega_scheduler.c:426-434 | with NUM_SCHED_INS_DEL = N, cycle k executes inserts and deletes iff N + 1 divides k |
| PipelineSchedule.RanBuffer | src/mega_scheduler.c:393-434 | in every run, cycle k works on buffer (k - 1) modulo 3 and executes inserts and deletes iff N + 1 divides k |
| PipelineSchedule.TurnIsEnabled | src/mega_scheduler.c:204-206 | no deadlock: in every state that can be reached the scheduler, or the sender it waits for, can move |
| PipelineSchedule.ReachCycle | src/mega_scheduler.c:146-219 | every run can be continued to any later cycle |
| PipelineSchedule.PassedRan | src/mega_scheduler.c:393-434 | every run that has completed a cycle has run the kernels of that cycle |
| PipelineSchedule.EveryBufferExecutesIff | src/mega_scheduler.c:426-434 | every run executes each of the three buffers within any stretch of more than 3 (N + 1) cycles, iff 3 does not divide N + 1 |
| PipelineSchedule.StarvedBuffer | src/mega_scheduler.c:426-434 | with 3 dividing N + 1, every executing cycle of every run works on buffer 2 |
| PipelineOrder.StarvedJobNeverExecutes | src/mega_scheduler.c:426-434 | a job then received into buffer 0 or 1 is never executed, however the run goes on: it stays in its buffer |
| PipelineJobs.JobsConserved | src/mega_send.c:128-146 | over every run the jobs received are those executed plus those waiting in the buffers, as multisets |
| PipelineJobs.ExecutedAtMostOnce | src/mega_scheduler.c:208-215 | a job received once is executed at most once, however often its buffer comes round |
| PipelineJobs.OnlyExecutedJobsAreCleared | src/mega_send.c:128-146 | whenever a sender clears insert and delete jobs, all of them have been executed |
| PipelineOrder.ExecutedInTurn | src/mega_scheduler.c:426-500 | for every N and in every run, a job received when c buffers had been taken is in its buffer until the first cycle k >= c that works on that buffer with N + 1 dividing k + 1, and from then on in the delete or insert kernel of that cycle |
| PipelineOrder.AlwaysFits | src/mega_scheduler.c:426-500 | after every run a worker's kernels are two for each executing cycle, and its sender may clear iff the cycle of its buffer has executed |
| PipelineOrder.OvertakenIff | src/mega_scheduler.c:439-500 | of two jobs of a worker received once each, one is executed while the other has not been and does not run with it, iff its kernel by that rule comes first |
| PipelineOrder.OvertakenAtZeroIff | src/mega_scheduler.c:439-500 | with N = 0, in every run, a job is overtaken by a later one iff both were in one buffer, its cycle has run, the earlier is an insert and the later a delete |
| PipelineOrder.DeleteOvertakesInsert | src/mega_scheduler.c:439-500 | for every N a run in which a worker receives an insert and then a delete, and the delete is executed first |
| PipelineOrder.BufferOrderKeptIff | src/mega_scheduler.c:426-434 | in every run no job of any worker is overtaken by one received in a later cycle iff N = 0 |
| PipelineOrder.LaterBufferOvertakes | src/mega_scheduler.c:426-434 | for every N > 0 and any two jobs a run in which the second, received in a later cycle, is executed and the first is not |
| InsertRetry.CountedInNextBatch | src/mega_recv.c:482-530 | in every run over any number of inserts, from the first on, an insert that leaves the loop after fewer than three swaps in its last attempt is counted exactly once, stands in its place, and is in the buffer the scheduler takes next |
| InsertRetry.FinishedCountedIff | src/mega_recv.c:482-530 | however many swaps there were, a finished insert is among those its block counts iff the block was not cleared after its count was stored, nor between the write and the load of the count unless it was the block's first |
| InsertExample.ThreeSwapsLoseInsert | src/mega_recv.c:482-530 | a run from the start in which the second insert finishes after three swaps, stands in position 1 and is not counted; the one insert that is counted is the first element in position 0 |
| InsertRetry.AbandonedLeavesNoTrace | src/mega_recv.c:518-529 | in every such run an abandoned attempt leaves both counters as it found them or cleared, against concurrent clears between any two loads and stores |
| InsertRetry.ComparisonPassesIff | src/mega_recv.c:514-518 | the final comparison succeeds iff the number of swaps during the attempt is a multiple of three |
| InsertRetry.AlwaysLimited | src/mega_recv.c:485-515 | over every run from the start no buffer counts more than maxTotal jobs, no block maxBlock or more, and no element is written at position maxBlock - 1 or behind |
| InsertRetry.RejectedIff | src/mega_recv.c:485-500 | a step of a run rejects an insert iff it is the look at the counters and the buffer or the block is full to the last place |
| InsertRetry.WrittenNext | src/mega_recv.c:502-510 | an insert that is not rejected writes its element right behind those the block counts, with room in both, and nothing else |
| JobList.SearchBuf.CountJob | src/mega_recv.c:331-347 | one more request is counted in the last job if that is its client's, else in a new one; the list stays the shortest one for its requesters |
| JobList.SearchBuf.AddSearchJob | src/mega_recv.c:313-367 | refused iff the buffer is at its limit; otherwise requester, signature and hash stand at the next search index and all earlier ones are unchanged |
| JobList.TakenBackIff | src/mega_recv.c:375-382 | the undo after a swap restores the list, and leaves it standing for the requests before, iff the request's client is that of the last job |
| JobList.SearchBuf.TakeBack | src/mega_recv.c:375-382 | the undo in place does that to the compact list, or nothing to one the sender has cleared meanwhile, both counters stopping at zero |
| JobList.StandsExpands | src/mega_recv.c:329-347 | the compact list expands to the requester of each search index, in order |
| JobList.CompactIsCanonical | src/mega_recv.c:329-347 | no other compact list stands for the same requesters |
| ReplySpec.LoopSettles | src/mega_send.c:778-897 | after as many frames as there are requests before it the loop stands at the first reply too large for an empty frame, or at the end, and stays there |
| ReplySpec.LoopEndsIff | src/mega_send.c:778-897 | the loop reaches the end of the requests iff every reply fits an empty frame |
| ReplySpec.FoundFitsIff | src/mega_send.c:854-858 | a hit fits a frame of its own iff key and value have at most 1466 bytes |
| ReplySpec.PackIsFaithful | src/mega_send.c:755-877 | the frames, joined, hold the replies to all search indices once each and in order |
| ReplySpec.PackedFrame | src/mega_send.c:790-897 | every frame is non-empty, at most 1514 bytes, carries consecutive requests of the one client it is addressed to, and ends only at a new client or for lack of room |
| ReplySpec.RepliesReadable | src/mega_send.c:210-218 | from the bytes of replies in a row the single replies can be told apart |
| ReplySpec.BodiesAreJoined | src/mega_send.c:790-877 | what a frame carries is exactly its run of replies in a row |
| ReplySpec.FramesReadable | src/mega_send.c:790-897 | two lists of requests and replies packed into the same frames ask for the same clients and carry the same bytes, index by index |
| ResponseLoop.ServedIsReadable | src/mega_send.c:755-897 | so do two servers that send the same frames, whatever their search results and items |
| ReplySpec.ReplyCarriesValueIff | src/mega_send.c:210-218 | the client receives the stored value iff the value is the key over and over, or there is no key |
| ReplySpec.ReplyWithoutValue | src/mega_send.c:210-218 | an item with an 8-byte key and a different 8-byte value: the client receives the key |
| ReplySpec.FoundIsCopied | src/mega_send.c:210-218 | the room a hit asks for is the length of all that is copied into the frame, and the reply is the front of that |
| GetPath.ReplyIsAnswer | src/mega_send.c:798-867 | with the two results the search kernel leaves over a duplicate-free index, the sender answers with the item the index names for the key, or a miss |
| GetPath.HeldIsFound | src/mega_send.c:798-867 | an entry in the home bucket, or in the second one while the home bucket does not hold the signature, is answered with its item |
| GetPath.MissIff | src/mega_send.c:798-867 | a request is missed iff neither candidate bucket holds its signature with a nonzero location |
| ReplySpec.RoomInFrame | src/mega_send.c:832-867 | every reply in a frame has found the room it asks for behind those before it, so what is copied for a hit stays inside the frame |
| ResponseLoop.FillFrame | src/mega_send.c:790-877 | the innermost loop, consuming jobs in place, fills exactly the next frame of the specification, empty if its first reply is too large, and counts hits and misses |
| ResponseLoop.SendReplies | src/mega_send.c:755-897 | the chunk loops terminate and send exactly the specified frames, in chunks that all but the last fill the array of frames; hits are the found replies and hits plus misses all requests |
| ResponseLoop.ServeBuffer | src/mega_send.c:755-897 | from the receiver's compact list to frames: each request is answered once, to the client that made it, with hits plus misses equal to num_search_job; over a duplicate-free index the answer to request k is the item the index names for its key |
| PacketSpec.PacketRoundTrip | README.md:72-79 | a packet written in this format is parsed into exactly its queries, in order, whatever follows it in memory, and their number is returned |
| PacketSpec.AnyPacket | src/mega_recv.c:299-544 | a packet with any list of queries, lengths right or wrong: accepted are the right-length ones, in order, up to the first that finds no room; their number is returned if all have been taken and the end mark follows, -1 after a refusal, the end of the packet or an unknown job type |
| PacketSpec.TakenIs | src/mega_recv.c:313-325 | what that is: the right-length queries among the first n, each with room behind those before it, where query n is the first right one that finds none, or n is their number |
| PacketSpec.WrongMagic | src/mega_recv.c:292-296 | without the magic number nothing is accepted and -1 is returned |
| PacketSpec.OverlongSet | src/mega_recv.c:437-448 | a SET whose lengths add up to 2^32 or more is skipped by the sum less 2^32 |
| PacketSpec.LiteralPacket | README.md:72-79 | a packet with one GET and one SET, byte by byte |
| PacketSpec.ParseReturns | src/mega_recv.c:299-544 | on any bytes the parser stops and returns -1 or the number of requests it has accepted, and each of them has found room |
| PacketIO.ProcessPacket | src/mega_recv.c:256-550 | the parse loop terminates on any bytes and accepts and returns what the parser function says; every request accepted has found room |
| PacketIO.StoreGet | src/mega_recv.c:685-708 | writes one GET query behind the frame so far, its key starting with the two given words |
| PacketIO.StoreSet | src/mega_recv.c:588-605 | the same for a SET query |
| PacketIO.WriteSets | src/mega_recv.c:581-616 | the preload loop fills a frame of at most 1514 bytes with SET queries of consecutive keys until frame or keys run out, and ends it properly |
| PacketIO.WriteMixed | src/mega_recv.c:673-761 | the mixed GET and SET loop fills a frame of at most 1514 bytes to the point where the next query would not fit; runs of the two kinds take turns across frames, GETs take the generator's keys and SETs the next numbers, and it stops only at a SET when those have run out |
| PacketTurns.TurnsGoOn | src/mega_recv.c:715-755 | the counters behind a query stand for the same turns, one query later |
| PacketKeys.HashWordDigit | src/mega_recv.c:597-599 | for every key, each digit of the second key word is that of the key or, at the top, that of the key's lowest bits |
| PacketKeys.BlockIs | src/mega_recv.c:476-477 | a key below 2^(32 - bits) goes to the insert block of its lowest bits |
| PacketKeys.NextBlock | src/mega_recv.c:727-736 | consecutive keys go round all insert blocks |
| PacketKeys.HomeOfKey | src/mega_recv.c:727-736 | whatever its insert block, the home bucket of a key is the key's number modulo 2^24 |
| PacketKeys.FirstKey | src/mega_recv.c:597-599 | key 1 with eight blocks is written as 0x20000001 and goes to block 1 |
| PacketIO.WrittenFrameParses | src/mega_recv.c:588-616 | a frame either loop has written is parsed into the written keys as signature and hash, in order and number |

## Left out

- Mixed rounds: groups racing for home buckets and groups racing for second buckets are modelled in two separate state machines, not in one round; warps that miss a barrier (the FIXME at libgpuhash/gpu_hash.cu:293) are not modelled.
- SlotRace.RaceLinearizes: for races in whose rounds voters of one signature and bucket agree; `RoundLinearizesIff` shows that this is needed.
- PipelineOrder.OvertakenIff: jobs of one kernel run at the same time, so no order is claimed inside a kernel, nor between jobs of different workers; the jobs compared are received once each.
- EvictionRuns.RaceConserves: for races in which no two groups of one signature share a lane of a full bucket; `RoundsConserveIff` shows that this is needed, `RaceAccounts` says what any race doubles, and `TwinsMerge` that it does not reach the table.
- EvictionChains.RaceIsChains: for races that meet no full bucket; with displacements the writes of different groups' chains interleave, and only `RoundIsSequential` orders them.
- EvictionTwins.TwinsMerge: for two groups; with more of them it applies to one pair after the other.
- CuckooKernel.HashTable.InsertBlock: one group takes the elements in order; many groups striding over a block are the subject of the two races.
- InsertRetry.CountedInNextBatch: for attempts with fewer than three swaps, because the code cannot tell three from none; `FinishedCountedIff` has the others.
- CuckooPlacement.InsertPlacedIff: its condition `Faithful` follows the chain through the signatures it meets, because a later write can repair an earlier misplacement; `OneDisplacementPlacedIff` gives the plain guard for one displacement.
- CuckooNewEntry.InsertReportedIff: its condition `Forgotten` follows the chain likewise; `SameLowBitsForgotten` is the guard on the table when the first victim has the key's low bits.
- ItemStore.Store.AllocBatch: malloc and the growth of the slab list are assumed to succeed.
- ItemStore.Store.EvictBatch: the retry of a delete job after a buffer swap (src/items.c:112-116) is not modelled; delete jobs go to one buffer.
- ItemStore.Store.ItemAllocBatch: assumes that eviction is configured, and that the class has a slab once memory is full, which the assertion in src/bitmap.c:92 demands; the source exits where this method returns no list.
- JobList.SearchBuf.AddSearchJob: one attempt; the undo after a swap is `TakeBack`. Entry 0 of the list must match no client.
- InsertRetry: one insert block, whose jobs are all that the total counts; the sender may clear at any time while it holds an executed buffer, which is more than the source does.
- MegaBatch.GetBatch: the spin loops and the assertion that the GPU slot is free are preconditions; `TripleBuffer` is where they are discharged.
- PacketIO.ProcessPacket: room in the batch buffer is a parameter, and allocating an item for a SET, which happens even when the lengths are wrong, is assumed to succeed.
- GetPath.ReplyIsAnswer: for nonzero signatures; a signature of 0 matches the empty slots of a bucket, and the locations they still hold.
- PacketIO.StoreSet: key bytes after the first eight and the value are whatever the buffer held, as in the generators.
- The receiver's insert blocks are chosen by the top hash bits, regions by bits 21 to 23; no claim is made that blocks and regions agree.
- hash_insert_2choice and bitmap_evict, which the configuration does not use, and the PREFETCH_BATCH, KEY_MATCH, SIGNATURE and lock-free-queue variants.
- ClockFairness.SecondChance: touches are atomic steps between visits, as under the lock; `TouchRace` has the unlocked ones of the running senders, on one word at a time.
- slabs_clsid and the class search of BATCH_ALLOC: lists are keyed by worker and class, with one key and value size per server.
- Failure of malloc and realloc while growing, slabs_preallocate and do_slabs_newslab.
- Memory layout: a bucket is a value in the bucket array, item headers are maps from locations, and the few buffer ids are sequences; aliasing inside these is not captured.
- Ethernet addresses, checksums and header length fields, the NIC, CUDA copies and streams, threads and affinity, timers, statistics, printing and the Zipf generator.
