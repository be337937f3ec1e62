# AddressSanitizer heap allocator: a verified model

This project models the run-time library's heap allocator (`src/asan/asan_allocator.cpp`), the
activation and deactivation of the runtime (`src/asan/asan_activation.cpp`) and the attribution of a
bad access in reports (`src/asan/asan_descriptions.cpp`), and proves what they promise.

`dafny verify dfyconfig.toml` checks everything.

## How the model is built

Four representations of the heap have to agree: header bytes in memory, the magic/back-pointer words
that lookup follows from a block start, the shadow, and the abstract record of who uses which block.

| module | what it holds |
|---|---|
| `Words`, `Layout` | 64-bit sums that wrap; redzone and alignment arithmetic; how a request becomes a block size and a position |
| `Memory`, `Chunks` | bytes, little-endian words, shadow; chunk header, large header, free context, `GetAsanChunk` |
| `Machine` | the allocator as a state machine: any number of threads inside `Allocate`, `Deallocate` and `Recycle`, interleaved one write, shadow write, test or compare-and-swap at a time, with mapping, carving, client writes, new options and the re-poisoning of single blocks in between. `Safe` collects the CHECKs, the alignment CHECKs of `PoisonShadow` included |
| `Invariant`, `Allocating`, `Freeing`, `Recycling`, `HeapSteps`, `Runs` | one invariant, kept by every step, hence in every state of every run; no CHECK fires |
| `Effects` | what each step does to the records, and that it does nothing in blocks it does not work on |
| `Lookup`, `ShadowFacts`, `Separation`, `FreeProtocol`, `Conservation` | what follows: lookup, shadow, gaps, frames, who frees, counters |
| `Sweep` | the loop of `ReInitialize` left alone |
| `Reactivation` | re-activation at any moment, threads moving between the re-poisoning of one block and the next: what it restores and what it spoils |
| `Interrupted` | a visit of `RePoisonChunk` interrupted between its test and its writes |
| `FreeBlocks` | when the shadow of free blocks is uniform |
| `Promises` | what `Allocate`, `Deallocate` and `Recycle` promise, said of the request and of bytes, shadow bytes and counters |
| `Uninterrupted`, `Outcomes`, `AsanAllocator` | the class `Allocator`, whose methods update memory, shadow and counters in place as the source does; each ends in the closed-form state of an undisturbed run of machine steps |
| `Attribution`, `StackFrames`, `Threads` | which chunk, stack variable and threads a report names |
| `Activation` | the two-mode machine over options and heap |

The fields `stale`, `abs`, `nextId`, `won` and `lost` of a state are auxiliary: they record what the
bytes are meant to say. Only the guards that say what clients may do look at them: a client writes to
live bytes only, and frees no forged header.

One step is one program point of the source: a header field or word, a fill, a counter update, a call of
`PoisonShadow` with its own test of the poisoning flag, a test whose result is used later (lines 617 and
634 of `src/asan/asan_allocator.cpp`), a compare-and-swap; only `RePoisonChunk` on one block is a step as a
whole. `ReInit` sets options and poisoning flag; it may as well change one and then the other. From then
on every block is `stale` until it is re-poisoned. The machine may re-poison any block at any moment while
poisoning is on, which covers every order of visits and blocks that appear while the loop is on its way.
`Apply` is defined for every step and does nothing where an access would leave memory; `Safe` excludes that.

Fixed choices: 64-bit words, little-endian memory, shadow granularity 8, page size 4096, heap
addresses below 2^47, `poison_partial` on. The underlying allocator is modelled by contract: blocks
are disjoint, primary blocks start at multiples of 16, a secondary block is a page-aligned fresh
mapping with a page of its own in front, fresh memory is zero, `CanAllocate` compares with 2^17, and
`GetBlockBegin` maps any address of a block to its start. Primary memory is mapped in one step, which
poisons it if poisoning is on, and carved into blocks in others; since the call that maps a block's
last bytes is the one that carves it (`src/sanitizer_common/sanitizer_allocator_primary64.h:783-846`), what
lies beyond the part left over from one earlier mapping was mapped in the present mode. The quarantine
is a bag that may keep a chunk, pass it straight through, or recycle any member at any time.

## Where the code and its promises part

* Alignment 2^63: the size sum wraps, the request is accepted as a tiny one, and the CHECK at line 607
  fails in every block. `Layout.LayoutSoundIff` gives the exact condition. (The CHECK at line 571 holds
  even then: `Layout.RequestIsGranular`.)
* The size field has 48 bits (`Chunks.SizeRoundTripIff`); accepted sizes stay below 2^40.
* Re-activation poisons a live secondary chunk whose header sits at the block start, because it has no
  large header and is not found (`Reactivation.ReactivationExactIff`, `ShadowFacts.UnfindableIff`; a request of
  200000 bytes made while deactivated is one, `ShadowFacts.LostWhileDeactivated`).
* Re-activation races with `Allocate`: it locks the underlying allocator only, so it may visit a block
  whose chunk is not published yet, and then poisons it whole. Before `Allocate` clears the user granules
  that does no harm. Afterwards it spoils a chunk of at least 8 bytes, between two shadow writes as well as
  after the last; a smaller one only if the partial byte has been written or will not be, because the test
  at line 634 was made while poisoning was off (`Reactivation.SpoilableIff`, `LosingRace`; every allocation
  passes through the window, `WindowIsReached`). Such chunks and the unfindable ones above are all it spoils
  as long as a visit of `RePoisonChunk` to a block is not interrupted (`LosesIff`, `ReactivationAllExactIff`,
  and over whole runs `LostIff`, `ExactUnlessHit`).
* A visit of `RePoisonChunk` reads the state byte at line 406 and writes shadow at lines 413-418 or 426 with
  no lock against `Allocate` and `Deallocate`. If the chunk it saw in use is freed in between, the late
  write makes the user bytes in its last, incomplete granule addressable again, in the quarantine or in the
  free block; it opens nothing else (`Interrupted.FreedInVisit`), and nothing at all when the size is a
  multiple of 8. If the block is reused in between, the new chunk's shadow stays exact if and only if the
  late redzones agree with it (`Interrupted.ReusedInVisitIff`). If no chunk was in use at the test, the late
  write poisons whatever chunk is live by then (`Interrupted.LateWholeSpoils`). In the machine a visit is one
  step, so `Runs.RunIsSafe`, `ShadowFacts.ShadowIsExact`, `Reactivation.LosesIff` and
  `Reactivation.ExactUnlessHit` speak of runs in which no visit is interrupted.
* A free primary block is not always wholly poisoned or wholly clear: one that straddles a mapping made
  while poisoning was off and one made after re-activation is mixed (`FreeBlocks.MixedIsReached`: size
  class 48, mappings of 0x40000 bytes).
  `FreeBlocks.UniformIff` says exactly which blocks of which runs are. The test at line 617 is still
  sound, because a set first byte does mean that the whole block is poisoned.
* While poisoning is off the last, incomplete granule keeps its old shadow byte, so a reused block can have
  user bytes that look unaddressable (`ShadowFacts.OffModeAddressableIff`).
* A stack access can be attributed to no variable also at the far end: when it is nearer to the top of
  the address space than to the last variable (`StackFrames.MarkedIff`).
* `kAccessTypeUnknown` cannot occur (`Attribution.DescribeAccess`).

## Model

| member | source | states |
|---|---|---|
| Layout.RZSize2Log | src/asan/asan_allocator.cpp:41-53 | the log of every valid redzone fits 3 bits and gives the redzone back |
| Layout.RedzoneWithinBounds | src/asan/asan_allocator.cpp:462-475 | the chosen redzone lies between the configured minimum and maximum and is a multiple of 16 |
| Layout.RedzoneMonotone | src/asan/asan_allocator.cpp:462-475 | a larger request never gets a smaller redzone |
| Layout.RedzoneLadder | src/asan/asan_allocator.cpp:462-475 | which redzone each size gets: 16 bytes up to 48, 32 up to 96, 64 up to 448, 128 up to 3968, 256 up to 16128, 512 up to 32256, 1024 up to 64512 and 2048 beyond, within the configured bounds |
| Layout.AlignmentRoundTrip | src/asan/asan_allocator.cpp:477-489 | the 3-bit alignment log reads back as 0 below 8 and as the alignment capped at 512 otherwise |
| Layout.RequestIsGranular | src/asan/asan_allocator.cpp:545-571 | the CHECK at 571 holds for every 64-bit size and every power-of-two alignment, rejected requests and wrapped sums included |
| Layout.AcceptedNeeded | src/asan/asan_allocator.cpp:556-582 | that size, computed from the request alone, is what an accepted request asks the underlying allocator for |
| Layout.AcceptedPlanOk | src/asan/asan_allocator.cpp:572-582 | every accepted 64-bit request with alignment below 2^63: the sum did not wrap, and the primary/secondary guess made with the user's alignment is the placement made with alignment 8 |
| Layout.PlacementOk | src/asan/asan_allocator.cpp:601-663 | in any 16-aligned block of the needed size, user memory is aligned and inside (CHECK at 607) and header and large header do not overlap (CHECK at 661) |
| Layout.LayoutSoundIff | src/asan/asan_allocator.cpp:545-607 | a request is rejected or placed soundly in every block if and only if its alignment is not 2^63 or its size alone gets it rejected |
| Layout.AcceptedIff | src/asan/asan_allocator.cpp:550-582 | acceptance as an if-and-only-if, alignment 2^63 apart: a request is accepted if and only if its size is within 2^40 and the user's limit and the size rounded up to the alignment, with redzones and room to align, is within 2^40; the plan keeps size and alignment as asked and needs exactly that much |
| Layout.PlacedAsRequested | src/asan/asan_allocator.cpp:601-606 | in every block user memory starts at the first multiple of the alignment asked for (at least 8) that leaves room for the redzone |
| Layout.TopAlignmentNeverFits | src/asan/asan_allocator.cpp:601-607 | with alignment 2^63 the CHECK at 607 fails in every block |
| Memory.LoadStore8 | src/asan/asan_allocator.cpp:57-71 | a word stored in memory byte by byte reads back |
| Memory.ExactMeansAddressable | src/asan/asan_allocator.cpp:628-638 | with exact shadow bytes a byte is addressable exactly when it is a user byte |
| Chunks.PackRoundTrip | src/asan/asan_allocator.cpp:57-71 | thread and stack ids packed into one word read back |
| Chunks.SizeRoundTripIff | src/asan/asan_allocator.cpp:107-120 | the CHECK in `SetUsedSize` holds if and only if the size fits 48 bits |
| Chunks.StateIsNotMagic | src/asan/asan_allocator.cpp:149-179 | a chunk state, or a cleared magic, at the block start never reads as the magic |
| Chunks.InvalidStartHides | src/asan/asan_allocator.cpp:821-836 | an invalid byte at the block start hides the block from lookup whatever else it holds |
| Chunks.PublishedIsFound | src/asan/asan_allocator.cpp:821-836 | a published chunk is found from its block, except in a secondary block whose header has no room for the large header |
| Allocating.AllocShadowExact | src/asan/asan_allocator.cpp:617-638 | with poisoning on, the shadow writes of `Allocate` make the block exact, from fresh mappings and from free blocks, whether or not the first-byte test skips the redzones |
| Allocating.AllocKeeps | src/asan/asan_allocator.cpp:608-663 | each write of `Allocate`, each of its shadow writes and each of its tests of shadow and poisoning flag passes its CHECKs and keeps the invariant |
| Freeing.FillKeepsContext | src/asan/asan_allocator.cpp:196-209 | the free context stored in user memory survives the fill for every size and fill limit |
| Freeing.FreeKeeps | src/asan/asan_allocator.cpp:684-707 | each write of a winning free passes its CHECKs (690 included) and keeps the invariant |
| Freeing.FreeRaceKeeps | src/asan/asan_allocator.cpp:670-687 | the compare-and-swap keeps the invariant, won or lost, on pointers whose header is not forged |
| Recycling.RecycleKeeps | src/asan/asan_allocator.cpp:224-253 | each write of `Recycle` passes its CHECKs (191 and 240 included) and keeps the invariant, for primary blocks and for secondary ones that are unmapped |
| Recycling.PickKeeps | src/asan/asan_allocator.cpp:224-253 | the quarantine may start recycling any member at any time |
| HeapSteps.MapKeeps | src/asan/asan_allocator.cpp:283-289 | mapping memory for later blocks, poisoned if poisoning is on, keeps the invariant |
| HeapSteps.CarveKeeps | src/sanitizer_common/sanitizer_allocator_primary64.h:783-846 | carving a block out of mapped memory, across one mapping boundary or none, keeps the invariant |
| HeapSteps.MallocSecondaryKeeps | src/asan/asan_allocator.cpp:291-304 | so do fresh secondary mappings, whose poisoned ranges are whole granules |
| HeapSteps.UserBytesKeep | src/asan/asan_allocator.cpp:73-80 | whatever a client writes to its own live bytes keeps the invariant |
| HeapSteps.SwitchKeeps | src/asan/asan_allocator.cpp:430-438 | new options, poisoning on or off and any valid redzones, keep the invariant with any thread anywhere in an operation |
| HeapSteps.RePoisonKeeps | src/asan/asan_allocator.cpp:401-428 | re-poisoning one block, whichever thread is at whichever program point in it, poisons whole granules only and keeps the invariant |
| Runs.StepKeepsInv | src/asan/asan_allocator.cpp:534-761 | from any state that satisfies the invariant, any enabled step of any thread passes every CHECK and keeps it |
| Runs.RunIsSafe | src/asan/asan_allocator.cpp:534-761 | in every run, under every interleaving, re-initialisation at any moment and threads moving between the visits of its loop included, no CHECK fires and every state satisfies the invariant |
| Effects.StepIsRecorded | src/asan/asan_allocator.cpp:534-761 | every step changes abstract map, threads, counters, ids and winners as its kind says, and nothing else among them |
| Effects.StepIsLocal | src/asan/asan_allocator.cpp:534-761 | no step but new options changes bytes, shadow, bounds, record or working thread of a block it does not work on |
| Lookup.LookupRefines | src/asan/asan_allocator.cpp:821-841 | in every state, lookup from any address returns exactly the chunk the abstract map shows there, and nothing for free blocks and for chunks being built or torn down |
| Lookup.LookupIsComplete | src/asan/asan_allocator.cpp:608-663 | publication: between any two writes, a lookup gives nothing or a chunk whose size, alignment, kind and allocation context are complete |
| Lookup.AllocationSizeIff | src/asan/asan_allocator.cpp:850-857 | `AllocationSize` is positive if and only if the address starts a live findable chunk, and is then its requested size |
| ShadowFacts.ShadowIsExact | src/asan/asan_allocator.cpp:217-253 | with poisoning on, and past the visit of a re-activation's loop, a byte of a block at rest is addressable exactly when it is a user byte of an allocated chunk, unless a re-activation spoilt that chunk |
| ShadowFacts.FirstByteTestSound | src/asan/asan_allocator.cpp:617-626 | if the first shadow byte of a free block is set, no byte of the block is addressable |
| ShadowFacts.UnfindableIff | src/asan/asan_allocator.cpp:601-663 | a secondary chunk has no large header if and only if its redzone is 16 and its alignment at most 16 |
| ShadowFacts.LostWhileDeactivated | src/asan/asan_activation.cpp:108-116 | a 200000-byte request under the deactivated options is such a chunk |
| ShadowFacts.OffModeAddressableIff | src/asan/asan_allocator.cpp:628-638 | with poisoning off all bytes of a new chunk are addressable if and only if the stale shadow byte of its last granule allows it |
| ShadowFacts.OffModeFails | src/asan/asan_allocator.cpp:628-638 | five bytes in a poisoned block are a case where it does not |
| ShadowFacts.SecondaryCoverage | src/asan/asan_allocator.cpp:291-304 | after `OnMapSecondary` and `Allocate` every byte of the whole mapping outside user memory is poisoned and every user byte addressable |
| ShadowFacts.MappedByte | src/asan/asan_allocator.cpp:283-289 | mapped memory carries the redzone byte 0xfa if poisoning is on, and nothing else changes |
| ShadowFacts.SecondaryByte | src/asan/asan_allocator.cpp:291-304 | a fresh secondary mapping carries it in front of the block and from the last granule of the request on |
| ShadowFacts.VisitedByte | src/asan/asan_allocator.cpp:401-428 | the shadow byte that a visit of the loop leaves for each granule, for a chunk in use and otherwise |
| Sweep.ReInitRuns | src/asan/asan_allocator.cpp:437-447 | `ReInitialize` left alone is a run of machine steps: new options, then each block once, in any order |
| Sweep.SweptIsRePoisoned | src/asan/asan_allocator.cpp:437-447 | every block ends up as if it alone had been visited |
| Reactivation.ReactivationExactIff | src/asan/asan_allocator.cpp:401-428 | with any threads in flight, the visit of a live chunk's block makes its shadow exact if and only if the chunk can be found and its whole granules were clear, as they are unless it was spoilt before |
| Reactivation.ReactivationPoisonsRest | src/asan/asan_allocator.cpp:424-427 | every block that is free, quarantined or being worked on by a thread is poisoned whole |
| Reactivation.ReactivationRestores | src/asan/asan_activation.cpp:121-133 | `ReInitialize` left alone does both for all blocks, whatever was allocated or freed while poisoning was off |
| Reactivation.SpoilableIff | src/asan/asan_allocator.cpp:617-638 | when a block is poisoned whole while `Allocate` is at any program point, the rest of `Allocate` makes its shadow exact if and only if the allocation is not spoilable there |
| Reactivation.LosesIff | src/asan/asan_allocator.cpp:401-428 | so a visit spoils a chunk, live or being made, exactly when it is live but not findable, or spoilable where `Allocate` stands |
| Reactivation.ReactivationAllExactIff | src/asan/asan_allocator.cpp:437-447 | if nothing was spoilt before, `ReInitialize` left alone leaves every chunk exact, or about to be, if and only if there is no such chunk |
| Reactivation.LosingRace | src/asan/asan_allocator.cpp:617-663 | a visit while the allocation is spoilable leaves `Allocate` returning a live chunk whose first byte is not addressable, and after the partial byte one whose block is wholly poisoned |
| Reactivation.WindowIsReached | src/asan/asan_allocator.cpp:617-663 | every allocation passes through a state in which it is spoilable |
| Reactivation.LostIff | src/asan/asan_allocator.cpp:437-447 | in every run the chunks excused from exactness are exactly those some visit spoilt |
| Reactivation.ExactUnlessHit | src/asan/asan_allocator.cpp:437-447 | in every run, once the loop has come past a live chunk's block its shadow is exact, unless some visit spoilt it |
| Reactivation.NothingLost | src/asan/asan_allocator.cpp:437-447 | in a run without such visits no chunk is spoilt |
| Reactivation.LostAreOld | src/asan/asan_allocator.cpp:437-447 | a new allocation is never excused |
| Interrupted.FreedInVisit | src/asan/asan_allocator.cpp:401-428 | when a live chunk is freed between the test and the writes of the visit that saw it in use, before or after its left redzone is written, the bytes of its block that are addressable afterwards are exactly the user bytes in the last, incomplete granule, whether the quarantine keeps the chunk or the block is free again |
| Interrupted.ReusedInVisitIff | src/asan/asan_allocator.cpp:413-418 | when the block is reused in between, a new chunk whose shadow was exact stays exact if and only if it starts no earlier than the old one, as far as the left redzone is still to be written, and ends where the old one did, or no later if that filled its last granule |
| Interrupted.LateWholeSpoils | src/asan/asan_allocator.cpp:424-427 | when the visit saw no chunk in use, a chunk made live before it writes has no addressable first byte |
| FreeBlocks.UniformIff | src/asan/asan_allocator.cpp:283-289 | in every run and every state with poisoning on, a free block that does not wait to be re-poisoned is wholly poisoned or wholly clear if and only if it was not carved across a mapping made while poisoning was off, or has been taken or re-poisoned since |
| FreeBlocks.AlwaysUniform | src/asan/asan_allocator.cpp:283-289 | in a run that never maps while poisoning is off every such block is uniform whenever it is on |
| FreeBlocks.MixedIsReached | src/sanitizer_common/sanitizer_allocator_primary64.h:783-846 | from every initial state with poisoning off, a run (map 0x40000 bytes, re-activate, map as much again, carve a block of class 48 across the boundary) reaches a mixed block |
| Separation.MinimumGap | src/asan/asan_allocator.cpp:560-607 | user regions of two chunks are at least the later one's redzone, so at least 16 bytes, apart |
| Separation.LiveBytesKept | src/asan/asan_allocator.cpp:601-707 | no step of any thread changes a byte of a live chunk's block, except that a free's compare-and-swap may change that chunk's state byte |
| Separation.MetadataPersists | src/asan/asan_allocator.cpp:107-142 | what is recorded about a chunk lasts until its block is given back |
| Separation.MetadataReadsBack | src/asan/asan_allocator.cpp:107-142 | from the moment a chunk is live until its block is given back, frees and recycling in progress included, size, alignment log, kind, thread and stack read back from the header bytes; the free context names no thread once a free has begun, and reads back from user memory once written |
| FreeProtocol.LoserIsReported | src/asan/asan_allocator.cpp:672-682 | a free of a chunk already freed is reported as a double free and changes nothing |
| FreeProtocol.WinnerTakesChunk | src/asan/asan_allocator.cpp:670-687 | a free of a live chunk wins and takes it |
| FreeProtocol.ChunkIsAnswered | src/asan/asan_allocator.cpp:802-807 | the answer to a free of any chunk's pointer: none if the chunk is live, double free while a free or the quarantine holds it and until recycling resets the state byte, not malloced from then on |
| FreeProtocol.BlockStartIsAnswered | src/asan/asan_allocator.cpp:802-807 | not malloced for a pointer whose header would be the start of a free block, or of one `Allocate` has not published |
| FreeProtocol.QuietIff | src/asan/asan_allocator.cpp:672-682 | only the pointer of a live chunk is freed without a report |
| FreeProtocol.OneHolder | src/asan/asan_allocator.cpp:224-253 | a freed chunk is in the quarantine exactly once and with no thread, or with exactly one thread |
| FreeProtocol.RunKeepsIds | src/asan/asan_allocator.cpp:670-707 | in every state of every run, an allocation's count of winning frees is one once it is freed and zero before |
| FreeProtocol.OneWinner | src/asan/asan_allocator.cpp:670-707 | in every run, two winning frees never concern the same allocation |
| Conservation.StepConserves | src/asan/asan_allocator.cpp:640-643 | every step, losing frees and re-poisoning included, keeps the balance of counters and chunks |
| Conservation.RunConserved | src/asan/asan_allocator.cpp:247-252 | in every state of every run, summed over threads, mallocs minus frees is what is live and frees minus real frees is what is freed and not recycled, in bytes and in number |
| Uninterrupted.AllocRuns | src/asan/asan_allocator.cpp:601-666 | `Allocate` left alone runs, step by step, to the closed-form final state |
| Uninterrupted.KeptRuns | src/asan/asan_allocator.cpp:684-707 | so does a free whose chunk the quarantine keeps |
| Uninterrupted.PassedRuns | src/asan/asan_allocator.cpp:255-263 | and one whose chunk passes straight through |
| Uninterrupted.RecycleRuns | src/asan/asan_allocator.cpp:224-253 | and `Recycle` |
| Outcomes.AllocatedIsRun | src/asan/asan_allocator.cpp:534-666 | what the method `Allocate` promises is the end of a run of machine steps |
| Outcomes.FreedIsRun | src/asan/asan_allocator.cpp:709-761 | so is what `Deallocate` promises |
| Outcomes.RecycledIsRun | src/asan/asan_allocator.cpp:224-253 | and what `Recycle` promises |
| Outcomes.AllocatedKeepsOptions | src/asan/asan_allocator.cpp:534-666 | an allocation leaves the options, flags, limits and spare memory alone and takes the next id |
| Outcomes.FreedKeepsOptions | src/asan/asan_allocator.cpp:709-761 | a free leaves the options, flags and limits alone, and a kept chunk the block table too |
| Outcomes.RecycledKeepsOptions | src/asan/asan_allocator.cpp:224-253 | so does recycling |
| Promises.AllocationIsDelivered | src/asan/asan_allocator.cpp:596-663 | what a successful `Allocate` delivers, for every request: a pointer aligned as asked, at the first such address behind the redzone; a header that decodes to size, kind, alignment (capped at 512), thread and stack; the fill byte as far as the fill goes and untouched or zero bytes behind it; the leak tag; the shadow granule by granule; one more call and so many more bytes counted |
| Promises.FreeIsBuried | src/asan/asan_allocator.cpp:684-758 | what a winning free leaves: who freed it in the first 8 bytes, the fill byte as far as the fill goes, header fields as they were, the state byte, 0xfd on the granules of a kept chunk and 0xfa on those of one that passes through, an unmapped secondary block clear, and the counters |
| Promises.RecycleIsReclaimed | src/asan/asan_allocator.cpp:229-252 | what recycling leaves: no state byte, no magic, 0xfa on the granules, every other byte as it was, a free block; or an unmapped one with clear shadow; and the counters |
| Promises.AllocShadowByte | src/asan/asan_allocator.cpp:617-638 | the shadow byte `Allocate` leaves for each granule, poisoning on or off, first-byte test either way |
| AsanAllocator.Allocator.Allocate | src/asan/asan_allocator.cpp:534-666 | fails and changes nothing exactly when the request is rejected or memory is out; otherwise the pointer is a multiple of the alignment asked for, the caller gets what `Promises.Delivered` says, and the final state is the closed form: the new chunk is live, the invariant holds, no other block changed |
| AsanAllocator.Allocator.Deallocate | src/asan/asan_allocator.cpp:709-761 | null is ignored; the report is a double free if and only if the byte read is QUARANTINE and free-not-malloced if and only if it is neither that nor ALLOCATED, and then nothing changes; freeing a live chunk leaves what `Promises.Buried` says, in the closed form: quarantined with its free context or given back, and counted |
| AsanAllocator.Allocator.Recycle | src/asan/asan_allocator.cpp:224-253 | leaves what `Promises.Reclaimed` says, in the closed form: a quarantined chunk's block is free or unmapped again, other blocks are untouched, and the chunk is counted |
| AsanAllocator.Allocator.Reallocate | src/asan/asan_allocator.cpp:763-786 | failure leaves everything as it was; success is `Allocate`, a copy and `Deallocate` in closed form: a disjoint live chunk starts with the first min(old, new) bytes of the old one, which is freed; an already freed pointer is reported as a double free, which stands for the abort |
| AsanAllocator.Allocator.CopyBytes | src/asan/asan_allocator.cpp:776-781 | copies byte by byte between ranges that do not overlap and touches nothing else |
| AsanAllocator.Allocator.PoisonAround | src/asan/asan_allocator.cpp:617-638 | the shadow writes of `Allocate`, in the order of the source |
| AsanAllocator.Allocator.PoisonPartialRightRedzone | src/asan/asan_poisoning.h:92-108 | whole granules clear, the granule with the boundary partial, the rest poisoned, nothing else written |
| AsanAllocator.Allocator.RePoisonBlock | src/asan/asan_allocator.cpp:401-428 | rewrites the shadow of one block: redzones of a chunk in use, everything otherwise |
| AsanAllocator.Allocator.VisitBlock | src/asan/asan_allocator.cpp:440-444 | is one re-poisoning step of the machine |
| AsanAllocator.Allocator.RePoisonBlocks | src/asan/asan_allocator.cpp:440-445 | in whatever order blocks are visited, every granule ends as its own block prescribes |
| AsanAllocator.Allocator.ReInitialize | src/asan/asan_allocator.cpp:437-447 | ends in the state `Sweep.ReInitRuns` leads to and keeps the invariant, with other threads stopped anywhere in an operation |
| AsanAllocator.Allocator.FindHeapChunkByAddress | src/asan/asan_allocator.cpp:863-880 | the backward search computes the attribution specified in `Attribution`, for every 64-bit address |
| Attribution.ChooseChunkByRank | src/asan/asan_allocator.cpp:492-520 | better state rank wins, then the smaller distance, a tie goes to the right |
| Attribution.BlameBetween | src/asan/asan_allocator.cpp:863-880 | for an address in no chunk or in front of its own chunk's user memory, when another lookup result comes first within a page: both CHECKs of `ChooseChunk` hold and the choice is by rank and distance |
| Attribution.AttributionSpec | src/asan/asan_allocator.cpp:863-880 | for every heap and 64-bit address: in front of its chunk's user memory or in none, the choice between the address's own chunk and the first other result to the left; the own chunk everywhere else |
| Attribution.OwnerIsBlamed | src/asan/asan_allocator.cpp:863-866 | a user byte of a visible chunk is attributed to that chunk |
| Attribution.NearestOnTheLeft | src/asan/asan_allocator.cpp:867-876 | no other visible chunk lies between the left candidate and the address |
| Attribution.NearerNeighbourIsBlamed | src/asan/asan_allocator.cpp:863-880 | an address between two live neighbours, in the second one's block, is blamed on the nearer of the two, on the second if equally near |
| Attribution.DescribeAccess | src/asan/asan_descriptions.cpp:105-126 | the kind is never unknown; for an access that does not wrap it is right, the bad address is the first byte outside the chunk and the offset is its distance, if the access starts less than 2^63 bytes behind the chunk; farther out the chunk's end is reported at offset 0 |
| StackFrames.MarkVariables | src/asan/asan_descriptions.cpp:225-246 | for sorted variables and an access that does not wrap: each of the five marks is given exactly when it is right (inside; across the end or the beginning; behind or before and no nearer to the neighbour), every marked variable is nearest, and some variable is marked exactly when the access is not nearer to the frame base or to the top of the address space |
| StackFrames.MarkedIsNearest | src/asan/asan_descriptions.cpp:225-246 | a variable marked in any way is at minimal distance among all variables |
| StackFrames.MarkedIff | src/asan/asan_descriptions.cpp:397-402 | the exact condition under which at least one variable is marked |
| StackFrames.FarAccessUnmarked | src/asan/asan_descriptions.cpp:397-402 | an access of enormous size at offset 48, behind the only variable, is attributed to none |
| Threads.DescribeThread | src/asan/asan_descriptions.cpp:39-70 | terminates for any parent links, announces a chain of distinct non-main threads that had not been announced, each the older occupant of its child's parent slot, and with full history leaves no announced thread whose parent slot holds an older thread that is neither announced nor main |
| Threads.DescribeThreads | src/asan/asan_descriptions.cpp:436-438 | over a run of descriptions nobody is announced twice and everybody asked for is announced |
| Activation.OptionsRoundTripIff | src/asan/asan_allocator.cpp:449-459 | options applied and read back are the same if and only if `may_return_null` was 0 or 1 |
| Activation.FlagsRoundTripIff | src/asan/asan_allocator.cpp:331-349 | options copied to flags and set from them are the same if and only if both boolean options were 0 or 1 |
| Activation.AcceptedIff | src/asan/asan_allocator.cpp:373-389 | which flags pass the CHECKs: both redzones among the powers of two from 16 to 2048 and in order, and a thread-local cache whenever there is a quarantine |
| Activation.CycleRestores | src/asan/asan_activation.cpp:96-141 | one cycle restores the settings, the poison flag and the context size, and applies only options the allocator accepts |
| Activation.CyclesRestore | src/asan/asan_activation.cpp:96-141 | so does any number of cycles, exactly, since options come from boolean flags |
| Activation.Runtime.Deactivate | src/asan/asan_activation.cpp:96-119 | no quarantine, no cache, redzones 16, null on failure, no mismatch reports, the release interval as it was, context size 1, poisoning off; the stash means what was in force; memory, shadow and blocks stay, whatever other threads are doing |
| Activation.Runtime.Activate | src/asan/asan_activation.cpp:121-141 | without an override always passes the CHECKs and brings back what the stash means; with one, passes exactly when its options are acceptable and follows its flags field by field; afterwards the heap's shadow is what `Reactivation` says |

## Left out

- Hooks, RSS limits, errno, flag-string parsing, the fallback mutex, symbolization and all text output: no hard property here; a report is a value (`Report`), and a null result and a fatal report are both `None`.
- Weak memory orders: steps interleave atomically. The source itself disclaims more in `GetAsanChunk`.
- Bodies of CombinedAllocator, the stack depot and the thread registry, and the quarantine's order and size limits: modelled by the contracts above.
- Allocator-internal blocks such as TransferBatch: not in the block table, so they never decode as chunks.
- Freeing.FreeRaceKeeps: a pointer passed to free whose header byte reads "allocated" is assumed to start a live chunk (`Machine.NotForged`); nothing in the source can tell otherwise.
- Alignment 2^63 is excluded from machine steps, since `Layout.LayoutSoundIff` shows that it ends in a CHECK.
- HeapSteps.RePoisonKeeps: `RePoisonChunk` on one block (its reads of the chunk's header and its shadow writes) is one step, and so is one call of `PoisonShadow`; threads do not move in between. What the late writes of an interrupted visit do to one block is in `Interrupted`; such a visit is not a step of runs.
- Runs.RunIsSafe: a run has no state between the test and the writes of one visit, for the same reason.
- Reactivation.LosesIff: the visit is undisturbed; the chunks that an interrupted one spoils are those of `Interrupted.ReusedInVisitIff` and `Interrupted.LateWholeSpoils`.
- Reactivation.ExactUnlessHit: likewise, for runs whose visits are undisturbed.
- ShadowFacts.FirstByteTestSound: likewise; after the late writes of an interrupted visit a free block can have a set first byte and an addressable granule.
- HeapSteps.SwitchKeeps: the two redzone limits change together; a request that reads one old and one new limit is not modelled.
- ShadowFacts.ShadowIsExact: supposes that no visit of `RePoisonChunk` was interrupted (see `Interrupted.FreedInVisit`), and that clients do not poison their own memory through the user poisoning interface (`src/asan/asan_poisoning.cpp`).
- Conservation.StepConserves: freeing null is no machine step; that it changes nothing is in the contract of `AsanAllocator.Allocator.Deallocate`.
- Alloc/dealloc and new/delete type mismatch reports (`src/asan/asan_allocator.cpp:740-754`): they print and do not affect the heap.
- `Calloc`, `CommitBack`, `UpdateAllocationStack`, `AllocationBegin` and leak-checker queries: easy members beside the ones modelled.
- The statistics counters for mappings, redzones, size classes and reallocs: bookkeeping that nothing reads back.
- AsanAllocator.Allocator.Reallocate: covers pointers whose block has not been given back; for a recycled pointer the outcome depends on who got the block since. After a double-free report that does not abort the source copies and calls `Deallocate` all the same; this is not modelled.
- AsanAllocator.Allocator.Allocate: its methods run undisturbed; interleaving with other threads is the machine's subject.
- Lookup.LookupRefines: the machine reads magic, back-pointer and state in one step; a reader that is itself interrupted between them is not modelled.
- Global-variable and shadow-address descriptions, `PointsInsideTheSameVariable`, `ParseFrameDescription`: not modelled.
