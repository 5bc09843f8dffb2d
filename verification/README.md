# Models and proofs for the hard parts of CubeCL

CubeCL compiles Rust kernels for GPUs. This project models the parts of it that are state,
arithmetic or IR rewriting rather than device plumbing, and proves what they promise.

- **Slot arena** (`Arena`, `ArenaSafety`, `ArenaReserve`). Every atomic operation of reserve, init,
  clone and drop is one step of a state machine, so a run is any interleaving of any number of
  threads. Two counters per slot, the `Arc` count and a wrapping 32-bit count, are proved to stay in
  step with the handles.
- **Metadata info cache** (`MetadataCache`, `MetadataProtocol`). A class that updates its maps in
  place, and all runs of launches, captures, releases and cleanups over it.
- **Early exits** (`Lowering`, `LoweringSafe`, `LoweringProof`, `LoweringSteer`, `LoweringConverse`,
  `ScopeBlocks`, `ScopeSpec`, `ScopeProof`, `ScopeBuilder`, `ScopeExec`). `break` and `terminate!()`
  become cleared flags, predication and loop conditions. `Lower` is the expansion as a function on
  programs; its meaning equals direct early exit for exactly the programs that are `Safe`. `Scope` is
  the expansion as the source performs it, with insertion points moving through shared blocks; it is
  proved to build what `Lower` says exactly when it leaves well-formed blocks, and `ScopeExec` puts
  the two together.
- **Closure lifting** (`ClosureIr`, `ClosureLift`, `ClosureProof`). Captured values become function
  arguments; operations are interpreted by an arbitrary semantics with nested regions.
- **Division by an invariant divisor** (`FastDivmod`), for any word width.
- **Memory layouts** (`RowMajor`, `Allocator`), **swizzling** (`Bits`, `Swizzle`), **reinterpreted
  slices** (`Reinterpret`) and **vector sizes** (`VectorSize`).
- **Launch collection** (`Launched`, `LaunchedProof`), another interleaved protocol.
- **SPIR-V capabilities** (`Capabilities`), **ratios** (`Ratio`), the **debug re-indenter**
  (`Format`), the **lease pool** (`Pool`) and **PCI addresses** (`PciAddress`).
- `Arith` and `Options` hold what the others share.

`dafny verify dfyconfig.toml` checks everything.

Where the source is imperative the model is: the cache, the arena's `reserve`, the scopes, the IR
context of the lifting pass, the reinterpreted slice, the SPIR-V module and the pool are classes
whose methods are proved against functions or against the property itself; loops that fill, pop or
scan are loops with invariants. The concurrent parts are step systems over values. A panic of the
source is an absent result, or a precondition where nothing but the panic would be left to say.

## Where the code and its promises differ

Each of these has a lemma with a failing input, next to lemmas that say when the promise holds; where
the condition is exact the bullet says so.

- The arena's 32-bit count wraps. A drop claims the destructor exactly when the clones number one
  more than a multiple of 2^32 (`DropClaimsDestructor`); after 2^32 + 1 clones the first drop
  already destroys a payload others still hold (`OverflowDestroysEarly`). In a run no destructor can
  meet a clone if and only if no drop is taken at one more than a positive multiple
  (`DestructorIff`). The struct's documentation says the reference count decides whether a slot is
  free; the code uses the `Arc` count, and the model too.
- Code after `terminate!()` in the same block is emitted without a guard and runs
  (`CodeAfterReturnRuns`); the while builder does not pass the return mark on, so code after a
  `while` runs although its body returned (`CodeAfterWhileRuns`); and a `while` condition with side
  effects is evaluated once more after a `break` (`ConditionRunsAgain`). The exact condition is
  `Safe`, read off the program's text. What the emitted code can run after a `return`, up to a
  guard, must be idle: only flags, `if`s with pure conditions, and loops that stop at once, in their
  first turn, or, as ranges that advance, after idle turns. A `while` that can be left early must
  have a pure condition, and a loop whose body can return must then stop in the same way. Plain
  ranges advance by one; an explicit step may be known to be positive or not, since `range_stepped`
  takes any integer and the emitted loop does not check for zero. Safe programs mean what early exit
  means, on every machine (`LoweringCorrect`); of the programs with distinct condition and range
  ids, every other has a machine on which direct execution ends and the emitted code does not end in
  that state (`FaithfulIff`).
- A plain range loop terminates its body before it appends the step of the iteration variable. Some
  block then has two terminators if and only if the body may exit and its insertion point is under
  no guard, at any nesting in the function (`TerminatorsIff`); `for i in 0..n { break }` is such a
  program (`PlainBreakMalformed`). Ranges with an explicit step do not have the problem.
- The fast quotient is exact if and only if the dividend is below divisor times 2^(w - shift)
  (`FastDivExact`); 2^32 - 1 divided by 3 is not (`LargeDividendFails`).
- Rows of an optimized pitched layout start at aligned addresses if and only if the element size
  divides the pitch (`RowsAlignedIff`); with 12-byte elements it does not.
- With a negative shift a swizzle moves an address out of its `repeats_after` block exactly when the
  raised field is not zero (`NegativeLeavesBlock`).
- The vector size is checked against the smallest outer stride, although the documentation speaks of
  every stride. That is enough for all lists of supported sizes if and only if the greatest common
  divisor of extent and smallest stride divides every outer stride (`LargestValid`,
  `NestedIsNeeded`).
- Discarding a capture can push the unpinned entries past the bound (`DiscardExceedsBound`). In
  every run the bound holds throughout if and only if at each discard the unpinned entries and those
  only the capture holds, together, do not exceed it (`UnpinnedBoundedIff`).
- The re-indenter is faithful when no character belongs to two marker pairs and, if spaces follow
  colons, no pair that starts with a space stands beside one that can open (`FormatFaithful`). A
  table whose markers are no spaces, newlines or commas is faithful for every text if and only if no
  character belongs to two pairs (`TableIff`). A character that only starts pairs already fails
  alone if it starts two (`StartsOnceIff`), a character in several pairs comes out once per pair
  (`SharedCharacter`), and a pair that starts with a space loses the colon (`SpacePairLoses`).
- A slot freed behind the scan of `acquire` makes the lease pool grow past its peak (`RaceGrows`).
  In every run the size is the peak throughout if and only if no `acquire` grew the pool after such
  a free (`SizeIsPeakIff`); frees at or ahead of the scan do no harm.

## Model

| member | source | states |
|---|---|---|
| ArenaProtocol.StepKeepsCounters | crates/cubecl-common/src/arena.rs:124-196 | every atomic step of reserve, init, clone, drop and dropping the arena keeps the storage count equal to the owners and the 32-bit count congruent to the logical clones of each slot |
| ArenaProtocol.RunKeepsCounters | crates/cubecl-common/src/arena.rs:124-301 | the counters are right after every interleaving |
| ArenaSafety.HandoutIsExclusive | crates/cubecl-common/src/arena.rs:273-297 | whenever reserve takes a slot, no handle in any phase refers to it |
| ArenaSafety.InitAssertion | crates/cubecl-common/src/arena.rs:132-145 | init writes a slot no other handle refers to, and the two-owners assertion fails exactly when the arena has let the slot go, never while it lives |
| ArenaSafety.InitOutcome | crates/cubecl-common/src/arena.rs:124-152 | init stores the payload and makes the handle live exactly while the arena holds the slot; otherwise the handle is gone and nothing is stored |
| ArenaSafety.StorageOutlivesHandles | crates/cubecl-common/src/arena.rs:34-45 | storage a handle refers to is neither freed nor seen as free by the arena |
| ArenaSafety.DropClaimsDestructor | crates/cubecl-common/src/arena.rs:177-195 | a drop claims the destructor if and only if the clones number 1 modulo 2^32 |
| ArenaSafety.DestructorIff | crates/cubecl-common/src/arena.rs:176-197 | along a run whoever may run a destructor leaves no clone behind, if and only if no drop is taken at one more than a positive multiple of 2^32 clones |
| ArenaSafety.BoundedIsCareful | crates/cubecl-common/src/arena.rs:163-196 | runs with at most 2^32 clones per slot have no such drop |
| ArenaSafety.DestructorSafety | crates/cubecl-common/src/arena.rs:176-197 | in runs without such a drop the destructor meets its payload undestroyed, with no logical clone left |
| ArenaSafety.PayloadConservation | crates/cubecl-common/src/arena.rs:65-75 | each stored payload is in one slot or was destroyed, once; with no handles left all were destroyed |
| ArenaSafety.OverflowDestroysEarly | crates/cubecl-common/src/arena.rs:188-195 | with 2^32 + 1 clones the first drop destroys the payload while 2^32 clones are live |
| ArenaReserve.Arena.Reserve | crates/cubecl-common/src/arena.rs:258-301 | refuses exactly when no buffer is free; otherwise takes the first free one in circular order from the cursor, changes only it and moves the cursor behind it |
| ArenaReserve.ScanCovers | crates/cubecl-common/src/arena.rs:273-275 | the circular scan visits every slot |
| ArenaReserve.ReserveAlone | crates/cubecl-common/src/arena.rs:258-298 | the atomic steps of an uninterrupted reserve take the slot the method takes and leave the counts and cursor it leaves |
| ArenaReserve.RefuseAlone | crates/cubecl-common/src/arena.rs:273-300 | they refuse where the method refuses |
| MetadataCache.MetadataInfoCache.GetEntry | crates/cubecl-server/src/metadata_cache.rs:295-309 | a lookup ticks the clock, restamps a hit and pins it once per capture |
| MetadataCache.MetadataInfoCache.LookupWords | crates/cubecl-server/src/metadata_cache.rs:271-280 | sets the mode and skips the cache, in normal mode, exactly if it is disabled or the info has more bytes than its limit; otherwise hits with the cached value or asks to build and store |
| MetadataCache.MetadataInfoCache.LeastRecentlyUsed | crates/cubecl-server/src/metadata_cache.rs:391-401 | the scan finds an oldest unpinned entry, or none exactly when all are pinned |
| MetadataCache.MetadataInfoCache.InsertEntry | crates/cubecl-server/src/metadata_cache.rs:320-344 | evicts a legal victim at capacity, stores the entry, pins it during a capture |
| MetadataCache.MetadataInfoCache.CaptureCommit | crates/cubecl-server/src/metadata_cache.rs:349-354 | seals the pending keys, each once, under the graph |
| MetadataCache.MetadataInfoCache.CaptureDiscard | crates/cubecl-server/src/metadata_cache.rs:359-366 | drops one lock of every pending entry and keeps the entries |
| MetadataCache.MetadataInfoCache.GraphRelease | crates/cubecl-server/src/metadata_cache.rs:371-387 | drops one lock per recorded key and removes entries whose last lock went |
| MetadataCache.MetadataInfoCache.ClearUnpinnedEntries | crates/cubecl-server/src/metadata_cache.rs:245-247 | keeps exactly the pinned entries |
| MetadataCache.UnlockAllPoint | crates/cubecl-server/src/metadata_cache.rs:359-366 | the discard loop unlocks each listed entry once and touches no other |
| MetadataCache.FreeAllPoint | crates/cubecl-server/src/metadata_cache.rs:375-386 | the release loop, entry by entry |
| MetadataProtocol.LocksExactAlways | crates/cubecl-server/src/metadata_cache.rs:295-387 | in every run an entry's lock count is the number of live graphs that recorded it plus one while it is pending |
| MetadataProtocol.RecordedBufferStays | crates/cubecl-server/src/metadata_cache.rs:311-387 | in every run a buffer a live graph recorded is cached, pinned and still the same value |
| MetadataProtocol.StampsDistinct | crates/cubecl-server/src/metadata_cache.rs:295-344 | in every run no two entries carry the same recency stamp |
| MetadataProtocol.EvictsLeastRecentlyUsed | crates/cubecl-server/src/metadata_cache.rs:389-401 | the eviction victim is unique and its last lookup precedes that of every other unpinned entry |
| MetadataProtocol.DiscardLoose | crates/cubecl-server/src/metadata_cache.rs:356-366 | a discard makes unpinned exactly the entries only the capture held |
| MetadataProtocol.StepBound | crates/cubecl-server/src/metadata_cache.rs:295-401 | one step keeps the bound if and only if it is not a discard that does not fit |
| MetadataProtocol.UnpinnedBoundedIff | crates/cubecl-server/src/metadata_cache.rs:116-142 | in every run the unpinned entries never exceed the configured number if and only if every discard fits |
| MetadataProtocol.UnpinnedBounded | crates/cubecl-server/src/metadata_cache.rs:116-142 | in particular in every run without a discard |
| MetadataProtocol.LaunchThenHit | crates/cubecl-server/src/metadata_cache.rs:271-344 | after a launch with info that is cacheable, told by size, limit and mode, the next launch of the same info hits with the same buffer and builds nothing |
| MetadataProtocol.LargeOnlyInCapture | crates/cubecl-server/src/metadata_cache.rs:111-121 | in every run info beyond the limits is cached only if a launch in a capture brought it |
| MetadataProtocol.NewEntry | crates/cubecl-server/src/metadata_cache.rs:320-344 | only a launch adds an entry: its own, in a capture or within the limits |
| MetadataProtocol.LostEntry | crates/cubecl-server/src/metadata_cache.rs:320-401 | a launch loses an entry only in normal mode at capacity, an unpinned one no other is older than |
| MetadataProtocol.StepsPossible | crates/cubecl-server/src/metadata_cache.rs:271-401 | each operation can be the next: an eviction always has a legal victim and a drained set an order |
| MetadataProtocol.DiscardExceedsBound | crates/cubecl-server/src/metadata_cache.rs:356-366 | two captured and discarded buffers exceed a bound of one |
| LoweringSafe.ProgExits | crates/cubecl-core/src/frontend/branch.rs:703-724 | which exits a program can take, whatever its conditions do |
| LoweringProof.IdleRangeLoop | crates/cubecl-core/src/frontend/branch.rs:788-849 | the turns a rewritten range loop has left, run with the return flag cleared over an idle body, change nothing and end, if the range advances or the body breaks |
| LoweringProof.IdleProg | crates/cubecl-ir/src/scope.rs:572-614 | idle code run with the return flag cleared ends in the same state, and leaves the break flag as `Drifts` says |
| LoweringProof.StmtSim | crates/cubecl-core/src/frontend/branch.rs:96-152 | one statement of a safe program ends as with direct early exit, and the flags say how it ended |
| LoweringProof.SimWhile | crates/cubecl-core/src/frontend/branch.rs:743-785 | a while with its flags anded onto the condition runs the turns direct execution runs |
| LoweringProof.SimRangeWhile | crates/cubecl-core/src/frontend/branch.rs:788-849 | a range loop rewritten as a while over its iteration variable visits the same values and exits the same way, or idles on after a return |
| LoweringProof.SimRange | crates/cubecl-core/src/frontend/branch.rs:796-800 | a range loop without marked exits is kept and means the same, or idles on after a return inside it |
| LoweringProof.FallThrough | crates/cubecl-ir/src/scope.rs:572-614 | behind a safe statement that falls through both executions go on from the same state |
| LoweringProof.FuncSync | crates/cubecl-ir/src/scope.rs:701-714 | turn by turn: with equal fuel the lowered function does not end before direct execution, with `Need` more, which is nothing unless direct execution returns, it ends in the same state |
| LoweringProof.LoweringCorrect | crates/cubecl-ir/src/scope.rs:572-714 | for every safe program, machine and start state the lowered function ends if and only if direct early exit ends, in the same state |
| LoweringSteer.SteerFailure | crates/cubecl-core/src/frontend/branch.rs:96-152 | an unsafe program with distinct ids can be steered to its first failure |
| LoweringConverse.DriftProg | crates/cubecl-ir/src/scope.rs:572-614 | what any program's emitted code does with the return flag cleared, under every steering and fuel: it can be observed or does not end, or it leaves the break flag as predicted |
| LoweringConverse.ExposedRuns | crates/cubecl-core/src/frontend/branch.rs:743-849 | steered to run on after a return, the emitted code is observed to do more than direct execution, or does not end |
| LoweringConverse.RepeatedRuns | crates/cubecl-core/src/frontend/branch.rs:773-781 | steered to break out of a loop with an impure condition, the emitted code evaluates it more often, or does not end |
| LoweringConverse.ShownFails | crates/cubecl-core/src/frontend/branch.rs:96-152 | whatever its ids, a function that can be steered to such a failure has a machine on which direct execution ends and the lowered function never ends in that state |
| LoweringConverse.UnsafeFails | crates/cubecl-ir/src/scope.rs:572-714 | every unsafe function with distinct ids has a machine on which direct execution ends and the lowered function never ends in that state |
| LoweringConverse.FaithfulIff | crates/cubecl-ir/src/scope.rs:572-714 | with distinct ids the lowered function is right on every machine if and only if the program is safe |
| LoweringConverse.CodeAfterReturnRuns | crates/cubecl-macros/src/generate/expression.rs:740-742 | wherever a return with an action behind it in its block can be reached from the start of the function, the lowered function is wrong |
| LoweringConverse.CodeAfterWhileRuns | crates/cubecl-core/src/frontend/branch.rs:757-784 | so it is with an action behind any while whose body can return |
| LoweringConverse.ConditionRunsAgain | crates/cubecl-core/src/frontend/branch.rs:773-781 | and with any while that has an impure condition and can be left by break |
| LoweringConverse.IdleRangeSafeIff | crates/cubecl-core/src/frontend/ranges.rs:369 | a range loop whose body returns and runs on idly is safe if and only if the range advances |
| LoweringConverse.SearchSafeIff | crates/cubecl-core/src/frontend/ranges.rs:369 | so it is with a range around a while that can stop the function |
| LoweringConverse.GuardedRestIsSafe | crates/cubecl-ir/src/scope.rs:577-614 | a pure if that can return makes any safe rest safe behind a safe while that can return |
| ScopeBlocks.Plug | crates/cubecl-ir/src/scope.rs:552-614 | inserting at an insertion point fills the hole the earlier work left there, however deep the guards |
| ScopeBlocks.Frame | crates/cubecl-ir/src/scope.rs:673-684 | work elsewhere does not change the meaning of a finished region |
| ScopeBlocks.Terminates | crates/cubecl-ir/src/scope.rs:563-570 | terminating keeps blocks well formed and closes the hole without changing meaning |
| ScopeBlocks.Predicates | crates/cubecl-ir/src/scope.rs:595-614 | predication puts all later insertions under the flag, moves the insertion point into the guard and gives no block a second terminator |
| ScopeBlocks.EarlyStepIff | crates/cubecl-core/src/frontend/branch.rs:812-818 | appending the step to a body already terminated keeps one terminator if and only if the block had one before, with the insertion point in front of it |
| ScopeSpec.ExpandGrows | crates/cubecl-ir/src/scope.rs:551-614 | expanding any program only adds to blocks, and a malformed block stays malformed |
| ScopeProof.ExpandMarks | crates/cubecl-ir/src/scope.rs:572-593 | the marks and flags of a scope are those of Lower, whatever the blocks |
| ScopeProof.StmtGood | crates/cubecl-core/src/frontend/branch.rs:96-152 | one statement of a well-building program inserts what Lower emits for it and moves under a guard exactly when its children are marked |
| ScopeProof.ExpandGood | crates/cubecl-ir/src/scope.rs:551-714 | a well-building program builds what Lower says at the insertion point, leaves complete blocks behind and changes no others |
| ScopeProof.BodyBroken | crates/cubecl-core/src/frontend/ranges.rs:384-388 | a plain range body that may exit outside every guard gets two terminators |
| ScopeProof.ExpandBroken | crates/cubecl-core/src/frontend/ranges.rs:360-389 | so does any program that holds such a body, at any depth |
| ScopeProof.TerminatorsIff | crates/cubecl-ir/src/scope.rs:563-614 | for every function some block has a terminator in its middle if and only if some plain range body may exit outside every guard; otherwise the blocks are complete and mean LowerFunc |
| ScopeProof.PlainBreakMalformed | crates/cubecl-core/src/frontend/ranges.rs:384-388 | a range loop that just breaks is malformed if and only if it is plain, that is, has no explicit step |
| ScopeBuilder.Scope.TerminateYield | crates/cubecl-ir/src/scope.rs:563-570 | appends a yield unless the block has a terminator |
| ScopeBuilder.Scope.PredicateOnFlag | crates/cubecl-ir/src/scope.rs:595-614 | guard, terminator and insertion point as specified |
| ScopeBuilder.Scope.SetBreakReturn | crates/cubecl-ir/src/scope.rs:572-593 | marks the scope and predicates on the break flag, then on the return flag |
| ScopeBuilder.Scope.ExpandIf | crates/cubecl-core/src/frontend/branch.rs:96-152 | both branches in child scopes, then the if, then the predication their marks ask for, for every program |
| ScopeBuilder.Scope.ExpandWhile | crates/cubecl-core/src/frontend/branch.rs:743-785 | flag, body and loop; marks are not passed on |
| ScopeBuilder.Scope.BuildBody | crates/cubecl-core/src/frontend/ranges.rs:360-420 | a range body with or without early termination, and the appended step when it may exit, for every body |
| ScopeBuilder.Scope.ExpandFor | crates/cubecl-core/src/frontend/branch.rs:788-849 | a range loop kept or rewritten, and the return mark passed on |
| ScopeBuilder.Scope.Expand | crates/cubecl-ir/src/scope.rs:551-714 | computes the specified expansion of every program from every insertion point |
| ScopeBuilder.ExpandFunc | crates/cubecl-ir/src/scope.rs:701-714 | every function: a block is malformed if and only if some plain range body may exit outside every guard; otherwise each block ends in its one terminator and the blocks mean what LowerFunc says |
| ScopeExec.BlocksCorrect | crates/cubecl-ir/src/scope.rs:551-714 | for every safe function without a malformed block the built blocks end if and only if direct early exit ends, in the same state, on every machine |
| ScopeExec.RightlyBuiltIff | crates/cubecl-ir/src/scope.rs:551-714 | with distinct ids the blocks are well formed and right on every machine if and only if the program is buildable and safe |
| ClosureLift.WalkIsInside | crates/cubecl-ir/src/convert.rs:23-37 | the walk visits the function and exactly the operations inside it |
| ClosureLift.Context.OpIsInFunc | crates/cubecl-ir/src/convert.rs:52-60 | decides whether an operation lies inside the function, at any depth |
| ClosureLift.Context.BlockIsInFunc | crates/cubecl-ir/src/convert.rs:62-73 | the same for blocks |
| ClosureLift.Context.IsInFunc | crates/cubecl-ir/src/convert.rs:75-80 | the same for values |
| ClosureLift.Context.CollectCaptures | crates/cubecl-ir/src/convert.rs:21-37 | the operands defined outside, in walk order with repetitions |
| ClosureLift.CapturesMember | crates/cubecl-ir/src/convert.rs:30-34 | a value is captured if and only if it is an operand in the function and defined outside it |
| ClosureLift.Context.ReplaceUses | crates/cubecl-ir/src/convert.rs:42-46 | renames the uses inside the function and no others |
| ClosureLift.LiftOneMore | crates/cubecl-ir/src/convert.rs:39-47 | one more argument and one more replacement extend the lifting by one capture, repeated captures included |
| ClosureLift.Context.LiftClosure | crates/cubecl-ir/src/convert.rs:18-50 | the pass computes the captures and the lifted IR |
| ClosureLift.LiftedIsClosed | crates/cubecl-ir/src/convert.rs:16-17 | every operand inside a lifted function is defined inside, nesting and everything outside unchanged |
| ClosureProof.LiftingCorrect | crates/cubecl-ir/src/convert.rs:16-50 | the lifted function on its arguments and the capture values, with nothing else in scope, runs as the closure did in its environment, for every semantics of operations |
| FastDivmod.ParametersFit | crates/cubecl-std/src/fast_math.rs:77-100 | the parameter computation fits in twice the width and the multiplier in the width |
| FastDivmod.WideQuotient | crates/cubecl-std/src/fast_math.rs:44-56 | before truncation the shifted sum is the true quotient |
| FastDivmod.FastDivExact | crates/cubecl-std/src/fast_math.rs:44-56 | the result is the quotient if and only if the dividend is in range, and otherwise short by 2^(w - shift); in range is that the sum does not wrap |
| FastDivmod.FastDivmodCorrect | crates/cubecl-std/src/fast_math.rs:44-74 | div, modulo and div_mod are quotient and remainder for every dividend in range |
| FastDivmod.SmallDividendInRange | crates/cubecl-std/src/fast_math.rs:50-53 | every dividend below half the word range is in range |
| FastDivmod.PowerOfTwoInRange | crates/cubecl-std/src/fast_math.rs:50-53 | for powers of two every dividend is in range |
| FastDivmod.FallbackCorrect | crates/cubecl-std/src/fast_math.rs:54-74 | the fallback is exact |
| FastDivmod.ZeroDivisor | crates/cubecl-std/src/fast_math.rs:77-95 | a zero divisor gets parameters with which every number is its own quotient and remainder |
| FastDivmod.LargeDividendFails | crates/cubecl-std/src/fast_math.rs:50-53 | 2^32 - 1 by 3 is wrong on 32 bits |
| Allocator.OffsetHandles | crates/cubecl-server/src/allocator.rs:128-149 | succeeds without underflow exactly when every sub-buffer fits; each handle covers its size at its offset |
| Allocator.Pack | crates/cubecl-server/src/allocator.rs:65-72 | sub-buffers are aligned, of their sizes, in order without overlap and inside the base buffer |
| Allocator.ContiguousStrides | crates/cubecl-server/src/allocator.rs:119-126 | row-major strides |
| Allocator.PitchedStrides | crates/cubecl-server/src/allocator.rs:51-59 | unit stride in rows, rows one pitch apart, leading dimensions chained |
| Allocator.ApplyPitched | crates/cubecl-server/src/allocator.rs:22-74 | packed sub-buffers of the pitched sizes with pitched strides; a contiguous descriptor gets what the contiguous policy gives, no padding and a linear copy |
| Allocator.ApplyContiguous | crates/cubecl-server/src/allocator.rs:90-117 | packed sub-buffers of the exact sizes with contiguous strides |
| Allocator.ContiguousIsTight | crates/cubecl-server/src/allocator.rs:35-54 | the pitched policy gives a contiguous descriptor rows without padding and a view of exactly its elements |
| Allocator.OptimizedPitch | crates/cubecl-runtime/src/memory_management/handle.rs:336-347 | an optimized pitch is the row for one-element rows, else a multiple of the least covering power of two clamped from 16 to the buffer alignment, below twice the row beyond 16 bytes |
| RowMajor.PitchedInjective | crates/cubecl-server/src/allocator.rs:51-59 | distinct coordinates have distinct positions |
| RowMajor.PitchedCovers | crates/cubecl-server/src/allocator.rs:151-170 | every column of every row is the position of a coordinate |
| Allocator.PitchedPolicyDisjoint | crates/cubecl-server/src/allocator.rs:22-74 | no byte of the base buffer belongs to two elements of any tensors, and elements lie inside it |
| Allocator.ContiguousPolicyDisjoint | crates/cubecl-server/src/allocator.rs:90-117 | the same for the contiguous policy |
| Allocator.CopyMovesElements | crates/cubecl-server/src/allocator.rs:172-190 | the rows of the pitch, or the one span, are exactly the bytes of the elements |
| Allocator.RowsAlignedIff | crates/cubecl-server/src/allocator.rs:35-54 | rows start aligned if and only if the element size divides the pitch |
| Allocator.PowerOfTwoRowsAligned | crates/cubecl-runtime/src/memory_management/handle.rs:336-347 | they do for elements of 1 to 16 bytes, a power of two |
| Allocator.TwelveByteRowsNotAligned | crates/cubecl-server/src/allocator.rs:51-54 | 12-byte elements get a 32-byte pitch and rows 24 bytes apart |
| Swizzles.PositiveForm | crates/cubecl-std/src/swizzle.rs:81-94 | positive shift: the field above is XORed into the field below, everything else stays |
| Swizzles.NegativeForm | crates/cubecl-std/src/swizzle.rs:103-110 | negative shift: the field below is XORed into the part above |
| Swizzles.BytesInvolution | crates/cubecl-std/src/swizzle.rs:81-94 | swizzling a byte address twice gives it back, for either sign |
| Swizzles.AtomsIntact | crates/cubecl-std/src/swizzle.rs:7-17 | the position within an atom does not change |
| Swizzles.BlocksPermuted | crates/cubecl-std/src/swizzle.rs:96-100 | positive shift: addresses stay in their block and all blocks are treated alike |
| Swizzles.NegativeLeavesBlock | crates/cubecl-std/src/swizzle.rs:51-55 | negative shift: an address leaves its block if and only if the raised field is not zero |
| Swizzles.NegativeShiftExample | crates/cubecl-std/src/swizzle.rs:47-62 | byte 16 of a 32-byte block goes to byte 144 |
| Swizzles.ApplyExact | crates/cubecl-std/src/swizzle.rs:87-92 | for item sizes that are powers of two up to the atom the final division is exact |
| Swizzles.ApplyNothing | crates/cubecl-std/src/swizzle.rs:64-85 | without bits to move, and for none(), apply returns every offset unchanged |
| Swizzles.ApplyInvolution | crates/cubecl-std/src/swizzle.rs:74-94 | apply is its own inverse if and only if the byte address fits the word or there are no bits to move |
| Ratios.GcdLoop | crates/cubecl-common/src/ratio.rs:67-73 | the loop's result divides both numbers and every common divisor divides it |
| Ratios.ValuePreserved | crates/cubecl-common/src/ratio.rs:26-38 | the fraction is unchanged and its parts fit, for every numerator including the least |
| Ratios.LowestTerms | crates/cubecl-common/src/ratio.rs:3-13 | the parts have no common divisor above one |
| Ratios.Canonical | crates/cubecl-common/src/ratio.rs:3-13 | two ratios are equal if and only if they cross-multiply equal |
| LaunchedProof.StepOwned | crates/cubecl-runtime/src/launched.rs:49-94 | every step keeps the lock exclusive and each open collection owned by one handle or one call |
| LaunchedProof.CounterExact | crates/cubecl-runtime/src/launched.rs:21-57 | whenever the lock is free the counter is the number of open collections |
| LaunchedProof.NothingBlocked | crates/cubecl-runtime/src/launched.rs:49-94 | in every run the call that holds the lock can go on, and no call waits for anything else |
| LaunchedProof.FinishedExactly | crates/cubecl-runtime/src/launched.rs:34-37 | a finished collection is exactly what was noted between its opening and its closing |
| LaunchedProof.NoLaunchMissed | crates/cubecl-runtime/src/launched.rs:59-94 | a launch noted wholly between the return of new and the call of finish is in the result, in every interleaving |
| Capabilities.Module.Update | crates/cubecl-spirv/src/target.rs:394-443 | inserts only named, unexcluded members until the requirement is met; with a target below the minimum version, or without one, an extension of every set is present afterwards, with a later target none is added; panics only if some set has no rule |
| Capabilities.Module.Round | crates/cubecl-spirv/src/target.rs:328-340 | reports a change exactly when capabilities were added; without one every capability has what it needs |
| Capabilities.Module.Visit | crates/cubecl-spirv/src/target.rs:342-392 | the requirements of a node are met afterwards |
| Capabilities.Module.Run | crates/cubecl-spirv/src/target.rs:291-304 | the fixpoint ends; then every node and every capability has an unexcluded member of each any-of set, and every capability is derived in finitely many steps from the initial ones and the nodes; extensions are added exactly where a node or capability asks for them and the target's version is below; a panic leaves a requirement without a rule |
| Capabilities.LaterNeedsLess | crates/cubecl-spirv/src/target.rs:402-410 | a later target asks for no more extensions and is satisfied by no more |
| Capabilities.Choose | crates/cubecl-spirv/src/target.rs:412-427 | no choice exactly when undecided; otherwise a member is present afterwards, nothing is added if one was, and else the only or the first preferred one |
| Capabilities.SatisfiedNotStuck | crates/cubecl-spirv/src/target.rs:412-427 | a met requirement has a rule |
| Format.FormatStr | crates/cubecl-common/src/format.rs:14-93 | the loop over the characters computes the fold |
| Format.Step | crates/cubecl-common/src/format.rs:22-90 | one character, with the loop over the marker pairs |
| Format.CharKeeps | crates/cubecl-common/src/format.rs:34-89 | a character fails exactly when it would close below zero; pops remove only blanks; the character is passed on |
| Format.FormatFaithful | crates/cubecl-common/src/format.rs:13-93 | for tables that share no character and are safe for spaces, formatting succeeds if and only if no prefix closes more than it opens, and then output and input agree up to spaces, newlines and commas |
| Format.TableIff | crates/cubecl-common/src/format.rs:13-93 | a table whose markers show in the output formats every text faithfully if and only if no character belongs to two pairs, provided some character belongs to none |
| Format.StartsOnceIff | crates/cubecl-common/src/format.rs:36-47 | a character that only starts pairs is formatted faithfully if and only if it starts at most one |
| Format.SharedCharacter | crates/cubecl-common/src/format.rs:36-65 | for every table with a character in several pairs and a suitable opener, a text whose levels never go below zero comes out with that character repeated |
| Format.SpacePairLoses | crates/cubecl-common/src/format.rs:48-63 | for every table with a pair that starts with a space and another opener, a text that loses its colon |
| Format.InStringIff | crates/cubecl-common/src/format.rs:23-33 | a string literal is open exactly after an odd number of quotes |
| Format.SpaceKeptIff | crates/cubecl-common/src/format.rs:23-27 | spaces are kept inside string literals and dropped outside |
| Format.LiteralKept | crates/cubecl-common/src/format.rs:23-90 | a string literal without markers, commas and colons comes out as it is |
| Format.OpenerLine | crates/cubecl-common/src/format.rs:36-47 | after an opener the next line is indented by four spaces per open block |
| Format.CommaIndents | crates/cubecl-common/src/format.rs:73-81 | so is the line after a comma inside a block |
| Format.CloserLine | crates/cubecl-common/src/format.rs:48-57 | a closer stands on a line of its own, indented by the blocks left open |
| Format.EmptyBlock | crates/cubecl-common/src/format.rs:56-65 | an empty block stays on its line |
| Format.RepeatedPair | crates/cubecl-common/src/format.rs:36-47 | a pair listed twice doubles the bracket |
| Format.SpacePair | crates/cubecl-common/src/format.rs:48-63 | such a table and text |
| Reinterpret.PlanExactIff | crates/cubecl-std/src/reinterpret_slice.rs:184-210 | one index stands for exactly one target value if and only if the source size divides the target size |
| Reinterpret.ReinterpretSlice.Read | crates/cubecl-std/src/reinterpret_slice.rs:136-156 | reading an index gives that run of source scalars, in all three size cases |
| Reinterpret.ReinterpretSlice.Write | crates/cubecl-std/src/reinterpret_slice.rs:158-181 | writing an index replaces that run and nothing else |
| Reinterpret.HasRunIff | crates/cubecl-std/src/reinterpret_slice.rs:83-85 | the indices that can be read are those below the number of whole runs |
| Reinterpret.WriteThenRead | crates/cubecl-std/src/reinterpret_slice.rs:83-85 | a write is seen by the read at its index and by no other |
| VectorSizes.NextStride | crates/cubecl-core/src/lib.rs:156-167 | the smallest outer stride that is not a broadcast |
| VectorSizes.Largest | crates/cubecl-core/src/lib.rs:169-172 | the largest candidate dividing both numbers, or none |
| VectorSizes.Answers | crates/cubecl-core/src/lib.rs:142-173 | which error arises when: a stride other than 1 on the axis, an axis out of bounds, or no size that divides extent and smallest outer stride |
| VectorSizes.LargestValid | crates/cubecl-core/src/lib.rs:119-173 | under the condition the result is the largest supported size dividing the extent and every outer stride |
| VectorSizes.NestedIsNeeded | crates/cubecl-core/src/lib.rs:156-172 | without the condition some list of sizes gets an answer that does not |
| VectorSizes.MultiplesAreNested | crates/cubecl-core/src/lib.rs:126-130 | the condition holds when all outer strides are multiples of the smallest |
| VectorSizes.SmallestIsNotEnough | crates/cubecl-core/src/lib.rs:162-170 | strides 6, 4, 1 and extent 4 give 4 |
| VectorSizes.VectorsAreAlignedRuns | crates/cubecl-core/src/lib.rs:126-173 | wherever the answer is a size, a coordinate that is a multiple of it starts an aligned run of consecutive elements inside the tensor, under the condition |
| Pool.LeasesAreExclusive | crates/cubecl-common/src/pool.rs:67-129 | in every interleaving handles never share a slot and an acquired value is fresh or reclaimed |
| Pool.ClearIff | crates/cubecl-common/src/pool.rs:67-80 | during a scan a free slot lies behind it if and only if one was freed behind it since the scan began |
| Pool.GrowAtPeak | crates/cubecl-common/src/pool.rs:74-79 | from a pool at its peak, growing stays there if and only if no free slot lies behind the scan |
| Pool.SizeIsPeakIff | crates/cubecl-common/src/pool.rs:66-83 | in every run the pool always has as many slots as were ever leased at once if and only if no acquire grew it after a slot behind its scan was freed |
| Pool.PeakFits | crates/cubecl-common/src/pool.rs:66-83 | never fewer |
| Pool.RaceGrows | crates/cubecl-common/src/pool.rs:67-80 | a free behind the scan makes it grow past its peak |
| Pool.LeasePool.Acquire | crates/cubecl-common/src/pool.rs:67-83 | takes the first free slot, or a new one exactly when none is free |
| Pool.AcquireAlone | crates/cubecl-common/src/pool.rs:67-83 | the atomic steps of an uninterrupted acquire take the slot the method takes |
| PciAddresses.PrintParse | crates/cubecl-ir/src/properties.rs:278-317 | the printed form of every address parses to it |
| PciAddresses.ParsePrint | crates/cubecl-ir/src/properties.rs:278-317 | what parses is in range, and printing it and parsing again changes nothing |
| PciAddresses.PrintedForm | crates/cubecl-ir/src/properties.rs:278-286 | four to eight digits of the domain, two of bus and device, one or two of the function, lower case, padded to the least width and no further |
| PciAddresses.DomainlessIsZero | crates/cubecl-ir/src/properties.rs:302-316 | a text without a domain parses, or fails, like the same text with any spelling of zero in front |

## Left out

- LoweringConverse.FaithfulIff: takes every condition for one that can fail. The condition of `loop` is constantly true, so code behind a `loop` without `break` is never reached; here it must be safe all the same.
- LoweringConverse.UnsafeFails: speaks of programs whose conditions and ranges have distinct ids; where the same condition occurs twice its evaluations are related, and an unsafe program can then be right.
- Format.FormatFaithful: says nothing of texts with a character in two pairs; their tables are wrong for some text by `TableIff`, but not for every one.
- Format.TableIff: speaks of markers that show in the output; in some tables spaces, newlines or commas, which the comparison ignores, may be shared by pairs without harm.
- Switch and match expansion, compile-time conditions and unrolled loops: they add cases like the if.
- Expression values, types and the names of IR values in the early-exit model: operations and conditions are arbitrary functions of an arbitrary state.
- Memory orderings weaker than sequential consistency, and `Arc` counts that overflow.
- Raw pointers, alignment attributes and provenance of the arena and the pool; an arena slot is a payload identity.
- A lease pool dropped while leases are live, against its documented lifetime rule.
- Overflow of the cache's 64-bit clock and 32-bit lock counts, and `clear`, which forgets pinned entries without forgetting the pins.
- Overflow of sizes and offsets in the allocator and the vector-size code: they are unbounded here.
- Divisors above half the word range in the fast division, whose next power of two does not fit the word.
- What later passes make of a block with two terminators.
- Capabilities: that the result is smallest; which member of an any-of set is taken depends on the order of the walk.
- Device drivers, backends, submission and profiling, autotuning, floating point and the procedural macros.
