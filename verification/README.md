# Verified model of the simulation kernel

The repository holds an event-sourced simulation kernel whose main promise is that a run is a
deterministic function of its ledger. This project models the parts of it that decide something
(the logical clock and its scheduler, the admission fence, the canonical encodings, the resource
kernel with its conflict detector, the WORK and clock-advance batches and the validator that checks
them again, attempt control, addressed communication, and the body dynamics) and proves what they
promise, for all inputs and over all runs.

`dafny verify dfyconfig.toml` checks everything.

## How the model is laid out

| part | modules |
|---|---|
| values and orders | `Bytes`, `Domain`, `Sorting`, `BigEndian` |
| logical clock and runs of the scheduler | `Clock`, `Scheduler` |
| canonical CBOR and framing | `Cbor`, `CborScanner`, `FixtureCodec`, `ParentHistory` |
| admission fence | `Fence`, `FenceProperties` |
| conflict detection and allocation of the resource | `Claims`, `ClaimProperties`, `Resolver`, `Namespaces`, `Allocation`, `Kernel` |
| batches and their recheck | `Settlement`, `MixedBatch`, `MixedBatchProperties`, `SystemBatch`, `NoProposalBatch`, `ResourceBatch`, `AdvanceBatch`, `Json`, `CommitPartition`, `Journal` |
| attempts, messages, inbox | `Control`, `References`, `Communication`, `Inbox` |
| body | `Soreness`, `SorenessProperties`, `OnsetQueue`, `Dynamics`, `DynamicsProperties` |

Code that loops over maps, sorts in place, moves a cursor or writes into a buffer is modelled by
methods with the same loops, classes and arrays. Each is proved equal to a function or to a
declarative specification of its result, and the promises are lemmas about that specification. Where
the code iterates over a Go map, the method takes the keys in an arbitrary order. Where the code
checks something that cannot fail, the method keeps the check and the branch is proved dead.

Integers are `int64` and `uint64` as in the source: overflow guards are kept, and additions the
source leaves unguarded wrap around explicitly. Identities and digests are byte strings where only
their order matters; where they are derived, a digest is a term over its preimage or an injective
function is passed in. What a record check establishes about identity, digest and canonical bytes
is a Boolean field, `authentic` or `intact`. A profile of two functions stands for the text and
float rules of CBOR. State the conformance runner decodes from JSON has numbers that are rounded to
`float64`, and what it reads from them. Body dynamics are exact real arithmetic, and each exponential
is a factor in (0, 1].

## What the proofs turned up

- A WORK cycle committed at the largest `int64` ordinal leaves a clock for which `Next` fails for
  ever (`Scheduler.ExhaustionIsForGood`).
- After a clock advance WORK runs at the planned target exactly when the advance added nothing
  earlier (`Scheduler.AdvanceThenWork`).
- The TypeScript parser refuses values nested deeper than 64, which the Go scanner accepts
  (`CborScanner.ImplementationsDifferOnlyInDepth`).
- `body-dynamics.yaml` promises at most delay/resolution entries in the onset queue. Under its own
  tuning that holds up to hour twelve of the world and after it at whole hours only
  (`OnsetQueue.CanonicalBoundHoldsExactly`; for any tuning `OnsetQueue.DocumentedBoundHoldsExactly`);
  13 entries instead of 12 are reached by 49 quarter hours of work (`OnsetQueue.DocumentedBoundIsExceeded`).
- Damage held in stages beyond the configured number is cut off, and so is not conserved
  (`SorenessProperties.MassIsConserved`).
- `DetectClaims` drops groups of one, so a lone candidate that claims more than there is raises no
  conflict; a selection is sound exactly when each chosen candidate fits by itself
  (`ClaimProperties.SelectionIsSound`). The resource kernel turns such requests down first, which is
  why its own comparison of detector and sum never fails (`Allocation.ResourceConflict`).
- What the snapshot says about institutional prohibition is recorded but decides no verdict
  (`Kernel.InstitutionDecidesNothing`).
- Names joined into the namespace of an idempotency key may hold the slash that joins them, so two
  bearers can share one. Which have theirs to themselves is characterised exactly, for any names
  (`Namespaces.NamespaceIsOwnExactly`) and by the slashes inside them (`Namespaces.SlashesDecide`);
  two that share one before a fence fail it as a conflict (`Namespaces.SharersAreRefused`). The same
  holds of the colon in the key an actor's access is looked up by (`Namespaces.AccessIsOwnExactly`,
  `Namespaces.ColonsDecide`).
- The conformance runner reads negative and fractional numbers as zero where it drops the flag of
  `number`. A successor at a negative instant therefore passes as after a fence at instant zero or
  before (`CommitPartition.EarlierSuccessorIsAccepted`), and one that does come after a fence at a
  negative instant can be refused; the fences for which neither happens are characterised exactly
  (`CommitPartition.SuccessorCheckIsSoundExactly`, `CommitPartition.SuccessorCheckIsCompleteExactly`).
  For the same reason two deduplications of one identity can be accepted with different canonical
  positions (`CommitPartition.TwoCanonicalUnitsAreAccepted`), and for which histories is
  characterised exactly too (`CommitPartition.DeduplicationIsUniqueExactly`). Where the conversion of 2^64 saturates, the
  ordinal after it wraps around to zero.
- A clock advance lets revision and sequence wrap around where WORK refuses
  (`AdvanceBatch.AdvanceMayWrap`, `Journal.SequenceIsConsecutive`).
- The idle control state announces attempt 1, which is right exactly when attempts start at 1;
  `Advance` starts them at 0 (`Control.NextFenceCarriesNextAttempt`).
- The fold of the control state has no rule for a commit, which it takes for an abort its own
  validator then refuses, and forgets the last envelope while an attempt is in flight; everywhere
  else it is the fold the decision record defines (`Control.FoldFollowsTheRules`,
  `Control.FoldedStateIsValid`).
- A valid body whose last sleep lies in the future by less than the tolerance of 1e-9 cannot be
  advanced by a shorter step; no body reached from a rested one is like that
  (`DynamicsProperties.AdvanceIsValidExactly`, `DynamicsProperties.ReachableBodiesAreValid`).
- Source appends are checked against the running closed-through of the source, as the ledger does
  it; the conformance runner reads it off the last record, and compares coordinates of decoded JSON
  as `Json` describes.

## Model

| member | source | states |
|---|---|---|
| `Domain.Compare` | internal/csf/domain/types.go:29-44 | The comparison of coordinates decides a strict total order: instant first, then ordinal; zero means equal |
| `Bytes.LessTotal` | internal/csf/decision/kernel.go:148 | Byte order is total: of two identities one is less, or they are equal |
| `Bytes.LessTransitive` | internal/csf/decision/kernel.go:148 | Byte order is transitive for strings of any lengths |
| `Sorting.SortedUnique` | internal/csf/admission/fence.go:170-173 | Two sorted arrangements of the same elements are the same list when the order is total on them: why `sort.Slice` is deterministic here |
| `Sorting.SortPermutation` | internal/csf/admission/fence.go:170-173 | Sorting forgets the order its input came in |
| `Clock.Earliest` | internal/csf/clock/clock.go:56-60 | The running minimum is the eligibility of some pending item and no item is eligible before it |
| `Clock.Next` | internal/csf/clock/clock.go:53-67 | Failure, idleness or plan for every clock and pending list, from the loop over `smallest`; the branch that rejects a past instant is dead |
| `Clock.Confirm` | internal/csf/clock/clock.go:71-76 | A provisional plan is confirmed if and only if recomputing it gives the same plan; otherwise which error |
| `Clock.NextPlanPermutation` | internal/csf/clock/clock.go:53-67 | The next plan does not depend on the order of the pending list |
| `Scheduler.FailureIsExhaustion` | internal/csf/clock/clock.go:45-67 | From a non-stale world the scheduler fails if and only if the last ordinal is the largest `int64`, and is idle if and only if nothing is pending |
| `Scheduler.PlanMeaning` | internal/csf/clock/clock.go:53-67 | A plan targets the least pending coordinate, which is after the clock; it is WORK if and only if that is at the current instant |
| `Scheduler.StepKeepsNonStale` | internal/csf/clock/clock.go:78-95 | Every step, WORK or advance, with any additions at or after the successor floor, keeps all pending items after the clock |
| `Scheduler.StepMovesForward` | internal/csf/clock/clock.go:91-95 | Every step strictly increases (instant, last ordinal), adds one to the revision and the number of events to the sequence, modulo 2^64 |
| `Scheduler.WorkConsumesItsCoordinate` | internal/csf/commit/work_hybrid.go:41-43 | WORK takes exactly the pending items eligible at its own coordinate; none is left and none later is taken |
| `Scheduler.AdvanceCohortIsEmpty` | internal/csf/admission/fence.go:179-181 | Nothing pending is eligible at or before the origin of a clock advance, so its cohort is empty |
| `Scheduler.AdvanceThenWork` | internal/csf/clock/clock.go:53-95 | After an advance the next plan is WORK; it is at the planned target if and only if the advance added nothing before that target |
| `Scheduler.NeverStale` | internal/csf/clock/clock.go:53-67 | No run of any length from a non-stale world ever meets stale pending work |
| `Scheduler.ExhaustionIsForGood` | internal/csf/clock/clock.go:45-49 | A step leaves a clock that cannot choose any more if and only if it was WORK at the largest `int64` ordinal; then no pending set can ever move it |
| `Scheduler.QuietRunDrains` | internal/csf/clock/clock.go:53-95 | A run that adds nothing has at most 2·pending steps, after which nothing is pending; until then there is a next step unless the ordinals are spent |
| `Scheduler.QuietRunWorksEachCoordinateOnce` | internal/csf/clock/clock.go:53-95 | A drained quiet run works every distinct pending coordinate exactly once, in order, and no other |
| `Cbor.ReadEncode` | internal/csf/conformance/runner.go:333-511 | Reading a deterministic encoding followed by anything gives back the value and its length, for arbitrary nesting |
| `Cbor.EncodeRead` | internal/csf/conformance/runner.go:333-511 | Whatever the reader accepts has a deterministic encoding, and re-encoding it gives the bytes that were read |
| `Cbor.ReadIsExact` | internal/csf/conformance/runner.go:317-511 | A reading is accepted with value `v` if and only if those bytes are the shortest-head, definite-length, key-sorted encoding of `v` |
| `Cbor.PrefixFree` | tools/csf-conformance-ts/runner.ts:197-216 | No encoding is a proper prefix of another; equal concatenations have equal values and equal rests |
| `CborScanner.ScanItem` | internal/csf/conformance/runner.go:333-434 | The scanner at any offset agrees with the reader on acceptance, end offset and the first violation's code |
| `CborScanner.ScanItems` | internal/csf/conformance/runner.go:463-476 | The array loop agrees with reading that many items |
| `CborScanner.ScanEntries` | internal/csf/conformance/runner.go:477-505 | The map loop, comparing each raw key with the previous one, agrees with reading that many ordered entries |
| `CborScanner.Scan` | internal/csf/conformance/runner.go:319-331 | The whole-input scanner is clean if and only if the input is the deterministic encoding of one value; a proper continuation of one is trailing bytes |
| `CborScanner.ParseItem` | tools/csf-conformance-ts/runner.ts:117-188 | The parser at any offset and depth accepts what the reader accepts as long as nesting stays within 64 |
| `CborScanner.ParseItems` | tools/csf-conformance-ts/runner.ts:151-155 | The array loop of the parser, element by element one level deeper |
| `CborScanner.ParseEntries` | tools/csf-conformance-ts/runner.ts:156-166 | The map loop of the parser; its set of seen keys never rejects what the order check accepts |
| `CborScanner.Parse` | tools/csf-conformance-ts/runner.ts:115-188 | The TypeScript parser accepts an input if and only if it is the deterministic encoding of a value nested at most 64 deep |
| `CborScanner.ImplementationsDifferOnlyInDepth` | tools/csf-conformance-ts/runner.ts:117-118 | The inputs Go accepts and TypeScript refuses are exactly the encodings of values nested deeper than 64; never the other way round |
| `CborScanner.ImplementationsDisagree` | tools/csf-conformance-ts/runner.ts:117-118 | They do differ: sixty-five nested arrays pass one and not the other |
| `FixtureCodec.Buffer.WriteByte` | tools/csf-fixture-link-audit.go:89-97 | Appends one byte |
| `FixtureCodec.Buffer.Write` | tools/csf-fixture-link-audit.go:98-111 | Appends a byte string |
| `FixtureCodec.WriteHead` | tools/csf-fixture-link-audit.go:89-97 | Appends the shortest head carrying the argument |
| `FixtureCodec.EncodeOne` | tools/csf-fixture-link-audit.go:98-111 | Appends the deterministic encoding of any value to what the buffer held |
| `FixtureCodec.EncodeMembers` | tools/csf-fixture-link-audit.go:98-111 | Appends the encodings of array elements in order |
| `FixtureCodec.ReadUintAt` | tools/csf-fixture-link-audit.go:48-56 | The shift-and-or loop reads the argument in big-endian order and moves the cursor past it, or fails on short input |
| `FixtureCodec.DecodeItem` | tools/csf-fixture-link-audit.go:57-80 | The cursor decoder computes the value and the new position, or fails, for every byte string and position |
| `FixtureCodec.DecodeMembers` | tools/csf-fixture-link-audit.go:57-80 | The array loop of the decoder, including its failure in the middle |
| `FixtureCodec.DecodeFollowsRead` | tools/csf-fixture-link-audit.go:57-87 | On input the strict reader accepts, the lenient decoder returns the same value, or fails if the value is outside its range |
| `FixtureCodec.DecodeBytes` | tools/csf-fixture-link-audit.go:81-87 | A byte string is accepted if and only if it is the encoding of a decodable value, and re-encoding the result gives the same bytes |
| `FixtureCodec.EncodingDecodes` | tools/csf-fixture-link-audit.go:57-87 | Decoding an encoding followed by anything consumes exactly the encoding |
| `FixtureCodec.RoundTrip` | tools/csf-fixture-link-audit.go:48-112 | Decoding an encoded value returns it with non-negative signed integers made unsigned, if and only if no array in it is longer than 65535 |
| `FixtureCodec.AuditAgreesWithScanner` | tools/csf-fixture-link-audit.go:81-87 | The audit codec accepts exactly the inputs the scanner accepts whose value is decodable |
| `ParentHistory.ReadBytes` | internal/csf/conformance/runner.go:2360-2376 | The closure that takes one length-prefixed field moves the offset past it or fails |
| `ParentHistory.Parse` | internal/csf/conformance/runner.go:2349-2408 | The parser with its running offset, for every byte string |
| `ParentHistory.FieldTaken` | internal/csf/conformance/runner.go:2360-2376 | A written field is taken back whole |
| `ParentHistory.TakenField` | internal/csf/conformance/runner.go:2360-2376 | A taken field, written again, is the input it came from |
| `ParentHistory.ParseIsExact` | internal/csf/conformance/runner.go:2349-2408 | A byte string parses to a reference if and only if it is that reference written out: trailing, short or mis-sized input is refused and the fields determine the bytes |
| `Fence.UnitLessIsTotal` | internal/csf/admission/fence.go:389-403 | The five-key order on units is a strict total order |
| `Fence.FindClosure` | internal/csf/admission/fence.go:100-112 | The loop over closures selects the covering closure with the least sequence, the earlier one on a tie |
| `Fence.CollectProofs` | internal/csf/admission/fence.go:100-118 | One proof per source in order, or the first source without one |
| `Fence.AdmitRound` | internal/csf/admission/fence.go:126-156 | The slots of one round in order: each with its response, or which slot is missing or mismatched |
| `Fence.AdmitRounds` | internal/csf/admission/fence.go:126-156 | The cohort over all eligible rounds, stopping at the first failure |
| `Fence.SortedEligibleRounds` | internal/csf/admission/fence.go:119-125 | Open rounds eligible at the cut, in order of identity, whatever order they were listed in |
| `Fence.SortedUnits` | internal/csf/admission/fence.go:157-173 | Slot, input and system units of the cut in the total order, or the refusal of a bad system unit |
| `Fence.DeriveFence` | internal/csf/admission/fence.go:67-199 | The whole derivation with its loops and sorts computes one value for every view, or the first error |
| `Fence.VerifyFence` | internal/csf/admission/fence.go:203-212 | A persisted fence is accepted if and only if the ledger still derives exactly it |
| `FenceProperties.SelectMeaning` | internal/csf/admission/fence.go:100-112 | The selected closure covers the cut and no covering closure of the source comes before it |
| `FenceProperties.ProofsAreFirstClosures` | internal/csf/admission/fence.go:100-118 | The proofs are, source by source, the first covering closures |
| `FenceProperties.FenceUnitsAreExact` | internal/csf/admission/fence.go:119-181 | The units are exactly the eligible inputs, the responses in the slots of open eligible rounds and the system units; sorted, none eligible after the cut; an advance has none |
| `FenceProperties.DeriveIgnoresOrder` | internal/csf/admission/fence.go:67-199 | Permuting closures, inputs, rounds and system units derives the same fields |
| `FenceProperties.PrefixCoversClosures` | internal/csf/inputledger/ledger.go:333-372 | In a legally appended log closure sequences are unique per source and the running closed-through bounds every closure |
| `FenceProperties.ArrivalIsLate` | internal/csf/conformance/runner.go:2184-2210 | Once every source is closed through a coordinate, a legal append is an input after it or a closure later in sequence |
| `FenceProperties.AppendsAreLate` | internal/csf/conformance/runner.go:2184-2210 | The same for any number of appends |
| `FenceProperties.FenceIsStable` | internal/csf/admission/fence.go:82-118 | A fence that could be derived is derived again, field for field, after any number of further legal appends |
| `FenceProperties.NothingLateIsAdmissible` | internal/csf/admission/fence.go:157-162 | No input still to come is eligible at a cut that could be derived |
| `FenceProperties.WaitsForClosure` | internal/csf/admission/fence.go:113-117 | The derivation waits for closure if and only if some source has no closure covering the cut |
| `Claims.PositiveAmount` | internal/csf/decision/claims.go:136-144 | An amount is accepted if and only if it is between 1 and the largest `int64`, however encoded |
| `Claims.Enter` | internal/csf/decision/claims.go:54-65 | Enters a candidate under every name of a list in the holder map and nowhere else |
| `Claims.ScanClaims` | internal/csf/decision/claims.go:40-53 | One candidate's claims: the first bad one decides the error; otherwise totals and holders include them |
| `Claims.ScanCandidate` | internal/csf/decision/claims.go:33-71 | One candidate with its claims, references and invariants, against the candidates before it |
| `Claims.Scan` | internal/csf/decision/claims.go:33-71 | The scan of all candidates keeps totals and four holder indexes that describe exactly the candidates seen |
| `Claims.ResourceGroups` | internal/csf/decision/claims.go:72-77 | The groups of overdrawn resources, for any iteration order of the map |
| `Claims.AccessGroups` | internal/csf/decision/claims.go:78-85 | The groups of written references with at least two users, for any iteration order |
| `Claims.CollectConflicts` | internal/csf/decision/claims.go:86-102 | Exactly the groups of two or more, members sorted, list sorted by identity |
| `Claims.DetectClaims` | internal/csf/decision/claims.go:18-103 | Returns exactly the conflicts there are, in order, or the first error |
| `ClaimProperties.DetectionSucceeds` | internal/csf/decision/claims.go:33-77 | Detection succeeds if and only if candidates are distinct and sound, every total fits `int64` and no claimed capacity is negative |
| `ClaimProperties.GuardFiresOnOverflow` | internal/csf/decision/claims.go:50 | For otherwise sound candidates the guard fires if and only if some total exceeds the largest `int64` |
| `ClaimProperties.DetectionIgnoresOrder` | internal/csf/decision/claims.go:18-103 | Success and the returned list do not depend on the order of the candidates |
| `ClaimProperties.SelectionIsSound` | internal/csf/decision/claims.go:72-102 | Choosing at most one member of each conflict keeps reads, writes and invariants apart, and stays within every capacity if and only if each chosen candidate fits by itself |
| `ClaimProperties.ConflictsAreReal` | internal/csf/decision/claims.go:72-102 | Every returned conflict is one: all its members together overdraw the resource, or one of them writes what all use, or all declare the invariant |
| `ClaimProperties.LoneOverclaimIsNotAConflict` | internal/csf/decision/claims.go:87-89 | A lone candidate that claims more than there is raises no conflict, so the selection it forms overdraws |
| `Resolver.Collect` | internal/csf/decision/run.go:19-52 | The delivered responses are accepted if and only if each is valid, none repeats and they are exactly the admitted ones; then they stand in fence order |
| `Resolver.IndexUnits` | internal/csf/decision/run.go:37-43 | The map by identity holds exactly the delivered units, or a bad or repeated one is refused |
| `Resolver.Place` | internal/csf/decision/run.go:44-52 | Fence order is followed; a repeated, missing or unfenced unit is refused |
| `Resolver.BindHistory` | internal/csf/decision/kernel.go:265-273 | The bindings of the history, or its first malformed or contradictory entry |
| `Resolver.ResolveAliases` | internal/csf/decision/kernel.go:274-297 | For each unit the one it repeats, or the first malformed key or key reused for something else |
| `Kernel.RepeatsPointToTheFirst` | internal/csf/decision/kernel.go:274-297 | A repeated request points to the first with its key, in the history or earlier in the fence; both ask for the same and the first repeats nothing |
| `Kernel.Assess` | internal/csf/decision/run.go:62-115 | Every unit's standing, whether any is indeterminate, and a candidate for each viable request, in fence order |
| `Allocation.DetectorFailsOnOverflow` | internal/csf/decision/run.go:135-150 | On the kernel's candidates detection fails if and only if the requests sum to more than `int64` holds |
| `Allocation.OnlyTwoKinds` | internal/csf/decision/run.go:151-186 | Every conflict between them is about the resource or the one declared invariant, so the unsupported branch is dead |
| `Allocation.OverdrawnIsListed` | internal/csf/decision/run.go:151-165 | When the requests exceed the stock, the resource conflict is in the detector's list |
| `Allocation.IsExhausted` | internal/csf/decision/run.go:126-132 | The kernel's own sum, broken off early, says exhausted if and only if the requests exceed the stock |
| `Allocation.ResourceConflict` | internal/csf/decision/run.go:151-189 | There is a resource conflict, and only one, if and only if the requests exceed the stock: the comparison of the two never fails |
| `Allocation.Allocate` | internal/csf/decision/run.go:121-218 | Everyone wins when there is enough; otherwise one of two even contenders as the draw falls; otherwise it is indeterminate, for any order of the candidates |
| `Kernel.Conclude` | internal/csf/decision/run.go:220-243 | One disposition per unit in order, the winners' amounts taken from the stock; neither check for a negative stock can fire |
| `Kernel.Run` | internal/csf/decision/run.go:12-245 | For every request: a resolution, or the first reason why there is none |
| `Kernel.ContestHasOneWinner` | internal/csf/decision/run.go:192-218 | A contest between two has exactly one winner, which gets the whole stock |
| `Kernel.StockIsConserved` | internal/csf/decision/run.go:220-243 | What is given and what is left add up to the stock; nothing negative; everything viable is served when it fits |
| `Kernel.VerdictsFollowTheFence` | internal/csf/decision/run.go:222-241 | Every admitted unit has exactly one verdict, in fence order |
| `Kernel.LosersLoseToSomeone` | internal/csf/decision/run.go:229-239 | A viable request is turned down only if there is too little for all and another one got it; only viable requests win |
| `Kernel.ResolutionIsUnique` | internal/csf/decision/run.go:12-245 | The request, the candidate identities and the draw determine the resolution |
| `Kernel.DeliveryOrderIsIrrelevant` | internal/csf/decision/run.go:37-52 | The order in which responses were delivered changes neither success nor outcome |
| `Kernel.InstitutionDecidesNothing` | internal/csf/decision/run.go:60-245 | What the snapshot says about institutional prohibition changes neither failure, standing nor resolution; only for whom it says anything can |
| `Namespaces.NamespaceIsOwnExactly` | internal/csf/decision/kernel.go:260-263 | A bearer (scope, actor, key of valid names) shares its namespace with no other if and only if no other three slashes of the joined names leave four valid names |
| `Namespaces.SlashesDecide` | internal/csf/decision/kernel.go:260-263 | That is so if no slash inside a name, key included, stands before a letter, and so without slashes in the names; if and only if, for a name and a key of less than 128 bytes together |
| `Namespaces.KeysCollide` | internal/csf/decision/kernel.go:260-263 | Bearers with valid names that share a namespace, by a slash in scope and actor or by one in the key alone; and actors that share an access key |
| `Namespaces.SharersAreRefused` | internal/csf/decision/kernel.go:264-297 | If two different bearers of one namespace come before a fence the request fails, and as a conflict unless history, provenance or a malformed key fail it; the logical digest covers their names separately |
| `Namespaces.AccessIsOwnExactly` | internal/csf/decision/run.go:71-73 | An actor shares its access entry with no other if and only if no other colon of the joined names leaves two valid names |
| `Namespaces.ColonsDecide` | internal/csf/decision/run.go:71-73 | That is so if no colon inside its names stands before a letter; if and only if, for names of less than 128 bytes together |
| `Namespaces.OneKindIsApart` | internal/csf/commit/work_contest.go:60-63 | Actors of one kind never share, so the contest tells its actors apart |
| `Soreness.SplitQueue` | src/embodiment/dynamics.py:1046-1058 | The loop sums what is due by the end of the step and keeps the rest keyed by instant |
| `Soreness.SortedItems` | src/embodiment/dynamics.py:1071-1075 | The dictionary's items in order of instant without empty ones, whatever its iteration order |
| `Soreness.FlowInPlace` | src/embodiment/dynamics.py:1077-1093 | Every stage flows in place from the values before the step; due damage enters last |
| `Soreness.AdvanceRegion` | src/embodiment/dynamics.py:1034-1096 | One region's whole step, for any tuning and any queue in order |
| `Soreness.AdvanceSoreness` | src/embodiment/dynamics.py:1025-1106 | The channel over its four regions with copied dictionaries; no time, no change |
| `SorenessProperties.MassIsConserved` | src/embodiment/dynamics.py:1043-1096 | Chain + queue + transferred after a step equals chain + queue before plus the admitted dose, apart from stages beyond the configured number, which are cut off |
| `SorenessProperties.RegionStaysSound` | src/embodiment/dynamics.py:1043-1096 | No stage goes negative, pending instants stay strictly increasing and from hour zero on with positive amounts, expression stays a fraction |
| `SorenessProperties.ChannelStaysSound` | src/embodiment/types.py:691-762 | Every step from a valid channel, at any hour from zero on, gives one its own validators accept |
| `SorenessProperties.SitesAreIndependent` | src/embodiment/dynamics.py:1034-1096 | What happens in one region never depends on another |
| `SorenessProperties.GainProtects` | src/embodiment/dynamics.py:1066-1070 | A dose never lowers the adaptation, keeps it a fraction and never lets more of the next dose in |
| `SorenessProperties.AdaptationIsSpecific` | src/embodiment/dynamics.py:1060-1099 | A dose raises the adaptation of its own region and activity and of nothing else; all decay alike |
| `SorenessProperties.ReleaseIsNeverEarly` | src/embodiment/dynamics.py:637-646 | The release instant is the first grid instant at or after the delayed one, or that instant itself without a grid |
| `SorenessProperties.OnsetIsMonotone` | src/embodiment/dynamics.py:637-646 | Later damage is never released earlier |
| `SorenessProperties.StepAgrees` | src/embodiment/dynamics.py:1043-1096 | A step moves the frontier of what a dose can have reached by at most one stage, and not at all before its release |
| `SorenessProperties.RunsAgree` | src/embodiment/dynamics.py:1043-1096 | The same over runs: as many stages as steps that ended at or after the release |
| `SorenessProperties.NeverEarly` | src/embodiment/dynamics.py:1043-1105 | Whatever loads two runs carry from some step on, for any step sizes, they express the same until latency_stages steps have ended at or after the first release, which is at least the delay after the step |
| `OnsetQueue.StepKeepsQueueWithin` | src/embodiment/dynamics.py:1046-1075 | Every entry stays on the grid between now and the release of damage dosed now |
| `OnsetQueue.QueueIsShort` | src/embodiment/dynamics.py:637-646 | Such a queue holds at most ceil(delay/resolution) + 1 entries, one fewer when the step ends on the grid |
| `OnsetQueue.RunStaysSound` | src/embodiment/dynamics.py:1025-1106 | From rest at any hour from zero on, over any run, every region stays sound and every queue stays within its window |
| `OnsetQueue.QueueStaysShort` | src/embodiment/dynamics.py:1046-1075 | From rest, over any run of any step sizes, no queue exceeds ceil(delay/resolution) + 1 entries |
| `OnsetQueue.RunIsAhead` | src/embodiment/dynamics.py:1046-1075 | Whatever waits after a run from hour zero or later is not due, and is released after the delay itself |
| `OnsetQueue.RoomIsTheLongestQueue` | src/embodiment/dynamics.py:1046-1075 | The number of grid instants after both `t` and the delay, up to the release of damage dosed at `t`, bounds every run from rest that starts at hour zero or later and ends at `t`; some run reaches it, for any integration step and any decays |
| `OnsetQueue.DocumentedBoundHoldsExactly` | data/models/physical/body-dynamics.yaml:476-487 | The documented bound delay/resolution holds for every run that ends at `t` if and only if `t` is zero, or `t` + delay is at most twice the whole grid steps of the delay, or `t` and `t` + delay are grid instants |
| `OnsetQueue.CanonicalBoundHoldsExactly` | data/models/physical/body-dynamics.yaml:476-487 | With the documented tuning it holds if and only if `t` is at most 12 or a whole hour |
| `OnsetQueue.DocumentedBoundIsExceeded` | data/models/physical/body-dynamics.yaml:476-487 | With the documented tuning, 49 quarter hours of eccentric work from rest leave 13 entries, one more than documented |
| `Dynamics.AdvanceInjuries` | src/embodiment/dynamics.py:1122-1159 | The loop over lesions keeps the open ones in order with their new progress and drops the healed |
| `Dynamics.Target` | src/embodiment/dynamics.py:1207-1220 | The loop over lesions gives the clamped worst of soreness and lesions of a region, dulled by analgesia |
| `Dynamics.Advance` | src/embodiment/dynamics.py:1350-1402 | The loop of equal steps computes the iterated step, or which input is refused |
| `Dynamics.Integrate` | src/embodiment/dynamics.py:1389-1397 | The loop over the steps: refused if and only if its first step goes on with a sleep that began after it; no later step is |
| `Dynamics.WholeSteps` | src/embodiment/dynamics.py:1390-1402 | A whole number of steps is that many steps of exactly the integration step, unless the first is refused |
| `Dynamics.AdvanceComposes` | src/embodiment/dynamics.py:1350-1402 | Advancing m + n steps equals advancing m and then n, within the cap, for the whole body, refusals included |
| `Dynamics.ApproachComposes` | src/embodiment/dynamics.py:654-656 | A first-order approach over two intervals is the approach over both when the decay factors multiply |
| `DynamicsProperties.TauRises` | src/embodiment/dynamics.py:699-715 | The time constant of W' reconstitution takes the three anchors where they stand, lies between them and never falls as the recovery intensity rises, if the anchors do not |
| `DynamicsProperties.ReconstitutionClampIsIdle` | src/embodiment/dynamics.py:719-752 | The clamp on W' reconstitution never changes the value: it stays between where it was and the capacity |
| `DynamicsProperties.DrainIsBounded` | src/embodiment/dynamics.py:719-752 | W' stays between zero and its unchanged capacity with a positive time constant, and work above critical power never raises it |
| `DynamicsProperties.PeripheralClampIsIdle` | src/embodiment/dynamics.py:761-781 | The clamp on peripheral fatigue never changes the value |
| `DynamicsProperties.CentralClampIsIdle` | src/embodiment/dynamics.py:789-806 | The clamp on central fatigue never changes the value, whatever the sleep pressure |
| `DynamicsProperties.PressureRises` | src/embodiment/dynamics.py:814-831 | Sleep pressure is in [0, 1], and at one hour of the day neither more debt nor a longer time awake lowers it |
| `DynamicsProperties.SleepIsValidExactly` | src/embodiment/dynamics.py:835-877 | The sleep section stays valid if and only if no sleep goes on that began after the step ends; debt never exceeds its cap |
| `DynamicsProperties.PhaseFollowsTheClock` | src/embodiment/dynamics.py:873 | Over any accepted interval the clock moves by the interval and the circadian phase by as much around the day, asleep or awake, however many steps it takes |
| `DynamicsProperties.LesionsStayValid` | src/embodiment/dynamics.py:1122-1159 | Every lesion that stays is valid and open |
| `DynamicsProperties.LesionCloses` | src/embodiment/dynamics.py:1139-1159 | An unloaded lesion is gone after n steps if and only if its progress and n times the healing of a step make up one; until then they are its progress |
| `DynamicsProperties.LesionsMendApart` | src/embodiment/dynamics.py:1122-1159 | After any number of steps of the whole body its lesions are what is left of each by itself, in order |
| `DynamicsProperties.WorstPainIsWorst` | src/embodiment/dynamics.py:1207-1219 | The loop's target is at least soreness and every lesion of the region, and is one of them |
| `DynamicsProperties.PainClampsAreIdleExactly` | src/embodiment/dynamics.py:1207-1231 | The two clamps on regional pain never change a value a valid body can bring, if and only if the gain from soreness is a fraction and the one from lesions at most one |
| `DynamicsProperties.OverallIsTheWorst` | src/embodiment/dynamics.py:1222-1238 | Overall pain is the worst of the four regions, and all of them are fractions |
| `DynamicsProperties.StepIsValidExactly` | src/embodiment/types.py:608-958 | A step from a valid body keeps every declared domain of every section if and only if it does not go on with a sleep that began after the step ends |
| `DynamicsProperties.OversleepingIsPossible` | src/embodiment/dynamics.py:856-866 | There are valid bodies and steps at which it does: a last sleep in the future by less than the tolerance of 1e-9 |
| `DynamicsProperties.AdvanceIsValidExactly` | src/embodiment/dynamics.py:1350-1402 | From any valid body an interval within the cap passes valid bodies only, and is accepted, if and only if its first step does not go on with a sleep that began after it |
| `DynamicsProperties.AdvanceStaysLived` | src/embodiment/dynamics.py:1350-1402 | From a valid body that has not slept past now every accepted interval leads to another such body; none at all changes nothing |
| `DynamicsProperties.InitialBodyIsLived` | src/embodiment/dynamics.py:1285-1347 | The rested body is valid at any hour from zero on, for any traits and any hour of the day |
| `DynamicsProperties.ReachableBodiesAreValid` | src/embodiment/dynamics.py:1285-1402 | Every body reached from a rested one by any calls of `advance`, accepted or refused, under any tunings and exposures, is valid |
| `Settlement.OccurrenceOutcome` | internal/csf/settlement/system_lifecycle.go:56-86 | A deferred occurrence is due strictly after the instant that settles it |
| `Settlement.CountedRecurrence` | internal/csf/settlement/system_lifecycle.go:56-86 | A recurrence with a count runs exactly that often, evenly spaced, and stops |
| `MixedBatch.IndexResponses` | internal/csf/commit/work_hybrid.go:49-55 | The responses by identity, or a repeated identity, for any iteration order |
| `MixedBatch.CheckUnit` | internal/csf/commit/work_hybrid.go:64-112 | Whether one unit can be settled given those before it, and if not why |
| `MixedBatch.Classify` | internal/csf/commit/work_hybrid.go:58-112 | All units in fence order: slots grouped by round, schedule and trigger units settled, or the first error |
| `MixedBatch.SortParts` | internal/csf/commit/work_hybrid.go:113-124 | The slots of a round in order, or a repeated slot |
| `MixedBatch.RoundPlans` | internal/csf/commit/work_hybrid.go:113-124 | One plan per round with a filled slot, for any iteration order of the map |
| `MixedBatch.CollisionsAreEqualOrigins` | internal/csf/commit/work_hybrid.go:123-130 | Two plans share an origin if and only if a round and a system unit share an identity |
| `MixedBatch.SortPlans` | internal/csf/commit/work_hybrid.go:123-130 | Plans in strictly increasing order of origin, or a collision |
| `MixedBatch.NumberEvents` | internal/csf/commit/work_hybrid.go:126-142 | Consecutive sequence numbers from the clock's next one; each system unit remembers its event |
| `MixedBatch.DecideAll` | internal/csf/commit/work_hybrid.go:143-193 | One decision per unit in fence order and the successors as they come up |
| `MixedBatch.CommitMixed` | internal/csf/commit/work_hybrid.go:41-199 | Settles the fence in one batch, or the first reason why not, for every input |
| `MixedBatchProperties.BatchIsUnique` | internal/csf/commit/work_hybrid.go:56-195 | A fence has one batch: map iteration and sorting leave no choice |
| `MixedBatchProperties.EveryUnitIsConsumed` | internal/csf/commit/work_hybrid.go:113-142 | No admitted unit is left out of the lifecycle events |
| `MixedBatchProperties.OnlyUnitsAreConsumed` | internal/csf/commit/work_hybrid.go:113-142 | No event names anything that was not admitted |
| `MixedBatchProperties.ConsumedOnce` | internal/csf/commit/work_hybrid.go:113-142 | No identity is named by two events |
| `MixedBatchProperties.FenceIsConserved` | internal/csf/commit/work_hybrid.go:56-195 | Every admitted unit is named by exactly one lifecycle event, and nothing else is |
| `MixedBatchProperties.DecisionsAreRight` | internal/csf/commit/work_hybrid.go:143-193 | Each decision is what the stored unit calls for, points to the event that consumes it, and has a successor after this instant if and only if it defers |
| `MixedBatchProperties.SuccessorsAreTheDeferred` | internal/csf/commit/work_hybrid.go:143-193 | Successors match the deferred decisions one to one, all in the future |
| `SystemBatch.Gather` | internal/csf/commit/work_system_batch.go:60-103 | Each unit in fence order: its kind first, then repetition, then its stored source; or the first error |
| `SystemBatch.NoRefusal` | internal/csf/commit/work_system_batch.go:60-103 | What passes are exactly the schedule and trigger units a mixed batch would accept |
| `SystemBatch.SortPositions` | internal/csf/commit/work_system_batch.go:104-108 | The index permutation that puts the identities in strictly increasing order |
| `SystemBatch.MakeEvents` | internal/csf/commit/work_system_batch.go:109-120 | Events in identity order, each written into its unit's place in fence order |
| `SystemBatch.DecideInFenceOrder` | internal/csf/commit/work_system_batch.go:121-163 | Decisions and successors read back in fence order |
| `SystemBatch.EventsAreDue` | internal/csf/commit/work_system_batch.go:104-120 | The events made in identity order are exactly those the fence is due |
| `SystemBatch.CommitSystems` | internal/csf/commit/work_system_batch.go:46-169 | The two-order batch is the batch the mixed handler would define for the same fence, or the first reason why not |
| `NoProposalBatch.PlanRounds` | internal/csf/commit/work_no_proposal.go:104-137 | One plan per round of the sorted cohort, if and only if the cohort lists exactly the rounds with filled slots, each once, and no slot twice |
| `NoProposalBatch.CommitNoProposal` | internal/csf/commit/work_no_proposal.go:26-166 | A fence of declined slots settles exactly under the listed conditions, and then as the batch the mixed handler defines |
| `NoProposalBatch.SilenceIsRecorded` | internal/csf/commit/work_no_proposal.go:65-137 | Every declined slot has a NO_PROPOSAL decision and is consumed by its round's event; one event per cohort round, no successor |
| `ResourceBatch.Tally` | internal/csf/commit/resource_outputs.go:54-84 | Slots grouped by round, winners and what they consume; refused if and only if some verdict is not final or some winner takes other than one |
| `ResourceBatch.Materialize` | internal/csf/commit/resource_outputs.go:29-121 | Exactly when there are an effect, a smaller stock and a plan per round; the reducer never disagrees with what the kernel says is left |
| `ResourceBatch.SettleRest` | internal/csf/commit/work_resource_system.go:82-124 | Every unit after the slots settled in order, if and only if each matches its stored source |
| `ResourceBatch.OriginsDecide` | internal/csf/commit/work_resource_system.go:128-131 | Merged plans collide if and only if two system units or a round and a system unit share an identity |
| `ResourceBatch.MergeLifecycles` | internal/csf/commit/work_resource_system.go:125-147 | The contest's rounds and the other units sorted together by origin and renumbered behind the effect, or refused |
| `ResourceBatch.DecideRest` | internal/csf/commit/work_resource_system.go:148-188 | One decision per unit after the slots, and a successor for each deferral |
| `ResourceBatch.CommitContest` | internal/csf/commit/work_resource_system.go:43-219 | The contest commits exactly under the listed conditions, and then with effect first, lifecycle numbered without a gap, a decision per unit and the stock down by one |
| `ResourceBatch.ContestIsConserved` | internal/csf/commit/work_resource_system.go:125-188 | Every admitted unit is named by exactly one lifecycle event and nothing else is; exactly one slot produced the effect, which took one from the stock |
| `ResourceBatch.CommitIsUnique` | internal/csf/commit/work_resource_system.go:43-219 | A contest has one commit |
| `ResourceBatch.ResolutionsAreContests` | internal/csf/commit/work_contest.go:73-81 | Whatever the kernel resolves for the slots of a fence meets what the commit assumes |
| `Json.NaturalPlacesCompare` | internal/csf/conformance/runner.go:3072-3084 | Between places made of natural numbers below 2^64 comparing what is read is comparing the numbers |
| `Json.LimitIsSafeExactly` | internal/csf/conformance/runner.go:3273-3283 | Whatever reads later than a place is later, if and only if its instant is read as a positive number and its ordinal is read or below one, or its instant is a number below one and its ordinal the largest there is |
| `Json.LimitIsCompleteExactly` | internal/csf/conformance/runner.go:3273-3283 | Every later place of natural numbers reads later, if and only if the place has no negative number that is looked at |
| `CommitPartition.CollectCandidates` | internal/csf/conformance/runner.go:2654-2673 | Candidates list admitted units only, each once and in one candidate, and the map says which |
| `CommitPartition.CollectDecisions` | internal/csf/conformance/runner.go:2674-2685 | One decision per admitted unit: none twice, none unknown, none missing |
| `CommitPartition.SuccessorExists` | internal/csf/conformance/runner.go:2859-2873 | The first successor with the wanted identity, run and provenance decides, its JSON coordinate compared as read, in `uint64` arithmetic |
| `CommitPartition.ValidDeduplication` | internal/csf/conformance/runner.go:2875-2902 | The canonical unit is one that no readable earlier admission of the same idempotency identity precedes; its own unreadable numbers count as zero |
| `CommitPartition.CheckSettlement` | internal/csf/conformance/runner.go:2698-2745 | A decision agrees with its candidate and its provisional settlement |
| `CommitPartition.CheckDecisions` | internal/csf/conformance/runner.go:2698-2745 | All decisions, in any iteration order, and how many defer |
| `CommitPartition.Validate` | internal/csf/conformance/runner.go:2623-2748 | The maps and loops up to the counting of successors accept exactly the transitions that partition the fence; events, policies, sequence and source settlements, checked after them, are left out |
| `CommitPartition.DecisionsAreABijection` | internal/csf/conformance/runner.go:2674-2685 | Accepted decisions are in bijection with the admitted identities |
| `CommitPartition.DecisionNamesItsCandidate` | internal/csf/conformance/runner.go:2698-2712 | Every decision but NO_PROPOSAL names the one candidate that lists its unit; candidates are disjoint |
| `CommitPartition.SuccessorsAreABijection` | internal/csf/conformance/runner.go:2746-2748 | By counting alone, successors are in bijection with the DEFER decisions |
| `CommitPartition.SuccessorsComeAfter` | internal/csf/conformance/runner.go:2859-2873 | An accepted successor comes strictly after a safe fence, and after any fence if all four numbers are natural and the fence ordinal is not read as the largest `uint64` |
| `CommitPartition.SuccessorCheckIsSoundExactly` | internal/csf/conformance/runner.go:2859-2873 | Whatever the check lets through comes strictly after the fence, if and only if the fence is safe and its ordinal not read as the largest `uint64` |
| `CommitPartition.SuccessorCheckIsCompleteExactly` | internal/csf/conformance/runner.go:2859-2873 | No successor of natural numbers after the fence is refused, if and only if the fence has no negative number or its ordinal is read as the largest `uint64` |
| `CommitPartition.NaturalSuccessorsAreChecked` | internal/csf/conformance/runner.go:2859-2873 | Between natural numbers the check is strictness, unless the fence ordinal is read as the largest `uint64` |
| `CommitPartition.EarlierSuccessorIsAccepted` | internal/csf/conformance/runner.go:2623-2748 | A whole transition that is accepted although its one successor is seven before the fence, at a negative instant read as zero |
| `CommitPartition.DeduplicationIsUniqueExactly` | internal/csf/conformance/runner.go:2875-2902 | All deduplications of an identity point to one position if and only if no unreadable record of it stands before one that nothing readable precedes, of those a decision can name |
| `CommitPartition.UnambiguousRecords` | internal/csf/conformance/runner.go:2886-2899 | Where every record can be named this is so if and only if every unreadable record has a readable one at its position or before it, or all stand at one position |
| `CommitPartition.TwoCanonicalUnitsAreAccepted` | internal/csf/conformance/runner.go:2623-2748 | A whole transition that is accepted although its two deduplications of one identity point to different positions |
| `AdvanceBatch.EvaluateAll` | internal/csf/commit/clock_advance.go:208-226 | Triggers sorted by definition and evaluated in turn; refused if and only if one repeats or cannot be evaluated |
| `AdvanceBatch.Append` | internal/csf/commit/clock_advance.go:230-249 | One event per content with the running sequence number, in `uint64` arithmetic |
| `AdvanceBatch.BuildAdvance` | internal/csf/commit/clock_advance.go:163-280 | Clock, body, trigger and activation events in order with consecutive numbers, or refused |
| `AdvanceBatch.EveryTriggerChangesOnce` | internal/csf/commit/clock_advance.go:208-226 | Each trigger publishes exactly one change, and activations are exactly those that fired |
| `AdvanceBatch.AdvanceIgnoresOrder` | internal/csf/commit/clock_advance.go:208-226 | The batch does not depend on the order in which triggers are stored |
| `AdvanceBatch.AdvanceMayWrap` | internal/csf/commit/clock_advance.go:230-249 | An advance, whatever its triggers, never refuses a full sequence counter: its events are numbered upwards if and only if the numbers fit into 64 bits, and the next number is kept if and only if it is below 2^64 |
| `Journal.WorkBatchIsLegal` | internal/csf/commit/work_hybrid.go:198-199 | A mixed or system batch within the cascade limit is a legal journal entry that leaves the batch's clock |
| `Journal.ContestIsLegal` | internal/csf/commit/work_resource_system.go:189-208 | So is the commit of a contest, effect and lifecycle together |
| `Journal.AdvanceBatchIsLegal` | internal/csf/commit/clock_advance.go:249-280 | So is the batch of a clock advance |
| `Journal.ClockMovesForward` | internal/csf/clock/clock.go:91-95 | Over any run (instant, last ordinal) strictly increases lexicographically |
| `Journal.RevisionCountsCommits` | internal/csf/commit/work_hybrid.go:198 | Over any run the revision grows by exactly one per commit, plainly until it reaches 2^64 |
| `Journal.SequenceHasNoGaps` | internal/csf/commit/clock_advance.go:230-249 | Over any run all events together carry consecutive sequence numbers, modulo 2^64, ending at the clock's next one |
| `Journal.SequenceIsConsecutive` | internal/csf/commit/work_hybrid.go:125 | They are plainly consecutive if and only if the counter never leaves 64 bits |
| `Journal.CascadeIsBounded` | internal/csf/commit/cascade.go:18-31 | No instant ever has more than 64 WORK commits |
| `References.Refs` | internal/csf/communication/records.go:62-77 | A list of references is written if and only if kinds match, hashes are whole and identities distinct; then in canonical order |
| `References.ValidateRefArray` | internal/csf/communication/delivery.go:93-112 | A list is accepted if and only if it is canonical, comparing each with the one before |
| `References.WritingIsReading` | internal/csf/communication/delivery.go:93-112 | What is written can be read back; a list can be read if and only if it is what writing it gives |
| `References.ClaimListsAreCanonical` | internal/csf/communication/delivery.go:93-112 | For claim lists canonical order is plain order of identities |
| `Communication.PreparedPlanValidates` | internal/csf/communication/send_plan.go:41-80 | A prepared send validates with its due time, which is after the sending |
| `Communication.PreparedPlansAreTheFreshOnes` | internal/csf/communication/send_plan.go:41-124 | The plans a preparation can give are exactly the valid ones that are fresh, each from one specification |
| `Communication.SentReplays` | internal/csf/communication/trace.go:45-60 | The send event of a prepared plan replays to a message in transit |
| `Communication.ConstructedTraceReplays` | internal/csf/communication/trace.go:45-87 | Send, then delivery at any later cycle at or after due, replays to the status fixed by the channel |
| `Communication.AcceptedTraceIsConstructed` | internal/csf/communication/trace.go:45-87 | Conversely every accepted event list is the constructed one: never before due, twice or in the sending cycle |
| `Communication.TraceIsUnique` | internal/csf/communication/trace.go:45-87 | Plan and contexts determine the events |
| `Control.LegalLedgersTakeTurns` | internal/csf/conformance/runner.go:1105-1125 | In a legal ledger a fence opens a new cycle after a commit, or repeats the frozen cycle of an aborted attempt with the attempt one higher; every other entry belongs to the one before it |
| `Control.FoldedStateIsValidExactly` | internal/csf/conformance/runner.go:1963-2010 | The state folded from any ledger satisfies the validator if and only if it is empty, ends in a fence, or refers to an entry whose reference is one of an abort |
| `Control.FoldedStateIsValid` | internal/csf/conformance/runner.go:1963-2010 | From a legal ledger it does if and only if no commit comes last |
| `Control.FoldFollowsTheRules` | docs/adr/0008-causal-simulation-foundation-v1.md:1431-1460 | The fold gives what the ordered rules of the decision record define if and only if no commit comes last and a fence in flight has no envelope before it |
| `Control.StatusDecidesWhatFollows` | docs/adr/0008-causal-simulation-foundation-v1.md:1460-1474 | In each state only the documented transition is legal next: an opening fence, the envelope of the fence in flight, the retry of the last abort, the fence of the authorized attempt |
| `Control.LastAttemptIsLargest` | docs/adr/0008-causal-simulation-foundation-v1.md:1457-1460 | The attempt of the last entry is the largest among the fences of its cycle |
| `Control.NextFenceCarriesNextAttempt` | internal/csf/conformance/runner.go:2289-2304 | From any point the next fence of a cycle carries the announced attempt; a first fence does if and only if attempts start at one |
| `Control.AtMostOneInFlight` | internal/csf/conformance/runner.go:2289-2304 | There are as many envelopes as fences, or one fewer exactly when an attempt is in flight |
| `Control.CanonicalSubjects` | internal/csf/commit/abort_retry.go:31-44 | Subjects of an abort in canonical order, refused if and only if one is repeated or has no versioned validator, whatever order they came in |
| `Inbox.Index` | internal/csf/contextboundary/builder.go:47-102 | Observations are indexed if and only if each is addressed to the actor and none repeats |
| `Inbox.Pair` | internal/csf/contextboundary/builder.go:103-148 | Inputs are paired if and only if each confirms the observation it names and no observation is used twice |
| `Inbox.Build` | internal/csf/contextboundary/builder.go:42-156 | The inbox is built if and only if the lists pair off, and is then sorted by time of receipt and identity |
| `Inbox.InboxIsAPairing` | internal/csf/contextboundary/builder.go:42-156 | Every observation and every input is in exactly one entry, strictly sorted |
| `Inbox.InboxIgnoresOrder` | internal/csf/contextboundary/builder.go:42-156 | Neither acceptance nor the inbox depends on the order of the two lists |

## Left out

- The SQLite store, compare-and-swap transactions, policy bundles, genesis, command lines and clocks of the host: inputs of the model are what they return.
- SHA-256 and the registry of identity operations: derived identities are symbolic terms or injective parameters.
- UTF-8 validity, NFC, the Unicode tables and the layout of floats in CBOR: parameters of the profile; text is opaque valid bytes.
- CborScanner.ParseItem: acceptance only; the TypeScript error codes are not modelled, since they differ from Go's on repeated keys.
- FixtureCodec.DecodeBytes: the fixture audit's use of the codec on references is not modelled.
- FenceProperties.FenceIsStable: rounds, slots and system units are held fixed, since a new round or response may legitimately change a later derivation.
- Fence.DeriveFence: verification of each record's own identity and digest is the field `authentic`.
- The handlers of a single schedule, trigger or delivery unit: they repeat the numbering of the batches with one unit.
- Candidates, journals, policy references and digests inside a batch: functions of the modelled fields.
- Resolver.Collect: the field checks of `validateResponse` are the field `authentic`; the registry of action schemas is assumed well formed, and the kernel's recheck that candidates partition the units is not modelled.
- Kernel.Run: errors are reduced to the three classes callers can tell apart, and the assessments, evidence and audit bytes are left out.
- ResourceBatch.CommitContest: refusals are not told apart, and the distinct-actor and registered-stock-name checks are left out.
- CommitPartition.Validate: acceptance only; event lists, world reducers and source settlements are not modelled.
- AdvanceBatch.EvaluateAll: what evaluating a trigger gives is a parameter.
- Journal.CascadeIsBounded: the abort published when the limit is reached is not modelled.
- Control.LegalLedgersTakeTurns: records besides fences, envelopes and retries; identities of entries and cycles are taken to be new, as collision-free digests make them.
- Inbox.Build: decoding of percepts and channels is the field `authentic`.
- Soreness.AdvanceSoreness: the tolerance of 1e-9 and the rounding to nine digits are left out; instants are exact.
- Body fields the channels copy unchanged (tissue, mechanism, impairments and cues of an injury, illnesses) and the rounding of recorded values; arithmetic is exact, and `exp`, the power and the circadian curve are parameters.
- The loader of the tuning file, which checks no signs: time constants, caps and rates are taken to be positive or non-negative where a channel needs them to be.
- The parsing of JSON: a value is a number that `float64` may hold, or something else.
