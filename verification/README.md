# Verification of the error-specification analysis

EESI infers *error specifications*: for each function of a C program, the signs (`< 0`,
`== 0`, `> 0`) of the values it returns when it fails. It runs four dataflow passes over
LLVM bitcode, then walks the call graph bottom-up and joins what the blocks of each
function say into a store of confidence tuples, with a language model filling the gaps.
Servers run this work as long operations that a client polls. This project models that
engine and that protocol in Dafny and proves what they promise.

The main results:

- **Return ranges are sound between procedures.** A small operational semantics
  (`Semantics`) says what a program returns, through calls, loops and mutual recursion;
  every value a terminating run of a function returns lies in the range the analysis ends
  with, if that function and those it can reach keep to a stated fragment
  (`RangeSoundness.RunSound`, and `RangeAnalysis.Analyse` for the whole chain).
- **They hold no more than they must.** The run of the pass is recorded as a sequence of
  states, each following from the one before by a visit of an instruction or a join along an
  edge, both given by their meaning. An integer is in the range of a function if and only if
  some visited return admitted it at that time (`RangeHistory.RangeIsWhatReturnsGave`); if no
  fact tracks what a function returns, its range is exactly what its returns and the final
  ranges of its callees admit (`RangeHistory.UntrackedReturnsAreExact`), so that a function
  that hands on the result of another has the range of that one
  (`RangeHistory.ForwardedRange`).
- **The sweeps end where they should.** Each pass is a class whose methods update its
  facts in place, in the loops of the source. `changed` watches only some of the facts,
  pushes go into successors behind its back, and one transfer function is not monotone;
  loop exit is nevertheless a (post-)fixpoint, and the three forward passes need at most two
  sweeps more than the height of their lattice.
- **Returned values are exact.** A value is in a fact if and only if some chain of program
  points carries it to a return.
- **Transfer by meaning.** What each instruction, test and return does to a fact is said by
  kinds of instructions and of single integers, apart from the functions that compute it, and
  proved to agree (`RangeMeaning`, `ReturnPropagation.TransferMeans`,
  `ReturnConstraints.TransferMeans`). Nothing a forward pass lists lacks a trail from where it
  was brought in, and where a block tests a call of its own, the only successor's constraint is
  exactly what the test lets through (`ReturnConstraints.OnlyTestIsExact`).
- **Blocks.** A block claims a sign exactly as strongly as some cause in it does: an error-only
  call, an error code, or a constraint (`BlockCauses.BlockMeans`). Under a constraint, a call
  that is returned is handed on with its callee's confidence, met with what the constraint
  leaves if that is on the callee itself (`BlockMeaning.CarriedCallIsHandedOn`). The join has no
  order, and claims only signs of the value the block must return.
- **The specification store.** What one update does has a closed form; every reachable
  store meets an invariant; certain signs do not depend on the language model, and whether "no
  errors" does is decided by an exact condition; loops over recursive components end in two
  regimes, and a function that calls itself shows that they need not end otherwise.
- **The operations protocol.** Under every interleaving of the server's tasks and of other
  clients with the client's calls, no poll misses, the limit is kept, every request is
  notified once with the result its own task finished with, and the wait ends.

## How the files fit together

`SignLattice`, `SignFacts`, `IR` and `ICmpAbstraction` are the common ground: eight signs as
sets of integers and as bit vectors, maps of signs, a register-demoted intermediate
representation, and the reading of a comparison with a constant; `BranchTests` says what a
test lets through to a successor, and `Trails` what can be reached step by step. `ReturnedValues`,
`ReturnPropagation` and `ReturnConstraints` are one pass each. The return-range pass is
spread over `RangeTransfer` (one instruction), `RangeInvariant` (what every visit of a block
keeps), `RangeSweep` (what a sweep establishes), `RangeFixpoint` (components and bottom-up
order) and `ReturnRange` (the class itself); `RangeMeaning` says what its transfer functions
mean, and `RangeHistory` what a whole run comes to; `Semantics`, `RangeSoundness` and
`RangeAnalysis` say what its result means, and `TestLimits` why that claim has limits.
`Provenance` says where the content of slots and registers comes from, in step with
`Semantics`, and `ProvenanceLimits` where return propagation loses it.
`ConfidenceLattice`, `TupleJoins` and `SpecificationUpdate` deal with confidence tuples and
with one update; `BlockConfidence` says what a block contributes, as a set, `BlockMeaning`
what each constraint contributes, sign by sign, `BlockCauses` why a block claims what it claims,
`BlockClaims` what it can claim at most, and `BlockVisit` computes it in the loops of the pass;
`FunctionConfidence` combines blocks; `ErrorBlocks` is the pass with its store,
`RecursiveExample` a function with the facts of the passes over it, and `RecursionAlternates`
the proof that its analysis never ends. `LatticeHelper` is the command line's reading of a
tuple. `Operations` is the server, `WaitForOperations` the client, and `Cardinality` holds two
facts about finite sets.

In the dataflow passes the facts of a function form a map from program points; the point
after one instruction is the point before the next, so that the output fact of an
instruction and the input fact of its successor are one object, as they are in the source.

## What the proofs found

- An order comparison against a null pointer, signed or unsigned, is read the wrong way round:
  the predicate is swapped because the second operand is not an integer, and the null check
  does not swap it back (`ErrorSpecifications/eesi/src/return_constraints_pass.cc:270-298`). The
  operand is kept exactly if it is null itself (`ICmpAbstraction.NullTestIsSoundExactly`); the
  unsigned test "above null" loses every other pointer
  (`ICmpAbstraction.UnsignedNullTestsLoseEverything`).
- The replacement for unsigned comparisons with an integer constant keeps the operand exactly
  if neither side is negative (`ICmpAbstraction.UnsignedTestIsSoundExactly`).
  `ICmpAbstraction.AbstractICmpIsSoundExactly` puts both together for every predicate and all
  operands.
- A conditional branch can take the wrong value for the content of a slot: a constant that has
  just been stored, or a value loaded before the slot was overwritten. With these, with unsigned
  tests, with order tests against null and with truncation, small functions meet every equation
  of the pass and return values outside their range (`TestLimits.StoredConstantEscapes`,
  `TestLimits.StaleOperandEscapes`, `TestLimits.UnsignedTestEscapes`,
  `TestLimits.NullOrderEscapes`, `TestLimits.TruncationEscapes`).
- Return propagation copies no entry at a sign extension, although the value stays the same, and
  at a store through a register it overwrites the register's own entry, although the register
  keeps its value. Either way the call behind a returned value can be lost
  (`ProvenanceLimits.ExtensionLosesCall`, `ProvenanceLimits.StoreLosesCall`);
  `ReturnPropagation.ProvenanceIsSoundExactly` says exactly when nothing is.
- In an update, keeping only the certain signs never helps: whenever that step is reached the
  update is refused (`SpecificationUpdate.UpdateInClosedForm`).
- Updates are not monotone, and lose a sign exactly in the case stated by
  `SpecificationUpdate.LosesExactlyWhen`. With a range of all signs and mixed confidences a
  function that calls itself alternates for ever (`RecursionAlternates.AnalysisAlternates`); the
  updates of a function always settle exactly if it cannot return every sign
  (`SpecificationUpdate.SettlesExactly`).
- The emptyset component, unlike the certain signs, does depend on the language model
  (`SpecificationUpdate.ModelCanAffectEmptyset`): a certain static "no errors" survives exactly
  if no update by the model would be stored on its own
  (`SpecificationUpdate.ModelAffectsEmptysetExactlyWhen`).
- What the expansion calls the average of its callees' confidences is the last one it meets,
  divided by how many there are, so it depends on the order of a hash set
  (`ErrorBlocks.ErrorBlocksPass.AverageConfidence`).
- When blocks are combined, the fold starts from "unknown", so a partial emptyset confidence
  of the blocks never reaches the result (`FunctionConfidence.CombinedMeans`).

## Model

| member | source | states |
|---|---|---|
| SignLattice.MeetRowsDecode | ErrorSpecifications/eesi/src/constraint.cc:10-60 | the AND of two meet encodings is always a valid encoding, that of the greatest lower bound |
| SignLattice.JoinRowsDecode | ErrorSpecifications/eesi/src/constraint.cc:18-97 | the AND of two join encodings is always a valid encoding, that of the least upper bound |
| SignLattice.Meet | ErrorSpecifications/eesi/src/constraint.cc:195-200 | contains exactly the integers both elements contain |
| SignLattice.Join | ErrorSpecifications/eesi/src/constraint.cc:202-207 | contains every integer either element contains |
| SignLattice.JoinIsLeast | ErrorSpecifications/eesi/src/constraint.cc:202-207 | no element above both operands is smaller than the join |
| SignLattice.Complement | ErrorSpecifications/eesi/src/constraint.cc:99-123 | contains exactly the integers the element does not |
| SignLattice.Difference | ErrorSpecifications/eesi/src/constraint.cc:209-212 | contains exactly the integers of the first that are not in the second |
| SignLattice.IsLessThanIsInclusion | ErrorSpecifications/eesi/src/constraint.cc:152-193 | the bit test decides inclusion of meanings |
| SignLattice.IntersectsIsMeet | ErrorSpecifications/eesi/src/constraint.cc:222-225 | two elements intersect if and only if their bit-vector meet is not bottom |
| SignLattice.IntersectsIsOverlap | ErrorSpecifications/eesi/src/constraint.cc:222-225 | two elements intersect if and only if some integer is in both |
| SignFacts.FilteredJoin | ErrorSpecifications/eesi/src/return_range_pass.cc:53-66 | joins only the entries of returnable values, copying an entry where the other side has none |
| SignFacts.JoinInto | ErrorSpecifications/eesi/include/return_constraints_pass.h:38-53 | joins entry by entry, an absent key carrying no information |
| SignFacts.JoinedIsLeast | ErrorSpecifications/eesi/include/return_constraints_pass.h:38-53 | that join is the least fact above both |
| ICmpAbstraction.TableIsSound | ErrorSpecifications/eesi/src/return_constraints_pass.cc:138-256 | every integer that can pass or fail the test against a constant of the given sign is in the table's element |
| ICmpAbstraction.TableIsLeast | ErrorSpecifications/eesi/src/return_constraints_pass.cc:138-256 | the table's element is the least such element |
| ICmpAbstraction.AbstractICmpIsExact | ErrorSpecifications/eesi/src/return_constraints_pass.cc:258-315 | for every signed test against an integer, in both operand orders, the two elements are sound and best possible |
| ICmpAbstraction.AbstractICmpIsSound | ErrorSpecifications/eesi/src/return_constraints_pass.cc:258-315 | unless the test is unsigned or is an order test against null, an operand that is not a constant is in the element of the branch taken |
| ICmpAbstraction.AbstractICmpIsSoundExactly | ErrorSpecifications/eesi/src/return_constraints_pass.cc:258-315 | for every predicate and all operands, one that is not a constant is in the element of the branch taken if and only if: the other side is no constant; or it is null and the test is for equality or the operand is null; or it is an integer and the test is not unsigned or neither side is negative |
| ICmpAbstraction.OrderedNullTestsAreUnsound | ErrorSpecifications/eesi/src/return_constraints_pass.cc:270-298 | an order test against null loses a value that passes it |
| ICmpAbstraction.UnsignedNullTestsLoseEverything | ErrorSpecifications/eesi/src/return_constraints_pass.cc:270-312 | where "above null" holds, every operand is lost |
| ICmpAbstraction.NullTestIsSoundExactly | ErrorSpecifications/eesi/src/return_constraints_pass.cc:270-312 | a test against null, signed or unsigned and in either order, keeps the operand if and only if it is an equality test or the operand is null |
| ICmpAbstraction.UnsignedTestsAreUnsound | ErrorSpecifications/eesi/src/return_constraints_pass.cc:309-312 | an unsigned test loses a negative operand |
| ICmpAbstraction.UnsignedTestIsSoundExactly | ErrorSpecifications/eesi/src/return_constraints_pass.cc:309-312 | an unsigned test against an integer constant, in either order, keeps the operand if and only if neither side is negative |
| ReturnedValues.TransferCarriesBack | ErrorSpecifications/eesi/src/returned_values_pass.cc:128-239 | the backward transfer yields a value exactly if the instruction generates it or carries it back |
| ReturnedValues.InputFact | ErrorSpecifications/eesi/src/returned_values_pass.cc:84-112 | the visitors, editing a copy of the output fact, compute that transfer |
| ReturnedValues.FixpointIsComplete | ErrorSpecifications/eesi/include/returned_values_pass.h:15-39 | at a fixpoint nothing that can be traced to a return is missing |
| ReturnedValues.FixpointIsExact | ErrorSpecifications/eesi/include/returned_values_pass.h:15-39 | a justified fixpoint holds exactly the values with a trace to a return |
| ReturnedValues.ReturnedValuesPass.VisitBlock | ErrorSpecifications/eesi/src/returned_values_pass.cc:75-117 | after a visit the block's equations hold, and any change has shrunk what the facts can still gain |
| ReturnedValues.ReturnedValuesPass.JoinSuccessors | ErrorSpecifications/eesi/src/returned_values_pass.cc:61-66 | the block's last fact covers the entries of all successors, and nothing else moves |
| ReturnedValues.ReturnedValuesPass.Run | ErrorSpecifications/eesi/src/returned_values_pass.cc:49-73 | the sweep ends, at a fixpoint that is exact |
| ReturnPropagation.StoreIsNotMonotone | ErrorSpecifications/eesi/src/return_propagation_pass.cc:150-168 | a larger fact before a store can give a smaller one after it |
| ReturnPropagation.StoreIsMonotoneExactly | ErrorSpecifications/eesi/src/return_propagation_pass.cc:150-168 | a store keeps the order of two facts if and only if the sender has an entry in the smaller one or in neither, or what the smaller one lists for the receiver is among what the sender brings |
| ReturnPropagation.CopyIsMonotoneExactly | ErrorSpecifications/eesi/src/return_propagation_pass.cc:137-203 | so for loads, copying casts and binary operators, with the result in place of the receiver |
| ReturnPropagation.OutputFact | ErrorSpecifications/eesi/src/return_propagation_pass.cc:126-203 | a load, bit cast, pointer-to-int cast and binary operator give their result the whole entry of their first operand, if it has one; a call adds itself to its own entry, a store of an integer constant that constant; a store takes over the sender's entry; nothing else changes |
| ReturnPropagation.JoinInto | ErrorSpecifications/eesi/include/return_propagation_pass.h:38-43 | unions the sets entry by entry |
| ReturnPropagation.ProvenanceIsSound | ErrorSpecifications/eesi/src/return_propagation_pass.cc:61-168 | if no path drops or overwrites a known origin (the next rows): along every path, a call result or stored constant that a slot or register holds, as the semantics copies values, is in its entry |
| ReturnPropagation.EntryIsDropped | ErrorSpecifications/eesi/src/return_propagation_pass.cc:97-118 | a sign extension, or a cast of an integer constant, keeps a value of known origin, and its result has no entry |
| ReturnPropagation.TransferMeans | ErrorSpecifications/eesi/src/return_propagation_pass.cc:126-203 | the transfer function, by kinds of instructions, as in the row of `OutputFact` |
| ProvenanceLimits.ExtensionLosesCall | ErrorSpecifications/eesi/src/return_propagation_pass.cc:97-118 | a function returns a call's result sign-extended, and wherever the pass ends the returned register has no entry |
| ProvenanceLimits.StoreLosesCall | ErrorSpecifications/eesi/src/return_propagation_pass.cc:150-168 | a function stores through a pointer it got from a call and returns the pointer, and wherever the pass ends the returned register's entry lacks that call |
| ReturnPropagation.ProvenanceIsSoundExactly | ErrorSpecifications/eesi/src/return_propagation_pass.cc:87-168 | provenance is sound along all paths if and only if no path sign-extends a value of known origin or casts an integer constant (said by kinds of instructions alone), and none stores through a register that holds an origin which the sender's entry does not list |
| ReturnPropagation.ReturnPropagationPass.VisitBlock | ErrorSpecifications/eesi/src/return_propagation_pass.cc:87-124 | after a visit the block's equations hold, and `changed` is true exactly if some fact changed |
| ReturnPropagation.ReturnPropagationPass.JoinPredecessors | ErrorSpecifications/eesi/src/return_propagation_pass.cc:69-79 | the entry becomes the least fact above the earlier entry and the predecessors' output facts, and nothing else moves |
| ReturnPropagation.ReturnPropagationPass.Run | ErrorSpecifications/eesi/src/return_propagation_pass.cc:61-85 | exit is a post-fixpoint, reached from empty facts by joins and visits alone, in which every listed value has a trail from the call or store that brought it in; its provenance is sound under exactly that condition; at most two sweeps more than the height of the lattice |
| ReturnConstraints.PushBranch | ErrorSpecifications/eesi/src/return_constraints_pass.cc:413-512 | each successor's entry for a tested function gains exactly the integers that the test lets through there and the incoming constraint, if there is one, contains; nothing else moves |
| ReturnConstraints.PushSwitch | ErrorSpecifications/eesi/src/return_constraints_pass.cc:317-411 | so for every case successor, with the sign of the case value; the default gets nothing |
| ReturnConstraints.PushingIsUnique | ErrorSpecifications/eesi/src/return_constraints_pass.cc:396-409 | there is just one such outcome, so the order of the pushes does not matter and nothing else moves |
| ReturnConstraints.PushingIsLeast | ErrorSpecifications/eesi/src/return_constraints_pass.cc:396-409 | that outcome is the least one above the earlier entries that holds the narrowed constraints |
| ReturnConstraints.NarrowMeans | ErrorSpecifications/eesi/src/return_constraints_pass.cc:485-497 | a narrowed constraint contains an integer if and only if the test's element and the incoming constraint, if there is one, both do |
| ReturnConstraints.TestedMeans | ErrorSpecifications/eesi/src/return_constraints_pass.cc:434-470 | a name is tested if and only if return propagation lists a call of that name for the first operand that is an instruction, or for the condition of a switch with cases |
| ReturnConstraints.TransferMeans | ErrorSpecifications/eesi/src/return_constraints_pass.cc:85-120 | a call of a name allows every result, a test of it leaves nothing in the output, everything else passes on the constraint |
| ReturnConstraints.OnlyTestIsExact | ErrorSpecifications/eesi/src/return_constraints_pass.cc:413-512 | if a block calls a function, tests the result at its end and is the only predecessor of a successor, the successor's constraint is exactly what the test lets through |
| ReturnConstraints.KillAll | ErrorSpecifications/eesi/src/return_constraints_pass.cc:474-482 | every tested function becomes bottom in the branch's output, every other entry stays |
| ReturnConstraints.ReturnConstraintsPass.JoinPredecessors | ErrorSpecifications/eesi/src/return_constraints_pass.cc:63-69 | the entry becomes the least fact above the earlier entry and the predecessors' output facts, and nothing else moves |
| ReturnConstraints.ReturnConstraintsPass.VisitBlock | ErrorSpecifications/eesi/src/return_constraints_pass.cc:77-104 | the block's output facts are recomputed and then its test is heard by its successors, exactly; an unchanged visit moves nothing |
| ReturnConstraints.ReturnConstraintsPass.Run | ErrorSpecifications/eesi/src/return_constraints_pass.cc:51-75 | exit is an edge-sensitive post-fixpoint although pushes are invisible to `changed`, reached from empty facts by joins and visits alone; no constraint contains an integer without a path from a call, or from a test that lets it through, that meets no other test; it is exact where a block tests its own call; at most two sweeps more than the height of the lattice |
| RangeTransfer.OutTracksOnly | ErrorSpecifications/eesi/src/return_range_pass.cc:220-257 | every transfer leaves a fact that mentions only values returnable at its point |
| RangeMeaning.AbstractValueMeans | ErrorSpecifications/eesi/src/return_range_pass.cc:449-497 | an untracked operand may be what its constant says, what an analysed callee's range says (nothing, if it has none yet), not negative after a zero extension, and anything otherwise |
| RangeMeaning.ContributionMeans | ErrorSpecifications/eesi/src/return_range_pass.cc:395-412 | a return adds what its operand may be, and for a pointer that may be other than null everything other than null |
| RangeMeaning.CheckedMeans | ErrorSpecifications/eesi/src/return_range_pass.cc:423-447 | a branch tests the first operand that was loaded from a returnable address or stored to one just before, a switch its condition |
| RangeMeaning.OutMeans | ErrorSpecifications/eesi/src/return_range_pass.cc:220-257 | which keys have an entry after an instruction, by its kind, and which integers each entry has |
| RangeMeaning.PushesMean | ErrorSpecifications/eesi/src/return_range_pass.cc:325-392 | a successor hears of a tested key what the test lets through and the fact before does not exclude; the default of a switch hears what that fact says |
| RangeMeaning.AfterInstructionMeans | ErrorSpecifications/eesi/src/return_range_pass.cc:182-218 | everything one visit of an instruction does to the facts of its function |
| RangeMeaning.RangesAfterMeans | ErrorSpecifications/eesi/src/return_range_pass.cc:395-421 | a return widens the range of its function by exactly what it may return, and nothing else moves |
| RangeHistory.RangeIsWhatReturnsGave | ErrorSpecifications/eesi/src/return_range_pass.cc:95-122 | an integer is in a function's range if and only if some return visited in the run admitted it, by the tracked sign or callee range of that time |
| RangeHistory.UntrackedReturnsAreExact | ErrorSpecifications/eesi/src/return_range_pass.cc:95-122 | if nothing that a function returns is an accessed address or the result of a load or cast, its range is exactly what its returns admit under the final ranges of its callees |
| RangeHistory.ForwardedRange | ErrorSpecifications/eesi/src/return_range_pass.cc:449-464 | if every return hands on the result of a call of one analysed function, the range is that function's; for a pointer that may be other than null, widened to everything other than null |
| RangeInvariant.VisitKeepsInvariant | ErrorSpecifications/eesi/src/return_range_pass.cc:182-218 | a visit of a block, with its pushes, keeps the invariant of all blocks, including that facts mention only returnable values |
| RangeInvariant.RangesGrowKeepsInvariant | ErrorSpecifications/eesi/src/return_range_pass.cc:102-118 | so does any growth of the return ranges |
| RangeInvariant.VisitChange | ErrorSpecifications/eesi/src/return_range_pass.cc:182-218 | an unchanged visit has moved no output fact; a changed one had a new entry or new ranges |
| RangeInvariant.ChangeShrinksMissing | ErrorSpecifications/eesi/src/return_range_pass.cc:127-147 | every changing visit consumes a part of the height of the entry facts and of the function's own range |
| RangeSweep.SweepStep | ErrorSpecifications/eesi/src/return_range_pass.cc:130-146 | one block of a sweep keeps what the sweep has established and brings it nearer to its end |
| RangeSweep.UnchangedSweepSettles | ErrorSpecifications/eesi/src/return_range_pass.cc:127-147 | a sweep without change has settled every edge and every push |
| RangeFixpoint.RunGivesPostFixpoint | ErrorSpecifications/eesi/src/return_range_pass.cc:107-118 | a function whose range did not change, or that does not call itself, is at a post-fixpoint |
| RangeFixpoint.PostFixpointStable | ErrorSpecifications/eesi/src/return_range_pass.cc:97-119 | it stays so when only ranges of functions it does not call change |
| RangeFixpoint.EarlierRangesKept | ErrorSpecifications/eesi/src/return_range_pass.cc:97-119 | a later component does not touch the callees of an earlier one |
| RangeFixpoint.MissingBitsBound | ErrorSpecifications/eesi/src/return_range_pass.cc:102-118 | the ranges of a component can grow at most four times per function |
| ReturnRange.OutputFact | ErrorSpecifications/eesi/src/return_range_pass.cc:193-212 | the visitors compute the transfer function, with the liveness filter and the killed key |
| ReturnRange.PushNarrowed | ErrorSpecifications/eesi/src/return_range_pass.cc:325-343 | the narrowed entry is joined into the successor if and only if its key is returnable there |
| ReturnRange.PushBranch | ErrorSpecifications/eesi/src/return_range_pass.cc:281-344 | a branch pushes both outcomes of its test |
| ReturnRange.PushSwitch | ErrorSpecifications/eesi/src/return_range_pass.cc:346-393 | a switch pushes every case, and the unnarrowed sign to the default |
| ReturnRange.ReturnRangePass.VisitReturn | ErrorSpecifications/eesi/src/return_range_pass.cc:395-421 | the return's sign, widened for pointers, is joined into the function's range and no other range moves |
| RangeInvariant.InstructionTracks | ErrorSpecifications/eesi/src/return_range_pass.cc:193-218 | after every single instruction, with its pushes, the facts mention only returnable values |
| ReturnRange.ReturnRangePass.VisitInstruction | ErrorSpecifications/eesi/src/return_range_pass.cc:182-218 | rewrites one output fact, pushes at a terminator, widens the range at a return, and keeps the facts to returnable values |
| ReturnRange.ReturnRangePass.VisitBlock | ErrorSpecifications/eesi/src/return_range_pass.cc:182-218 | a visit keeps the invariant, moves only entries elsewhere, and lets ranges only grow |
| ReturnRange.ReturnRangePass.JoinPredecessors | ErrorSpecifications/eesi/src/return_range_pass.cc:137-143 | the entry becomes the least fact above the earlier entry and what the predecessors' facts say of returnable values, and nothing else moves |
| ReturnRange.ReturnRangePass.Sweep | ErrorSpecifications/eesi/src/return_range_pass.cc:130-146 | a sweep that changes anything is nearer to its end, even while its own range changes |
| ReturnRange.ReturnRangePass.RunOnFunction | ErrorSpecifications/eesi/src/return_range_pass.cc:124-148 | the sweeps end with every block, edge and push settled; only this function's range moved, and it grew; there are at most two sweeps more than the height of the lattice, and over several runs each sweep but two uses up a part of it |
| ReturnRange.ReturnRangePass.AnalyseFunction | ErrorSpecifications/eesi/src/return_range_pass.cc:107-116 | the change of range is seen, and every other function's invariant is kept |
| ReturnRange.ReturnRangePass.RunOnComponent | ErrorSpecifications/eesi/src/return_range_pass.cc:97-119 | every member ends at a post-fixpoint, after at most 4 times the component's size plus 1 rounds |
| ReturnRange.ReturnRangePass.RunOnModule | ErrorSpecifications/eesi/src/return_range_pass.cc:95-122 | bottom-up, every function ends at a post-fixpoint under the final ranges; a range holds exactly what returns visited in the run gave it; it is exact under the final ranges if no fact tracks what is returned, and that of the callee if the result of a call is handed on |
| RangeSoundness.TestedSlotIsPushed | ErrorSpecifications/eesi/src/return_range_pass.cc:325-392 | the value of a tested slot is in a sign pushed to the successor that is taken |
| RangeSoundness.SlotCrossesEdge | ErrorSpecifications/eesi/src/return_range_pass.cc:137-143 | whichever way control goes, the value of a returnable slot is in the successor's entry |
| RangeSoundness.ReturnInRange | ErrorSpecifications/eesi/src/return_range_pass.cc:395-421 | a returned value is in the function's range |
| RangeSoundness.CallResultSound | ErrorSpecifications/eesi/src/return_range_pass.cc:449-464 | so is the result of a call to an analysed function |
| RangeSoundness.ExecSound | ErrorSpecifications/eesi/src/return_range_pass.cc:182-218 | from any point with a state the facts agree with, what execution returns is in the range |
| RangeSoundness.RunSound | ErrorSpecifications/eesi/src/return_range_pass.cc:78-122 | every terminating run of an analysed function returns a value in its range, if the function and those it can reach are in the fragment |
| RangeAnalysis.Analyse | ErrorSpecifications/eesi/src/return_range_pass.cc:78-122 | both passes in sequence: exact returned values, sound ranges for every set of functions that is closed under calls and in the fragment, and exact ranges where no fact tracks what is returned |
| TestLimits.StoredConstantEscapes | ErrorSpecifications/eesi/src/return_range_pass.cc:423-447 | a comparison with the constant just stored is taken for a test of the slot: all equations hold, and a run returns 0 outside its range |
| TestLimits.StaleOperandEscapes | ErrorSpecifications/eesi/src/return_range_pass.cc:423-447 | a test of a value its slot no longer holds narrows the slot: all equations hold, and a run returns 1 outside its range |
| TestLimits.UnsignedTestEscapes | ErrorSpecifications/eesi/src/return_constraints_pass.cc:309-312 | an unsigned test narrows a slot to the positive numbers: all equations hold, and a run returns -1 outside its range |
| TestLimits.NullOrderEscapes | ErrorSpecifications/eesi/src/return_constraints_pass.cc:270-312 | an order test against null narrows a slot to nothing: all equations hold, and a run returns a pointer outside its range |
| TestLimits.TruncationEscapes | ErrorSpecifications/eesi/src/return_range_pass.cc:193-212 | a truncation copies the sign of its operand: all equations hold, and a run returns -1 outside its range |
| ConfidenceLattice.RemoveLowest | ErrorSpecifications/eesi/src/confidence_lattice.cc:216-306 | the nest of comparisons drops every component equal to the lowest one above zero, unless nothing higher remains |
| ConfidenceLattice.RemovalAt | ErrorSpecifications/eesi/src/confidence_lattice.cc:216-306 | a sign keeps its confidence if some other sign has less but some, or if all that have any have the same; otherwise it loses it |
| ConfidenceLattice.JoinAndMeetAt | ErrorSpecifications/eesi/src/confidence_lattice.cc:88-106 | sign by sign, joins take the higher and meets the lower confidence; for "no errors" the other way round |
| ConfidenceLattice.CutsAt | ErrorSpecifications/eesi/src/confidence_lattice.cc:108-214 | intersection keeps the confidences of the signs in the range, the restriction to full confidence only those of 100; "no errors" is kept |
| ConfidenceLattice.ComparisonsAreEqualities | ErrorSpecifications/eesi/src/confidence_lattice.cc:138-195 | the two comparisons with a range are equalities of sign sets: of the signs with any confidence, and of the certain ones |
| ConfidenceLattice.IntersectionSupport | ErrorSpecifications/eesi/src/confidence_lattice.cc:108-130 | intersecting with a range meets both sign sets with it |
| ConfidenceLattice.JoinSupport | ErrorSpecifications/eesi/src/confidence_lattice.cc:88-96 | joining tuples joins both sign sets |
| ConfidenceLattice.RemovalKeepsCertain | ErrorSpecifications/eesi/src/confidence_lattice.cc:216-306 | certain signs are never removed from a tuple that is not all certain |
| ConfidenceLattice.OperationsKeepExclusive | ErrorSpecifications/eesi/src/confidence_lattice.cc:88-214 | no operation lets a tuple have both a sign and an emptyset confidence |
| ConfidenceLattice.RemovalKeepsExclusive | ErrorSpecifications/eesi/src/confidence_lattice.cc:216-306 | nor does the removal of the lowest components |
| ConfidenceLattice.EmptysetHasNoSigns | ErrorSpecifications/eesi/include/confidence_lattice.h:206-210 | so the test of the emptyset component alone does mean that there are no signs, as documented |
| TupleJoins.JoinSet | ErrorSpecifications/eesi/src/confidence_lattice.cc:88-96 | folding the join over a set has one result, whatever the order |
| TupleJoins.JoinSetIsExclusive | ErrorSpecifications/eesi/src/confidence_lattice.cc:88-96 | a join of exclusive tuples is exclusive |
| SpecificationUpdate.UpdateInClosedForm | ErrorSpecifications/eesi/src/error_blocks_pass.cc:1296-1359 | an update stores the join if it leaves a returnable sign out, the join without its lowest signs if it does not, or nothing |
| SpecificationUpdate.UpdateMeans | ErrorSpecifications/eesi/src/error_blocks_pass.cc:1296-1359 | sign by sign: what is reached within the range is stored if it leaves a returnable sign out and says anything; without its lowest signs if it covers the range unevenly; otherwise nothing changes |
| SpecificationUpdate.UpdateKeepsStorable | ErrorSpecifications/eesi/src/error_blocks_pass.cc:1326-1358 | a stored tuple is known, exclusive, and has strictly fewer signs than the function can return |
| SpecificationUpdate.CertainUpdate | ErrorSpecifications/eesi/src/error_blocks_pass.cc:1304-1356 | how an update moves the certain signs depends only on the certain signs of its inputs |
| SpecificationUpdate.LosesExactlyWhen | ErrorSpecifications/eesi/src/error_blocks_pass.cc:1339-1345 | an update drops a sign if and only if the join covers the range unevenly and a held sign is among the lowest |
| SpecificationUpdate.UpdatesCanAlternate | ErrorSpecifications/eesi/src/error_blocks_pass.cc:1339-1358 | two deltas take two tuples to each other |
| SpecificationUpdate.TwoSignRankRises | ErrorSpecifications/eesi/src/error_blocks_pass.cc:1318-1358 | with at most two returnable signs, every changing update raises a rank, even one that drops a sign |
| SpecificationUpdate.SettlesExactly | ErrorSpecifications/eesi/src/error_blocks_pass.cc:1296-1359 | one function's specification settles under every sequence of updates if and only if the function cannot return every sign; it then changes at most 200 times |
| SpecificationUpdate.BinaryRankRises | ErrorSpecifications/eesi/src/error_blocks_pass.cc:1318-1358 | with confidences none or full, an update drops no sign, and a changing one raises a rank |
| SpecificationUpdate.TraceKeepsStorable | ErrorSpecifications/eesi/src/error_blocks_pass.cc:1296-1359 | the store invariant holds after every sequence of static and model updates |
| SpecificationUpdate.ModelDoesNotAffectCertainty | ErrorSpecifications/eesi/src/error_blocks_pass.cc:359-366 | after any interleaving the certain signs are those of the trace without the model's updates |
| SpecificationUpdate.EmptysetUpdate | ErrorSpecifications/eesi/src/error_blocks_pass.cc:1304-1358 | a first delta is stored if and only if it takes, and "no errors" gives way exactly to a delta that takes and is less certain of it |
| SpecificationUpdate.EmptysetExactlyWhen | ErrorSpecifications/eesi/src/error_blocks_pass.cc:1296-1359 | after any trace, "no errors" is certain if and only if some update takes and every one that takes says so with full confidence |
| SpecificationUpdate.ModelAffectsEmptysetExactlyWhen | ErrorSpecifications/eesi/src/error_blocks_pass.cc:457-469 | that is so if and only if it is so without the model's updates and none of those takes |
| SpecificationUpdate.ModelCanAffectEmptyset | ErrorSpecifications/eesi/src/error_blocks_pass.cc:457-469 | a trace on which the model keeps a static "no errors" from being certain |
| BlockConfidence.ConstraintKeeps | ErrorSpecifications/eesi/src/error_blocks_pass.cc:697-1015 | what a constraint contributes is exclusive, and none or full if the specifications are |
| BlockConfidence.BlockKeeps | ErrorSpecifications/eesi/src/error_blocks_pass.cc:626-1018 | so is the confidence of a block |
| BlockClaims.PropagatedClaims | ErrorSpecifications/eesi/src/error_blocks_pass.cc:731-1007 | constant, direct and indirect propagation claim only signs of the constant, or of what the returned value holds or comes from |
| BlockClaims.BlockClaimsOnlyItsValue | ErrorSpecifications/eesi/src/error_blocks_pass.cc:651-1018 | a block without error-only calls claims no sign that the value it must return does not have, and none if there is no such value |
| BlockMeaning.CodesMean | ErrorSpecifications/eesi/src/error_blocks_pass.cc:1445-1511 | codes count for every file or for parts of its name; under the smart heuristic 0 is a success code only of functions known to return codes |
| BlockMeaning.ContributionMeans | ErrorSpecifications/eesi/src/error_blocks_pass.cc:697-1015 | what a constraint contributes, sign by sign, by the value carried, as in the row of `VisitConstraint` |
| BlockMeaning.CarriedCallIsHandedOn | ErrorSpecifications/eesi/src/error_blocks_pass.cc:836-884 | no component exceeds the callee's, nor what the constraint leaves if it is on the callee itself, and each is the lesser of the two unless 0 is dropped |
| BlockMeaning.OwnConstraintBoundsClaim | ErrorSpecifications/eesi/src/error_blocks_pass.cc:851-858 | under a constraint on the returned callee itself no sign outside the constraint is claimed |
| BlockCauses.ContributionIsUnique | ErrorSpecifications/eesi/src/error_blocks_pass.cc:697-1015 | that description leaves one contribution |
| BlockCauses.CallMeans | ErrorSpecifications/eesi/src/error_blocks_pass.cc:1020-1097 | an error-only call claims the signs of the errors that can be returned after it; another call claims no sign |
| BlockCauses.BlockMeans | ErrorSpecifications/eesi/src/error_blocks_pass.cc:626-1018 | a block has a confidence in a sign if and only if a call, a code or a constraint of the block gives it that much |
| BlockCauses.CodesAfterMeans | ErrorSpecifications/eesi/src/error_blocks_pass.cc:661-690 | which functions are known to return codes after a block |
| BlockVisit.VisitErrorOnlyCall | ErrorSpecifications/eesi/src/error_blocks_pass.cc:1054-1096 | the loop over returnable values is the join of what each of them contributes |
| BlockVisit.VisitCallInst | ErrorSpecifications/eesi/src/error_blocks_pass.cc:1020-1097 | a call says "no errors" only through a callee known to have none, or with no name and no result |
| BlockVisit.VisitConstraint | ErrorSpecifications/eesi/src/error_blocks_pass.cc:703-1010 | an uninformative constraint contributes what it leaves; otherwise a known call that is carried contributes its callee's confidence in each sign, cut down to what the constraint leaves if that is on the callee itself, a constant the strongest confidence left in its own signs; 0 only if the smart heuristic does not drop it |
| BlockVisit.CodesDoNotMatter | ErrorSpecifications/eesi/src/error_blocks_pass.cc:870-884 | codes added while earlier constraints were visited do not change what a constraint contributes |
| BlockVisit.VisitConstraints | ErrorSpecifications/eesi/src/error_blocks_pass.cc:697-1015 | so the loop over the constraint map does not depend on its order |
| BlockVisit.VisitBlock | ErrorSpecifications/eesi/src/error_blocks_pass.cc:626-1018 | the block claims a sign exactly as strongly as some cause does, "no errors" exactly as strongly as everything in it allows, and learns codes exactly from codes and from known calls that return them |
| FunctionConfidence.Partition | ErrorSpecifications/eesi/src/error_blocks_pass.cc:522-527 | an unstable in-place partition: a permutation with the emptyset tuples first |
| FunctionConfidence.Combine | ErrorSpecifications/eesi/src/error_blocks_pass.cc:522-543 | a sign has a confidence if and only if some block has it that does not say "no errors" for sure; "no errors" if and only if all blocks say so |
| FunctionConfidence.CombinedIgnoresOrder | ErrorSpecifications/eesi/src/error_blocks_pass.cc:522-543 | the combination does not depend on the order of the blocks |
| FunctionConfidence.CombinedMeans | ErrorSpecifications/eesi/src/error_blocks_pass.cc:529-543 | emptyset if and only if all blocks are, otherwise the componentwise maximum of the others, with no emptyset confidence |
| FunctionConfidence.DeltaMeans | ErrorSpecifications/eesi/src/error_blocks_pass.cc:488-569 | the delta of a function has a sign as strongly as some block claims it, with the codes known at its turn, and not 0 if the smart heuristic drops it |
| FunctionConfidence.CodesBeforeMean | ErrorSpecifications/eesi/src/error_blocks_pass.cc:509-513 | the codes at a block's turn are those known before and what earlier blocks have shown |
| FunctionConfidence.DeltaKeeps | ErrorSpecifications/eesi/src/error_blocks_pass.cc:488-569 | the delta of a function is exclusive, and none or full if the specifications are |
| FunctionConfidence.DeltaIgnoresCodes | ErrorSpecifications/eesi/src/error_blocks_pass.cc:1491-1511 | without the smart-zero heuristic a delta does not depend on which functions return codes |
| ErrorBlocks.Seed | ErrorSpecifications/eesi/src/error_blocks_pass.cc:73-105 | each function has its last specification, with full confidence in exactly its signs, or in "no errors" if it has none |
| ErrorBlocks.StoredKeepsStore | ErrorSpecifications/eesi/src/error_blocks_pass.cc:1296-1359 | an update keeps the store invariant, initial specifications included, and moves only the function it names |
| ErrorBlocks.StoredMeans | ErrorSpecifications/eesi/src/error_blocks_pass.cc:1302-1358 | unresolved, intrinsic, void and initially specified functions are left alone; any other is updated within its return range, or within all signs if it has none |
| ErrorBlocks.UncertainKeepsCertain | ErrorSpecifications/eesi/src/error_blocks_pass.cc:359-366 | an uncertain delta leaves every function's certain signs as they are |
| ErrorBlocks.RunKeepsStore | ErrorSpecifications/eesi/src/error_blocks_pass.cc:488-569 | so does an analysis of a function keep the store invariant |
| ErrorBlocks.EveryHistoryKeepsStore | ErrorSpecifications/eesi/src/error_blocks_pass.cc:1174-1178 | after any sequence of analyses and model updates, in any order, initial specifications are unchanged and every other one is storable |
| ErrorBlocks.RunMakesProgress | ErrorSpecifications/eesi/src/error_blocks_pass.cc:188-197 | in either regime a changing analysis brings its component nearer to its highest rank |
| ErrorBlocks.SettledIsFixpoint | ErrorSpecifications/eesi/src/error_blocks_pass.cc:188-197 | without the smart-zero heuristic, a settled function is at a fixpoint |
| ErrorBlocks.ModelConfidence | ErrorSpecifications/eesi/src/error_blocks_pass.cc:464-468 | the whole number of confidence just below nine tenths of the average |
| ErrorBlocks.AnswersMean | ErrorSpecifications/eesi/src/error_blocks_pass.cc:353-366 | an answer gives its signs, and no others, nine tenths of the average, or half confidence about external functions; one of no signs is half of "no errors" |
| ErrorBlocks.AnswerHasItsSigns | ErrorSpecifications/eesi/src/error_blocks_pass.cc:457-469 | the signs of the answer are exactly those with a confidence, once nine tenths of the average are more than none |
| ErrorBlocks.ThirdPartyActionsFollow | ErrorSpecifications/eesi/src/error_blocks_pass.cc:353-384 | one update, in order, for each answer about an external function that names a sign |
| ErrorBlocks.ExpandActionsFollow | ErrorSpecifications/eesi/src/error_blocks_pass.cc:457-486 | one update, in order, for each answer about a function with a body |
| ErrorBlocks.AnswersAreUncertain | ErrorSpecifications/eesi/src/error_blocks_pass.cc:359-366 | no answer of the model makes a certain delta |
| ErrorBlocks.ErrorBlocksPass.constructor | ErrorSpecifications/eesi/src/error_blocks_pass.cc:73-105 | the store starts as the initial specifications, later ones replacing earlier ones |
| ErrorBlocks.ErrorBlocksPass.Update | ErrorSpecifications/eesi/src/error_blocks_pass.cc:1296-1359 | leaves all other functions alone, and this one too if it is unresolved, intrinsic, void or initially specified; otherwise stores what the update reaches within the return range, cut down if that is the whole range; reports whether the store changed |
| ErrorBlocks.ErrorBlocksPass.VisitBlocks | ErrorSpecifications/eesi/src/error_blocks_pass.cc:509-513 | visits the blocks in order, each with the codes found so far |
| ErrorBlocks.ErrorBlocksPass.RunOnFunction | ErrorSpecifications/eesi/src/error_blocks_pass.cc:488-569 | updates the function with its delta, in the sense of the row of `Update`; an external function is left alone |
| ErrorBlocks.ErrorBlocksPass.RunRound | ErrorSpecifications/eesi/src/error_blocks_pass.cc:190-195 | a round without change has seen every member settle |
| ErrorBlocks.ErrorBlocksPass.RunMember | ErrorSpecifications/eesi/src/error_blocks_pass.cc:192-195 | a changing analysis of a member is progress; an unchanging one leaves it settled |
| ErrorBlocks.ErrorBlocksPass.RunOnComponent | ErrorSpecifications/eesi/src/error_blocks_pass.cc:188-197 | in either regime the loop ends, within 200 or 4 times the component's size plus 1 rounds, with every member settled; its effect is that many rounds over the members |
| ErrorBlocks.ErrorBlocksPass.LlmExpandThirdParty | ErrorSpecifications/eesi/src/error_blocks_pass.cc:335-385 | applies every answer but those of "no signs", in order, keeping the store invariant and the certain signs |
| ErrorBlocks.ErrorBlocksPass.CountConfidences | ErrorSpecifications/eesi/src/error_blocks_pass.cc:396-450 | how many confidences above none the callees have together, and the last one of some callee that has one |
| ErrorBlocks.ErrorBlocksPass.AverageConfidence | ErrorSpecifications/eesi/src/error_blocks_pass.cc:396-453 | none if no callee has a confidence; otherwise the last confidence of some callee, in the order < 0, == 0 and > 0, divided by the number of pairs of a callee and a sign that have one, cut to a whole number |
| ErrorBlocks.ErrorBlocksPass.LlmExpand | ErrorSpecifications/eesi/src/error_blocks_pass.cc:387-486 | applies every answer, in order, at the confidence that its callees' last one divided by their number gives, keeping the store invariant and the certain signs |
| ErrorBlocks.ErrorBlocksPass.Unresolved | ErrorSpecifications/eesi/src/error_blocks_pass.cc:201-213 | selects exactly the members without codes and without a specification |
| ErrorBlocks.ErrorBlocksPass.RunStage | ErrorSpecifications/eesi/src/error_blocks_pass.cc:181-235 | one component: its rounds over the analysed members, then its expansions, none without a model |
| ErrorBlocks.ErrorBlocksPass.RunOnModule | ErrorSpecifications/eesi/src/error_blocks_pass.cc:140-235 | the traversal is the answers about external functions, then component by component its rounds and its expansions; the state is the one this history leads to |
| ErrorBlocks.ErrorBlocksPass.GetSpecifications | ErrorSpecifications/eesi/src/error_blocks_pass.cc:1152-1238 | the response has every stored specification, and the assertion on initial ones holds |
| RecursiveExample.ExampleIsAnInput | ErrorSpecifications/eesi/src/error_blocks_pass.cc:181-197 | a function that calls itself, with the exact returned values, facts that meet the equations of the other two passes with nothing added where blocks meet, and the one range the return-range pass can give it |
| RecursionAlternates.AnalysisAlternates | ErrorSpecifications/eesi/src/error_blocks_pass.cc:188-197 | over that function, after the model's answer about its callee, every further round of the traversal changes the store, back and forth between two specifications |
| LatticeHelper.LatticeElementFromConfidence | ErrorSpecifications/cli/eesi/lattice_helper.py:16-45 | the answer is the element of exactly the signs that reach the threshold, unless none does and the emptyset confidence does; it agrees with the fold of joins of the C++ conversion |
| LatticeHelper.EncodingOfAtoms | ErrorSpecifications/cli/eesi/lattice_helper.py:5-14 | the encoding table has every code, at the element with those signs |
| LatticeHelper.FoldIsFromAtoms | ErrorSpecifications/eesi/src/confidence_lattice.cc:396-424 | the fold of joins contains exactly the signs that reach the threshold |
| LatticeHelper.LowerThresholdEnlarges | ErrorSpecifications/eesi/src/confidence_lattice.cc:396-424 | lowering the threshold only adds integers to the meaning |
| Operations.OperationsServiceImpl.UpdateOperation | ErrorSpecifications/common/src/operations_service.cc:5-20 | the whole operation is stored and all other entries stay, unless a finished entry meets an unfinished update, which changes nothing |
| Operations.OperationsServiceImpl.GetOperation | ErrorSpecifications/common/src/operations_service.cc:22-39 | reading reports a missing name as an error and removes a finished entry |
| Operations.DoneIsNeverUndone | ErrorSpecifications/common/src/operations_service.cc:9-14 | in every interleaving a finished operation stays finished until it is read |
| Operations.ReadOnce | ErrorSpecifications/common/src/operations_service.cc:33-36 | once read it is gone, unless the server starts one of the same name |
| Operations.TaskServer.Submit | ErrorSpecifications/bitcode/src/bitcode_server.cc:398-412 | an accepted request is in the table, unfinished, before its task runs |
| Operations.TaskServer.Finish | ErrorSpecifications/bitcode/src/bitcode_server.cc:80-85 | each task that finishes leaves its own result, finished, under its own name |
| Operations.TaskServer.Run | ErrorSpecifications/common/src/operations_service.cc:5-39 | whatever tasks and other clients do between two calls, the client's names stay and its results stay |
| WaitForOperations.SubmitRequests | ErrorSpecifications/cli/operations/wait.py:55-74 | sends until the limit; pending, waiting and finished stay a partition |
| WaitForOperations.PollOne | ErrorSpecifications/cli/operations/wait.py:79-91 | a poll never misses; an answer that is done is what its own task finished with, one that is not comes from a task that was running |
| WaitForOperations.PollTasks | ErrorSpecifications/cli/operations/wait.py:76-91 | each finished operation is notified once, with the result its own task finished with |
| WaitForOperations.WorkShrinks | ErrorSpecifications/cli/operations/wait.py:93-97 | a pass that sends nothing is nearer to its end |
| WaitForOperations.WaitForOperations | ErrorSpecifications/cli/operations/wait.py:30-99 | every request is notified exactly once, with the result its own task finished with; the limit is kept at every submission, no result of the client stays behind, and the wait ends, whatever other clients do |

## Left out

- The language model, its prompts and its server: an answer is any map from names to signs.
- Servers, databases, file and bitcode reading, argument parsing, logging, statistics and message packing.
- PHI nodes: the input is register-demoted; the return-propagation pass does not copy its input there.
- Parallelism over functions: the passes treat functions independently.
- The checker, the function-counting passes, chunked download and reading of domain knowledge.
- `JoinOnVector`, `MeetOnVector`, `KeepHighest`, the meets of dataflow facts and `RemoveFromErrorSpecification`: not used by the passes.
- Bookkeeping that nothing else reads: sources of inference, doomed functions, error return values and the map of returned calls.
- RangeSoundness.RunSound: speaks of functions whose memory accesses go to slots, unless the address is never returnable; whose slot addresses are not data; and in which the result of a truncation is not returnable, since truncation copies a sign unchanged. A test that narrows a slot is signed or for equality, is not an order test against null, and looks at a value that is still in its slot: loaded from it, or stored to it just before and not a constant (`TestLimits` has a run beyond each of these limits on tests and on truncation). A run that reads a slot before storing to it has no result, and integers are not bounded.
- ReturnPropagation.ProvenanceIsSound: assumes that no store goes to an integer constant, a sign-extended integer or a cast integer constant, and what `ReturnPropagation.ProvenanceIsSoundExactly` shows to be needed.
- ReturnPropagation.ProvenanceIsSoundExactly: origins follow slots and registers, and casts that always keep the value. Memory behind pointers is not tracked; a zero extension, which keeps only non-negative values, and instructions that are not interpreted, such as an integer-to-pointer cast, count as giving new values, though the pass copies no entry there either.
- ReturnConstraints.ReturnConstraintsPass.Run: states equations, their end and where each constraint comes from, not what the constraints mean for an execution; the pass merges call sites by name and narrows every function that may be in a tested value. It visits the names in a tested value rather than the calls. As for the return ranges, registers are local to their blocks, so a test is never the first instruction of one.
- ErrorBlocks.ErrorBlocksPass.RunOnComponent: a loop is run only in one of the two regimes, since it need not end otherwise; with the smart-zero heuristic on, a member is settled for the codes known at its turn.
- ErrorBlocks.ErrorBlocksPass.RunOnModule: says nothing about the certain signs of a whole run, since direct propagation hands on a callee's confidence under a constraint that is itself uncertain.
- ErrorBlocks.ModelConfidence: computes with real numbers, so the rounding of floats is not modelled.
- BlockVisit.VisitCallInst: which calls are error-only, after matching required arguments, and which have an integer or pointer result are inputs; a function lies in one source file.
- ErrorBlocks.ErrorBlocksPass.RunOnFunction: there is one LLVM function per source name, so the guard against a second one is not modelled.
- Operations.TaskServer.Sleep: that every task ends at some time is an assumption: each has an arbitrary finite number of sleeps of the client that it can outlast.
- WaitForOperations.WaitForOperations: names of operations are distinct, other clients use other names, and at least one task may be outstanding; the source builds names from a time stamp and checks none of this.
