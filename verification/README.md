# A verified model of PQTrust-Agent

PQTrust-Agent decides which trust profile two agents use for a session, and
keeps the evidence on which the decision rests. This project models both chains
in Dafny and proves what they promise.

**The decision chain.** `Assurance` and `PolicyMapper` derive a requirement from
the rules that match a task. `PolicyEncoding` and `PolicyCompiler` enumerate the
profiles that meet it, check every candidate again on its own and shrink an
explanation for each rejected one. `ConflictConstraints`, `UnsatCore` and
`Remediation` explain why no common profile exists. `CostModel`,
`Normalization`, `Regret` and `Selector` choose one when some do.

**The evidence chain.** `Prng`, `Producer`, `Utf8` and `JsonOutput` are the
native benches; `RawRecords` is the validator that has to accept what they
write; `Pairing`, `PairedRatios` and `Descriptive` turn the records into paired
cost ratios. `Schedule`, `CampaignLog` and `CampaignRuns` are the campaign runner
with its append-only log, and `Registration` the swap of its registration.
`SignTest` and `Holm` are the tests applied to its results.
`Sorting`, `Counting` and `Wrappers` are shared by all of them.

## How the model reads the program

- Z3 is an oracle with its finite-domain meaning. It returns any satisfying
  index, or any unsatisfiable subset of the tracked labels as a core. With
  `mayGiveUp` it may also answer `unknown`; the compiler then raises, and the
  core search goes on as if the answer were satisfiable, as the program does.
- A crash may come between any two steps of a campaign run. A step that writes
  or appends to one file either happens or does not. Where a run crashes, and
  what each measurement reports, are parameters: a `Plan`. A measurement is any
  row that carries the scheduled identifier, or a failure. Creation and
  finalization have five steps each.
- Hashes stand for the values that are hashed: a directory created under one
  schedule hash is a directory created under one schedule, and a checksum file
  holds what it was taken of.
- Decimals and floats are exact reals, C's `uint64_t` is `bv64` and its bytes
  are `bv8`. Identifiers are compared code point by code point.
- An observation identifier is the tuple of the fields its text is made of.
- Pydantic validators that run before the modelled code are preconditions:
  catalogue identifiers, rule identifiers and the constraint identifiers of a
  certificate are distinct, preference weights are not negative and add up to one.

## What the proofs found

- `compute_ius` needs at most `1 + (m-r)(r+1) + r` solver calls from a core of
  `m` to a result of `r`, because every restart stops at the first constraint
  that can still go, and at most `r` critical ones come before it.
- `verify_ius` records an error for repeated identifiers but can never return
  it: building the model raises first.
- The shrunk core of a rejected profile is always one category, the last
  violated one in canonical order.
- Any one cause of a rejected conflict set frees its own profiles: an
  irreducible set is never larger than the number of profiles.
- The cap of the sign test at one acts only on an exact tie. The p-value is one
  exactly when the two sides differ by at most one.
- Holm's adjusted values and the step-down procedure agree at every level below
  one; from one on they may differ.
- A campaign directory whose creation crashed before its manifest was written can
  never be run again, and one whose schedule copy is missing can never be
  completed, by any number of resumed runs (`src/pqtrust_agent/campaigns/stage8.py:470-503`
  checks only the manifest). Such directories do arise: a creation that gets at
  least one and at most three of its five steps done leaves one. After any other
  creation crash a smooth run completes (`CampaignRuns.RunAfterCreationCrash`).
- A completed run may keep a stale `completed_observations.json`. If a crash
  came between the last row and its index, the resume has nothing left to
  append and the index is not written again. The registered campaign itself can
  end so (`CampaignRuns.RegisteredCampaignWithStaleIndex`). A run that completes
  an existing directory leaves the index current exactly when something was still
  missing at its start or the index was current then (`CampaignLog.RunDir.RunCampaign`).
- Replacing a registration does not always leave the old or the new one. If the
  first rename fails, the clean-up removes the live directory
  (`src/pqtrust_agent/campaigns/stage8.py:330-335`, `Registration.LostToFailedRename`).
  No registration is in place exactly in that case, if the clean-up itself works, and
  when both the second rename and moving the backup back fail; then the old one
  survives only in a backup whose removal fails as well. After a kill between the
  renames it is in the backup only, which the next swap removes first.
- Two crashes while finalizing can block a campaign for ever although every row is
  good. A crash before the last rename leaves `.RUN_COMPLETE.tmp`; if the next run
  to get to the file manifest, which then lists that file, crashes before its
  checksum, the old checksum refuses every later run. Exactly such sequences of
  crashes do it (`CampaignRuns.RunAfterFinishCrashes`); two of them on the registered
  campaign are enough (`CampaignRuns.RegisteredCampaignSpoiled`). The checksums of
  the raw files always match.
- If a marker was left and the campaign completes after all, its file manifest lists
  a file that is gone (`CampaignRuns.RunSmoothly`).
- The two directions of a paired ratio are estimated over exactly two runs. They are
  exact reciprocals exactly when both runs have the same median and the replicate
  medians of each are tight: no two different ones are averaged, and most of the
  other direction's are at most the inverse median. Ratios of two and four give 3
  one way and 3/8 the other (`PairedRatios.DirectionsThatDoNotInvert`).
- The escapes for control bytes in `json_escaped` are unreachable through
  `json_string_field`, whose check refuses such strings; they are modelled and
  read back all the same.

## Model

| member | source | states |
|---|---|---|
| `Assurance.DominanceAntisymmetric` | src/pqtrust_agent/assurance/order.py:34-54 | two assurance vectors that dominate each other are equal |
| `Assurance.JoinMeetAreBounds` | src/pqtrust_agent/assurance/order.py:69-120 | join is the least upper bound and meet the greatest lower bound of the dominance order, with both absorption laws |
| `PolicyMapper.ApplyIsLeastStrengthening` | src/pqtrust_agent/models/policy.py:186-203 | what a contribution makes of a requirement is dominated by exactly the vectors that dominate the old requirement and meet every part the contribution sets |
| `PolicyMapper.DeriveRequirement` | src/pqtrust_agent/policy/mapper.py:11-41 | the fold over the sorted rules returns the least requirement above the base and every matched contribution, and the matched rule identifiers in sorted order |
| `PolicyMapper.RequirementIgnoresRuleOrder` | src/pqtrust_agent/policy/mapper.py:14-19 | two policies with the same rules in any order derive the same requirement |
| `PolicyMapper.RequirementIsMonotone` | src/pqtrust_agent/models/policy.py:94-128 | a component-wise higher task in the same network and organisation class derives a dominating requirement |
| `PolicyMapper.NeighborsAreAbove` | src/pqtrust_agent/policy/validation.py:113-141 | every neighbour the grid check visits is a higher task than the point it starts from |
| `PolicyMapper.ValidateMapperMonotonicity` | src/pqtrust_agent/policy/validation.py:60-147 | the grid check returns no error, for every policy |
| `PolicyEncoding.CanonicalCategories` | src/pqtrust_agent/policy/compiler.py:53-62 | the canonical list has every category but the resource bound, each at its own rank |
| `PolicyEncoding.IndexedBool` | src/pqtrust_agent/policy/z3_encoding.py:40-50 | the disjunction over indexes holds of an index exactly when it is in range and its profile has the property |
| `PolicyEncoding.EncodingMeansMeets` | src/pqtrust_agent/policy/z3_encoding.py:53-142 | the expression asserted for a category holds of an index exactly when that profile meets the category |
| `PolicyEncoding.ReportedIsNotMet` | src/pqtrust_agent/policy/z3_encoding.py:145-196 | the direct check of a category reports a profile exactly when the profile does not meet it |
| `PolicyEncoding.ProfileViolatedCategories` | src/pqtrust_agent/policy/z3_encoding.py:145-196 | the appending checks return the categories not met, in canonical order |
| `PolicyEncoding.NothingViolatedIffSafe` | src/pqtrust_agent/policy/z3_encoding.py:145-196 | a profile violates no category exactly when it is safe |
| `PolicyEncoding.Solver.Add` | src/pqtrust_agent/policy/compiler.py:39-41 | adding a clause appends it to what the solver holds |
| `PolicyEncoding.Solver.Check` | src/pqtrust_agent/policy/compiler.py:44-50 | the oracle: a satisfying index, or a promise that no index satisfies the assumed labels however the others are set |
| `PolicyCompiler.ValidateCompilationInputs` | src/pqtrust_agent/policy/validation.py:26-57 | inputs are accepted exactly when agent, catalogue version, profile identifiers and evaluation time fit together, and the time comes back in UTC |
| `PolicyCompiler.SessionFindsSafe` | src/pqtrust_agent/policy/compiler.py:135-150 | after blocking the indexes found so far, the satisfying indexes are the safe ones not yet found |
| `PolicyCompiler.EnumerateSafe` | src/pqtrust_agent/policy/compiler.py:139-150 | the blocking-clause loop ends for every choice of the solver and has found every safe index once and no other |
| `PolicyCompiler.CandidateStatus` | src/pqtrust_agent/policy/compiler.py:95-114 | the check of a single candidate answers satisfiable only for safe profiles and unsatisfiable only for others |
| `PolicyCompiler.MinimizeCore` | src/pqtrust_agent/policy/compiler.py:65-92 | deletion over the violated categories leaves the last violated one in canonical order |
| `PolicyCompiler.IrreducibleConflictsAreSingle` | src/pqtrust_agent/policy/compiler.py:65-92 | for a fixed profile the irreducible conflicts are exactly the single violated categories |
| `PolicyCompiler.DecideAll` | src/pqtrust_agent/policy/compiler.py:152-190 | the decisions agree with safety profile by profile, violated categories and core included, and the accepted positions are the safe indexes in order |
| `PolicyCompiler.EnumerationMatches` | src/pqtrust_agent/policy/compiler.py:192-193 | the sorted enumeration equals the independently accepted positions |
| `PolicyCompiler.CompileLocalPolicy` | src/pqtrust_agent/policy/compiler.py:117-230 | on valid inputs compilation fails only if the solver gives up, so both internal errors are unreachable; the safe identifiers are those of the profiles that violate nothing under the least requirement |
| `PolicyCompiler.SafeDominatesRequirement` | src/pqtrust_agent/models/profile.py:64-71 | the assurance of every consistent safe profile dominates the requirement |
| `PolicyCompiler.SafeSetIsAntitone` | src/pqtrust_agent/policy/compiler.py:127-150 | raising a task never adds a safe profile |
| `ConflictConstraints.FewerConstraintsStaySatisfiable` | src/pqtrust_agent/negotiation/conflict_constraints.py:132-148 | dropping constraints keeps a set satisfiable |
| `ConflictConstraints.ScopeToExpression` | src/pqtrust_agent/negotiation/conflict_constraints.py:114-119 | the scope expression holds of an index exactly when its profile is in scope, the empty scope never |
| `ConflictConstraints.BuildFeasibilityModel` | src/pqtrust_agent/negotiation/conflict_constraints.py:101-129 | a model is built exactly when identifiers are distinct and gives every constraint its meaning; otherwise the first repeated identifier is reported |
| `ConflictConstraints.CheckModel` | src/pqtrust_agent/negotiation/conflict_constraints.py:132-148 | answers about the loaded solver are answers about profiles, and a core selects an unsatisfiable subset of the constraints |
| `ConflictConstraints.SatisfiableProfileIds` | src/pqtrust_agent/negotiation/conflict_constraints.py:151-163 | pinning each index in turn lists exactly the profiles in every scope, in order |
| `ConflictConstraints.SomeProfileIffSatisfiable` | src/pqtrust_agent/negotiation/conflict_constraints.py:151-163 | a constraint set is satisfiable exactly when some profile is in every scope |
| `UnsatCore.CriticalStaysCritical` | src/pqtrust_agent/negotiation/unsat_core.py:54-68 | constraints found critical stay critical when a later one is deleted |
| `UnsatCore.RestartMatchesSweep` | src/pqtrust_agent/negotiation/unsat_core.py:54-68 | deleting and restarting leaves the outcome of one forward sweep unchanged, and at most as many critical constraints come first as the sweep keeps |
| `UnsatCore.DeleteFirstPossible` | src/pqtrust_agent/negotiation/unsat_core.py:56-67 | one round removes one constraint and keeps the sweep's outcome, or proves every constraint critical, within a bound on calls |
| `UnsatCore.ShrinkCore` | src/pqtrust_agent/negotiation/unsat_core.py:54-68 | the restarting loop ends with the irreducible set that one forward sweep over the core gives, with bounds on its solver calls |
| `UnsatCore.ComputeIus` | src/pqtrust_agent/negotiation/unsat_core.py:33-74 | for every core the solver may return: unsatisfiable sets give an irreducible unsatisfiable subset equal to the forward sweep, with calls between `1+m` and `1+(m-r)(r+1)+r`; satisfiable or ill-labelled ones the matching error |
| `UnsatCore.VerifyIus` | src/pqtrust_agent/negotiation/unsat_core.py:77-100 | no errors exactly when the set is irreducible, unsatisfiable and known; each error is reported exactly when its cause holds, unknown identifiers sorted |
| `UnsatCore.IusIsSubsetMinimal` | src/pqtrust_agent/negotiation/unsat_core.py:54-68 | every proper subset of an irreducible set is satisfiable, not only single deletions |
| `UnsatCore.FreedProfilesAreDisjoint` | src/pqtrust_agent/negotiation/unsat_core.py:54-68 | removing different members frees nonempty, disjoint sets of profiles outside the removed scope |
| `UnsatCore.IusSizeBound` | src/pqtrust_agent/negotiation/unsat_core.py:54-74 | an irreducible unsatisfiable set has at most as many members as there are profiles |
| `UnsatCore.CertifyAndVerify` | src/pqtrust_agent/negotiation/unsat_core.py:33-100 | what `compute_ius` returns passes `verify_ius` without errors |
| `Remediation.BuildRemediationReport` | src/pqtrust_agent/negotiation/remediation.py:41-81 | every evaluation lists only profiles its removal frees, and all of them unless the solver gave up; a constraint is listed as sufficient only if it may be relaxed and its removal leaves a profile, and exactly then unless the solver gave up; for an irreducible conflict the sufficient ones are then all negotiable relaxable ones |
| `Remediation.RelaxationsFreeDisjointProfiles` | src/pqtrust_agent/negotiation/remediation.py:50-60 | no profile is freed by two different relaxations, and a freed profile lies outside the relaxed scope |
| `CostModel.Dominates` | src/pqtrust_agent/negotiation/pareto.py:29-41 | the early-returning comparison decides Pareto dominance and lists the strictly better metrics |
| `CostModel.ParetoFilter` | src/pqtrust_agent/negotiation/pareto.py:44-71 | the frontier has exactly the undominated candidates in order; every removed one is explained by all its dominators |
| `CostModel.FrontierDominator` | src/pqtrust_agent/negotiation/pareto.py:44-71 | every dominated candidate is dominated by one on the frontier |
| `Normalization.ComputeGlobalAnchors` | src/pqtrust_agent/negotiation/normalization.py:23-40 | anchors exist exactly when there is evidence and every metric varies, and enclose every vector; the error names a metric that does not vary |
| `Normalization.NormalizeVector` | src/pqtrust_agent/negotiation/normalization.py:43-57 | normalization succeeds exactly for enclosed vectors and is the affine map that sends the anchors to zero and one |
| `Normalization.NormalizationKeepsOrder` | src/pqtrust_agent/negotiation/normalization.py:43-57 | normalizing keeps the order of every metric, in both directions |
| `Regret.LeastCost` | src/pqtrust_agent/negotiation/regret.py:51-70 | the least weighted cost over the candidates is found, attained and not exceeded |
| `Regret.ComputeRegretRows` | src/pqtrust_agent/negotiation/regret.py:51-93 | a row per candidate with its regrets against the two least costs; neither internal error can occur |
| `Regret.KeyOrder` | src/pqtrust_agent/negotiation/regret.py:96-111 | the five-level key is a total order without ties between different keys |
| `Regret.MinimaxRegretSelect` | src/pqtrust_agent/negotiation/regret.py:96-119 | the choice has the least key of all rows, and the trace is the rows in key order |
| `Regret.ChoiceIsUnique` | src/pqtrust_agent/negotiation/regret.py:96-119 | there is only one choice |
| `Selector.CommonSafeSet` | src/pqtrust_agent/negotiation/selector.py:28-39 | exactly the profiles of the catalogue that are in both safe sets, each once |
| `Selector.CommonKeepsCatalogOrder` | src/pqtrust_agent/negotiation/selector.py:35-39 | two common profiles stand in the order in which the catalogue lists them |
| `Selector.DominationSurvivesNormalization` | src/pqtrust_agent/negotiation/pareto.py:29-41 | filtering on raw and on normalized costs comes to the same |
| `Selector.FrontierKeepsMinimum` | src/pqtrust_agent/negotiation/regret.py:51-70 | filtering changes neither agent's least cost |
| `Selector.DominatorHasSmallerKey` | src/pqtrust_agent/negotiation/regret.py:96-111 | a dominating profile has a strictly smaller selection key |
| `Selector.FilterPreservesChoice` | src/pqtrust_agent/negotiation/selector.py:117-157 | a profile is the choice on the Pareto frontier exactly when it is the choice among all common safe profiles, for all non-negative weights |
| `Selector.RankFrontier` | src/pqtrust_agent/negotiation/selector.py:146-153 | filtering, ranking and choosing yields the choice among all candidates |
| `Selector.SelectFromCommon` | src/pqtrust_agent/negotiation/selector.py:135-157 | with computed anchors selection succeeds exactly when every candidate is measured and every metric varies; with given anchors exactly when every candidate is measured and its last vector lies between them; a missing measurement is reported exactly when there is one, and no other error but the anchors' own is possible |
| `Selector.SelectFromSafeSet` | src/pqtrust_agent/negotiation/selector.py:117-203 | the selection is the minimax-regret choice among all common safe profiles; an empty common set is refused, and otherwise selection succeeds exactly when the evidence is usable, with computed and with given anchors |
| `Selector.RegretBounds` | src/pqtrust_agent/negotiation/regret.py:51-93 | every maximum regret is in [0,1] and every total regret in [0,2] |
| `Selector.ZeroRegretIffJointOptimum` | src/pqtrust_agent/negotiation/regret.py:96-119 | the choice has zero regret exactly when one profile is cheapest for both agents |
| `Selector.ChoiceIsSymmetric` | src/pqtrust_agent/negotiation/regret.py:51-119 | swapping the two preferences changes nothing |
| `Selector.ChoiceIgnoresListing` | src/pqtrust_agent/negotiation/regret.py:51-119 | the order of the candidates changes nothing |
| `Selector.BaselineSelectors` | src/pqtrust_agent/negotiation/selector.py:267-310 | each baseline has the least value of its own criterion and, among those, the least identifier; the choice's maximum regret is at most that of every baseline |
| `Prng.StateRoundTrip` | native/src/bench_common.c:23-31 | the state step can be undone, so it is a bijection on 64-bit states |
| `Prng.NonzeroStaysNonzero` | native/src/bench_common.c:23-31 | a state is zero after a step exactly when it was before |
| `Prng.Rng.Next` | native/src/bench_common.c:23-31 | a draw replaces the state by its successor, never reaching or leaving zero |
| `Prng.ShuffledPermutes` | native/src/bench_common.c:33-44 | the shuffle permutes its input whatever the generator draws |
| `Prng.Shuffle` | native/src/bench_common.c:33-44 | the in-place loop leaves the array as the Fisher-Yates pass from the current state says, with every index in bounds |
| `Producer.MldsaCasesAreThePairs` | native/src/mldsa_bench.c:349-355 | dividing and reducing the case number enumerates every algorithm and size, each once when sizes are distinct |
| `Producer.ShuffledOrder` | native/src/tls_handshake_bench.c:457-460 | the order of a block runs every listed case as often as it is listed |
| `Producer.EmitBlock` | native/src/tls_handshake_bench.c:461-469 | a block's records carry consecutive sequence numbers and follow the shuffled order; the exit flag tells of any failure |
| `Producer.RunBench` | native/src/tls_handshake_bench.c:420-489 | a bench that starts writes block after block for any seed; it exits with zero exactly when it starts, every record succeeded, and the output is closed and described |
| `Producer.EmittedFields` | native/src/mldsa_bench.c:340-371 | sequence numbers run without a gap over all blocks, and every record lies in a measured block |
| `Producer.EmittedBlocks` | native/src/mldsa_bench.c:340-371 | every block holds every listed case as often as it is listed |
| `Producer.ProducerMeetsValidator` | src/pqtrust_agent/metrics/validation.py:72-147 | the validator's counting checks accept what a bench writes exactly when there is a block and no case is listed twice |
| `RawRecords.ValidateSequences` | src/pqtrust_agent/metrics/validation.py:58-69 | no error exactly when the sequence numbers are those from zero on, each once |
| `RawRecords.BlockErrors` | src/pqtrust_agent/metrics/validation.py:85-90 | one error for exactly the blocks whose cases differ from the expected ones as a multiset |
| `RawRecords.ValidateRecords` | src/pqtrust_agent/metrics/validation.py:119-156 | no error exactly when count, sequences, cases and blocks are right and every record succeeded |
| `RawRecords.NoRecordOutsideBlocks` | src/pqtrust_agent/metrics/validation.py:78-90 | right counts leave no record outside the measured blocks, though no check looks for one |
| `RawRecords.EachPairOnce` | src/pqtrust_agent/metrics/validation.py:78-90 | right counts record every block and case exactly once |
| `Pairing.GroupByBlock` | scripts/analyze_paired_crypto_costs.py:118-121 | grouping keeps the records of every block in file order and loses none |
| `Pairing.PairBlock` | scripts/analyze_paired_crypto_costs.py:122-141 | a block is paired exactly when it has one successful record per group, each filed under its profile; the error tells balance from success |
| `Pairing.PairTlsBlocks` | scripts/analyze_paired_crypto_costs.py:108-143 | pairing succeeds exactly when the groups match and every block can be paired, and yields every block complete |
| `Pairing.ValidatedBlocksArePairable` | scripts/analyze_paired_crypto_costs.py:912-913 | after a clean validation with successful records pairing cannot fail |
| `Pairing.PairingIsLossless` | scripts/analyze_paired_crypto_costs.py:108-143 | after a clean validation every record is the one filed under its block and profile |
| `Utf8.GrammarIsEncoding` | native/src/json_output.c:15-51 | the byte ranges of section 4 of RFC 3629 describe exactly the encodings of scalar values by its section 3 |
| `Utf8.CheckCharacter` | native/src/json_output.c:15-51 | the masks and comparisons accept exactly the well-formed characters and never look past a NUL |
| `Utf8.JsonStringIsValid` | native/src/json_output.c:5-54 | a null pointer is accepted, a string exactly when it is well-formed and has no byte below 0x20; nothing past the terminator is read |
| `JsonOutput.JsonEscaped` | native/src/json_output.c:56-92 | the loop writes the quoted, escaped text |
| `JsonOutput.EscapeReadsBack` | native/src/json_output.c:60-89 | every single byte is read back from its escape by section 7 of RFC 8259 |
| `JsonOutput.QuotedReadsBack` | native/src/json_output.c:56-92 | reading a written string returns the original bytes and stops at its closing quote, whatever follows |
| `JsonOutput.JsonStringField` | native/src/json_output.c:104-123 | a field is written whole exactly when name and value are valid, otherwise neither stream nor flag changes; a null value is written empty |
| `JsonOutput.FieldReadsBack` | native/src/json_output.c:113-123 | a written field is read back as its name and its value |
| `Schedule.Shuffle` | src/pqtrust_agent/campaigns/stage8.py:186-187 | shuffling permutes the methods whatever is drawn |
| `Schedule.ScheduleBlock` | src/pqtrust_agent/campaigns/stage8.py:184-207 | one block schedules every scenario, method and repetition of the block as often as the names are listed, and balances them |
| `Schedule.DeterministicSchedule` | src/pqtrust_agent/campaigns/stage8.py:169-271 | whatever the shuffles, each identifier is scheduled as often as the design says, entries are numbered consecutively, every kind has its size and every block is balanced |
| `Schedule.IdsAreDistinctIffNamesAre` | src/pqtrust_agent/campaigns/stage8.py:182-259 | scheduled identifiers are distinct exactly when the participating name lists have no repetitions |
| `CampaignLog.RunDir.CompletedObservationIds` | src/pqtrust_agent/campaigns/stage8.py:422-430 | the raw files together hold exactly the log, and no duplicate is ever found |
| `CampaignLog.RunDir.AppendObservation` | src/pqtrust_agent/campaigns/stage8.py:433-444 | an invalid row and a recorded identifier are refused and change nothing; otherwise the row is appended to the file of its kind unless the append crashes before it, and the index is brought up to date unless it crashes at all |
| `CampaignLog.RunDir.PrepareRunDir` | src/pqtrust_agent/campaigns/stage8.py:455-504 | creation leaves exactly the files of the steps it got done; a directory that exists is left alone and answers by completeness, manifest and registration |
| `CampaignLog.RunDir.RecordMissing` | src/pqtrust_agent/campaigns/stage8.py:649-669 | the loop gets exactly to the first position that does not go well and answers as it does; the log then has what it had and what stands before that position, in schedule order; rows are only appended, and only measured ones; the index misses just a row that the run crashed after |
| `CampaignLog.FreshLoop` | src/pqtrust_agent/campaigns/stage8.py:649-658 | a loop that does not resume is refused at its first position when anything is recorded, and appends nothing |
| `CampaignLog.RunDir.RunCampaign` | src/pqtrust_agent/campaigns/stage8.py:636-671 | every run keeps the log a prefix of the schedule without repetitions and only extends it; it reaches the loop exactly when its directory opens, and then does what the loop and the finalization say; only a successful run marks completion; a completed run leaves the index current exactly when something was missing or the index was current before; a spoiled file manifest stays and no run completes over it; a resume is never refused for recorded rows; a run that starts on a directory with its schedule copy is only refused by a measurement, an append or the validation |
| `CampaignLog.NextScheduled` | src/pqtrust_agent/campaigns/stage8.py:654-658 | at every position the scheduled identifier is in the log or is the one the log needs next |
| `CampaignLog.Validate` | src/pqtrust_agent/campaigns/stage8.py:802-854 | no error exactly when rows are distinct, scheduled, complete, valid, accepted, balanced, of one category per scenario, and as many of each kind as registered |
| `CampaignLog.RowErrors` | src/pqtrust_agent/campaigns/stage8.py:810-827 | missing, unscheduled and duplicate identifiers are each reported exactly when there are any |
| `CampaignLog.FrozenLoop` | src/pqtrust_agent/campaigns/stage8.py:649-658 | a loop over a whole log changes no file, so what checksums cover stays as it is |
| `CampaignLog.RunDir.ValidateRun` | src/pqtrust_agent/campaigns/stage8.py:802-866 | without its design, environment or schedule copy a run is refused; otherwise no error exactly when the rows pass and the file manifest is the one its checksum was taken of |
| `CampaignLog.RunDir.WriteSeal` | src/pqtrust_agent/campaigns/stage8.py:756-767 | each crash point leaves exactly the files of the steps done: raw checksums, file manifest, its checksum, temporary marker, marker |
| `CampaignLog.RunDir.FinalizeRun` | src/pqtrust_agent/campaigns/stage8.py:752-767 | a run is refused for its files or its environment, and otherwise exactly when it does not validate; a run that validates gets as many of the five steps done as it does not crash before, and is complete after the last; checksums of raw files match ever after |
| `CampaignRuns.CompleteMeansWhole` | src/pqtrust_agent/campaigns/stage8.py:752-767 | a completed run recorded exactly its schedule in order, split over the files by kind, with the registered counts |
| `CampaignRuns.CompleteFitsDesign` | src/pqtrust_agent/campaigns/stage8.py:828-831 | a run can only complete if the design has the registered number of observations of every kind |
| `CampaignRuns.CompleteStaysValid` | src/pqtrust_agent/campaigns/stage8.py:802-866 | the validator accepts a completed run again, its checksums included |
| `CampaignRuns.RunRepeatedly` | src/pqtrust_agent/campaigns/stage8.py:636-671 | over any sequence of runs: the log only grows and never repeats, at most one run completes and none runs after it, completion means the whole schedule; a directory left without its schedule copy or with a spoiled file manifest never completes, and one left without its manifest refuses every run |
| `CampaignRuns.GoodRowsPass` | src/pqtrust_agent/campaigns/stage8.py:802-854 | good rows of exactly the scheduled identifiers pass the validator, block balance included |
| `CampaignRuns.RunToFinish` | src/pqtrust_agent/campaigns/stage8.py:636-671 | a run that measures good rows and gets to its finalization is refused for a missing schedule copy, is refused by the validator exactly for a schedule that is not well sized or a spoiled file manifest, and otherwise has the whole schedule and leaves the files of the steps it got done |
| `CampaignRuns.RunSmoothly` | src/pqtrust_agent/campaigns/stage8.py:636-671 | such a run without a crash completes exactly when the directory has its schedule copy, the schedule is well sized and the file manifest is not spoiled; the manifest of the completed run lists the temporary marker exactly when one was left |
| `CampaignRuns.PhasesAre` | src/pqtrust_agent/campaigns/stage8.py:752-767 | how a sequence of crashed finalizations ends, by where the first marker was left and what came after it |
| `CampaignRuns.RunAfterFinishCrashes` | src/pqtrust_agent/campaigns/stage8.py:752-767 | after any sequence of crashed finalizations a smooth run completes unless the first crash that left the marker was followed, after runs that did not get to the file manifest, by one that wrote it and no more; then it is refused |
| `CampaignRuns.SpoiledByTwoCrashes` | src/pqtrust_agent/campaigns/stage8.py:752-767 | over every well-sized schedule two crashes spoil the file manifest, with every good row recorded and the schedule copy in place |
| `CampaignRuns.RegisteredCampaignSpoiled` | src/pqtrust_agent/campaigns/stage8.py:752-767 | two crashes spoil the registered campaign |
| `CampaignRuns.RunAfterCreationCrash` | src/pqtrust_agent/campaigns/stage8.py:474-493 | a smooth run after a crashed creation completes unless the creation got one to three of its steps done, and is refused in those cases |
| `CampaignRuns.LastRowCrash` | src/pqtrust_agent/campaigns/stage8.py:441-444 | a first run that crashes after its last row has everything in the log and a stale index |
| `CampaignRuns.CompleteWithStaleIndex` | src/pqtrust_agent/campaigns/stage8.py:636-671 | over every well-sized schedule two runs end in a completed campaign whose index is stale |
| `CampaignRuns.RegisteredDesignFits` | configs/campaigns/stage8_final_campaign.yaml:34-140 | the registered design, with twenty different attacks, has distinct names and the sizes the validator expects |
| `CampaignRuns.RunDesign` | src/pqtrust_agent/campaigns/stage8.py:169-271 | a crash-free campaign over the schedule of a design with distinct names completes exactly when the design has the expected size of every kind |
| `CampaignRuns.RegisteredCampaignWithStaleIndex` | src/pqtrust_agent/campaigns/stage8.py:636-671 | two runs of the registered campaign that end complete with a stale index |
| `Registration.RegistrationStore.AtomicReplace` | src/pqtrust_agent/campaigns/stage8.py:318-338 | for every combination of failing operations: the directory then holds the new registration, the old one or none, each exactly under its condition, and the backup holds the old one exactly when it was moved there, not moved back and not removed |
| `Registration.RegistrationStore.Undo` | src/pqtrust_agent/campaigns/stage8.py:330-335 | the clean-up removes what is at the output and then moves the backup back, as far as neither fails |
| `Registration.RegistrationStore.ReplaceUntilKilled` | src/pqtrust_agent/campaigns/stage8.py:318-338 | the directories after a kill at any point of a swap without failures |
| `Registration.LostToFailedRename` | src/pqtrust_agent/campaigns/stage8.py:330-335 | one failed rename leaves no registration at all |
| `Registration.LostAfterKill` | src/pqtrust_agent/campaigns/stage8.py:324-329 | after a kill between the renames, a swap whose second rename fails leaves no registration at all |
| `Registration.KillKeepsOne` | src/pqtrust_agent/campaigns/stage8.py:318-338 | after a kill the old registration is in the directory or the backup, or the new one is in the directory; the directory is missing exactly after a kill between the renames |
| `Descriptive.RankIffCount` | src/pqtrust_agent/metrics/descriptive.py:12-18 | the observation of a rank is at most a value exactly when more observations than the rank are, and likewise from above |
| `Descriptive.MedianSplits` | src/pqtrust_agent/metrics/descriptive.py:21-27 | half of the observations are not above the median and half not below |
| `Descriptive.CentreIsMonotone` | src/pqtrust_agent/metrics/descriptive.py:21-27 | raising observations never lowers the median |
| `Descriptive.QuantileIsMonotone` | src/pqtrust_agent/metrics/descriptive.py:30-42 | quantiles grow with the probability |
| `Descriptive.QuantileAtRank` | src/pqtrust_agent/metrics/descriptive.py:36-42 | at the probability of a rank the quantile is that observation |
| `Descriptive.QuantileReflects` | src/pqtrust_agent/metrics/descriptive.py:30-42 | negating the observations mirrors the quantiles |
| `Descriptive.QuantileEnds` | src/pqtrust_agent/metrics/descriptive.py:30-42 | the extreme quantiles are the least and the largest observation |
| `Descriptive.HalfQuantileIsMedian` | src/pqtrust_agent/metrics/descriptive.py:21-42 | the quantile at one half is the median |
| `Descriptive.StatisticsIgnoreOrder` | src/pqtrust_agent/metrics/descriptive.py:21-42 | median and quantiles ignore the order of the observations |
| `Descriptive.ZeroSpreadIffMajorityAtMedian` | src/pqtrust_agent/metrics/descriptive.py:58-61 | the median absolute deviation is zero exactly when more than half of the observations equal the median |
| `Descriptive.OutliersAreAMinority` | src/pqtrust_agent/metrics/descriptive.py:107-127 | the 3-MAD rule is defined unless more than half of the observations equal the median, and then flags at most half |
| `Descriptive.DescriptionIsOrdered` | src/pqtrust_agent/metrics/descriptive.py:64-80 | the entries of a summary come in order between minimum and maximum, which are observations |
| `PairedRatios.GroupBlocks` | scripts/analyze_paired_crypto_costs.py:483-501 | ratios and differences are grouped by run and replicate in block order; the first unreadable block stops it |
| `PairedRatios.PairwiseHierarchicalEstimate` | scripts/analyze_paired_crypto_costs.py:471-556 | the estimate is the median over runs of medians over replicates of medians over blocks, with all intermediate medians; it succeeds exactly with readable blocks from exactly two runs, and each other case has its error |
| `PairedRatios.CentreOfInverses` | scripts/analyze_paired_crypto_costs.py:550-555 | the median of inverses times the median is at least one, and exactly one only when no two different observations are averaged |
| `PairedRatios.ReciprocalCentres` | scripts/analyze_paired_crypto_costs.py:550-555 | medians of two lists that are at least reciprocal place by place are at least reciprocal, and exactly so just when the middle ones of the first agree and most of the second are at most the inverse median |
| `PairedRatios.ReciprocalOfTwo` | scripts/analyze_paired_crypto_costs.py:521-525 | medians over two runs are exactly reciprocal just when both runs agree and the medians of each are |
| `PairedRatios.RunIsExactIff` | scripts/analyze_paired_crypto_costs.py:507-518 | the medians of a run are exactly reciprocal just when its replicate medians are tight |
| `PairedRatios.ReplicateIsExactIff` | scripts/analyze_paired_crypto_costs.py:510-512 | the medians of a replicate are exactly reciprocal just when no two different ratios are averaged |
| `PairedRatios.EstimatesOfBothDirections` | scripts/analyze_paired_crypto_costs.py:471-556 | independently aggregated directions multiply to at least one, to exactly one just when both runs have the same median and tight replicate medians; with odd numbers of replicates and blocks just when both runs have the same median; the differences are exactly opposite |
| `PairedRatios.DirectionsThatDoNotInvert` | scripts/analyze_paired_crypto_costs.py:550-555 | two runs with ratios two and four are estimated at 3 in one direction and at 3/8 in the other |
| `PairedRatios.SelfRatioIsOne` | scripts/analyze_paired_crypto_costs.py:580-582 | the aggregated ratio of a profile to itself is one |
| `PairedRatios.AddSymmetricDisplayEstimates` | scripts/analyze_paired_crypto_costs.py:576-595 | every cell of the matrix gets the display value of its canonical direction |
| `PairedRatios.EstimateMatrix` | scripts/analyze_paired_crypto_costs.py:559-573 | the matrix is built exactly when every cell has readable blocks from exactly two runs, and then has every cell with its own estimate |
| `PairedRatios.PairwiseTlsMatrix` | scripts/analyze_paired_crypto_costs.py:559-595 | succeeds exactly when every cell has readable blocks from exactly two runs; display values of the two directions are exact reciprocals, none exceeds its own directional estimate, and the canonical direction displays it unchanged |
| `SignTest.SignTestIsExact` | src/pqtrust_agent/analysis/stage9.py:446-455 | the test raises exactly from 1024 nonzero differences on, when the power of two is no float; otherwise the p-value is the share of sign patterns at least as lopsided as the observed one, lies in (0,1], and is one exactly when the sides differ by at most one |
| `SignTest.CapIffTie` | src/pqtrust_agent/analysis/stage9.py:454-455 | the doubled tail exceeds one exactly on a tie |
| `SignTest.MoreLopsidedIsSmaller` | src/pqtrust_agent/analysis/stage9.py:451-455 | a smaller minority among equally many differences never gives a larger p-value |
| `SignTest.SignTestSymmetries` | src/pqtrust_agent/analysis/stage9.py:446-455 | negating all differences, reordering them or adding zeros changes nothing |
| `Holm.HolmCorrection` | src/pqtrust_agent/analysis/stage9.py:458-467 | the loop gives every test the largest correction among the values up to its own, where a value is corrected by the number of values not below it |
| `Holm.RunningIsAdjusted` | src/pqtrust_agent/analysis/stage9.py:463-466 | the running maximum depends on the p-value only, so tied tests agree |
| `Holm.AdjustedIgnoresOrder` | src/pqtrust_agent/analysis/stage9.py:459-459 | the order in which tests are listed changes no adjusted value |
| `Holm.AdjustedIffStepDownRejects` | src/pqtrust_agent/analysis/stage9.py:458-467 | an adjusted value is within a level exactly when the step-down procedure rejects the test, or the level is at least one |
| `Holm.LevelOneDiffers` | src/pqtrust_agent/analysis/stage9.py:464-464 | two tests at 0.9 are adjusted to one though the step-down procedure at level one rejects neither |
| `Holm.AdjustedIsBracketed` | src/pqtrust_agent/analysis/stage9.py:458-467 | an adjusted value is at least the raw one and at most the smaller of one and the Bonferroni bound |
| `Holm.AdjustedIsMonotone` | src/pqtrust_agent/analysis/stage9.py:465-465 | adjusting keeps the order of the tests |
| `Holm.MoreTestsAdjustMore` | src/pqtrust_agent/analysis/stage9.py:460-464 | testing one hypothesis more never lowers an adjusted value |

## Left out

- Z3, OpenSSL, SHA-256, RFC 8785 canonicalization and pydantic internals; a core search that is told `unknown` is only shown to stay unsatisfiable, not irreducible.
- Rounding of 28-digit decimals and of floats, and float comparison tolerances.
- NaN and infinity, which the statistics refuse and exact reals do not have.
- Overflow of the C `int` sequence number and block counters.
- The handshake, signing and timing inside a measured case, and the record fields other than sequence, block, case and success that the validators compare one by one.
- The text form of observation identifiers: two tuples with colons inside their names could share a text.
- The paired comparison identifier and the operation count carried by schedule entries; both are functions of fields that are modelled.
- Checks of rows against their schema and against the rules of their kind, which are two flags of a row; the manifest rewrite after warm-up and the progress snapshot.
- The check of the configuration hash in the validator, and validation of a run outside `finalize_run`.
- The bootstrap intervals, apart from their demand of exactly two runs, the number of observations and the log-ratio summaries next to the pairwise estimates.
- The sample standard deviation, which needs a square root.
- The checks before a registration is written, the files in it, and the other artifact staging helpers.
- Candidate evaluation records, human-readable explanations and trace strings beside the selection and the remediation report.
- Protocol commitment, transcript, replay, runtime state machine and execution gate are not part of this model.
- `Prng.Rng.Next`: states the state step and its output function, nothing about the statistical quality of the draws.
- `CampaignLog.Validate`: takes the schema check of a row and the checks on rows of its kind as flags of the row, and has no configuration-hash check.
- `RawRecords.ValidateRecords`: checks sequence, block, case and success of the records, not the other fields, which the source compares one by one.
- `CampaignLog.RunDir.PrepareRunDir`: the git, configuration and preflight checks are one flag, and the raw files and log directories count as created with the directory.
