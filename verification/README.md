# SCNSim: a verified model of its numerical and authoring core

SCNSim lowers an authored superconducting circuit to a numerical request, solves and optimizes it,
and journals the evidence. The modules here model the parts whose correctness is an argument about
many steps at once, and prove it:

- `Continuation`, `Tracking`, `Resolution`, `Tables`: the baseline-anchored dyadic path tracker, why
  every point it visits is physical, and what the resolved tables hold.
- `Expressions`, `Measurement`, `Denotation`, `Batch`, `Records`, `Outcomes`: objective trees, what
  evaluating one candidate means, the batch evaluator with its cache and in-batch deduplication, and
  what every record says of the model, the views and the backend.
- `Optimizer`, `Generations`, `OptimizeLoop`: the generation loop, what each generation asks, tells and
  emits, its snapshot and its reconstruction from events.
- `BoxMap`, `Mapping`, `Folds`: the folding box transform, its inverse and mirrors, and the map from
  optimizer coordinates to parameter values.
- `Journal`, `Writes`, `JournalFiles`, `Chain`, `Histories`: the file journal with its durability
  witness under arbitrary failing system calls, when its calls return normally, and the commit chain
  read from a pinned head.
- `Partition`, `Nets`, `Scope`, `Ties`, `Unions`, `Runs`, `Refusals`, `Permits`, `Failures`, `Assembly`,
  `Wiring`, `Clone`, `NetNames`: wire equivalence by union-find, the wiring operations, what they
  declare and exactly when they are refused, concrete states at which their checks fall short,
  occurrence overlays and canonical net names.
- `Linear`, `Names`, `Congruence`, `Reduce`, `Derivations`, `Realize`, `Bases`, `ViewSoundness`: the
  reduction language of views, read symbolically and numerically.
- `Stamping`, `Energies`, `Coupling`: matrix assembly, what the matrices store and dissipate, and the
  grouping of coupled inductors.
- `Deltas`, `Reversals`: source-transition deltas and their reversal.

A function that both the program and its specification call is pinned by a theorem that does not name
it: `Tracking`, `Tables`, `Records`, `Outcomes`, `Generations`, `Folds`, `Writes`, `Histories`,
`Refusals`, `Permits`, `Derivations`, `Bases`, `Energies` and `Reversals` state what the results say in
terms of their inputs alone.

Physical values are exact reals; a `representable` predicate stands for the finiteness checks of
floating point where the code branches on them. Digests are injective functions, the numerical
backend and the optimizer's moves are functions of what they are given, square roots, exponentials
and powers are functions with the laws stated in `Mapping.Lawful`. The file system numbers its system
calls, and a predicate chosen freely says which of them fail. `dafny verify dfyconfig.toml` checks the
whole project.

## Where the code does not meet a property

Each of these is shown at a concrete input, with a lemma that gives the exact condition.

- A head whose publication failed after the rename leaves its directory marked as synced; a later
  immutable write of the same path with the same bytes then skips the sync its name needs
  (`Journal.HeadThenArtifact`; exact condition in `Journal.WriteSecures`, freed by
  `Journal.OnlyHeadsUnsafe`).
- `parallel` checks all branches first but prepares each again on the state it meets: a branch that
  merges start and end makes it refuse with earlier branches laid (`Failures.ParallelCanStop`; exact
  condition on the state before the call in `Ties.ParallelExact`).
- The check of a proposed wire union compares pins without a net as they are: a link or a grounding
  can short an ordinary body (`Failures.LinkCanShort`, `Failures.GroundCanShort`), exactly in that case
  (`Unions.LinkShorts`, `Unions.GroundShorts`); the final guard is `complete`. A link that names a
  grounded pin and a Port's net grounds the Port (`Failures.LinkCanGroundPort`,
  `Unions.LinkGroundsPort`), and one in a subsystem that names the nets of two Ports puts both on one
  net (`Failures.LinkCanMergePorts`, `Unions.LinkMergesPorts`), which adding a Port never does
  (`Unions.AddPortKeeps`).
- A field with a sign domain may be bound to an RLGC parameter: the authoring resolver does not look at
  RLGC values, and lowering then has no number (`Resolution.RlgcForCapacitance`; exact condition in
  `Resolution.DomainsAreSigns`).
- Two reductions in turn equal their joined pipeline except after retention: a retained view refuses
  even the empty pipeline (`Reduce.RetainedRefusesEmpty`, `Reduce.ReduceIsAction`).
- A delta row cannot tell a digest equal to the word `absent` from a missing entry
  (`Deltas.ReverseOfDelta`, `Deltas.AbsentDigestLost`).

## Model

| member | source | states |
|---|---|---|
| `Continuation.EvaluatorCallsBounded` | src/scnsim/benchmark/optimization.py:104-134 | the path tracker always ends, with at most 2^33 − 2 evaluator calls besides the given one |
| `Continuation.BoundIsAttained` | src/scnsim/benchmark/optimization.py:104-134 | the call bound is sharp: a setting that diverges everywhere but on the smallest cells reaches it |
| `Continuation.StartsFromLastAccepted` | src/scnsim/benchmark/optimization.py:108-133 | in every run each evaluation starts from the most recently accepted root at the accepted position |
| `Continuation.AcceptedTile` | src/scnsim/benchmark/optimization.py:108-133 | the accepted intervals of a segment adjoin, in order, and cover it when it succeeds; one more interval than divisions |
| `Continuation.VisitsDyadicCells` | src/scnsim/benchmark/optimization.py:108-133 | every interval tried is a dyadic cell of depth at most 32 |
| `Continuation.NothingAfterFailure` | src/scnsim/benchmark/optimization.py:108-133 | nothing is evaluated after the failure that is raised |
| `Continuation.ContinueRootIsWalk` | src/scnsim/benchmark/optimization.py:104-134 | the recursion makes the same attempts with the same outcome as an explicit left-to-right worklist of intervals |
| `Continuation.SuccessTilesUnitInterval` | src/scnsim/benchmark/optimization.py:104-134 | on success the accepted intervals tile [0, 1] from the baseline root at 0 to the returned root at 1, and exactly the last uses the end-point view |
| `Tracking.RunAnswers` | src/scnsim/benchmark/optimization.py:104-134 | every result after the given one is the solver's on the view of the interpolated point at the interval's end, from the start recorded |
| `Tracking.RunStarts` | src/scnsim/benchmark/optimization.py:108-133 | each attempt starts from the root of the last accepted attempt before it, or from the baseline root |
| `Tracking.RunEnds` | src/scnsim/benchmark/optimization.py:108-133 | a run goes on after a failure exactly when it is an unresolved numerical result at a depth below 32; it returns the root accepted at 1 |
| `Tracking.InterpolateExact` | src/scnsim/benchmark/optimization.py:109-121 | interpolation gives every quantity its convex combination and fails exactly on an RLGC record that differs |
| `Resolution.ResolveBinding` | src/scnsim/benchmark/compiler.py:40-60 | one binding resolves to its constant, its parameter's value or its affine image, and fails exactly outside unauthorized support |
| `Resolution.ResolveFields` | src/scnsim/benchmark/compiler.py:37-61 | resolves all fields in order exactly when every affine input is supported, with the extrapolation evidence in order |
| `Resolution.ResolveCaptured` | src/scnsim/authoring/resolution.py:21-114 | the authoring resolver gives one captured binding its value and refuses it exactly outside unauthorized support |
| `Resolution.ResolveLeaf` | src/scnsim/authoring/resolution.py:21-114 | the authoring resolver fills one leaf's fields exactly when all are supported and lie in the domains their factory flagged |
| `Resolution.ResolveParameterPoint` | src/scnsim/authoring/resolution.py:21-114 | the authoring resolver succeeds exactly when the supplied point is valid, every affine input is supported and every field lies in its captured domain, with the fields of the effective values |
| `Resolution.FlagsAreSigns` | src/scnsim/authoring/catalogs.py:93-174 | the domain flags the component factories capture are the sign tests lowering makes, on quantities |
| `Resolution.DomainsAreSigns` | src/scnsim/authoring/capture.py:193-203 | the captured domains hold together with scalar bindings exactly when every resolved field has the sign lowering demands |
| `Resolution.ResolveBoth` | src/scnsim/authoring/resolution.py:21-114 | run on one point, the authoring resolver accepts it without an RLGC record in a domain field exactly when it is valid, the compiler's resolver accepts and the fields are physical; whatever it accepts the compiler's resolver gives the same table |
| `Resolution.RlgcForCapacitance` | src/scnsim/authoring/physical_values.py:404-414 | an RLGC parameter bound to a capacitance passes the authoring resolver and is not physical |
| `Resolution.BindingBetween` | src/scnsim/authoring/physical_values.py:508-522 | a supported binding stays supported along the segment between two supported points and takes the interpolated value |
| `Resolution.ContinuationStaysPhysical` | src/scnsim/benchmark/optimization.py:109-121 | if baseline and candidate resolve to physical fields so does every point between them: support and the signs of R, L, C, junction capacitance and length are kept |
| `Tables.ResolveSupplied` | src/scnsim/authoring/resolution.py:21-114 | the authoring resolver returns the one table in which every field has what its binding means at the supplied values, completed by the baselines, and refuses exactly when the point does not fit, an input leaves its support unauthorized or a quantity its domain |
| `Tables.ResolveValues` | src/scnsim/benchmark/compiler.py:37-61 | the compiler's table says what every binding means; the evidence lists exactly the inputs beyond their support, in document order; refused exactly when one is unauthorized |
| `Expressions.EvaluateDenotes` | src/scnsim/benchmark/optimization.py:64-77 | evaluating over an iterator of leaf values consumes exactly the expression's own leaves and gives its denotation |
| `Expressions.ExpressionValueDenotes` | src/scnsim/benchmark/optimization.py:51-77 | the leaf order of `leaves` is the order `expression_value` consumes, so the value is the denotation of the tree |
| `Denotation.RecordDenotes` | src/scnsim/benchmark/optimization.py:226-370 | a record's cost is finite exactly when it carries no failure, its objective values are the denotations of their trees and the cost is their sum |
| `Records.DirectSays` | src/scnsim/benchmark/optimization.py:262-335 | a leaf is measured on the view its point lowers to: a baseline root from its hint, a candidate root from its anchor and, after unresolved results, along the path of intermediate points |
| `Records.ProjectSays` | src/scnsim/benchmark/optimization.py:318-332 | a reported value is the root's frequency or damping or the response's real part, imaginary part or size; a growing root is none |
| `Outcomes.CompleteRecord` | src/scnsim/benchmark/optimization.py:226-370 | a record without failure holds every leaf as measured, every objective's value over them, its cost, and their sum |
| `Outcomes.FaultyRecord` | src/scnsim/benchmark/optimization.py:226-370 | a record with a failure says which leaf or objective failed and why, what was complete before it, and that nothing was measured after it |
| `Outcomes.EscapesExplained` | src/scnsim/benchmark/optimization.py:226-370 | what escapes an evaluation is a failure no candidate may carry, or any failure of the baseline, with its cause |
| `Outcomes.BatchCosts` | src/scnsim/benchmark/optimization.py:335-352 | in a batch an at-least objective costs nothing exactly when its target is reached, an equality exactly when it is met, and what is missing costs its weighted square in units of the scale |
| `Outcomes.BatchSays` | src/scnsim/benchmark/optimization.py:226-370 | every fresh record of a batch is complete or says where its candidate failed |
| `Denotation.TermsSound` | src/scnsim/benchmark/optimization.py:270-340 | the memo of a candidate always holds what a direct measurement of the same dependency gives |
| `Denotation.ObjectivesSound` | src/scnsim/benchmark/optimization.py:226-370 | after each objective the values so far are denotations, unless a failure was recorded |
| `Batch.BatchIsOneByOne` | src/scnsim/benchmark/optimization.py:226-370 | a completed batch returns the same records in the same order with the same cache_hit flags, and leaves the same cache, as the points one at a time |
| `Batch.BatchSplit` | src/scnsim/benchmark/optimization.py:226-370 | a batch completes exactly when its parts do, and its results and cache are theirs |
| `Batch.ResultIsCached` | src/scnsim/benchmark/optimization.py:355-370 | what a batch returns for a point is what the cache then holds for it |
| `Batch.CheckedResults` | src/scnsim/benchmark/optimization.py:97-101 | replies are accepted exactly when they carry the ids of the jobs in order, and returned in that order |
| `Batch.Evaluator.TimedResults` | src/scnsim/benchmark/optimization.py:168-175 | an answered batch passes the identity check and is returned in job order |
| `Batch.Evaluator.QueueJobs` | src/scnsim/benchmark/optimization.py:262-300 | the jobs of one leaf are those of the unfinished, unanswered candidates, in candidate order |
| `Batch.Evaluator.DigestAll` | src/scnsim/benchmark/optimization.py:300-335 | every answered job advances its own candidate by exactly its direct measurement; anchors grow only in the baseline |
| `Batch.Evaluator.RunTerm` | src/scnsim/benchmark/optimization.py:262-335 | one leaf, over all candidates, is the per-candidate step for each |
| `Batch.Evaluator.PrepareAll` | src/scnsim/benchmark/optimization.py:226-258 | only the first occurrence of an unknown point is lowered; an escaping failure is one the point raises alone |
| `Batch.Evaluator.MeasureAll` | src/scnsim/benchmark/optimization.py:262-335 | all leaves of one objective in order give each candidate its own measurements |
| `Batch.Evaluator.CloseAll` | src/scnsim/benchmark/optimization.py:335-350 | closing an objective of all candidates closes it for each |
| `Batch.Evaluator.RunAll` | src/scnsim/benchmark/optimization.py:258-350 | the objective-major loops give every candidate the state it reaches on its own |
| `Batch.Evaluator.Store` | src/scnsim/benchmark/optimization.py:350-360 | every finished candidate's record is its evaluation on its own, and the cache gains exactly those |
| `Batch.Evaluator.Report` | src/scnsim/benchmark/optimization.py:360-370 | records come back in point order, flagged as hits exactly when known before or repeated |
| `Batch.Evaluator.EvaluateMany` | src/scnsim/benchmark/optimization.py:226-370 | the whole batch: completes exactly when every fresh point evaluates, with the results and cache of evaluation one by one; no entry changes, a candidate batch leaves anchors alone |
| `Optimizer.SnapshotRestores` | src/scnsim/benchmark/optimization.py:438-465 | reading a written state back, each object by the keys it has, gives every field and the generator as they were |
| `Optimizer.RunSplits` | src/scnsim/benchmark/optimization.py:506-526 | a run stopped after any generation and continued from its state has the events and end of the uninterrupted run |
| `Optimizer.ResumeContinues` | src/scnsim/benchmark/storage.py:1217-1312 | the checkpoint rebuilt from the events emitted so far is the state of the run, and resuming emits exactly the rest with the same result |
| `Optimizer.RunAccounts` | src/scnsim/benchmark/optimization.py:506-526 | in every run ordinals are contiguous with next = 1 + generations × population, the cache is what the rows record and best is the earliest row of least finite cost |
| `Generations.GenerationSays` | src/scnsim/benchmark/optimization.py:506-526 | a generation asks as often as the population says, makes each vector's own row, tells each vector with its own cost in order, keeps the earliest cheapest row, and stops exactly when some vector maps nowhere or does not evaluate |
| `Generations.RunUnfolds` | src/scnsim/benchmark/optimization.py:506-526 | a run is all generations that are left, one after another, up to one that fails |
| `Generations.UnfoldedRowsBelong` | src/scnsim/benchmark/optimization.py:508-520 | over every run each emitted row carries the vector of its own column in the population observed for its generation, with the point that very vector maps to |
| `OptimizeLoop.Sampler.Snapshot` | src/scnsim/benchmark/optimization.py:446-454 | the record holds every state field and the generator state |
| `OptimizeLoop.Sampler.Restore` | src/scnsim/benchmark/optimization.py:457-465 | accepts exactly a record of the same layout whose values can be read, then holds its state; another layout changes nothing |
| `OptimizeLoop.Ask` | src/scnsim/benchmark/optimization.py:508-509 | one candidate per population slot, the optimizer advancing once each |
| `OptimizeLoop.Map` | src/scnsim/benchmark/optimization.py:514-514 | every asked vector is mapped, or the batch fails |
| `OptimizeLoop.Account` | src/scnsim/benchmark/optimization.py:515-524 | rows are numbered in column order and best is replaced exactly by a finite strictly smaller cost |
| `OptimizeLoop.RunGeneration` | src/scnsim/benchmark/optimization.py:506-526 | one generation of the loop is one turn of the specified study |
| `OptimizeLoop.BaselineFinite` | src/scnsim/benchmark/optimization.py:488-492 | a baseline that evaluates has finite cost |
| `OptimizeLoop.Start` | src/scnsim/benchmark/optimization.py:484-505 | a fresh run starts from the evaluated baseline as best, with ordinal one next |
| `OptimizeLoop.Optimize` | src/scnsim/benchmark/optimization.py:468-530 | the loop over the remaining generations emits the specified events and ends in the specified state, fresh or from a checkpoint |
| `BoxMap.LinquadInBox` | src/scnsim/benchmark/optimization.py:373-387 | every real folds into [lower, upper], one-sided bounds included |
| `BoxMap.LinquadPeriodic` | src/scnsim/benchmark/optimization.py:373-387 | on finite bounds the fold has period 2(upper − lower + al + au) |
| `BoxMap.LatentInverts` | src/scnsim/benchmark/optimization.py:399-409 | the latent coordinate of any point of the box folds back to that point |
| `Folds.FoldMirrors` | src/scnsim/benchmark/optimization.py:373-387 | the fold is symmetric about either outer margin end, on one-sided boxes too |
| `Folds.FoldsInside` | src/scnsim/benchmark/optimization.py:373-387 | between the outer margin ends it is a parabola at either end of the box and the identity between, with the margins the bounds give |
| `Mapping.MappedValues` | src/scnsim/benchmark/optimization.py:412-435 | places the variables in order, raising exactly when one of them escapes its domain |
| `Mapping.ValueInDomain` | src/scnsim/benchmark/optimization.py:412-435 | every latent coordinate of an admitted variable maps into its declared domain, intervals linear and logarithmic |
| `Mapping.NothingEscapes` | src/scnsim/benchmark/optimization.py:429-434 | on an admitted request the domain guard never fires, whatever the optimizer asks |
| `Mapping.MappedInDomain` | src/scnsim/benchmark/optimization.py:412-435 | the mapped point has the baseline's keys, optimized values in their domains and every other value unchanged |
| `Mapping.LatentInitial` | src/scnsim/benchmark/optimization.py:399-409 | the latent start of each recorded coordinate |
| `Mapping.BaselineMapsBack` | src/scnsim/execution/prepared.py:540-593 | the coordinate the request records for a baseline value maps back to that value |
| `Mapping.StartIsBaseline` | src/scnsim/benchmark/optimization.py:399-435 | mapping the latent start gives the whole baseline point back |
| `Folds.MappedSays` | src/scnsim/benchmark/optimization.py:412-435 | every optimized key has the value of its own coordinate by its domain's formula, every other key its baseline value |
| `Folds.EscapesOutside` | src/scnsim/benchmark/optimization.py:429-434 | on admitted requests the guard fires exactly on values outside a declared domain |
| `Folds.EveryValueReached` | src/scnsim/benchmark/optimization.py:412-435 | every value of an interval, a one-sided or an unbounded domain is reached by some coordinate |
| `Journal.EnsureDirectoriesDurable` | src/scnsim/benchmark/journal.py:130-171 | a normal return leaves every name of the directory path durable, whatever syncs were skipped, and the invariant in place even when a call raised |
| `Journal.WriteSecures` | src/scnsim/benchmark/journal.py:197-255 | a normal return has the bytes synced, and the whole path durable exactly when the witness did not vouch for an unsynced name |
| `Journal.OnlyHeadsUnsafe` | src/scnsim/benchmark/journal.py:77-94 | the only names the witness can wrongly vouch for are heads whose publication was reported as indeterminate |
| `Journal.WriteKeeps` | src/scnsim/benchmark/journal.py:197-255 | a write, accepted or raising, keeps every remembered fact true and loses nothing durable |
| `Journal.PublishHeadKeeps` | src/scnsim/benchmark/journal.py:330-355 | a published head is synced down to the root; a failing publication keeps the remembered facts true for all other names |
| `Journal.RememberKeeps` | src/scnsim/benchmark/journal.py:61-68 | remembering the edges above a file just read adds only durable edges |
| `Journal.RunSecures` | src/scnsim/benchmark/journal.py:34-106 | over every sequence of calls sharing a witness and every choice of failing system calls, a file whose write returned stays synced down to the root, unless its path is also a head's |
| `Journal.HeadThenArtifact` | src/scnsim/benchmark/journal.py:335-350 | a path used for a head and then for an artifact: after a failed head publication the write of the same bytes returns without its name ever being synced |
| `Journal.FreshWitness` | src/scnsim/benchmark/journal.py:37-42 | an empty witness on any workspace that earlier transactions left is sound |
| `Writes.DirectoriesAccepted` | src/scnsim/benchmark/journal.py:130-171 | `ensure_directories` returns normally exactly when the path is spelled in plain names, every prefix is absent or a directory and none of its system calls fails; it then has made just what was missing |
| `Writes.WriteAccepted` | src/scnsim/benchmark/journal.py:197-255 | `write_immutable` returns normally exactly when moreover the target is absent or a file of exactly the payload; it then has made the missing directories and the file and nothing else |
| `Writes.HeadAccepted` | src/scnsim/benchmark/journal.py:330-355 | `publish_head` returns normally exactly when the path is spelled and clear, the target absent or a file, and none of its system calls fails; the head then holds the payload |
| `Writes.SecondMakeIsFree` | src/scnsim/benchmark/journal.py:145-171 | with a witness a path made once costs no system call the second time |
| `Writes.SecondWriteIsFree` | src/scnsim/benchmark/journal.py:209-255 | nor does a file written once |
| `Writes.RememberedIsFree` | src/scnsim/benchmark/journal.py:61-68 | after a file was read back, reaching its directory costs no system call |
| `JournalFiles.Witness.RememberVerifiedFilePath` | src/scnsim/benchmark/journal.py:61-68 | adds exactly the directory edges above the file |
| `JournalFiles.Witness.ArtifactIsDurable` | src/scnsim/benchmark/journal.py:77-94 | answers whether this very file is recorded and drops a stale record |
| `JournalFiles.Workspace.WriteAtomically` | src/scnsim/workspace/storage.py:43-56 | the file under its name with its directory synced, or a failure at either step |
| `JournalFiles.Workspace.PublishState` | src/scnsim/workspace/storage.py:61-86 | the state file replaced and synced, or left unreconciled after the rename |
| `JournalFiles.MakeDirectories` | src/scnsim/benchmark/journal.py:130-171 | the loop over path components takes the specified step for each |
| `JournalFiles.WriteArtifact` | src/scnsim/benchmark/journal.py:197-255 | the in-place operation is the specified transition |
| `JournalFiles.WriteHead` | src/scnsim/benchmark/journal.py:330-355 | the in-place operation is the specified transition |
| `Chain.ReadChain` | src/scnsim/benchmark/journal.py:383-420 | the loop with its cycle check ends on every store and returns what the plain walk by sequence number returns |
| `Chain.WalkIsChain` | src/scnsim/benchmark/journal.py:383-420 | it returns a chain exactly when one of that length exists: oldest first, numbered 1..n, linked, ending at the head |
| `Chain.ChainUnique` | src/scnsim/benchmark/journal.py:383-420 | a pinned head reads at most one chain |
| `Chain.ChainSurvivesRun` | src/scnsim/benchmark/journal.py:197-355 | no later run of journal calls, failures included, changes what a pinned head reads, if its heads stay off the chain's artifacts |
| `Histories.ReadHistory` | src/scnsim/benchmark/journal.py:258-420 | a head reads exactly the history it has: files of the recorded path, role, length and digest, numbered from one, each linked from the next; without one it is refused |
| `Histories.HistorySurvives` | src/scnsim/benchmark/journal.py:197-420 | a history stays one over every later run of journal calls that keeps its heads off the chain's files |
| `Partition.MergeRepresents` | src/scnsim/authoring/handles.py:28-37 | joining two nets represents the closure of one more wire |
| `Partition.FreshRepresents` | src/scnsim/authoring/handles.py:18-21 | a new net is related to itself alone |
| `Nets.Forest.Root` | src/scnsim/authoring/handles.py:23-26 | path compression ends, returns the representative and changes no class |
| `Nets.Forest.Join` | src/scnsim/authoring/handles.py:28-37 | two classes become one and the ground stays its own representative |
| `Nets.Forest.Add` | src/scnsim/authoring/handles.py:18-21 | a new net is a class of its own |
| `Scope.ChainKeeps` | src/scnsim/authoring/assembly.py:471-487 | an accepted chain lays its bodies between consecutive nodes from start to end and marks exactly them used |
| `Scope.SeriesKeeps` | src/scnsim/authoring/assembly.py:497-512 | a refused series or branch changes nothing |
| `Ties.ChainExact` | src/scnsim/authoring/assembly.py:471-487 | after an accepted chain two endpoints share a root exactly when the closure of start–first, body–body and last–end ties over the roots before it relates them |
| `Ties.ParallelExact` | src/scnsim/authoring/assembly.py:514-555 | once its checks pass, `parallel` is accepted exactly when the roots before the call and the ties of the branches before the last leave start and end apart |
| `Ties.ParallelRelates` | src/scnsim/authoring/assembly.py:514-555 | accepted or not, it relates what the ties of the branches it laid relate: each branch whose predecessors leave start and end apart |
| `Scope.ParallelHalfDone` | src/scnsim/authoring/assembly.py:514-555 | a first branch whose first terminal already lies on the end's net makes `parallel` refuse after consuming it |
| `Unions.LinkKeeps` | src/scnsim/authoring/assembly.py:576-609 | a refused link changes nothing, an accepted one puts all endpoints in one class |
| `Unions.LinkExact` | src/scnsim/authoring/assembly.py:576-609 | after a link two endpoints share a class exactly when they did or both classes were named |
| `Unions.LinkShorts` | src/scnsim/authoring/assembly.py:433-469 | an accepted link shorts an ordinary body exactly when it unites both terminals and one had no net yet |
| `Unions.LinkKeepsBuses` | src/scnsim/authoring/assembly.py:443-451 | an accepted link merges no two buses that were apart |
| `Unions.LinkGroundsPort` | src/scnsim/authoring/assembly.py:463-469 | an accepted link grounds a Port exactly when it names both classes |
| `Unions.GroundKeeps` | src/scnsim/authoring/assembly.py:611-628 | accepted grounding grounds every named pin, refused grounding changes nothing |
| `Unions.GroundShorts` | src/scnsim/authoring/assembly.py:433-469 | grounding shorts a body exactly when the check meets a pin without a net |
| `Unions.GroundingSparesPorts` | src/scnsim/authoring/assembly.py:463-469 | accepted grounding grounds no Port |
| `Unions.UnitedIsExact` | src/scnsim/authoring/assembly.py:601-628 | binding and joining a set of endpoints unites exactly the named classes |
| `Unions.LinkMergesPorts` | src/scnsim/authoring/assembly.py:463-469 | an accepted link puts two Ports on one net exactly when it names both classes |
| `Unions.AddBusKeeps` | src/scnsim/authoring/assembly.py:283-297 | a new bus lies on a net of its own and changes no class |
| `Unions.AddPortKeeps` | src/scnsim/authoring/plan.py:54-85 | Ports on classes of their own off the ground stay so when a Port is added |
| `Unions.RunIsClosure` | src/scnsim/authoring/assembly.py:471-628 | after any run of operations, refused ones included, two endpoints with nets share a root exactly when the joins performed relate the nets |
| `Runs.RunExact` | src/scnsim/authoring/assembly.py:471-628 | after any run of operations, refused ones included, two endpoints share a root exactly when the ties the operations declared relate them over the roots at the beginning |
| `Refusals.SeriesAccepted` | src/scnsim/authoring/assembly.py:400-512 | a series is accepted exactly when its chain has bodies that fit, none consumed and none twice, between two distinct nodes, and its id is free; refused it leaves the board |
| `Refusals.BranchAccepted` | src/scnsim/authoring/assembly.py:557-574 | a branch is such a series that starts on a bus or a tap |
| `Refusals.ParallelAccepted` | src/scnsim/authoring/assembly.py:514-555 | a parallel structure is accepted exactly when every branch may be laid, no body is in two, and the wires of the branches before the last leave start and end apart |
| `Refusals.SeriesWires` | src/scnsim/authoring/assembly.py:471-487 | an accepted series puts on one node exactly what start, each body's near and far terminals and end lead together |
| `Refusals.ParallelWires` | src/scnsim/authoring/assembly.py:514-555 | so does a parallel structure for all its branches |
| `Refusals.ConsumedRefused` | src/scnsim/authoring/assembly.py:416-421 | a structure that names a consumed body is refused and leaves the board as it was |
| `Refusals.NoBodyTwice` | src/scnsim/authoring/assembly.py:416-487 | over any run of operations no body occurs in two accepted structures |
| `Permits.LinkAccepted` | src/scnsim/authoring/assembly.py:433-609 | a link is accepted exactly when its distinct endpoints belong to the scope, exclude the ground, are not one node, merge no buses, short no body with two bound pins and leave no Port on the ground outside it; it then unites exactly what they reach |
| `Permits.GroundAccepted` | src/scnsim/authoring/assembly.py:433-628 | grounding is accepted exactly for distinct ungrounded pins that short no body with the ground and touch no Port, while no Port is grounded; it then unites exactly what they and the ground reach |
| `Permits.PortAccepted` | src/scnsim/authoring/plan.py:54-85 | a Port is accepted exactly on a bus or tap whose class has neither the ground nor a Port |
| `Failures.LinkCanShort` | src/scnsim/authoring/assembly.py:433-469 | two unused terminals of one body, linked, are shorted |
| `Failures.GroundCanShort` | src/scnsim/authoring/assembly.py:433-469 | two unused terminals of one body, grounded together, are shorted |
| `Failures.LinkCanGroundPort` | src/scnsim/authoring/assembly.py:463-469 | a Port's bus linked with a grounded pin grounds the Port |
| `Failures.LinkCanMergePorts` | src/scnsim/authoring/assembly.py:443-451 | pins of a subsystem on the nets of two Ports, linked, put both Ports on one net |
| `Failures.ParallelCanStop` | src/scnsim/authoring/assembly.py:514-555 | a ready `parallel` whose first body already lies on the end is refused with that body used and the id taken |
| `Assembly.LiveScope.GetNet` | src/scnsim/authoring/assembly.py:299-320 | an unused pin receives a fresh net, once |
| `Assembly.LiveScope.PreparedChain` | src/scnsim/authoring/assembly.py:400-422 | accepts exactly prepared chains and changes no class |
| `Assembly.LiveScope.Chain` | src/scnsim/authoring/assembly.py:471-487 | the joins on live nets are the specified chain |
| `Assembly.LiveScope.MakeSeries` | src/scnsim/authoring/assembly.py:497-512 | the operation on live nets is the specified one, accepted in the same cases |
| `Wiring.LinkClear` | src/scnsim/authoring/assembly.py:433-469 | the union check of a link, made on representatives while paths compress, passes exactly when the specified check does |
| `Wiring.GroundClear` | src/scnsim/authoring/assembly.py:433-469 | the same for grounding, where the union takes in the ground's class |
| `Wiring.DeclareLink` | src/scnsim/authoring/assembly.py:576-609 | a link on live nets is the specified step; a refused one leaves every table |
| `Wiring.DeclareGround` | src/scnsim/authoring/assembly.py:611-628 | grounding on live nets is the specified step; a refused one leaves every table |
| `Wiring.DeclareBranch` | src/scnsim/authoring/assembly.py:557-574 | a branch on live nets is the specified step |
| `Wiring.DeclareParallel` | src/scnsim/authoring/assembly.py:514-555 | a parallel structure on live nets is the specified step, branches laid before a refused one included |
| `Wiring.DeclareBus` | src/scnsim/authoring/assembly.py:283-297 | a bus gets a net of its own |
| `Wiring.DeclarePort` | src/scnsim/authoring/plan.py:54-85 | a Port is accepted exactly on a bus or tap whose class is neither the ground's nor another Port's |
| `Wiring.OperateAll` | src/scnsim/authoring/assembly.py:471-628 | any run of operations, refused ones included, takes the live nets where the specification says |
| `Wiring.SameNet` | src/scnsim/authoring/handles.py:23-37 | on live nets two endpoints have one representative exactly when the joins performed relate their nets |
| `Wiring.SameAfterRun` | src/scnsim/authoring/handles.py:23-37 | after a run two endpoints have one representative on live nets exactly when the ties declared in the run relate them |
| `Clone.Overlay.OverlayNet` | src/scnsim/authoring/assembly.py:44-50 | the ground's class goes to the plan's ground, any other class to one net made for it |
| `Clone.Overlay.CopyScope` | src/scnsim/authoring/assembly.py:24-158 | every endpoint of the scope and its nested scopes lies on the image of its class |
| `Clone.CopyKeepsPartition` | src/scnsim/authoring/assembly.py:24-158 | two copied endpoints share a net exactly when the originals did, and are grounded exactly when they were |
| `Clone.Attach` | src/scnsim/authoring/assembly.py:240-281 | attaching copies the template's wire equivalence onto fresh nets and leaves the template's classes and the plan's as they were |
| `Clone.JoinInPlan` | src/scnsim/authoring/assembly.py:24-32 | no later joins in the plan, however many, change the template's classes |
| `NetNames.NetIdentityMap` | src/scnsim/authoring/capture.py:58-93 | the grouping, sorting and numbering loops give every class, and the ground, its canonical name |
| `NetNames.NamesInjective` | src/scnsim/authoring/capture.py:81-93 | names tell classes apart and only the ground's is ground |
| `NetNames.NamesAgree` | src/scnsim/authoring/capture.py:58-93 | names depend on the partition of typed endpoints alone |
| `NetNames.NamesOrdered` | src/scnsim/authoring/capture.py:58-93 | classes are numbered from one without a gap in the order of their first endpoints |
| `Reduce.DeriveView` | src/scnsim/runtime.py:483-627 | the loop over the declared steps on local copies derives the specified view or refuses |
| `Reduce.EmptyIsIdentity` | src/scnsim/runtime.py:348-355 | the empty pipeline leaves every unretained view unchanged |
| `Reduce.ReduceIsAction` | src/scnsim/runtime.py:251-355 | reducing by two pipelines in turn equals reducing by their join exactly unless the first one retained |
| `Reduce.RetainedRefusesEmpty` | src/scnsim/runtime.py:348-355 | a view retained on one coordinate refuses the empty pipeline, which joined to the first is accepted |
| `Derivations.ReductionSays` | src/scnsim/runtime.py:483-627 | a derived view is what its steps say: compensated Port states, each pair's outputs in its place, Ports exactly if both inputs are Ports in one state, and unique current retained coordinates; a refusal has a compensation, a pair or a retention nothing satisfies, such as a compensated Port paired with a raw one |
| `Derivations.JoinSays` | src/scnsim/runtime.py:251-300 | two pipelines join exactly when the grammar allows one after the other, into all their steps |
| `Realize.RealizeTransforms` | src/scnsim/benchmark/views.py:50-91 | the loop over the declared transforms, stopping at a bad cut or a failed lookup |
| `Realize.FillPairMatrix` | src/scnsim/benchmark/views.py:60-67 | the matrix filled row by row is the change of basis |
| `Congruence.OldOfNew` | src/scnsim/benchmark/views.py:60-70 | old voltages come back from new ones: the transform is invertible |
| `Congruence.NewOfOld` | src/scnsim/benchmark/views.py:60-70 | every new voltage vector comes from an old one |
| `Congruence.PairDecoupled` | src/scnsim/benchmark/views.py:55-59 | with symmetric C the chosen weights make the new common–differential capacitance entry zero |
| `Realize.StepKeeps` | src/scnsim/benchmark/views.py:76-84 | a transform keeps the C, K and G forms, the Port voltages and the branch drops of every voltage vector |
| `Bases.StepSays` | src/scnsim/benchmark/views.py:50-91 | a transform names its outputs: the weighted mean and the difference of its inputs' voltages, weights by their cuts, no capacitance left between them; a refused one lacks an input or its weights |
| `Bases.DerivedSteps` | src/scnsim/benchmark/views.py:50-91 | the replay of every derived view goes through its transforms one by one in this way |
| `ViewSoundness.ReplayKeeps` | src/scnsim/benchmark/views.py:50-91 | so does any sequence of transforms |
| `ViewSoundness.ReplayKeepsBack` | src/scnsim/benchmark/views.py:50-91 | and every voltage vector of the result stands for one of the compiled network |
| `ViewSoundness.DerivedKeeps` | src/scnsim/runtime.py:483-627 | the network of every derived view is electrically the compiled one |
| `ViewSoundness.ReduceFollows` | src/scnsim/runtime.py:531-579 | every declaration the symbolic reading derives replays in the numerical one without a failed lookup |
| `ViewSoundness.RealizablePassesRank` | src/scnsim/benchmark/views.py:92-97 | a retained view marked Port-realizable selects linearly independent Port rows, no more than there are Ports, whatever the pair weights |
| `Stamping.AssembleShunts` | src/scnsim/benchmark/compiler.py:88-148 | the in-place stamping yields the specified matrices and the inductive branches in order, and stops exactly at an invalid element value or inductance |
| `Stamping.AssembledStructured` | src/scnsim/benchmark/compiler.py:101-136 | the assembled C and G are symmetric with nonpositive off-diagonals and nonnegative row sums, whatever nets terminals share |
| `Energies.AssembledForms` | src/scnsim/benchmark/compiler.py:101-136 | over any voltages C stores farad times the squared voltage across every capacitor and junction, G dissipates the squared voltage over ohms of every resistor, and each line section half its shunt at either end |
| `Energies.EntryOfForm` | src/scnsim/benchmark/compiler.py:101-136 | a matrix entry is the form of two unit vectors, so the forms say what is stamped where |
| `Energies.BranchForm` | src/scnsim/benchmark/compiler.py:101-112 | an element between two nets, wherever they are, adds its value times the squared voltage across |
| `Energies.AcceptedLeaf` | src/scnsim/benchmark/compiler.py:88-148 | a leaf is accepted exactly for positive capacitance, resistance and inductances, a junction capacitance not negative, and a line with a section and a length |
| `Energies.BranchesListed` | src/scnsim/benchmark/compiler.py:124-136 | every leaf's inductive branches follow those of the leaves before it, in order |
| `Stamping.StationStructured` | src/scnsim/benchmark/compiler.py:113-121 | a shunt with the authored sign premises keeps them on any terminals |
| `Stamping.LineTotal` | src/scnsim/benchmark/compiler.py:101-123 | with one voltage along each conductor a line stores its per-length form times its length, for every section count |
| `Stamping.CutsNonnegative` | src/scnsim/benchmark/views.py:55-57 | on an untransformed model no pair cut is negative |
| `Coupling.CoupledGroups` | src/scnsim/benchmark/compiler.py:152-174 | the worklist search ends and its groups are the connected components of the coupling graph |
| `Coupling.Explore` | src/scnsim/benchmark/compiler.py:165-172 | one search finds exactly the branches a coupling path joins to its start |
| `Coupling.GroupsAreComponents` | src/scnsim/benchmark/compiler.py:162-174 | every branch is in one group and two share one exactly when a path joins them |
| `Coupling.EdgeInOneGroup` | src/scnsim/benchmark/compiler.py:175-180 | every coupling is stamped in exactly one group's inductance matrix |
| `Deltas.Reverse` | scripts/engineer_publication_binding.py:408-427 | undoing rows one by one succeeds exactly when all start from what the mapping holds |
| `Deltas.ReverseOfDelta` | scripts/engineer_publication_binding.py:188-198 | undoing a delta is accepted and recovers the prior mapping exactly unless a changed entry's prior digest is the word for a missing one |
| `Deltas.PriorBinding` | scripts/engineer_publication_binding.py:388-459 | the reversal of a whole transition and its final check |
| `Deltas.TransitionReverses` | scripts/engineer_publication_binding.py:362-459 | a transition's own deltas reverse exactly for reversible bindings, to the prior binding with added and removed keys |
| `Deltas.AbsentDigestLost` | scripts/engineer_publication_binding.py:420-426 | an entry whose prior digest is that word is lost |
| `Reversals.TransitionIs` | scripts/engineer_publication_binding.py:188-387 | a transition records both generators and cell lists, the prior seal, and a row for exactly the entries added, removed or changed |
| `Reversals.ReadBack` | scripts/engineer_publication_binding.py:388-459 | the reversal returns the one binding the transition leads back to, and refuses if there is none |

## Left out

- Floating-point rounding, Cholesky and eigenvalue solves, residual thresholds, Newton loops and the
  JAX and Julia adapters: arithmetic is exact and solves are functions.
- CMA-ES internals: `ask` and `tell` are functions of the saved fields and the generator state; the
  bytes of the generator state and of array cells are values.
- Timing events, trace spans, evidence payloads and the preparation cache: they do not enter
  any record compared here.
- Negative zero and NaN identity, Pint units and Unicode normalization: SI values and normalized
  identifiers are assumed.
- SQLite storage, locks, receipts, Git and wheel provenance, kernels and reports: I/O around the core.
- Journal paths are given by their parts, so a leading or doubled separator is an empty part; temporary
  files of an atomic write appear only through its outcome.
- The record schemas and canonical encodings of journal documents: a decoder function stands for them.
- Mapping.LatentInitial: its contract names the coordinate map; `Mapping.StartIsBaseline` and
  `BoxMap.LatentInverts` say what it is for.
- Adding components and nested scopes: a scope starts with its bodies, visible pins and taps; the
  identifiers, roles and impedances of Ports are not modelled.
- Ownership of handles across scopes: a scope is given the pins it may name and the bodies that are
  local to it; nested scopes matter only through the bodies they contribute to the union check.
- Coupling declarations, exposure of pins and coordinates and the sealing life cycle of a plan: local
  checks with no property across operations.
- The format of a net number (`net-` and at least four digits): names are numbers.
- Eigenvalues in the section count of a line: the count is any positive number.
- The reference impedance square root and boundary matrices of a realized view: numerical linear
  algebra after the rank test.
- The converse of the rank test: a view not marked Port-realizable may still pass it.
- The cut check fails on transformed models in cases the model keeps as `BadCut`; only untransformed
  models are shown never to have a negative cut.
- The inductance matrix of a coupled group and its inverse: only which couplings enter it.
- `OperationRecorder` and plan sealing: bookkeeping with single-step properties.
