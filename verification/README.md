# The patch pipeline and its promotion machinery

The repository grows a machine-learning pipeline by promoting patches. At run time `PatchedPipeline` interprets a
stack of `Patch` classes; when a patch is promoted, `cycle/materialize.py` compiles base and patch into one flat
class; a database row and a stored blob then have to describe that class through uploads, quarantines, rebuilds and
freezes; a daemon leases queue items while an API thread may cancel them. This project models these parts in Dafny
and proves how they relate.

## The compiler

A source (`Python.Source`) is a map from member name to method, plus the module-level helpers and imports, the
`override` set and the `frozen_params` assignments. A method body is a term over constants, parameters, module-level
names, `self.name(...)` calls, bindings and branches. `Python.Eval` evaluates it with fuel and `Python.Run` is the
limit, so recursion through `self` and divergence are in the model and no acyclicity is assumed. Opaque code (helper
text, imported names, builtins) is an arbitrary function of what the name resolves to and of the argument values.

- `Harness` is the layered pipeline: chaining, union, replacement, suppression, the model choice.
- `Materialize` is the compiler: fresh names, wrappers, suppressed hooks, frozen candidates with the dead-helper loop,
  the undefined-name check, the replay.
- `MergeMeaning`, `RepeatedHooks` and `ReplayMeaning` prove that the two agree. One merge preserves the meaning of
  every hook on every input, and `_chain_defines`, **if and only if** every hook that base and patch define with the
  same text is unchanged by a second run. The condition exists because the merge keeps one copy of identical text
  while the layers run both (`cycle/materialize.py:227-231`).
- `ComposedHooks` says what the composed hooks return without naming either side's code: of a column name on both
  sides the patch's column, candidates once and in order, the patch's preprocessing on the base's output; and over a
  whole history of each column name the last promotion's column, in the replayed class too.
- `Independent` lifts this to whole histories from conditions on the patches alone: any number of promotions, with any
  freezes among them, replays without error into a flat class that is interchangeable with the nested pipeline and
  passes the undefined-name check, generated wrappers and imports included. A hook text may be repeated where another
  definition lies between, or where the repetition does no harm.
- `Freeze` and `History` treat freezing: it changes `param_candidates` only, keeps exactly the candidate helpers that
  a path of self references reaches from another member or from a cycle of helpers (replayed classes have no such
  cycle), and freezing afterwards equals freezing while merging.
- `Toplevel` models the texts statement by statement: the names the check takes as defined, the three extractors, and
  the merged text. `Checked` and `CheckedTexts` prove when a merge of two texts that pass the check goes through,
  freeze marks and async defs included: **if and only if** no helper collides, and a star import switches the check
  off, or no composed hook has a version that looks for the hook's own bare name (which counts as bound in a method
  only as long as the method bears it) and no method looks for a top-level `async def` (which the extractors drop).
  Only methods that are left count: a patch method, or a base method that the patch neither replaces nor suppresses;
  and under a freeze neither `param_candidates` nor a candidate helper that nothing else keeps alive. All of it is
  read off the two texts. Both failures are shown with concrete texts, although the check exists to pass what each
  text provides for itself, and so is a helper that a replay binds to the wrong one of two assignments.
- `MergeLimits` shows with concrete inputs that the side conditions are needed: a replaced non-hook member, a rebound
  import, a hook called through `self`, a repeated text.

Side conditions of one merge (`MergeMeaning.Mergeable`): self calls go to non-hook members of the same class; a
non-hook member on both sides has the same text (the code only warns otherwise); a module-level name means the same
to each source before and after; helpers are not called like the two combining functions. For a history
(`Independent.AllIndependent`) the same is asked of the patches pairwise, and that no patch uses a name the merge
generates or has a composable hook that seeks its own bare name. With specs that return something, the model fitted
comes from the last layer that defines one.

## The protocols

- `Registry` is a state machine over promotions in their separate reads (the guard's download, its query, the task's
  own download), failed uploads whose bytes may land anyway, quarantines, both halves of a rebuild, and freezes, in
  any interleaving, the upload and the commit of a promotion being two steps; `RegistryStore` holds the procedures as
  methods of a class, each proved to perform its transition. SHA-256 is taken as injective. `Guard` proves what the
  guard is worth in every reachable state: a blob it accepts with a trusted hash is the class stored on the latest
  valid row. A promotion stores the merge onto that class **if and only if** the blob is still the same at the task's
  own download; and the guard passes after its commit **if and only if** the blob is still the class it uploaded. A
  failed upload whose bytes landed is caught **if and only if** a trusted hash vouches for another class: then no
  later task gets through until something writes the blob or changes the latest valid row. The first promotion of a
  competition has nothing to vouch for anything, so after its failed upload the next task merges onto the unregistered
  class. What else the guard does not see is proved too: an upload between guard and download, a quarantine of an
  earlier row, a quarantine of all rows (which only a promotion ends), and two overlapping promotions, after which one
  promoted layer is missing from the blob. A state is called clean when the latest valid row's class was built from
  exactly the rows that are valid now.
- `ConfirmGate` proves, over any sequence of calls, crashes and expiries, that the gate with its memo and baseline
  cache decides like the gate without them, **except** exactly where the memo still holds the rejection of an earlier
  request with the same base and settings, seeds and rounded scores, and the new request deserves better. Neither the
  candidate nor the holdout seed is compared.
- `Lease` interleaves the daemon's database actions with the API's reads and writes and with signals. A cancel stops
  the item exactly unless it lands in one of four windows. Three lie between a check and a write that does not look
  again (starting a lease, the write after a successful cycle, the write at the end of a lease): there a daemon that
  has not been told to stop can still spend all of the budget. The fourth lies between the check at the top of the
  loop and the trigger, where the pacer may sleep: one more cycle is triggered, and no second one. So the guarantee is
  narrower than the code's comments suggest. A cancel seen at the end of a lease also keeps the lease's last write
  from being made, so that trailing failures are never stored. Successes and failures are counted afresh in each
  lease, so the breaker can fire exactly when one lease can hold enough failures, and an item with an early success
  can end as "all cycles unsuccessful" exactly when it takes more than one lease and the last one is shorter than the
  breaker's threshold; the defaults of 5 and 5 with 7 cycles are such a case. `RoundRobin` is the fairness of the
  queue; the item on lease counts as ahead of an item enqueued meanwhile, and so does an older item that the API gives
  the same priority.
- `Projection`, `Bandit` and `Folds` are the arithmetic: the watchdog's and the harness's CPU projections, the decayed
  bandit, the index mapping that keeps original rows out of validation. The docstring of `_projected_cpu` says the
  harness's projection is never below the watchdog's in fold 1; since the two take their loop-start marks at different
  times this holds only for one fold or equal marks, and otherwise up to (n_splits - 1) times the gap.

## Model

| member | source | states |
|---|---|---|
| Names.UniqueName | cycle/materialize.py:234-240 | the name is outside the existing set; it is the stem when that is free, and otherwise the stem with the first free counter from 2 |
| Names.FindUniqueName | cycle/materialize.py:234-240 | the counter loop ends on any finite set, with the first free name |
| Names.DecimalReadsBack | cycle/materialize.py:234-240 | the counter is written in decimal digits that read back as the number, without a leading zero |
| Names.GeneratedCandidatesMatch | cycle/materialize.py:69 | the helper pattern recognises every name the merge generates for `param_candidates` |
| Names.CandidatesHelperExactly | cycle/materialize.py:69 | the pattern takes exactly the two stems, bare or followed by an underscore and digits |
| Python.CallAgrees | cycle/materialize.py:264-306 | a method moved to another class under any name behaves the same on all inputs when the non-hook members and module names it reaches move with it |
| Harness.LastChooser | evaluator/harness.py:500-520 | the chosen layer defines a model hook, and there is none exactly when no layer of the chain defines any |
| Harness.DispatchOrder | evaluator/harness.py:500-520 | an ensemble spec that is there or raises decides whatever else there is, then a model spec, and build_model only when there is neither |
| Harness.LastModelChoiceWins | evaluator/harness.py:500-520 | over any chain the fitted model is the last choosing layer's own, ensemble before model spec before build_model; BasePipeline's when nobody chooses |
| Harness.LayerOnInterchangeable | evaluator/harness.py:687-774 | interchangeable pipelines stay interchangeable under any further patch |
| Materialize.ApplyFrozenParams | cycle/materialize.py:104-122 | the dead-helper loop ends and leaves what the specification says |
| Materialize.SynthesizeComposedMember | cycle/materialize.py:243-261 | both versions land under fresh names, the wrapper under the hook's, with the imports it needs |
| Materialize.MaterializeBestPipeline | cycle/materialize.py:264-365 | the procedure computes the merge, or fails on a helper collision or an undefined name |
| Materialize.MergeStopsExactly | cycle/materialize.py:264-282 | a merge stops if and only if some helper name has two texts, and then lists exactly those, or some method loads a name that nothing binds or provides |
| Materialize.ReplayBestPipeline | cycle/materialize.py:438-508 | the replay loop folds the merge over exactly the rows up to and with the one to stop at, fails at the first merge that fails, and under strict hashes when the result is not the last trusted text |
| MergeMeaning.WrapperMeaning | cycle/materialize.py:43-64 | each generated wrapper does what PatchedPipeline does with the two versions, exceptions included |
| MergeMeaning.HookPlaces | cycle/materialize.py:284-306 | what the merged class holds under each hook's name: wrapper, patch's, base's, or nothing when suppressed |
| MergeMeaning.LayersKept | cycle/materialize.py:234-300 | every non-hook member of either source is in the merged class unchanged, and self references stay inside |
| MergeMeaning.MergedNamesResolve | cycle/materialize.py:264-345 | a module-level name means the patch's helper, or else the base's, or else, the two combining helpers apart, the patch's import before the base's |
| MergeMeaning.HookAgrees | cycle/materialize.py:30-41 | a hook not repeated with the same text returns the same in the merged class and in the layered pipeline, on every input |
| MergeMeaning.ChainDefinesAgree | evaluator/harness.py:695-709 | `_chain_defines` answers alike for composable hooks and `build_model` |
| ComposedHooks.PatchColumnsWin | evaluator/harness.py:668-674 | the column union keeps the base's columns whose names the patch does not have, in the base's order, and then all of the patch's |
| ComposedHooks.MergedColumns | cycle/materialize.py:43-64 | a composed feature_transform returns, in both frames, the patch's column for every name the patch has, and the base's for the others |
| ComposedHooks.MergedCandidates | evaluator/harness.py:677-684 | a composed param_candidates returns the base's and then the patch's candidates, each at its first occurrence |
| ComposedHooks.MergedPreprocess | cycle/materialize.py:43-64 | a composed preprocess runs the patch's on the two frames the base's returns |
| ComposedHooks.MergedPostprocess | cycle/materialize.py:43-64 | a composed postprocess_predictions runs the patch's on what the base's returns |
| ComposedHooks.MergedHookRaises | cycle/materialize.py:43-64 | where the base's version of a composed hook raises, the hook raises the same, whatever the patch's version does |
| ComposedHooks.ReplacedHookIsPatchs | cycle/materialize.py:284-306 | a hook that the patch overrides, or that is never composed, is the patch's alone in the merged class |
| ComposedHooks.HookNobodyDefines | evaluator/harness.py:609-644 | through any history a hook nobody defines stays the default: frames and predictions unchanged, one empty candidate, no spec |
| ComposedHooks.ReplayedColumns | cycle/materialize.py:476-490 | in the class a history replays into, feature_transform returns of each column name the last promotion's column |
| Python.DedupFacts | evaluator/harness.py:677-684 | the candidate union keeps each element once, loses none, and changes a list exactly when it has duplicates |
| RepeatedHooks.RepeatedHookAgreesExactly | cycle/materialize.py:227-231 | for a hook with the same text on both sides, merged class and layers agree on an input if and only if a second run changes nothing there |
| RepeatedHooks.MergePreservesMeaningExactly | cycle/materialize.py:264-306 | the merged class is interchangeable with the layered pipeline if and only if every repeated hook is harmless |
| RepeatedHooks.FrozenRepeatHarmless | cycle/materialize.py:104-122 | a frozen candidate list may be repeated |
| ReplayMeaning.MergeIsPromotion | cycle/materialize.py:264-365 | one whole merge, freezing included, is one more layer, and keeps the class closed |
| ReplayMeaning.ReplayPreservesMeaning | cycle/materialize.py:476-490 | replaying a history of any length gives a class interchangeable with the nested pipeline over it |
| ReplayMeaning.ReplayedModelChoice | evaluator/harness.py:500-520 | the model fitted from the replayed class is the last chooser's own choice in the nested pipeline |
| ReplayMeaning.LastChooserOfChain | evaluator/harness.py:500-520 | the last chooser is the last promotion that defines a model hook; freezes do not count |
| Independent.StepMergeable | cycle/materialize.py:271-286 | each merge of a history of independent patches meets the side conditions and has no helper collision |
| Independent.KeptPassesCheck | evaluator/contract.py:150-236 | every class of such a history passes the undefined-name check, wrappers and added imports included |
| Independent.IndependentPatchesReplay | cycle/materialize.py:438-508 | any history of independent patches replays without error into an interchangeable flat class with no undefined name |
| Toplevel.ModuleLevelNames | evaluator/contract.py:150-185 | the two passes collect the names of every statement and every import, or give up at a star import |
| Toplevel.UndefinedNamesInPatch | evaluator/contract.py:217-236 | the methods that look for a name the module does not provide |
| Toplevel.ExtractToplevelHelpers | cycle/materialize.py:138-157 | classes, functions and assignments are filed under the names they bind, later ones overwriting; async defs are not |
| Toplevel.ExtractOtherStatements | cycle/materialize.py:160-183 | compound statements are kept, each text once |
| Checked.MergedNames | cycle/materialize.py:125-183 | the merged text provides exactly the names both texts provide outside async defs, those of every import in them, and the added imports |
| Checked.MergePassesExactly | cycle/materialize.py:511-529 | two passing texts merge into a passing text if and only if a star import is there, or no renamed hook seeks its own name and no method seeks an async def |
| Checked.SelfNamingHookFails | evaluator/contract.py:188-210 | texts that each pass and whose merge fails, because the base's hook mentions its own name |
| Checked.AsyncDefIsLost | cycle/materialize.py:138-183 | a text that passes and fails once merged with an empty patch, because its async def is dropped |
| CheckedTexts.MergeGoesThroughExactly | cycle/materialize.py:264-365 | for any two passing texts, freeze marks and async defs included: the merge goes through if and only if no helper collides and, without a star import, no version of a composed hook that is left seeks the hook's own name and no method that is left seeks an async def |
| CheckedTexts.FreezeSavesSelfNamingHookExactly | cycle/materialize.py:104-122 | a base hook that mentions its own name breaks the merge with a patch that redefines it, exactly unless it is `param_candidates` and the patch carries a freeze mark |
| Checked.SharedAssignmentIsRefiled | cycle/materialize.py:138-157 | a replay of `a = b = ...; a = ...` leaves a with the first value, and a second text that agrees with the first collides with the result |
| Checked.CheckedHistoriesReplay | cycle/materialize.py:438-508 | any history of passing texts whose helpers agree and whose hooks do not seek their own names replays without error into a text that passes |
| Checked.CheckAgrees | evaluator/contract.py:217-236 | for texts of imports, classes, functions and assignments, the check on the text and on the class it stands for agree |
| Checked.PassesExactly | evaluator/contract.py:150-236 | a text passes if and only if there is a star import, or every name a method loads is its own, bound in its text, a builtin, or given by a statement or by an import anywhere |
| Checked.MergedTextOrder | cycle/materialize.py:308-365 | in the merged text all imports come first and all compound statements before the helpers |
| Checked.LastDefinitionWins | cycle/materialize.py:138-157 | of several helpers under one name the extractor keeps the last |
| MergeLimits.ReplacedMemberChangesBase | cycle/materialize.py:284-286 | inputs on which a silently replaced member changes the base's model |
| MergeLimits.ReboundImportChangesBase | cycle/materialize.py:125-135 | inputs on which a patch's import rebinds a name for the base's methods |
| MergeLimits.HookCalledThroughSelfReachesWrapper | cycle/materialize.py:243-261 | inputs on which a hook called through self reaches the wrapper and changes the outcome |
| MergeLimits.RepeatedTextRunsOnce | cycle/materialize.py:227-231 | inputs on which identical text runs twice in the layers and once when merged |
| Freeze.PruneKeeps | cycle/materialize.py:112-122 | the loop removes unreferenced candidate helpers only, changes nothing else, and leaves none to remove |
| Freeze.PruneStaysClosed | cycle/materialize.py:112-122 | no self reference is left dangling |
| Freeze.PruneKeepsExactlyReachable | cycle/materialize.py:112-122 | without a cycle among candidate helpers, a helper stays if and only if a path of self references from another member reaches it |
| Freeze.PruneKeepsExactly | cycle/materialize.py:112-122 | cycles included, a member stays if and only if a path of self references reaches it from a member that is no candidate helper or from a cycle |
| Freeze.SelfReferringHelperStays | cycle/materialize.py:112-122 | with a cycle a helper need not be reachable from another member: one referring to itself always stays |
| Freeze.FreezeMeaning | cycle/materialize.py:104-122 | a frozen class behaves like the class under a layer that only fixes `param_candidates` |
| Freeze.FreezeAfterEqualsFreezeWhileMerging | bin/freeze_base.py:74-106 | freezing the merged class gives the same result as merging the marked code, and it succeeds |
| History.EarlierLayersUntouched | cycle/materialize.py:234-261 | whatever names mean, a later promotion neither overwrites nor redirects a wrapper part or renamed layer; only an unreferenced candidate helper may go, when freezing |
| History.ReplayHasNoCycle | cycle/materialize.py:243-261 | references among generated names form no cycle in any replayed class |
| History.FreezeOfReplayIsExact | cycle/materialize.py:104-122 | freezing any replayed class keeps exactly the still reachable candidate helpers |
| Selection.PreselectParams | evaluator/harness.py:860-937 | the loop returns the earliest maximiser of sign times score among the first 12, the only candidate, or the empty params |
| Selection.SelectionIsUnique | evaluator/harness.py:860-937 | that description determines the result |
| Selection.FreezePreservesSelection | evaluator/harness.py:880-937 | the frozen class selects the same params, however it is scored, and offers nothing else |
| Selection.UnionIsBaseThenNew | evaluator/harness.py:677-684 | the union is the base's distinct candidates followed by the patch's distinct new ones, in order |
| Selection.UnionCandidatesAssociative | evaluator/harness.py:677-684 | grouping of candidate unions does not matter, order included |
| Selection.UnionColumnsAssociative | evaluator/harness.py:668-674 | grouping of column unions does not matter, order included |
| Selection.NewCandidatesSurviveAfterFreeze | evaluator/harness.py:884 | right after a freeze the capped pool is the frozen candidate and the first 11 distinct new ones |
| Selection.FullPoolDropsNewCandidates | evaluator/harness.py:884 | with 12 distinct base candidates every new one is dropped |
| Registry.StepKeeps | bin/run_promote_task.py:187-209 | every step keeps: each valid row is hashed as stored, passes the check, and is the replay of the rows it was built from; so is the blob a merge result |
| Guard.GuardedBlobIsLatestSnapshot | cycle/run.py:183-219 | over any interleaving, a blob read at any time that the guard then accepts with a trusted hash is the latest valid row's class, and the replay of the rows it was built from |
| Guard.SnapshotIsMergeOfTrustedExactly | bin/run_promote_task.py:131-209 | whatever happens between query, download and transaction, every promotion is the merge onto the class trusted at the query if and only if the blob at the download is still that class |
| Guard.ColdReadAlwaysPasses | cycle/run.py:183-219 | a task whose guard found no blob passes whatever has been registered since, and merges onto the class another first promotion has stored meanwhile |
| Guard.UploadBetweenGuardAndDownload | bin/run_promote_task.py:404-415 | another task's failed upload in that window makes the next row the merge onto an unregistered class, with the guard passing afterwards |
| Guard.CommitAgreesExactly | bin/run_promote_task.py:187-209 | whatever happens between a promotion's upload and its commit, its row is the merge and the latest one, and the guard passes afterwards if and only if the blob is still the uploaded class |
| Guard.CrossedTransactions | bin/run_promote_task.py:187-209 | when another promotion's transaction falls between upload and commit, the guard passes afterwards if and only if both uploaded the same text |
| Guard.ShutExactly | cycle/run.py:183-219 | over every run without a repair, no task that starts gets past its guard if and only if the guard refuses now |
| Guard.FailedUploadIsCaughtExactly | bin/run_promote_task.py:187-209 | a transaction that fails after its bytes landed keeps no row, and no task that starts later gets past its guard before a repair if and only if a trusted hash vouches for another class; dying before the commit is the same |
| Guard.FirstFailedUploadIsMissed | bin/run_promote_task.py:187-209 | the first promotion of a competition: after its failed upload the guard passes and the next task's base is the unregistered class |
| Guard.OnlyAPromotionRestores | cycle/run.py:183-219 | with every row quarantined, exactly the commit of a promotion makes something vouch for the blob again |
| Guard.AllQuarantinedIsMissed | cycle/run.py:183-219 | until then, over any events, the guard lets every task through, and the first promotion is the merge onto whatever the blob holds, built from rows nobody recorded |
| Guard.CleanBlobIsReplay | bin/rebuild_best_pipeline.py:27-71 | in a clean guarded state the blob is the replay of exactly the valid rows |
| Guard.PromotionLeavesCleanExactly | bin/run_promote_task.py:131-209 | after any interleaving a promotion leaves a clean state if and only if its base was built from the rows valid as it commits |
| Guard.PromotionKeepsClean | bin/run_promote_task.py:131-209 | an uninterrupted promotion keeps the state clean |
| Guard.RebuildMakesClean | bin/rebuild_best_pipeline.py:27-71 | an uninterrupted rebuild makes any state clean and lets the guard pass |
| Guard.HalfARebuildIsCaughtExactly | bin/rebuild_best_pipeline.py:27-71 | a rebuild whose upload raises or that dies before it records changes no row; when its bytes landed, no later task gets past its guard before a repair if and only if a trusted hash vouches for another class than the replay |
| Guard.RecordAgreesExactly | bin/rebuild_best_pipeline.py:46-62 | whatever happens after a rebuild's upload, the replay goes on the row that is the latest valid one by then, and the guard passes if and only if the blob is still the replay |
| Guard.FreezeStaysInStepExactly | bin/freeze_base.py:52-112 | after a freeze that goes through, the stored class is still the replay of the valid rows if and only if the row's code carried no earlier mark, the params do not round-trip, or there was nothing to freeze |
| Guard.UnfinishedFreezeExactly | bin/freeze_base.py:93-110 | from a guarded state, a freeze that does not go through keeps the rows, and the guard passes afterwards if and only if nothing was uploaded, or the restoring upload took effect, or the frozen class is the row's own; a restored blob is the latest valid row's class |
| Guard.FinishedFreeze | bin/freeze_base.py:93-112 | a freeze that goes through stores the frozen class as the blob and on the latest valid row, marks that row's code last, and changes no other row |
| Guard.FrozenClassOffersOnly | cycle/materialize.py:104-122 | the class a freeze stores offers the frozen params and no other candidate |
| Guard.SecondMarkFallsOutOfStep | bin/freeze_base.py:52-112 | the first promotion of a code frozen to p, then a freeze to q that goes through: the guard passes, but the stored class is not what the row replays to |
| Guard.QuarantineOfLatestIsCaught | bin/quarantine_leaks.py:90-139 | after quarantining the latest row the guard passes only if the preceding valid class is the same text |
| Guard.QuarantineOfEarlierIsMissed | bin/quarantine_leaks.py:142-194 | after quarantining an earlier row the guard still passes although the blob contains its layer |
| Guard.OverlappingPromotionsDropALayer | bin/run_promote_task.py:131-209 | of two overlapping promotions the second drops the first one's layer, and the guard passes |
| RegistryStore.Store.GuardQueries | cycle/run.py:191-219 | the guard's branches accept the blob it read exactly when there is none, nothing vouches, or the hashes match |
| RegistryStore.Store.DownloadBase | bin/run_promote_task.py:404-415 | the task's own download gives the blob of that moment, not the one the guard read |
| RegistryStore.Store.UploadWinner | bin/run_promote_task.py:187-209 | merge and upload inside the transaction: a failure keeps no row, whether or not the bytes landed |
| RegistryStore.Store.CommitWinner | bin/run_promote_task.py:187-209 | the commit makes the inserted row visible and leaves the blob as it is |
| RegistryStore.Store.PromoteWinner | bin/run_promote_task.py:131-209 | undisturbed, the transaction keeps both row and blob or no row |
| RegistryStore.Store.QuarantineRow | bin/quarantine_leaks.py:90-139 | only the row's mark changes, the blob stays |
| RegistryStore.Store.Rebuild | bin/rebuild_best_pipeline.py:27-71 | when it completes, blob and latest row are the replay of the valid rows and the guard passes |
| RegistryStore.Store.FreezeLatestRow | bin/freeze_base.py:52-112 | evaluation, upload, read back, update and restore perform the freeze transition, whatever fails; it reports success exactly when the blob reads back and the update takes effect, and otherwise keeps every row |
| ConfirmGate.GateKeepsSound | cycle/promotion.py:365-458 | the cache holds measured baselines only, and each memo is the measured rejection of a request of the history that deserves no other verdict: never an error, a failed holdout or an acceptance |
| ConfirmGate.ConfirmsExactly | cycle/promotion.py:520-714 | without a cache a candidate is confirmed if and only if it is below the ceiling, gains more than zero on every seed, is not worse on the holdout, and nothing needed for that crashes |
| ConfirmGate.FreshCallReports | cycle/promotion.py:365-458 | a call without a memo measures the holdout even where a seed showed no gain, reports what it measured, and stores a baseline for exactly the seeds it got to and the holdout |
| ConfirmGate.CachedGateConfirmsExactly | cycle/promotion.py:309-458 | after any sequence of calls, crashes and expiries, a crash-free call confirms what the uncached gate confirms, and differs if and only if it deserves to be confirmed and the rejection of a request with the same base and settings, seeds and rounded scores is still remembered |
| ConfirmGate.OtherRejectionsChangeNothing | cycle/promotion.py:106-132 | no rejection measured against another base or other settings, on other seeds, or with other rounded scores changes a verdict |
| ConfirmGate.MemoRepeatsTheReport | cycle/promotion.py:365-382 | a remembered rejection is reported again as it was, without an evaluation and without a change of the cache |
| ConfirmGate.CachedGateRefinesUncached | cycle/promotion.py:309-458 | where the earlier requests like a call deserve its verdict, the cache changes no crash-free verdict, and under crashes confirms at least what the uncached gate does and at most what it would without crashes |
| ConfirmGate.SharedSignatureRejects | cycle/promotion.py:134-139 | a rejected request leaves a memo that rejects every later request like it, whatever that one deserves |
| ConfirmGate.RejectedThenConfirmed | cycle/promotion.py:309-458 | a history with a remembered rejection in which the signature decides and a further candidate is confirmed |
| ConfirmGate.PromotionCache.BaselineScore | cycle/promotion.py:464-517 | a stored score is reused; a fresh one is stored unless the evaluation crashed |
| ConfirmGate.PromotionCache.CrossSeedConfirm | cycle/promotion.py:520-604 | the loop stops at the first seed that crashes or shows no gain over the baseline score it got, stored or fresh, caching the baselines it measured |
| ConfirmGate.PromotionCache.HoldoutGate | cycle/promotion.py:653-714 | the holdout comparison and the cache after it, crashes included |
| ConfirmGate.PromotionCache.ConfirmAndMeasure | cycle/promotion.py:309-458 | the procedure keeps the cache sound and, without crashes, confirms exactly what the uncached gate does unless the rejection of a request like it is remembered |
| Lease.CancelIsFinal | bin/run_daemon.py:657-714 | a cancel written anywhere but right before a blind write is final on every path, restarts included: nothing more is triggered, but for the one cycle whose check has been passed when it lands between check and trigger |
| Lease.CancelIsLostExactly | bin/run_daemon.py:657-714 | k further cycles can follow a cancel if and only if it lands between check and trigger and k is 1, or right before a blind write with the daemon going on and k within the budget left |
| Lease.LeaseProgress | bin/run_daemon.py:580-714 | in any crash-free run: at most n_cycles cycles, never left running; unless it is cancelled, the row of an item at rest stores every cycle triggered, all n_cycles when it is done or failed as all unsuccessful |
| Lease.DaemonCancelStoresAll | bin/run_daemon.py:657-710 | an item that the daemon cancels at the top of the loop or after a cycle stores every cycle |
| Lease.ProgressFallsBehindExactly | bin/run_daemon.py:580-602 | an item at rest can store fewer cycles than were triggered if and only if a lease can end with a failed cycle: a cancel seen at the end of the lease keeps the last write from being made |
| Lease.SignalIsHeeded | bin/run_daemon.py:657-664 | after a signal at most the cycle whose check has been passed is triggered, over any run without a restart |
| Lease.ItemPoppedAfterSignalIsCancelled | bin/run_daemon.py:753-763 | an item popped after the signal is leased and then cancelled with nothing triggered |
| Lease.RestartResumes | bin/run_daemon.py:744-750 | after a crash an item left running is in the queue again and goes on from its stored progress |
| Lease.CountersTellTheLease | bin/run_daemon.py:641-688 | over any run the daemon's counters are the successes and failures of the last lease and the failures since its last success |
| Lease.BreakerFiresAtOnceExactly | bin/run_daemon.py:678-691 | a failed cycle opens the breaker if and only if the lease's failures since its last success have reached the threshold |
| Lease.RequeueAdvances | bin/run_daemon.py:580-606 | an item is requeued exactly when budget is left, advanced by the lease size |
| Lease.BreakerFiresExactly | bin/run_daemon.py:640-688 | the breaker fires in some run, crashes included, if and only if one lease of the item can hold the threshold of failures |
| Lease.EarlierSuccessIsForgottenExactly | bin/run_daemon.py:194-199 | an item with a successful cycle can end as failed with all cycles unsuccessful if and only if it takes more than one lease and the last one is shorter than the breaker's threshold |
| Lease.QueueRow.Perform | bin/api.py:1271-1301 | the API arms a cancel only on a pending or running status, and writes it later without another look |
| Lease.QueueRow.RunCycle | bin/run_daemon.py:657-710 | one turn of the loop is a run of the step relation, ending the lease cancelled or failed with every cycle stored, or counting one cycle |
| Lease.QueueRow.FinishLease | bin/run_daemon.py:580-606 | the lease's end is a run of the step relation back to the queue |
| Lease.QueueRow.Process | bin/run_daemon.py:624-717 | with API requests and signals between any two actions, a whole lease is a run of the step relation, never leaves the item running; a requeued item advances by the lease size, and one that is not cancelled stores every cycle triggered |
| RoundRobin.StepShrinksAhead | bin/api.py:1271-1301 | nothing gets ahead of a waiting item but an item given its priority through the API, and each lease removes one of those ahead |
| RoundRobin.BoundedWait | bin/run_daemon.py:153-170 | while an item waits, at most as many leases are given as items were ahead or were given its priority meanwhile |
| RoundRobin.LeasedAfterAtMostAhead | bin/run_daemon.py:153-170 | of any m + 1 leases given with m items ahead, pending or on lease, or given the priority meanwhile, one is the item's |
| RoundRobin.RaisedItemGoesFirst | bin/api.py:1271-1301 | the moves have to be counted: an older item raised to the priority is leased first |
| RoundRobin.ItemOnLeaseGoesFirst | bin/run_daemon.py:609-615 | the item on lease has to be counted: it can be leased once more before an item enqueued meanwhile |
| RoundRobin.OneLeaseAtATime | bin/run_daemon.py:753-763 | over any run at most one item is on lease |
| RoundRobin.CancelledOrFinishedIsOver | bin/run_daemon.py:153-170 | a cancelled or finished item is not leased again unless it is enqueued anew |
| RoundRobin.PopPending | bin/run_daemon.py:153-170 | a pending item of highest priority and longest wait, or none when nothing is pending |
| Projection.ProjectedCpu | runtime/isolate.py:174-203 | the scan of the log computes the specified projection |
| Projection.LogProjectionCoversUse | runtime/isolate.py:174-203 | for any log with nondecreasing readings the projection is at least the CPU used |
| Projection.ProjectsTheFoldsDone | runtime/isolate.py:197-203 | from fold 2 on the total is the last mark and, for each fold left, the larger of the average of the folds done and what the fold in progress has used |
| Projection.EvenFoldsAreProjectedExactly | runtime/isolate.py:174-203 | folds of one cost each are projected as exactly all folds at that cost, while the next has not cost more |
| Projection.ProjectsExactlyWhileFoldsRun | runtime/isolate.py:180-198 | whatever came before in the log, there is a projection if and only if cross-validation is not over and fewer folds than there are have been done since the preselection last ended |
| Projection.ProjectionGrowsWithinFold | runtime/isolate.py:174-203 | until a line ends the fold the projection only grows and names the same fold |
| Projection.Fold1WithinGap | evaluator/harness.py:1049-1057 | in fold 1 the watchdog's projection exceeds the harness's by at most (n_splits - 1) times the gap of their marks |
| Projection.Fold1NeverAboveHarnessExactly | runtime/isolate.py:174-179 | it is never above the harness's throughout fold 1 if and only if there is one fold or the marks are equal |
| Projection.Fold1KillIsJustified | runtime/isolate.py:174-179 | after a fold-1 kill the harness's own projection would have exceeded the limit too, up to that gap |
| Projection.ProjectedPreselectCpu | runtime/isolate.py:206-233 | the scan of the log computes the specified preselection estimate |
| Projection.LogPreselectCoversUse | runtime/isolate.py:206-233 | for any log with nondecreasing readings the estimate is at least the CPU used |
| Projection.EvenFitsAreEstimatedExactly | runtime/isolate.py:206-233 | fits of one cost each are estimated as exactly all candidates at that cost |
| Projection.PreselectFromLastStart | runtime/isolate.py:211-229 | whatever came before in the log, the last start and the last fit since decide, and there is an estimate until the last candidate or the end of the preselection |
| Projection.Watch | runtime/isolate.py:259-313 | polling ends at the first poll whose checks, in their order, decide; the peaks are those of the readings taken |
| Projection.DecisionsMean | runtime/isolate.py:259-313 | a run goes on if and only if no reading and no projection is above its limit, time is left and the process runs; each other decision likewise |
| Projection.PeaksTellTheKill | runtime/isolate.py:259-313 | the recorded peaks exceed their limits exactly after a memory or CPU kill |
| Bandit.Table.Update | cycle/action_optimizer.py:58-88 | one row is decayed and incremented, inserted from the prior if missing; unknown actions change nothing |
| Bandit.BoundsHold | cycle/action_optimizer.py:58-88 | over every update sequence alpha and beta are at least 1 and the observed mass is below 20 |
| Bandit.GainsInARow | cycle/action_optimizer.py:40-88 | any number of neutral attempts with a gain moves alpha towards 11 and beta towards 3 by the power of the decay |
| Bandit.IdlingDecidesNothing | cycle/action_optimizer.py:40-101 | attempts that do nothing keep a fresh action's mean at one half and its observed mass below 4 |
| Bandit.DeadExactly | cycle/action_optimizer.py:91-101 | whatever is stored, an arm is dead if and only if its parameters add up to at least 7 and alpha is below a ninth of beta |
| Bandit.LowMeanIsDead | cycle/action_optimizer.py:91-101 | a reachable action is dead if and only if its mean is low: the observed-mass threshold never decides |
| Bandit.FreshDiesAtTenthFailure | cycle/action_optimizer.py:91-101 | a fresh action is dead after k failures in a row if and only if k is at least 10 |
| Bandit.AnyDiesAfter55Failures | cycle/action_optimizer.py:91-101 | 55 failures in a row kill any reachable action |
| Bandit.DeathPersists | cycle/action_optimizer.py:91-101 | a dead action stays dead under further failures |
| Bandit.TwoJumpsRevive | cycle/action_optimizer.py:40-101 | two jumps in a row revive any reachable action |
| Bandit.OneJumpMayNotRevive | cycle/action_optimizer.py:40-101 | after 55 failures one jump is not enough |
| Folds.SyntheticOnlySplits | evaluator/harness.py:800-811 | each split maps both sides to whole-set rows, original rows joining the train side |
| Folds.MappedPartitions | evaluator/harness.py:826-857 | one split of the synthetic rows becomes a partition of all rows with every original row in train and none in the other side; folds, preselection and the audit holdout share it |
| Folds.ValidationPartitionsSynthetic | evaluator/harness.py:793-823 | the validation sides of all folds hold exactly the synthetic rows, each in one fold |
| Folds.CollectOof | evaluator/harness.py:1203-1270 | nothing is collected for classification metrics; otherwise the array holds each written fold's predictions at its validation rows and nothing elsewhere, the fold that reaches a cap not being written |
| Folds.OofFillsExactlySynthetic | evaluator/harness.py:1198-1270 | exactly the original rows' positions stay empty if and only if the folds not written validate nothing |

## Left out

- Parsing and unparsing of Python, text layout, docstrings, import order and the text comparison of members: members and helpers are values, and equal text is equal value.
- Class-body statements other than members, class attributes that are not hooks (modelled as methods without parameters), default arguments, base classes on `Patch`, decorators and metadata attributes.
- State that hooks keep on `self` or in module globals: hooks are functions of their arguments.
- The bodies of module-level helpers: what a helper does depends on its text and its arguments, so a helper that uses other module-level names is covered only while those keep their meaning.
- Compound top-level statements (try/except imports, `if` guards), star imports and async functions are modelled for the undefined-name check, not in the meaning of the hooks.
- Checked.CheckedHistoriesReplay: texts with assignments to several names are excluded, because a replay may file such a name under another statement, as `Checked.SharedAssignmentIsRefiled` shows; the condition on the hooks is sufficient, the exact one is stated for a single merge.
- CheckedTexts.MergeGoesThroughExactly: texts that call a candidate helper neither of them has, and async defs named like a version the merge generates, are excluded.
- Materialize.MaterializeBestPipeline: the final syntax validation of the merged text is not modelled.
- Materialize.ReplayBestPipeline: the cut-off by time is the query's, so the rows given are those it returns.
- Model fitting, metrics, early stopping, retries, ensembles and data frames: opaque functions; scores are exact reals.
- Selection.PreselectParams: the score of a candidate is a function of the candidate; fitting and the crash of a fit are outside.
- Guard.GuardedBlobIsLatestSnapshot: rows without a materialized hash, rows marked `unverifiable:`, promotions recorded out of `run_ts` order and the backfill of old rows are outside; a download does not spuriously return nothing.
- RegistryStore.Store.FreezeLatestRow: runs while no promotion or rebuild is in progress; a dry run, which stops after the evaluation, is not modelled.
- Picking the winner among attempts, the `was_promoted` flag, the evaluation of the merged class before it is stored, and the data and evaluation fingerprint guards.
- ConfirmGate.CachedGateConfirmsExactly: expiry is entries disappearing; evaluations, the signature and the comparison with the leaderboard are deterministic functions of context and candidate when nothing crashes; `best_params` and `tuned_params`, which are not in the key, and the measured holdout delta are outside.
- Lease.LeaseProgress: crashes are excluded, since a restart forgets what the last lease did not store.
- The Ollama pacer, bootstrap baselines, tuning triggers, submission sweeps and queue refills; a refill is an enqueue event of the fairness model.
- RoundRobin.BoundedWait: items of higher priority must not pend while the item waits, as the ordering serves them first; when the item's own priority is changed, the bound starts anew.
- Projection.ProjectedCpu: the rounding of CPU seconds in log lines and the reading of `/proc` are outside; readings are exact.
- The fold-1 tie and futility shortcuts of the harness, which end the loop early when no out-of-fold predictions are collected.
- Folds.ValidationPartitionsSynthetic: the library splitters are taken to give a partition; stratification is outside.
- Thompson draws, the assignment of actions to a super-cycle and the re-exploration window.
- LLM agents, prompts, embeddings, the dashboard, Kaggle, Airflow, storage and subprocess handling.
