# postvec: a verified model of its core

postvec keeps embedding vectors in PostgreSQL up to date. This project models the parts of it whose
promises are universal, and proves those promises for every input or every run:

- **Chunking** (`Chunk*.dfy`): the recursive character splitter. `ChunkSpec` is the declarative form
  (cut to pieces, merge the pieces, report the first cap broken or deliver the non-blank spans).
  `ChunkSplitter` is the streaming form, a recursive walk feeding a mutable merger, proved to deliver
  exactly that. `ChunkGreedy` and `ChunkCuts` say what the spans and the cuts are without the merge
  and the recursion. The other files prove tiling, coverage, word integrity, what each refusal reports
  and exactly which geometries can exhaust the output budget.
- **Model closure and ceiling** (`ModelStore`, `ModelRoutes`, `ModelClosure`, `EngineLoad`,
  `ResidentCeiling`, `UnloadOrder`): the memoised dependency walk and the order in which it meets names, boot, admin
  loads and unloads, and the order unloads run in.
- **Engine lifecycle** (`ModelResolver`, `Lifecycle`, `LoadAnswers`, `LoadCompletes`, `EngineMaps`,
  `Permits`, `PermitGrants`, `NestedWork`): loads, cancellations and unloads as atomic steps around one commit gate,
  and what a load answers; the name resolver; the engine object, whose publication, rollback and unload
  are those steps; weighted permits that outlive their callers.
- **Response budgets** (`Envelope`): admission arithmetic against the later size check.
- **Templates** (`Template*.dfy`): the parser, a printer that inverts it, and its exact image.
- **Rendered SQL** (`Sql*.dfy`): quoting, a lexer and a precedence parser for the emitted fragment
  (operator precedence of section 4.1.6 of the PostgreSQL manual), the render and length expressions
  as text, as tokens, as the trees the text groups into and as values on a row.

`Text`, `Utf8`, `Names` and `Arithmetic` hold what several of these share.

Text is a sequence of Unicode scalar values; `Text.Bytes` is its length in UTF-8. A position in an
error is a byte position, as in the source. In the state machines, clocks, cancellation, disk reads,
instantiation and executor builds are nondeterministic steps; where loads are methods, the names that
cannot be read or built are inputs. `dafny verify dfyconfig.toml` checks the project.

Two properties one would expect are false of the code. The model follows the code and proves the
exact condition under which each holds:

- The comment at `core/src/chunking.rs:56-57` says the output budget admits any overlap up to 75% of
  the chunk size. `ChunkHostile.ThreeQuartersCanFail` gives a family of documents refused there.
  Exactly when some document is refused for its budget is `CanExhaust`, an arithmetic condition on
  size and overlap that takes the document limit into account (`ChunkHostile.BudgetRefusalsExact`).
  At chunk sizes up to 5,000 it is `5 * overlap > 3 * (size + 1)` (`ChunkHostile.ThreeFifths`); at
  100,000 characters the documents that would exhaust the budget can be too long to be read at all
  (`ChunkHostile.LargeChunksHaveRoom`). For documents without whitespace the condition, under the
  document limit and the chunk cap, is `SolidCanExhaust` (`ChunkSolid.SolidRefusalsExact`), and at
  chunk sizes up to 3,000 the documented 75% (`ChunkSolid.ThreeQuarters`).
- A disabled model named explicitly as a root is refused by the closure walk only if no earlier root
  depends on it (`ModelClosure.DisabledRootDependsOnOrder`); the exact condition is `RefusedRoot`.

## Model

| member | source | states |
|---|---|---|
| ChunkSplitter.SplitRecursive | core/src/chunking.rs:136-181 | the streaming splitter returns exactly the outcome of the declarative splitter, refusals included, for every text and every geometry |
| ChunkSplitter.Merger.constructor | core/src/chunking.rs:169-178 | a fresh merger has accepted no piece and is valid over any text |
| ChunkSplitter.Merger.Emit | core/src/chunking.rs:232-255 | an emitted span is charged and kept unless blank; a refusal is the first cap broken, budget before count |
| ChunkSplitter.Merger.Push | core/src/chunking.rs:205-227 | the merger's state after a piece is the fold of every piece pushed, or it has failed on the first span that breaks a cap |
| ChunkSplitter.Merger.Finish | core/src/chunking.rs:258-273 | closing the stream delivers the numbered non-blank spans of the fold, or its first violation |
| ChunkSplitter.Walk | core/src/chunking.rs:278-327 | from any level the walk pushes exactly the pieces of its span; on an early failure, a prefix of them |
| ChunkSplitter.Segment | core/src/chunking.rs:331-343 | one segment pushes exactly the pieces of the next level |
| ChunkSplitter.WalkStrides | core/src/chunking.rs:291-304 | the character fallback pushes strides of size minus overlap |
| ChunkSplitter.ClosedPrefix | core/src/chunking.rs:205-227 | spans closed by a prefix of the stream stay closed and come first |
| ChunkSplitter.EarlyFailure | core/src/chunking.rs:232-255 | a cap broken part way through decides the outcome of the whole document |
| ChunkSpec.PiecesTile | core/src/chunking.rs:278-343 | from any start level the pieces are non-empty, contiguous, at most `size` long and tile the span exactly |
| ChunkSpec.ScanTiles | core/src/chunking.rs:308-326 | the segments of a separator split are non-empty, adjacent and tile their span |
| ChunkSpec.ScanCuts | core/src/chunking.rs:308-326 | every segment but the last ends with the separator, and none holds it earlier |
| ChunkCuts.PiecesCut | core/src/chunking.rs:278-343 | at every level, pieces are cut only inside a stretch longer than a chunk, after the strongest separator it holds, or by strides if it holds none |
| ChunkCuts.CutsAreStrongest | core/src/chunking.rs:65-76 | of a whole document, with the ten separators written out in their order |
| ChunkChain.MergeChains | core/src/chunking.rs:205-227 | merging a contiguous stream gives spans with strictly increasing starts and ends, no gap, bounded overlap and length |
| ChunkGreedy.MergeIsGreedy | core/src/chunking.rs:205-227 | each span takes pieces until the next would not fit, and the span after it starts as early as progress, the overlap and the room for that piece allow |
| ChunkGreedy.GreedyIsUnique | core/src/chunking.rs:205-227 | those rules leave one way to merge a stream of pieces |
| ChunkGreedy.SpansAreTheGreedyMerge | core/src/chunking.rs:136-181 | the attempted spans of a document are that merge of its pieces and nothing else is |
| ChunkGreedy.CarryIsMaximal | core/src/chunking.rs:216-222 | the overlap carried is the most there is room for: no earlier start would pass the previous start, keep to the overlap and leave room for the piece |
| ChunkChain.SpansChain | core/src/chunking.rs:136-181 | the attempted spans of any document chain over it from 0 to its length |
| ChunkChain.ChainIncreases | core/src/chunking.rs:205-227 | progress and the overlap bound hold between any two spans, not only neighbours |
| ChunkChain.ChainCovers | core/src/chunking.rs:205-227 | every offset lies in some attempted span |
| ChunkChain.SplitIsSound | core/src/chunking.rs:136-181 | on success chunks are numbered from 0, are the text they name, advance strictly, overlap by at most `overlap`, and hold every non-blank character |
| ChunkChain.CountWithinCap | core/src/chunking.rs:232-255 | a delivered document keeps within both caps |
| ChunkChain.BudgetErrorReports | core/src/chunking.rs:232-255 | a budget error reports the budget and a count above it by at most `size` |
| ChunkChain.BlankFastPathAgrees | core/src/chunking.rs:160-167 | on blank text the general path also delivers nothing, unless its budget runs out, and never hits the count cap |
| ChunkChain.OutcomeIsUnique | core/src/chunking.rs:136-181 | the declarative contract admits one outcome per input |
| ChunkChain.OutcomeExists | core/src/chunking.rs:136-181 | and it admits one for every input |
| ChunkChain.FirstViolationWins | core/src/chunking.rs:232-255 | the violation reported is the first in span order |
| ChunkOutcomes.GuardsExact | core/src/chunking.rs:136-167 | bad geometry, a document over 33,554,432 bytes and a blank document are recognised exactly, in that order |
| ChunkOutcomes.RefusalReports | core/src/chunking.rs:232-255 | a refusal names the span where a cap is first broken: the budget with the characters charged up to it, or 10,000 chunks when the budget still holds |
| ChunkOutcomes.BlankDocument | core/src/chunking.rs:160-167 | a document of the 25 whitespace code points delivers nothing |
| ChunkOutcomes.InkIsKept | core/src/chunking.rs:232-255 | any other character lies in a delivered chunk |
| Utf8.EncodeDecodes | core/src/chunking.rs:152-157 | the byte length of a text is that of its UTF-8 encoding, which decodes back to it |
| ChunkChain.ZeroOverlapLosesOnlyBlanks | core/src/chunking.rs:205-255 | without overlap, only whitespace lies before, between and after the chunks |
| ChunkWords.WordIntegrity | core/src/chunking.rs:65-76 | every attempted span ends at a word boundary if and only if every word fits in a chunk |
| ChunkWords.PiecesEndAtWords | core/src/chunking.rs:278-343 | with short words every piece ends at a word boundary and the character fallback never runs, through all levels |
| ChunkWords.FallbackUnreachable | core/src/chunking.rs:291-304 | a span of short words that reaches the fallback already fits |
| ChunkWords.StartsAtWords | core/src/chunking.rs:205-227 | without overlap attempted spans of short words start at word boundaries too |
| ChunkWords.ChunksKeepWords | core/src/chunking.rs:136-181 | if every word fits, every delivered chunk ends at a word boundary, and without overlap starts at one |
| ChunkWords.ChunksNeedBreaks | core/src/chunking.rs:136-181 | chunks that all end at word boundaries need a break in every window of a chunk's length that starts with a visible character |
| ChunkWords.ChunkWordIntegrity | core/src/chunking.rs:136-181 | where the only whitespace is spaces and newlines, delivered chunks end at word boundaries if and only if every word fits |
| ChunkWords.TabsHideALongWord | core/src/chunking.rs:232-255 | with other whitespace the equivalence fails: a blank span that ends inside a long word is dropped |
| ChunkBudget.ChainCharge | core/src/chunking.rs:174 | in any chain two consecutive spans add at least size + 1 - overlap new characters, which bounds the charge |
| ChunkBudget.ModerateOverlapInBudget | core/src/chunking.rs:53-60 | if 5 * overlap <= 3 * (size + 1), no document exceeds its output budget |
| ChunkBudget.InBudgetNeverRefused | core/src/chunking.rs:232-255 | a document within its budget is never refused for it |
| ChunkBudget.OverBudgetRefused | core/src/chunking.rs:232-255 | a document the splitter reads and that is over its budget is refused, for the budget or the chunk cap |
| ChunkBudget.ChainBounds | core/src/chunking.rs:205-255 | the most a chain of any number of spans can charge, and the least it can extend |
| ChunkBudget.FewSpansClear | core/src/chunking.rs:232-255 | within the budget and the cap everything is delivered |
| ChunkHostile.HostilePieces | core/src/chunking.rs:278-343 | the hostile document is cut at exactly its spaces |
| ChunkHostile.HostileCharge | core/src/chunking.rs:205-227 | in the steady state every word charges its own length and one full overlap, exactly |
| ChunkHostile.HostileAttains | core/src/chunking.rs:205-255 | the hostile document attains the most a chain of its length can charge |
| ChunkHostile.BlankTextRefused | core/src/chunking.rs:232-255 | blank spans are charged too: an almost blank document over budget is refused for the budget |
| ChunkHostile.BudgetRefusalsExact | core/src/chunking.rs:49-60 | some document is refused for its budget if and only if the arithmetic on size, overlap and the document limit says so |
| ChunkHostile.ThreeFifths | core/src/chunking.rs:49-60 | no such document exists up to three fifths of size + 1; past it, at chunk sizes up to 5,000, one always does |
| ChunkHostile.LargeChunksHaveRoom | core/src/chunking.rs:49-60 | at size 100,000 and overlap 60,001 no document is refused for its budget |
| ChunkHostile.ThreeQuartersCanFail | core/src/chunking.rs:56-57 | at exactly 75% overlap of chunk size 4m, from 8 up, a document of 11m + 9 characters is refused for its budget |
| ChunkSolid.SolidSpansExact | core/src/chunking.rs:291-304 | without whitespace every carried overlap is exact and every inner span is full |
| ChunkSolid.SolidChunksExact | core/src/chunking.rs:205-227 | the same of the delivered chunks, from the first character to the last |
| ChunkSolid.SolidSpans | core/src/chunking.rs:291-304 | where each span of a whitespace-free document ends and what any number of them charges, exactly |
| ChunkSolid.SolidRefusalsExact | core/src/chunking.rs:49-60 | some whitespace-free document is refused for its budget if and only if the arithmetic on size, overlap, document limit and chunk cap says so |
| ChunkSolid.ThreeQuarters | core/src/chunking.rs:49-60 | no such document exists up to three quarters; past it, at chunk sizes up to 3,000, one always does |
| ChunkSolid.LargeChunksMeetACap | core/src/chunking.rs:49-60 | at size 100,000 and overlap 75,001 no whitespace-free document is refused for its budget |
| ModelStore.PathDescends | postvec-server/src/models.rs:262-327 | a dependency path inside a load order moves strictly towards its front |
| ModelStore.OrderAcyclic | postvec-server/src/models.rs:262-327 | nothing in a load order lies on a dependency cycle |
| ModelStore.OrderHoldsReachable | postvec-server/src/models.rs:262-327 | a load order that holds the roots holds everything they reach |
| ModelRoutes.DiscoveryIsFirst | postvec-server/src/models.rs:262-327 | a name the walk meets that is neither planned nor on its stack is met by its first route |
| ModelRoutes.FirstRouteIsUnique | postvec-server/src/models.rs:262-327 | there is one first route to a name |
| ModelRoutes.LoadOrderIsFlat | postvec-server/src/models.rs:248-260 | roots listed dependencies first are all first met as roots |
| ModelClosure.Walk.Visit | postvec-server/src/models.rs:262-327 | one visit keeps the walk invariant, plans its name, restores the stack, meets every name by its first route, and every error names a real cycle, depth, ceiling or descriptor fault |
| ModelClosure.Walk.VisitDependencies | postvec-server/src/models.rs:313-323 | the dependency loop plans every dependency or fails for a real reason |
| ModelClosure.ClosureOf | postvec-server/src/models.rs:248-260 | success returns exactly the reachable set, acyclic, within the ceiling, with exactly its disabled members; errors are real; it succeeds if and only if the roots are plannable and every name is first met within 32 edges |
| ModelClosure.ExactIsPlannable | postvec-server/src/models.rs:248-260 | an exact closure implies resolvable, acyclic, small enough, no refused root |
| ModelClosure.ExactOnDisk | postvec-server/src/models.rs:248-327 | on disk: every member has one readable descriptor that names its directory, the roots and all a member's descriptor lists are members, and the disabled are those switched off |
| ModelClosure.ExactIsLeast | postvec-server/src/models.rs:248-327 | and no smaller set holds the roots and what its descriptors list |
| ModelClosure.ErrorIsNotPlannable | postvec-server/src/models.rs:262-327 | every error but the depth bound contradicts plannability |
| ModelClosure.DisabledRootDependsOnOrder | postvec-server/src/models.rs:271-309 | the same two roots are plannable in one order, so the walk accepts them, and not in the other |
| ModelClosure.NotDeepIsShallow | postvec-server/src/models.rs:262-277 | where no dependency chain passes 32 edges the depth bound is never met |
| ModelClosure.DeepChainSucceeds | postvec-server/src/models.rs:271-277 | a chain of any length succeeds when the list names dependencies first |
| ModelClosure.ChainDepth | postvec-server/src/models.rs:271-277 | asked for by its top alone, a chain meets the depth bound exactly when it has more than 33 models |
| ModelClosure.AdminLoadClosure | postvec-server/src/models.rs:332-344 | the admin plan is exactly what the name reaches, all enabled; else exactly the disabled members; refused if and only if the name is not plannable or is met too deep |
| UnloadOrder.ReverseDependencyOrder | postvec-server/src/admin.rs:268-291 | the loop computes the order that repeatedly takes the first unblocked name |
| UnloadOrder.OrderIsPermutation | postvec-server/src/admin.rs:268-291 | for any dependency map, each requested name appears exactly once |
| UnloadOrder.UnloadsInTurn | postvec-server/src/admin.rs:268-291 | each name unloaded is the first asked for that nothing left depends on, and if everything left is depended on, the first asked for |
| UnloadOrder.DedupKeepsOrder | postvec-server/src/admin.rs:268-274 | without repetition the names stand in the order they are first asked for |
| UnloadOrder.DependentsFirstIffAcyclic | postvec-server/src/admin.rs:265-291 | dependents precede their dependencies if and only if the requested names hold no cycle |
| UnloadOrder.TransitiveDependentsFirst | postvec-server/src/admin.rs:265-291 | the order runs forward along any chain through requested names |
| UnloadOrder.AllBlockedIsCyclic | postvec-server/src/admin.rs:276-288 | the fallback pick is only taken inside a cycle |
| ResidentCeiling.Node.LoadModel | engine/src/lib.rs:520-599 | under a load order the unguarded recursion terminates; it succeeds if and only if everything the name needs beyond what is resident works, and then adds exactly that; on failure it adds only needed names whose dependencies are resident |
| ResidentCeiling.Node.Boot | postvec-server/src/engine_host.rs:35-91 | boot starts exactly when the closure walk succeeds and, with an explicit list, nothing failed; each root in turn is loaded over what the ones before left and reported as loaded or failed, all of them without an explicit list, up to the first failure with one; it keeps the ceiling and loads only reachable, resolvable names |
| ResidentCeiling.Node.LoadOne | postvec-server/src/admin.rs:136-249 | each refusal has its exact reason and changes nothing; the preflight refuses exactly the names whose closure cannot be planned or is not all enabled; past it and the ceiling the name is loaded exactly when all it needs works, adding exactly that; the ceiling is kept |
| ResidentCeiling.Node.LoadModels | postvec-server/src/admin.rs:103-134 | the names are loaded in turn, each as one load from the state the ones before left; together they keep the ceiling, add only enabled names the list reaches, and change nothing when all are refused |
| ResidentCeiling.Node.UnloadModels | postvec-server/src/admin.rs:301-338 | exactly the requested names leave, each reported truthfully; by the descriptors on disk no name goes after one it lists, if and only if the names hold no cycle, and then along any chain of descriptors the order runs forward |
| ResidentCeiling.RecordsWhatIsListed | postvec-server/src/admin.rs:253-263 | the dependencies the order is computed from are those each single readable descriptor lists |
| ResidentCeiling.DependentsGoFirst | postvec-server/src/admin.rs:253-291 | the order of those dependencies is dependents-first on the descriptors themselves |
| ResidentCeiling.Node.Serve | postvec-server/src/admin.rs:103-338 | a run starts exactly as boot does; every resident set of a run of boot, loads and unloads keeps the ceiling and follows from the one before as its request demands, each outcome of each load for its reason |
| ModelResolver.ModelResolver.Rebuild | engine/src/resolver.rs:34-101 | each key maps to the alphabetically last enabled model contributing it, and to nothing if none does; on the fields: an embed model serves its target or its own name, any other model with both ends converts from source to target |
| ModelResolver.IndexIsUnique | engine/src/resolver.rs:32-47 | the index depends on the configurations only, not on the order they are read in |
| ModelResolver.IndexesLook | engine/src/resolver.rs:63-90 | what the two lookups answer, stated on the fields of the configurations |
| ModelResolver.BeforeIsLexicographic | engine/src/resolver.rs:43 | the order of names is lexicographic: a proper prefix, or smaller where they first differ |
| ModelResolver.SortSorts | engine/src/resolver.rs:41-43 | the sort orders by name and permutes |
| ModelResolver.PutKeepsIndex | engine/src/resolver.rs:45-94 | inserting the next name in order keeps the index exact |
| Lifecycle.InvKept | engine/src/lib.rs:520-754 | every step of every task, job, cancellation and unload keeps the invariant |
| Lifecycle.InvAlways | engine/src/lib.rs:520-754 | the invariant holds in every state of every run |
| Lifecycle.ConsistentWhenFree | engine/src/lib.rs:124-135 | whenever the commit gate is free the three maps agree and the resolver is a rebuild of the loaded models |
| Lifecycle.OnlyTheHolderIsHalfPublished | engine/src/lib.rs:641-728 | a name half in the maps is the one the gate holder is publishing or rolling back |
| Lifecycle.ResolverNamesLoadedModels | engine/src/lib.rs:730-754 | an answer of either index names a loaded model or the one the gate holder published |
| Lifecycle.FailedLoadLeavesNothing | engine/src/lib.rs:160-195 | the step that ends an armed load with a failure leaves its name in none of the maps |
| Lifecycle.OnlyReleaseEnds | engine/src/lib.rs:172-195 | an armed load can only end by rolling back first |
| LoadAnswers.FailureLeavesNothing | engine/src/lib.rs:160-195 | a load that answers failure never committed and never found its model ready; if it ever wrote to a map, its name is in none of them when it answers |
| LoadAnswers.OnlyPublishingWrites | engine/src/lib.rs:641-754 | only an unload, or a step after which a load counts as having written, changes a map |
| LoadAnswers.AnswerIsDecided | engine/src/lib.rs:520-728 | a load bound to succeed stays so and one bound to fail stays so, in every run |
| LoadAnswers.CommittedAnswersSuccess | engine/src/lib.rs:715-727 | a load that ever committed answers success |
| LoadAnswers.RolledBackAnswersFailure | engine/src/lib.rs:172-195 | a load that ever rolled back answers failure |
| LoadAnswers.SuccessSawTheModel | engine/src/lib.rs:520-728 | a load answers success only after it found, while it ran, the model's pool and then its executor |
| LoadAnswers.FailsForAReason | engine/src/lib.rs:520-728 | a load turns to failure only for a failed read, dependency, template, pool or build, a dropped caller, or an unload while it built |
| LoadCompletes.LoadCanSucceed | engine/src/lib.rs:520-728 | with the gate free, an undisturbed load of a model that is not there can run to success, under either policy, adding exactly that model |
| LoadCompletes.LoadedAnswersAtOnce | engine/src/lib.rs:520-530 | a load of a model that is there can answer success at once and changes nothing, whoever holds the gate |
| LoadCompletes.DroppedLoadUnwinds | engine/src/lib.rs:160-195 | at every await the caller can be dropped, and a load dropped after publication can undo all it wrote and free the gate |
| LoadCompletes.FailingLoadUnwinds | engine/src/lib.rs:520-728 | the read, a dependency, the template, the pool and the executor can each fail, and the load can then answer failure with nothing of its own left in the maps |
| LoadCompletes.PanicEndsLoad | engine/src/lib.rs:601-634 | a template that panics can end its load, with the gate free again |
| Lifecycle.AtMostOneInstantiation | engine/src/lib.rs:601-634 | under serialized loads at most one instantiation runs, even when callers were cancelled |
| EngineMaps.InferenceEngine.constructor | engine/src/lib.rs:316-336 | a new engine holds nothing |
| EngineMaps.InferenceEngine.RebuildIndex | engine/src/lib.rs:188-193 | the resolver becomes the index of the pools now registered |
| EngineMaps.InferenceEngine.RecordPath | engine/src/lib.rs:675-678 | the first write of a publication is one step of the machine |
| EngineMaps.InferenceEngine.RecordPool | engine/src/lib.rs:680-684 | so is the second, which arms the guard |
| EngineMaps.InferenceEngine.RecordExecutor | engine/src/lib.rs:694-697 | so is the third, after the build |
| EngineMaps.InferenceEngine.Confirm | engine/src/lib.rs:700-705 | the readiness check is the machine's reads of the two maps |
| EngineMaps.InferenceEngine.Publish | engine/src/lib.rs:641-728 | the whole gated region, perhaps with an unload while it builds, is a run of the machine: without a pool nothing changes; it commits, with the model in all three maps, exactly when the executor builds and no unload came between, and otherwise rolls back with the model in none |
| EngineMaps.InferenceEngine.UnloadModel | engine/src/lib.rs:730-754 | unloading is exactly the machine's atomic unload step and reports whether the model was loaded |
| EngineMaps.InferenceEngine.DropRollback | engine/src/lib.rs:172-195 | dropping an armed guard is exactly the machine's four rollback steps; a disarmed one does nothing |
| Permits.StepConserves | engine/src/lib.rs:843-974 | every step keeps free plus held permits equal to the capacity |
| Permits.AlwaysConserved | engine/src/lib.rs:843-974 | permits are conserved in every state of every run |
| Permits.ExecutionsBounded | engine/src/lib.rs:902-974 | root closures in execution never exceed the limit, even after their callers left |
| Permits.AllPermitsReturn | engine/src/lib.rs:902-974 | once nothing owns a permit all are back |
| Permits.Ledger | engine/src/lib.rs:843-974 | in every state of every run a request took its permit at most once and gave it back exactly once if it no longer holds it; nested work runs only under a request that took one |
| Permits.PermitTakenOnce | engine/src/lib.rs:843-889 | a held permit was taken by exactly one step, its grant, of exactly its weight |
| Permits.PermitReturnsOnce | engine/src/lib.rs:902-974 | a permit no longer held was returned by exactly one step, the failure before the hand-over or the end of the closure, of exactly the weight taken |
| PermitGrants.WaitingCanBeGranted | engine/src/lib.rs:843-889 | whatever has happened, a waiting request no heavier than the capacity can still be granted |
| PermitGrants.TooHeavyNeverHolds | postvec-server/src/grpc.rs:95-104 | a heavier one never holds a permit, which is why the weight is clamped |
| PermitGrants.AnyRequestCanRun | engine/src/lib.rs:843-974 | any new request no heavier than the capacity can arrive, be granted, run and give back what it took |
| NestedWork.NestedStartsInClosure | engine/src/lib.rs:891-905 | nested work starts only after its root's permit moved into the closure and before the closure ended |
| NestedWork.NestedIsCounted | engine/src/lib.rs:891-905 | the nested predictions in progress under a root are those started less those ended, in every run |
| NestedWork.NestedNeverWaits | engine/src/lib.rs:888-903 | a running closure can start nested work even with no permit free |
| Permits.HeldBytesBounded | postvec-server/src/grpc.rs:630-655 | bytes covered by held permits fit the capacity in every state of every run |
| Envelope.MaxItemsForDim | postvec-server/src/limits.rs:19-27 | the item ceiling is at least one and at most the absolute ceiling, for every 32-bit dimension |
| Envelope.AdmitsWhatFits | postvec-server/src/limits.rs:19-27 | past the first, a number of items is admitted if and only if it fits both budgets, stated in bytes |
| Envelope.AdmitsAllWithoutDim | postvec-server/src/limits.rs:19-27 | a dimension of zero or less leaves only the ceiling of 4096 |
| Envelope.AdmittedBatchFits | postvec-server/src/limits.rs:19-27 | an admitted batch fits the wire budget |
| Envelope.AdmissionSoundIff | postvec-server/src/grpc.rs:984-1016 | for component sizes up to 96 bytes every admitted batch passes the later check if and only if one row of that width does |
| Envelope.AdmissionSoundExactly | postvec-server/src/grpc.rs:984-1016 | for any component size every admitted batch passes the later check if and only if the largest one does |
| Envelope.CheckTree | postvec-server/src/grpc.rs:984-1016 | the response is refused exactly for too many rows, a row of the wrong kind, or a tree over the budget |
| Envelope.TreeBytesAdd | postvec-server/src/grpc.rs:996-1008 | trees add up over any split of the rows: components, encoded bytes twice, and the overhead of each row |
| Envelope.SaturationIsHarmless | postvec-server/src/grpc.rs:1005-1008 | saturating arithmetic never hides an overrun |
| Envelope.AdmittedBatchNeverRefused | postvec-server/src/grpc.rs:984-1016 | at every dimension the server resolves, an admitted batch fits the wire budget and is accepted by the tree check |
| Envelope.ProviderResponseMib | postvec-server/src/grpc.rs:95-104 | the weight is at least one permit and at most the whole budget |
| Envelope.WeightIsTheTree | postvec-server/src/grpc.rs:95-104 | below the clamp the weight is at most m MiB if and only if the tree is, saturation or not |
| Envelope.PermitCoversTree | postvec-server/src/grpc.rs:95-104 | for an admitted batch the weight covers the tree and the clamp never bites |
| Envelope.ProviderResponsesBounded | postvec-server/src/grpc.rs:397-411 | provider responses held never total more than 256 MiB, in every state of every run |
| TemplateParser.ParseFormat | core/src/registry.rs:404-508 | the parser computes the reading of the template: segments, or the error kind and byte position |
| TemplateParser.ReadSegments | core/src/registry.rs:421-496 | the character loop yields the coalesced tokens, or the first malformed reference |
| TemplateParser.ReadName | core/src/registry.rs:439-450 | a bare name is the longest run of identifier characters |
| TemplateParser.ReadReference | core/src/registry.rs:451-469 | a braced name decodes doubled braces and ends at the first single one |
| TemplateParser.FormatReferencedColumns | core/src/registry.rs:511-521 | the scan returns the referenced columns |
| TemplateImage.ReferencedExact | core/src/registry.rs:510-521 | exactly the referenced columns, each once, in order of first use |
| TemplateRoundTrip.EscapeReadsBack | core/src/registry.rs:451-469 | an escaped name and its brace read back as the name |
| TemplateRoundTrip.UnclosedIffEscape | core/src/registry.rs:470-475 | a reference is unclosed exactly when the rest of the template is an escaped name |
| TemplateRoundTrip.PrintReadsBack | core/src/registry.rs:429-496 | printed tokens read back as themselves |
| TemplateRoundTrip.ReadingsArePrintable | core/src/registry.rs:429-496 | every reading is printable, and the printed form is no longer than the template |
| TemplateRoundTrip.MalformedIff | core/src/registry.rs:429-496 | a template is refused with this error at this byte exactly when a well-formed prefix is followed by that malformed reference there |
| TemplateImage.CoalesceIsTidy | core/src/registry.rs:374-380 | coalescing loses nothing and leaves no empty or adjacent literals |
| TemplateImage.TidyCoalesces | core/src/registry.rs:374-380 | a tidy segment list comes back from its tokens |
| TemplateImage.SoundIffPrintable | core/src/registry.rs:395-403 | the conditions on names, over segments and over tokens, agree |
| TemplateImage.PrintInvertsParse | core/src/registry.rs:404-508 | parsing the canonical spelling of a segment list gives the list back |
| TemplateImage.ParsedIsCanonical | core/src/registry.rs:404-508 | whatever parses is canonical and in limits |
| TemplateImage.ImageExact | core/src/registry.rs:404-508 | a segment list is the parse of some template if and only if it is canonical and in limits |
| TemplateImage.ReprintIsStable | core/src/registry.rs:404-508 | printing what was parsed and parsing again changes nothing |
| TemplateRules.BareNameReads | core/src/registry.rs:439-450 | letters, digits and underscores extend a bare name and nothing else does, with the ranges written out |
| TemplateRules.BareNameParses | core/src/registry.rs:439-450 | such a name alone is a template of that one column, up to 16,384 bytes |
| TemplateRules.NameEnds | core/src/registry.rs:439-450 | a template that starts with a bare name has that column as its first segment |
| TemplateRules.StrayDollar | core/src/registry.rs:484-492 | a dollar before anything else is refused where it stands |
| TemplateRules.ParsesIff | core/src/registry.rs:404-508 | a template is accepted if and only if it is not empty, at most 16,384 bytes, without malformed reference and names at most 64 columns |
| SqlLexer.QuoteLiteralEstring | core/src/registry.rs:354-366 | the loop writes the setting-independent literal |
| SqlLexer.QuoteReadsBack | core/src/registry.rs:240-242 | quoted text reads back as the text, whatever it holds |
| SqlLexer.PlainLiteralIff | core/src/registry.rs:337-347 | the apostrophe-only literal means its text under both settings if and only if it has no backslash |
| SqlPieces.DecimalReadsBack | core/src/registry.rs:657 | a count written in decimal reads back as itself |
| SqlPieces.PiecesLex | core/src/registry.rs:540-573 | separated tokens written out read back as exactly those tokens, under either setting |
| SqlExpr.ShowSpells | core/src/registry.rs:540-573 | the text of an expression is its tokens written out |
| SqlExpr.PiecesWhole | core/src/registry.rs:540-573 | no token of an expression runs into the next |
| SqlExpr.ShowReadsBack | core/src/registry.rs:540-573 | the text of every clean expression reads back as exactly its tokens |
| SqlParser.MeansTokens | core/src/registry.rs:540-573 | the tokens of an expression, defined on the tree, are what its spelling means |
| SqlParser.ExprReads | core/src/registry.rs:540-573 | the precedence parser groups the tokens of every properly grouped expression back into that expression, up to whatever ends it |
| SqlParser.ShowMeans | core/src/registry.rs:540-573 | lexed and parsed, the text of every clean and grouped expression is that expression, under either setting |
| SqlRender.RendersTree | core/src/registry.rs:540-615 | both render texts are the text of the intended expression, and fail exactly when the stored template does not parse |
| SqlRender.Measure | core/src/registry.rs:646-656 | the loop sums the literal bytes and lists the length of each column reference |
| SqlRender.SumText | core/src/registry.rs:657-661 | the sum is appended term by term |
| SqlRender.FormatLenExpr | core/src/registry.rs:630-663 | the column-mode length text is the text of the intended expression |
| SqlRender.ChunkFormatLenExpr | core/src/registry.rs:668-707 | the chunk-mode length text is the text of the intended expression |
| SqlRender.RenderedReadsBack | core/src/registry.rs:540-707 | the SQL of every valid entry reads back as exactly the intended tokens, for arbitrary literals and column names, under either setting |
| SqlRender.PlainAliasIsClean | core/src/registry.rs:540-573 | an alias of letters, digits and underscores is one the statements about the emitted text cover |
| SqlRender.RenderValue | core/src/registry.rs:523-615 | the rendered expression is NULL exactly when the source is, and otherwise the document, with NULL columns contributing nothing |
| SqlRender.DocumentBytes | core/src/registry.rs:617-629 | the byte length of the document is the literal bytes plus the column bytes |
| SqlRender.LengthMatches | core/src/registry.rs:617-707 | on every row the length expression is the byte length of the rendered value, and NULL exactly when it is, in both modes |
| SqlRender.TreesGrouped | core/src/registry.rs:540-707 | the render and length expressions of every valid entry need no parentheses that are not written |
| SqlRender.EmittedMeans | core/src/registry.rs:540-707 | the emitted texts, lexed and parsed, are exactly the intended expressions, for arbitrary literals and column names |
| SqlRender.EmittedValue | core/src/registry.rs:523-707 | on every row the emitted render text has the document as its value and the emitted length text its byte length, both NULL exactly when the source is |

## Left out

- ResidentCeiling.Node.Boot: a boot that fails part way through an explicit list may leave part of it resident, as in the code, and does not start.
- Lifecycle.InvKept: a dependency's own load is one more independent task, so the machine allows more interleavings than the code; nothing proved relies on their order.
- LoadAnswers.FailureLeavesNothing: speaks of the state in which the load answers; a later load may publish the name again.
- ChunkWords.ChunkWordIntegrity: the exact condition for delivered chunks is stated where the only whitespace is spaces and newlines; elsewhere `ChunksKeepWords` and `ChunksNeedBreaks` give one that suffices and one that is needed, because which blank spans are dropped depends on how the strides fall.
- Envelope.AdmissionSoundIff: the sizes of one JSON and one prost value are parameters; that they sum to at most 96 bytes is a premise.
- EngineMaps.InferenceEngine.Publish: the one thing interleaved is an unload of the model while its executor builds; all interleavings are the state machine's.
- Envelope.CheckTree: the deadline check before the conversion and the conversion itself are not modelled.
- SqlExpr.ShowReadsBack: the lexer knows the emitted fragment only; the 63-byte limit on identifiers, `backslash_quote` and numeric escapes are outside it, and an alias must be a plain word or absent.
- SqlRender.LengthMatches: integers are unbounded, so the 64-bit range of the sum is not modelled.
- SqlParser.ExprReads: the grammar is that of the emitted fragment; type checking and implicit casts are not modelled.
- The startup scan of the engine, which publishes outside the commit gate.
- Fairness and wall-clock time: deadlines are nondeterministic steps; `LoadCanSucceed` and `WaitingCanBeGranted` say that a request can get through, not that it will.
- tokio, deadpool, DashMap and ONNX Runtime internals: each lock region is one atomic step.
- Search SQL and primary-key clauses, vector serialization and pooling, gossip, HTTP and gRPC plumbing, provider calls, registry downloads, the command line tool, metrics and configuration.
- Error message text: only the error kind and its numbers are kept.
