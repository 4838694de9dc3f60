# gqlrs: a verified model

gqlrs is a GraphQL server. This project models five parts of it in Dafny 4.11 and proves what they are
for. `dafny verify dfyconfig.toml` covers all files.

* **The data loader** (`CacheStorage.dfy`, `Batching.dfy`, `DataLoader*.dfy`). Concurrent callers merge
  keys under a lock; batches are taken atomically, loaded, cached and fanned out. The shared record and
  its critical sections are a class (`Requests`) whose methods are proved against functions on values;
  `DataLoader.Next` composes those functions into a step relation. A step is one stretch of code under
  the lock, the spawning of one task, or one answer of the loader. A caller that leaves the lock owing a
  task is a task of its own, so other callers may run in between. Main results: no lost wake-up,
  exactly-once delivery, termination under every scheduler, transparency of batching and caching, batch
  sizes, and the fan-out of streams: what each caller is sent, in terms of the items that the loader
  returned in the step that asked for them. The three cache storages are compared over whole histories,
  and eviction is that of the least recently used key.
* **The document passes before execution** (`Document.dfy`, `Walks.dfy`, `DocumentChecks.dfy`,
  `Gathering.dfy`, `InputValues.dfy`, `SkipInclude.dfy`, `Selections.dfy`). Only the depth check bounds its own recursion; every later walk
  takes the bound it established as a ghost argument. The depth check is exact and excludes reachable
  fragment cycles; the alias and directive limits are exact over the full expansion; removing skipped
  selections preserves field collection; the explicit-stack iterator refines the recursive walk. All
  recursive walks are instances of one, which is described without recursion, by trails of indices through
  the document (`Walks.WalkMeaning`). Resolving arguments is substitution of their variables.
* **Dynamic schemas** (`TypeRefs.dfy`, `DynamicSchema.dfy`, `Completion.dfy`,
  `CompletionMeaning.dfy`, `InputObjects.dfy`, `InputInhabited.dfy`). Completion returns what the
  resolvers gave and succeeds exactly when nothing stands in its way; its type soundness, the order `is_subtype` defines and the covariance
  of completion, exactness of the backtracking cycle search, and which input objects have values that
  pass validation.
* **Entities and merged objects** (`Entities.dfy`, `MergedEntities.dfy`, `MergeTree.dfy`). The code that
  the derive macros emit: which batch calls are made, where each answer lands and what is looked up one
  by one, when batching cannot be observed, and the balanced merge tree, which lists and asks its members
  in the order of the flat checks.
* **Source positions** (`Position.dfy`). The incremental calculator agrees with scanning from the start,
  and with the line terminators of the specification exactly when there is no lone carriage return.

## Where the code differs from its documentation

Each item names the lemma with a failing input and the one with the exact condition.

* `check_is_valid_implementation` passes the implementing field's type as the receiver of `is_subtype`
  (src/dynamic/check.rs:420), and the receiver is the wider type (src/dynamic/type_ref.rs:121-137). So it
  accepts a wider field and rejects a narrower one, the opposite of the comment above it and of section
  3.6 of the GraphQL October 2021 specification (`DynamicSchema.WiderFieldAccepted`,
  `NarrowerFieldRejected`). With arguments it is too generous in three ways (`ArgumentsTooGenerous`). The
  model follows the code. A field passes both the check and the specification exactly when it has the
  interface's own signature (`AcceptedAndLawfulIffSame`). What a client can observe: on a schema that
  passes all checks (`Completion.PromiseSchemaAccepted`), completion at an interface returns null for a
  field that the interface declares non-null (`InterfacePromiseBroken`).
* In introspection-only mode every field of an object becomes null, non-null fields included
  (src/dynamic/resolve.rs:359-368, `Completion.IntrospectionOnlyUnsound`). All requests at a type are
  sound in that mode exactly when each object the type can turn out to be has only nullable fields of its
  own, `__typename` aside (`IntrospectionOnlyExact`). `IntrospectionOnlyAtRoots` says so for roots and
  for the fields of a subscription, whose values are still completed.
* With two definitions of one variable, the defaults used for @skip and @include can differ from
  `var_value` (`InputValues.DuplicateDefinitionsDiffer`). Such documents get that far in
  `ValidationMode::Fast` only, which leaves out the rule against them (src/validation/mod.rs:73, 94-96).
  `InputValues.DefaultsAgree` has the exact condition.
* All checks of a schema accept input objects for which no value passes validation
  (src/validation/utils.rs:38-190): with non-null directly inside non-null, a oneof object that needs
  itself, a required enum without items, or a required scalar whose validator accepts nothing
  (`InputInhabited.DoubleNonNullEscapes`, `OneofEscapes`, `EmptyEnumEscapes`, `EmptyScalarEscapes`). An
  accepted schema without oneof objects has values for all its input objects exactly when no cycle of
  required fields is left behind repeated non-null, and no field requires a leaf type without values
  (`CheckedObjectsInhabited`). `InhabitedIffNotBlocked` is the exact condition for a single object in any
  schema, oneof included. The other way round, the search rejects an object that needs itself only by a
  field with a default, which validation does not require (`DefaultRejected`).
* A merged object's batched lookup asks every member, so it can fail where the one-by-one lookup stops
  early (`MergedEntities.MergedCanFailAlone`). The two agree, failures included, exactly when no member
  fails, or some representation meets a failing member before a later declared one answers
  (`MergedAgainstSingle`). Resolving through the nested pairs always agrees with the one-by-one lookup
  (`NestedAgainstSingle`).
* A lone carriage return resets the column without starting a line, whereas section 2.1.2 of the
  GraphQL October 2021 specification counts it as a line terminator (`Position.LoneReturnMissed`). The
  line is the specification's exactly when every carriage return before the position has a line feed
  behind it (`LineAgreesIff`).
* `enable_cache` unwraps the entry of its key type (src/dataloader/mod.rs:460), so it panics on a fresh
  loader (`DataLoaderDelivery.EnableCacheOnFreshLoader`). It finds the entry exactly when something was
  loaded, fed or cleared before (`EnableCacheFindsEntry`). All other unwrapped lookups are proved to
  succeed.

## Assumptions

* Spawning a task succeeds, the loader returns, and its streams are finite; which values it returns, in
  which order hash maps and hash sets are walked, and when timers fire, is arbitrary.
* The keys and values of one data loader have one type; `usize` counters do not overflow.
* Index maps have distinct keys (`InputValues.DistinctNames`, `InputInhabited.DistinctInputs`); tokens
  start at character boundaries and are visited in source order, as the code asserts.
* Errors are tags: messages and positions in errors are not part of this model.

## Model

| member | source | states |
|---|---|---|
| `CacheStorage.CacheImpl.Get` | src/dataloader/cache.rs:136-138 | a hit is exactly the value the cache holds; looking up changes no association |
| `CacheStorage.GetMeaning` | src/dataloader/cache.rs:195-197 | `get` of each of the three storages answers from its contents, and moving a hit to the front loses nothing |
| `CacheStorage.PutMeaning` | src/dataloader/cache.rs:200-202 | `insert` never invents an entry; the hash map keeps everything; a full recency list loses exactly its oldest entry, and only for a new key |
| `CacheStorage.PopMeaning` | src/dataloader/cache.rs:205-207 | `remove` forgets that key and nothing else |
| `CacheStorage.ApplyValid` | src/dataloader/cache.rs:160-217 | every operation keeps distinct keys and the capacity bound |
| `CacheStorage.LruWithinHashMap` | src/dataloader/cache.rs:64-217 | over every operation history the LRU storage holds at most `cap` entries, all of which the hash map storage holds too |
| `CacheStorage.LargerLruDominates` | src/dataloader/cache.rs:160-217 | over every operation history an LRU storage of larger capacity holds all entries of a smaller one, in the same order of use |
| `CacheStorage.EvictsLeastRecentlyUsed` | src/dataloader/cache.rs:195-207 | after every history, a new key in a full LRU storage pushes out exactly the key whose last lookup or insertion is the longest ago |
| `Batching.Requests.Take` | src/dataloader/mod.rs:160-165 | hands over the whole queue and leaves it empty, the stream queue untouched |
| `Batching.Requests.TakeStream` | src/dataloader/mod.rs:167-172 | the same for the stream queue |
| `Batching.SplitMeaning` | src/dataloader/mod.rs:516-526 | the lookup loop splits a request into cached and missing keys independently of order and repetition, and forgets nothing |
| `Batching.Requests.LoadMany` | src/dataloader/mod.rs:501-557 | the locked part of `load_many`: new queue, waiter, cache recency and action |
| `Batching.Requests.LoadManyStream` | src/dataloader/mod.rs:630-682 | the locked part of `load_many_stream` |
| `Batching.Requests.StoreAll` | src/dataloader/mod.rs:268-274 | the cache update loop stores every pair once, in some order |
| `Batching.Requests.CompleteLoad` | src/dataloader/mod.rs:262-285 | the success arm of `do_load`: cache updated unless caching is off, one reply per waiter in queue order |
| `Batching.AnswerAll` | src/dataloader/mod.rs:277-284 | each waiter gets its cached pairs plus the loaded pairs it asked for |
| `Batching.FailAll` | src/dataloader/mod.rs:286-290 | every waiter of a failed batch gets the error |
| `Batching.Requests.StoreItem` | src/dataloader/mod.rs:313-322 | one stream item is stored exactly when caching is on |
| `Batching.Requests.FeedMany` | src/dataloader/mod.rs:736-756 | feeding inserts the pairs in order |
| `Batching.Requests.ClearOne` | src/dataloader/mod.rs:778-792 | removes one key from the cache and changes nothing else |
| `Batching.Requests.ClearAll` | src/dataloader/mod.rs:800-814 | empties the cache and changes nothing else |
| `Batching.Requests.EnableCache` | src/dataloader/mod.rs:453-463 | sets the switch of this loader and changes nothing else |
| `DataLoader.AdmitMeaning` | src/dataloader/mod.rs:534-556 | a request into an empty queue starts a fetch, it waits only behind an earlier one, and a full queue leaves as one batch; the other queue is untouched |
| `DataLoader.StepWatchful` | src/dataloader/mod.rs:479-715 | every step keeps: waiting keys are the union of the waiters' keys, no waiter waits for nothing, a nonempty queue (of either kind) has a delayed fetch coming, batches are nonempty, and the entry exists whenever a task does |
| `DataLoaderDelivery.StepPlaced` | src/dataloader/mod.rs:252-340 | every step keeps each request ever made in exactly one place: its queue, one task, or one log position |
| `DataLoaderDelivery.ReachableSound` | src/dataloader/mod.rs:479-715 | both invariants hold in every reachable state, under every interleaving |
| `DataLoaderDelivery.TaskStepEnabled` | src/dataloader/mod.rs:558-600 | no outstanding task is ever stuck, and the lookups it unwraps succeed |
| `DataLoaderDelivery.TaskStepDecreases` | src/dataloader/mod.rs:558-600 | every task step decreases a lexicographic measure |
| `DataLoaderDelivery.RestMeansAnswered` | src/dataloader/mod.rs:277-290 | when all tasks are done, every request has exactly one answer of its kind and both queues are empty |
| `DataLoaderDelivery.RunsToRest` | src/dataloader/mod.rs:558-602 | for every scheduler and loader, running the outstanding tasks with no new calls ends, with every request answered exactly once, cancelled callers or not |
| `DataLoaderDelivery.EnableCacheFindsEntry` | src/dataloader/mod.rs:453-463 | over every run, the entry that `enable_cache` unwraps exists exactly when a load, feed, `clear_one` or `clear` came before |
| `DataLoaderDelivery.EnableCacheOnFreshLoader` | src/dataloader/mod.rs:453-463 | on a fresh loader it does not exist, nor after `enable_all_cache` |
| `DataLoaderMeaning.StepTruthful` | src/dataloader/mod.rs:252-293 | every step keeps: cache, waiting hits and replies agree with the loader function |
| `DataLoaderMeaning.Transparent` | src/dataloader/mod.rs:467-603 | under every interleaving a successful reply of `load_many` is the loader function restricted to the requested keys; no error if the loader never fails |
| `DataLoaderMeaning.TransparentOne` | src/dataloader/mod.rs:467-475 | a successful `load_one` returns the loader function at its key, however many batches have failed; it succeeds if the loader never fails |
| `DataLoaderMeaning.ImmediateBatchSize` | src/dataloader/mod.rs:545-546 | over every run, a batch leaves at once exactly when the queue reaches `max_batch_size` with the new request; it is the queue and the request's missing keys, at least `max_batch_size` and past it by less than those |
| `DataLoaderMeaning.TimerBatchSize` | src/dataloader/mod.rs:579-588 | over every run, a batch taken by the timer is nonempty and below `max_batch_size` |
| `DataLoaderMeaning.BatchSizes` | src/dataloader/mod.rs:511-591 | over every run a batch has exactly its waiters' keys and at most `max_batch_size - 1` plus the keys of one call; an immediate one has at least `max_batch_size` |
| `DataLoaderMeaning.HashMapKeepsAll` | src/dataloader/mod.rs:268-274 | storing a batch in a hash map keeps every pair, whatever the order |
| `DataLoaderMeaning.LoadedKeysNeedNoLoad` | src/dataloader/mod.rs:515-532 | with caching on, keys that were loaded or cached are answered at once |
| `DataLoaderMeaning.BypassAsksForEverything` | src/dataloader/mod.rs:514-515 | with caching off, every requested key is asked of the loader |
| `DataLoaderMeaning.ClearedKeyIsMissing` | src/dataloader/mod.rs:778-797 | after `clear_one` the next load of that key misses it, and nothing else has changed |
| `DataLoaderMeaning.ClearedCacheIsEmpty` | src/dataloader/mod.rs:800-814 | after `clear` every key is missing |
| `DataLoaderMeaning.FedKeysNeedNoLoad` | src/dataloader/mod.rs:736-761 | with a hash map and caching on, a fed key is answered without a load, with the value last fed for it |
| `DataLoaderMeaning.SwitchDecides` | src/dataloader/mod.rs:453-463 | after `enable_cache(false)` a load asks for every key, after `enable_cache(true)` for those not cached unless all caching is off; nothing else changes |
| `DataLoaderMeaning.GlobalSwitchDecides` | src/dataloader/mod.rs:448-450 | the same for `enable_all_cache` |
| `DataLoaderMeaning.SpawnedRemembersSwitch` | src/dataloader/mod.rs:558-600 | a task remembers the global switch as of its spawning and hands it on when its timer goes off |
| `DataLoaderMeaning.BatchCachedIff` | src/dataloader/mod.rs:268-274 | with a hash map, a loaded batch is cached, as it is, exactly when neither switch forbids it |
| `DataLoaderMeaning.ItemCachedIff` | src/dataloader/mod.rs:312-322 | so is an item of a stream |
| `DataLoaderStreams.StepServed` | src/dataloader/mod.rs:296-340 | every step keeps: a stream caller has been sent its cached pairs and then what it wants of the part of the stream that its task has passed on |
| `DataLoaderStreams.StreamFanOut` | src/dataloader/mod.rs:296-340 | a finished stream task has sent each caller its cached pairs first, then exactly the wanted subsequence of the stream it was spawned with, up to and including the first error, and closed it |
| `DataLoaderStreams.WantedConcat` | src/dataloader/mod.rs:324-331 | what is wanted of a stream is what is wanted of its parts one after another |
| `DataLoaderStreams.WantedOne` | src/dataloader/mod.rs:324-331 | of a single item: an error, or a pair whose key was asked for |
| `DataLoaderStreams.EndedIsUpToError` | src/dataloader/mod.rs:307-340 | the part that is passed on ends just behind the first error, or with the stream |
| `DataLoaderSent.StreamDelivered` | src/dataloader/mod.rs:296-340 | over every run: ever after the step that asks for a stream, each caller of its batch has been sent a prefix of its cached pairs and the wanted part of the items the loader returned in that step, and exactly that once its stream is closed |
| `DataLoaderSent.ClosedGotItsDue` | src/dataloader/mod.rs:296-340 | over every run: each closed stream was served wholly from the cache, or belongs to the batch of some step that asked the loader, and was sent exactly its due of the items returned there |
| `DataLoaderSent.StreamTransparent` | src/dataloader/mod.rs:296-340 | over every run: if the loader returned, in the step that asked it, a stream without errors that left out none of the keys, the caller has been sent exactly the pairs of the loader function on the requested keys, cached ones included |
| `DataLoaderStreams.CachedStreamTransparent` | src/dataloader/mod.rs:645-666 | over every run, a caller all of whose keys were cached has been sent exactly the pairs of the loader function on the requested keys, and its stream is closed |
| `DataLoaderStreams.SendItem` | src/dataloader/mod.rs:324-331 | one item goes to the senders whose keys contain it and to nobody else |
| `DataLoaderStreams.DoLoadStream` | src/dataloader/mod.rs:307-340 | the uninterrupted loop: stops after the first error, and updates the cache by the delivered pairs in order |
| `Document.ExpandStable` | src/schema.rs:896-956 | a selection set of bounded nesting has a finite full expansion |
| `Walks.WalkMeaning` | src/schema.rs:896-956 | the walk over a bounded selection set finds, in document order, exactly what is wanted behind a trail of selections that may be entered |
| `Walks.ExpandIsWalk` | src/schema.rs:778-883 | the full expansion is that walk for all fields, entering everything |
| `DocumentChecks.DepthCheckExact` | src/schema.rs:896-956 | `check_recursive_depth` succeeds exactly when every chain of nested selection sets from an operation is within the limit |
| `DocumentChecks.NoReachableCycle` | src/schema.rs:896-956 | after it, no selection set reachable from an operation contains itself |
| `DocumentChecks.CyclicFragmentRejected` | src/schema.rs:926-937 | in every document, a fragment that spreads itself, directly or through others, and that an operation reaches, fails every limit |
| `DocumentChecks.CountSelectionSet` | src/schema.rs:826-883 | the alias walk ends and, despite early exit, succeeds exactly when the running total of the full expansion is within the limit |
| `DocumentChecks.CheckAliasCount` | src/schema.rs:825-894 | after the depth check, `check_alias_count` succeeds exactly when the aliases of all operations' full expansions together are within the limit |
| `DocumentChecks.TotalAliasesMeaning` | src/schema.rs:825-894 | that total is the number of aliased fields, each counted with its operation and its place in the expansion |
| `DocumentChecks.MaxDirectivesExact` | src/schema.rs:778-823 | after the depth check, `check_max_directives` succeeds exactly when every field of the full expansion is within the limit |
| `InputValues.CompleteVariables` | src/schema.rs:1097-1105 | the loop of `prepare_request` keeps supplied values and adds defaults in order |
| `InputValues.DefaultsAgree` | src/context.rs:563-588 | a defined variable has the same value in the completed map and through `var_value` exactly when it is supplied, its first definition has a default, or none has; always with unique definitions |
| `InputValues.DuplicateDefinitionsDiffer` | src/context.rs:563-588 | two definitions of one variable for which the two differ |
| `InputValues.VarValueMeaning` | src/context.rs:563-588 | a variable is what the request supplies, else the default of its first definition, else nothing, and an error exactly when there is no definition |
| `InputValues.CompletedMeaning` | src/schema.rs:1097-1105 | in the completed map it is what the request supplies, else the first default written for it, else missing |
| `InputValues.ResolveIsSubstitution` | src/context.rs:590-625 | resolution succeeds with a result exactly when that is the value with each variable replaced as above, at every depth: list entries by index, object fields by index in order, omitted ones null or left out |
| `InputValues.FailsOnlyOnUndefined` | src/context.rs:590-625 | resolution fails exactly when the value mentions an undefined variable |
| `InputValues.ConstantsResolveToThemselves` | src/context.rs:598-604 | resolving a variable-free value gives it back |
| `InputValues.ListsKeepTheirSlots` | src/context.rs:605-615 | a list keeps its length and order, with null for an omitted entry |
| `InputValues.ObjectsKeepTheirKeys` | src/context.rs:616-624 | an object keeps, in order, the keys whose value is not omitted, each with its own value |
| `InputValues.ResolveInput` | src/context.rs:590-625 | the recursive method computes that substitution |
| `InputValues.ResolveListInput` | src/context.rs:605-615 | the list loop computes it, early error included |
| `InputValues.ResolveObjectInput` | src/context.rs:616-624 | the object loop, with index-map insertion, computes it |
| `SkipInclude.SkippedIsExcluded` | src/schema.rs:959-982 | `is_skipped` is the rule: some @skip whose first "if" argument is literally true or a variable that is true, or some @include whose first "if" argument is not |
| `SkipInclude.RemoveSkippedSelection` | src/schema.rs:984-1003 | the three passes together compute the rewrite at every depth |
| `SkipInclude.PrepareRequest` | src/schema.rs:1094-1117 | every fragment and the operation are rewritten under the completed variables |
| `SkipInclude.StripMeaning` | src/schema.rs:988-992 | exactly the @skip and @include directives go; every other keeps its multiplicity |
| `SkipInclude.PruneIdempotent` | src/schema.rs:958-1004 | rewriting twice is rewriting once, even under other variables |
| `SkipInclude.PruneKeepsDepth` | src/schema.rs:958-1004 | the rewrite never nests deeper |
| `SkipInclude.RewriteKeepsMeaning` | src/schema.rs:958-1004 | collecting fields after the rewrite equals collecting from the original with the conditions evaluated on the way: same fields, same order, same unknown fragment |
| `SkipInclude.CollectIsWalk` | src/dynamic/resolve.rs:314-427 | collecting fields is the walk that enters applicable fragments, and fails exactly when that walk meets an unknown one |
| `SkipInclude.IncludedIsWalk` | src/schema.rs:958-1004 | the original prescribes the walk that enters what is applicable and not excluded |
| `SkipInclude.ExpandPruned` | src/schema.rs:958-1004 | at every depth of the document: the full expansion after the rewrite is the rewritten fields that are reached without passing an excluded selection |
| `SkipInclude.PruneKeepsParts` | src/schema.rs:984-1003 | alias, name, arguments, fragment name and condition of a kept selection stay, and its directives are those left by `StripMeaning` |
| `SkipInclude.RewriteInsideFields` | src/schema.rs:994-1002 | collecting inside each kept field agrees too |
| `Selections.SelectionFieldsIter.constructor` | src/context.rs:1027-1033 | starts with the whole selection set to come |
| `Selections.SelectionFieldsIter.Next` | src/context.rs:1132-1165 | yields the next field of the recursive walk, and nothing exactly when the walk is over |
| `Selections.Drain` | src/context.rs:1123-1166 | draining the iterator ends and yields exactly the fields of the recursive walk in order |
| `Selections.FlattenIsWalk` | src/context.rs:1123-1166 | those fields are the walk for fields that enters fragments only |
| `Selections.ItemsFlattened` | src/context.rs:1054-1101 | the fields of the item tree, in order, are those of the iterator |
| `Selections.CollectSelectionItems` | src/context.rs:1054-1101 | the recursive method builds that tree |
| `Selections.ItemsAreTree` | src/context.rs:1054-1101 | the tree mirrors the selection set by index: each item belongs to its selection, unknown spreads have none, and bodies are mirrored in turn |
| `Selections.Filter` | src/look_ahead.rs:104-127 | appends the fields of that name among those of the iterator |
| `Selections.LookaheadField` | src/look_ahead.rs:34-45 | look-ahead concatenates this over the fields it covers |
| `Selections.AheadIsWalk` | src/look_ahead.rs:34-127 | look-ahead is the walk over the concatenated bodies of the covered fields for fields of that name |
| `Selections.CollectFields` | src/dynamic/resolve.rs:314-427 | pushes the fields of applicable fragments in document order, or fails on the unknown fragment |
| `Selections.PreparedDocument` | src/schema.rs:1025-1117 | a document that passed the depth check is, after the rewrite, within the same depth and collects what the original prescribes |
| `TypeRefs.SubtypeReflexive` | src/dynamic/type_ref.rs:121-137 | `is_subtype` is reflexive on all type references |
| `TypeRefs.SubtypeAntisymmetric` | src/dynamic/type_ref.rs:121-137 | it is antisymmetric, nested non-null included |
| `TypeRefs.SubtypeTransitive` | src/dynamic/type_ref.rs:121-137 | it is transitive |
| `TypeRefs.SubtypeAddsLayers` | src/dynamic/type_ref.rs:104-137 | the receiver is the wider type: same name, no more wrappers |
| `TypeRefs.SubtypeByLayers` | src/dynamic/type_ref.rs:121-137 | it holds exactly when both have the same name and lists, and between any two lists the argument has at least the non-nulls of the receiver |
| `DynamicSchema.WiderFieldAccepted` | src/dynamic/check.rs:418-429 | an implementing field wider than the interface field is accepted, against the rule of the specification |
| `DynamicSchema.NarrowerFieldRejected` | src/dynamic/check.rs:418-429 | every implementing field properly narrower than the interface field is rejected, be it by non-null, inside lists, or by belonging to a union or interface |
| `DynamicSchema.AcceptedAndValidIffSame` | src/dynamic/check.rs:420 | a field passes both the check and the specification exactly when it has the interface's own type |
| `DynamicSchema.AcceptedIsCovariantIffSame` | src/dynamic/check.rs:372-433 | an accepted implementation obeys the rule for field types exactly when all field types are equal |
| `DynamicSchema.LawfulIsAcceptedIffSame` | src/dynamic/check.rs:372-433 | an implementation that obeys the specification, arguments included, is accepted exactly when all field types are equal |
| `DynamicSchema.AcceptedAndLawfulIffSame` | src/dynamic/check.rs:387-429 | a field, arguments included, passes both the check and the specification exactly when it has the interface's own signature |
| `DynamicSchema.AcceptedIsLawfulIffSame` | src/dynamic/check.rs:372-433 | an accepted implementation obeys the specification exactly when all its fields have the interface's signatures |
| `DynamicSchema.ArgumentsTooGenerous` | src/dynamic/check.rs:387-416 | the check accepts a narrower argument, a missing one, and a further required one, all against the specification |
| `Completion.CompletionSound` | src/dynamic/resolve.rs:429-521 | if completion succeeds over a schema that passed `check_types_exists`, the result conforms to the declared type at every depth |
| `Completion.ResolveValueSound` | src/dynamic/resolve.rs:523-700 | each arm of `resolve_value`, on success, yields a conforming value that is never an explicit null |
| `Completion.IntrospectionOnlyUnsound` | src/dynamic/resolve.rs:359-368 | in introspection-only mode, selecting a non-null field of an object that a type can turn out to be gives a non-conforming result |
| `Completion.IntrospectionOnlyExact` | src/dynamic/resolve.rs:359-368 | in that mode all requests at a type reference are sound exactly when every object it can turn out to be has only nullable fields of its own |
| `Completion.IntrospectionOnlyAtRoots` | src/dynamic/subscription.rs:296-297 | the same at each object root and at each subscription field |
| `Completion.EntriesFollowFields` | src/dynamic/resolve.rs:29-50 | an object has one entry per selected field it has, in order |
| `CompletionMeaning.CollectedIsSelected` | src/dynamic/resolve.rs:304-427 | the fields of an object are those of fragments without a condition or with one that the object meets |
| `CompletionMeaning.ResolveShows` | src/dynamic/resolve.rs:429-700 | completion succeeds with a value exactly when that shows what the resolvers gave, at every depth: the same scalar, the same enum item, list entry i for value i, null for null and nothing else, an object of the tag, and in it one entry per selected field, in order, with what the resolver of that field gave |
| `CompletionMeaning.ResolveCompletes` | src/dynamic/resolve.rs:429-700 | completion succeeds exactly when nothing stands in its way: no null under non-null, lists for lists, valid scalars and items, permitted tags, known fragments, succeeding resolvers |
| `Completion.CompletionCovariant` | src/dynamic/resolve.rs:429-521 | a value that completes at a type completes to the same result at every wider type |
| `Completion.CompletionNotContravariant` | src/dynamic/resolve.rs:445-457 | the converse fails for null |
| `Completion.InterfacePromiseBroken` | src/dynamic/check.rs:418-429 | an accepted implementation, and a request at the interface whose completion returns null where the interface declares non-null |
| `Completion.PromiseSchemaAccepted` | src/dynamic/check.rs:13-22 | a schema of that kind passes all checks |
| `Completion.InterfacePromiseKept` | src/dynamic/check.rs:418-429 | with equal field types every entry conforms to the interface field |
| `InputObjects.ReachesStep` | src/dynamic/check.rs:254-273 | one step of the search: looking at simple paths is complete |
| `InputObjects.ReferenceSearch.Check` | src/dynamic/check.rs:239-276 | the backtracking search fails exactly when the goal is reachable around the chain, restores the chain on success, and ends |
| `InputObjects.CheckReference` | src/dynamic/check.rs:229-233 | from an empty chain it fails exactly when the object reaches itself through non-null named fields |
| `InputObjects.CheckInputObjects` | src/dynamic/check.rs:184-237 | the loop over all types accepts exactly the schemas whose input objects all satisfy the rules |
| `InputInhabited.AcceptedIffInhabited` | src/dynamic/check.rs:184-276 | without oneof objects, repeated non-null, defaults for non-null fields and required leaf types without values, the cycle search accepts all input objects exactly when all have values |
| `InputInhabited.CheckedObjectsInhabited` | src/dynamic/check.rs:184-276 | when all checks accept a schema without oneof objects, all input objects have values exactly when no cycle of required fields is left and no field requires a leaf type without values; without repeated non-null no cycle is left |
| `InputInhabited.RejectedIsEmpty` | src/dynamic/check.rs:229-233 | an object on a cycle of required fields has no value, in any schema |
| `InputInhabited.InhabitedIffGrounded` | src/dynamic/check.rs:239-276 | in every schema without oneof objects some value of a type passes validation exactly when following required fields meets no cycle and no type without values |
| `InputInhabited.InhabitedIffNotBlocked` | src/validation/utils.rs:38-190 | in every schema some value of an input object passes validation exactly when the object is in no set of objects none of which can be built without another |
| `InputInhabited.EmptyEnumEscapes` | src/dynamic/check.rs:184-237 | a required enum without items passes all checks and leaves the object without values |
| `InputInhabited.EmptyScalarEscapes` | src/dynamic/scalar.rs:91-110 | a required scalar whose validator accepts nothing passes all checks and leaves the object without values |
| `InputInhabited.DefaultRejected` | src/validation/utils.rs:150-180 | the search rejects an object that needs itself only by a field with a default, although the empty object passes validation |
| `InputInhabited.AllInhabitedIff` | src/dynamic/check.rs:184-276 | in every schema without oneof objects whose types exist, all input objects have values exactly when no cycle of required fields is left and no field requires a leaf type without values |
| `InputInhabited.DoubleNonNullEscapes` | src/dynamic/check.rs:245-253 | non-null directly inside non-null passes all checks and leaves the object without values |
| `InputInhabited.OneofEscapes` | src/dynamic/check.rs:205-226 | a oneof object whose only member is itself passes all checks and has no values |
| `Entities.GroupByType` | derive/src/object.rs:1146-1159 | the groups and the rest partition the indices, each in order: an index is in the group whose name is the string in its first `__typename` field, and in the rest if there is none |
| `Entities.CollectKeys` | derive/src/object.rs:418-430 | the parallel vectors: the unanswered indices whose first field of the key name parses, in order and without repetition, and beside each that parsed value |
| `Entities.TypeNameMeaning` | derive/src/object.rs:1146-1159 | the type name of a representation is the string in its first field named `__typename` |
| `Entities.KeyMeaning` | derive/src/object.rs:418-430 | its key for a batch is what the first field of the key name parses to |
| `Entities.AskedMeaning` | derive/src/object.rs:418-430 | the indices a batch is asked about, and their keys, read off the representations |
| `Entities.IndicesMeaning` | derive/src/object.rs:1146-1159 | the group of a name, read off the representations |
| `Entities.RunBatch` | derive/src/object.rs:415-441 | answer j lands at the index key j came from, all other indices are unchanged, and it fails exactly when the one call it sends, or an answer it looks at, does; a short answer list leaves the rest, surplus answers are ignored |
| `Entities.FallBack` | derive/src/object.rs:1166-1176 | unanswered indices get their single lookup, answered ones keep their answer; it fails exactly when a lookup that is needed does |
| `Entities.FindEntities` | derive/src/object.rs:1130-1179 | one entry per representation: the answer of its type's batch calls if they gave one, and exactly for the rest the single answer; failure exactly when a call made for one of the types, or a single lookup that is needed, fails |
| `Entities.GroupAnswersTraced` | derive/src/object.rs:415-441 | every batched answer is what a call that was made answered to that very key, and no such answer is lost |
| `Entities.CallsDecide` | derive/src/object.rs:415-441 | batching a type succeeds exactly when no call that is made for it fails |
| `Entities.HonestBatchesSucceed` | derive/src/object.rs:432-436 | if batches fail only for keys `find_entity` fails for, no batch call fails while all lookups succeed |
| `Entities.FindEntitiesPointwise` | derive/src/object.rs:1130-1179 | if batch answers agree with `find_entity`, the result is `find_entity` mapped over the representations, and succeeds exactly when all of those and the batch calls do; if batches fail only for keys `find_entity` fails for, batching cannot be observed |
| `MergedEntities.MergedFindEntities` | derive/src/merged_object.rs:139-158 | per index the answer of the last declared member that has one; succeeds exactly when every member does, and fails as the last declared failing member |
| `MergedEntities.LastFoundMeaning` | derive/src/merged_object.rs:139-158 | that member, by index: it has an answer and no later declared one has |
| `MergedEntities.FindInMembersMeaning` | derive/src/merged_object.rs:122-137 | the one-by-one lookup is that of the last declared member that answers or fails |
| `MergedEntities.MergedPointwise` | derive/src/merged_object.rs:122-137 | if members are pointwise, so is the merged result |
| `MergedEntities.FailsIffMet` | derive/src/merged_object.rs:122-137 | the one-by-one lookup fails exactly when it meets a failing member before a later declared one answers |
| `MergedEntities.MergedAgainstSingle` | derive/src/merged_object.rs:122-158 | with pointwise members the merged batch equals the one-by-one lookup, failures included, exactly when no member fails or some representation meets a failing member |
| `MergedEntities.MergedCanFailAlone` | derive/src/merged_object.rs:139-158 | pointwise members and representations for which the merged batch fails although every one-by-one lookup answers |
| `MergedEntities.NestedFindEntities` | src/types/merged_object.rs:61-84 | the nested pairs: the second half is asked exactly for what the first has not found, and each answer is written at its own index |
| `MergedEntities.NestedIsTree` | src/types/merged_object.rs:53-84 | with pointwise members nested pairs equal asking the tree one by one, failures included |
| `MergedEntities.NestedAgainstSingle` | src/types/merged_object.rs:53-84 | on the tree of the macro they always equal the one-by-one lookup of the flat checks, failures included |
| `MergeTree.TreeOrder` | derive/src/merged_object.rs:16-34 | the tree read first argument first lists the members in exactly reverse declaration order |
| `MergeTree.ReverseAt` | derive/src/merged_object.rs:16-34 | reversing, by index |
| `MergeTree.FirstSomeMeaning` | derive/src/merged_object.rs:107-120 | a chain of checks gives the first outcome that is an answer or an error |
| `MergeTree.TreeDepth` | derive/src/merged_object.rs:16-34 | for n members it is ceil(log2 n) + 1 deep |
| `MergeTree.AskFlat` | derive/src/merged_object.rs:107-120 | the emitted checks ask in reverse declaration order and stop at the first answer or error |
| `MergeTree.TreeAsksInOrder` | src/types/merged_object.rs:45-51 | resolving through the nested pairs asks the members in tree order |
| `MergeTree.TreeAgreesWithFlat` | derive/src/merged_object.rs:102-120 | tree and flat checks give the same answer |
| `Position.SinceBreakMeaning` | parser/src/pos.rs:144-154 | the column counts the characters since the last line feed or carriage return |
| `Position.Utf8LengthMeaning` | parser/src/pos.rs:136-162 | a character takes the bytes of its encoding (section 3 of RFC 3629), which spell it |
| `Position.LineFeedsMeaning` | parser/src/pos.rs:148-151 | the line counts line feeds |
| `Position.LinesByReturns` | parser/src/pos.rs:143-155 | the specification counts one line more for each lone carriage return, and otherwise the same |
| `Position.LineAgreesIff` | parser/src/pos.rs:143-155 | the line of a position is the specification's exactly when no lone carriage return comes before it |
| `Position.LoneReturnMissed` | parser/src/pos.rs:145-147 | behind a single carriage return the two differ |
| `Position.PositionCalculator.constructor` | parser/src/pos.rs:127-134 | starts at line 1, column 1 |
| `Position.PositionCalculator.Step` | parser/src/pos.rs:136-162 | a step to any later character boundary returns the position that scanning the whole prefix gives |
| `Position.Locate` | parser/src/pos.rs:126-162 | so does any sequence of forward steps, for every token |

## Left out

* Async runtime, spawners, timers, channels and locks: they appear only as atomic steps and outstanding tasks; sends to a dropped receiver are sends nobody reads.
* Update in place of nested selection sets: selection trees are values, and `RemoveSkippedSelection` returns the rewritten tree; aliasing is not captured.
* The `lru` crate: its put, get and pop are a bounded recency list.
* `create_value_object`: completed objects keep one entry per selected field; merging entries with equal response keys is not part of this model.
* The `__schema`, `__type`, `_service` and `_entities` branches of the dynamic resolver, extensions, guards, argument coercion of resolvers: the resolver functions are arbitrary, and these branches are not modelled.
* The request parser, the validation rules other than `is_valid_input_value`, and the choice of the operation in `prepare_request`: the model starts from a parsed document and one chosen operation.
* The registry: it appears as the map from a type to its possible objects.
* Emission of the macro code: the emitted algorithms are modelled, not the token handling; the per-entity `find_entity` bodies are an arbitrary function.
* `visitedFragments` of section 6.3.2 of the GraphQL October 2021 specification: the code collects a fragment again each time it is spread, and so does the reference it is compared with.
* `get_cached_values`, which copies the cache out, `feed_one`, which calls `feed_many`, and builder setters: they start no protocol step of their own.
* The `_entities` field as a way to reach objects in introspection-only mode: `IntrospectionOnlyAtRoots` covers roots and subscription fields, and `IntrospectionOnlyExact` any type reference.
