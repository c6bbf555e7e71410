# Proofs about the proxy's stateful core

This project models the parts of the proxy whose correctness depends on several pieces of state staying in step, and
proves what they are meant to guarantee. `dafny verify dfyconfig.toml` verifies the whole project.

**Model registry** (`Registrations`, `RegistryTables`, `Listings`, `Recount`, `RegistryRuns`, `Availability`,
`ModelRegistries`). The registry keeps, per model, a unit count, a tally per provider and metadata per provider, next to
per-client tables these numbers duplicate. `RegistryTables.Consistent` says that every count is the sum of the
multiplicities in the client tables, every tally is that sum over the clients of one provider, and nothing is present
with zero units. Registration works an old list and a new one into the index in five phases; `Registrations` describes
each phase on a single model, proves that together they equal a closed form, and compares that form with leaving and
joining afresh. `ModelRegistries` holds the object itself, with the phases as loops over its maps; each method is proved
to produce the tables that `RegistryRuns.Apply` prescribes and to keep every cached listing equal to the one built at
its building time. Time enters as an integer number of nanoseconds; the cache is proved right at any later moment before
its expiry. `Availability` says which models are listed in terms of the clients that list them and their marks.

**Usage queue** (`Fifo`, `Subscribers`, `UsageQueues`, `Enqueuing`). `Fifo` is a plain queue with expiry, with the fate
of every item over any run of operations. `Subscribers` is a state machine whose steps interleave freely: unsubscribing
and clearing close the channels they removed only after releasing the lock. `UsageQueues.Queue` has the slice with its
moving head, the conditional compaction and the channel table, proved to follow the two. Enqueueing takes the lock
twice; `Enqueuing` is every interleaving of the two locked sections with everything else.

**YAML merge** (`YamlTrees`, `YamlMerge`, `YamlDefaults`, `YamlMatching`, `YamlResave`, `YamlNodes`). `YamlMerge` is the
comment-preserving merge on tree values, with its guarantees: exactly which generated trees the result covers, that
destination keys keep their places, and that sequence elements are re-matched without reuse. `YamlDefaults` has the
table of values a save leaves out and finds every other one in the result; `YamlMatching` says how elements are
recognised. `YamlResave` is about merging the same tree again. `YamlNodes` is the same merge on nodes updated in place,
proved to produce that value and to keep the nodes a proper tree.

**Virtual models** (`Unrolling`, `VirtualModels`, `VirtualNames`). A virtual model either has a finite unrolling into a
tree of targets or it does not. The recursive expansion with its shared set of visited names and its depth bound is
proved to succeed exactly on the unrollings within the bound. `VirtualNames` says what requests, references and suffixes
mean.

**Plugin guard** (`ClientGuard`). Calls and shutdowns as interleaved steps of any number of threads, shutdowns from
inside a call included, with the locked sections of the code as methods that follow them.

**Wire format** (`Resp`, `RespWire`, `RespStreams`). Encoders and decoders for the Redis serialization protocol (RESP2),
sections "Bulk strings" and "Arrays", the round trips between them, and what a decoder makes of a request that has only
partly arrived. `RespWire` has the bytes themselves and the readers' other branches.

**Replay cache and Home client** (`ReplayCaches`, `HomeClients`). Two bounded pieces of state: a cache with batch
eviction and sliding lifetime, and a client that fails over between nodes.

`Prelude` has options, bytes and sums over maps; `Text` the string operations.

Some results are about where the code and an expected law part. Each says exactly when, and gives a run or an input:

- Re-registering a client is the same as unregistering and registering it if and only if each model of its new list
  carries no other client's marks where this client alone listed it, and none of its own where it did not list it before
  (`ReRegisterIsLeaveAndJoin`). `StrangersMarkCanSurvive` is a run in which it is not the same.
- The recount by provider and the index agree if and only if it is not the case that a client with an empty identifier
  is over quota and decides the outcome (`RecountAgreesWithIndex`), because the recount passes over that client's marks
  and the index does not. `NamelessClientCanDecide` is a run in which they disagree.
- Beside a client that is suspended for another reason than its quota, a model is served if and only if more of the
  clients listing it are free of marks than have both kinds of marks (`ServedIffFreeOutnumber`), since a client with
  both is deducted twice. `DoubleMarkHidesFreeClient` is a run in which a free client is hidden.
- The merge covers a generated tree in every existing one if and only if the tree is blank-safe: in each mapping that is
  an element of a sequence, the values of blank keys are droppable (`MergeCoversIffBlankSafe`). Merging the tree into
  itself shows the loss if there is one; `BlankKeyCanBeLost` is a tree that loses a value. Blank keys elsewhere are safe.
- Shutting the guard down comes to a quiet end if and only if no thread shuts it down from inside its own call
  (`EveryScheduleEndsQuiet`); such a thread waits for itself for good (`ShutdownInsideCallHangs`).
- Two cache keys are equal for different models and sessions if and only if the joined text can be split at another NUL
  (`CollidesIffSplitsElsewhere`). `KeysCanCollide` is such a pair.
- A usage record enters the queue beside a subscriber if and only if one that subscribed between the two locked sections
  of enqueueing is still subscribed at the second (`QueuedBesideSubscriberIff`); `SubscriberCanMissARecord` is such a run.
- A cleared queue stays empty until a record is newly accepted if and only if none was pending at the clearing
  (`ClearedStaysEmptyIff`), and what enters is exactly what was pending (`OnlyPendingRecordsEnter`).
  `RecordCanOutliveClearing` is a run in which one does.
- An operation on the queue expires exactly the items older than its cutoff if and only if none of them waits behind a
  younger one (`RunExpiresExactlyIff`), and at whatever time if and only if the queue is in order of time
  (`EveryExpiryIsExactIffSorted`). Callers read the clock before they take the lock, so a clock that only runs forward
  does not ensure that order; the order of the locked sections does. `OldItemCanOutliveItsCutoff` is a run out of order.
- Saving a tree twice is saving it once if and only if the first save leaves a settled tree (`SavingTwiceIff`), which it
  does if every sequence element is recognised in its place again (`SavingTwiceInPlace`). In `SavingTwiceCanLoseComments`
  the first save changes an element's identity, and the second loses its comment.

## Model

| member | source | states |
|---|---|---|
| `Registrations.WithdrawAgain` | internal/registry/model_registry.go:532-565 | n single removals and one more amount to removing n + 1 units at once, including the disappearance of the provider, its metadata and the whole registration with the last unit |
| `Registrations.OfferAgain` | internal/registry/model_registry.go:491-530 | n single additions and one more amount to adding n + 1 units at once |
| `Registrations.FirstThreePhases` | internal/registry/model_registry.go:359-405 | moving the overlap off, dropping and trimming leave exactly the old provider's tally reduced by what must go, and the client's marks cleared only if something was trimmed |
| `Registrations.FourthAndFifthPhase` | internal/registry/model_registry.go:407-462 | adding and refreshing add the missing units, credit the overlap to a changed provider and clear the client's marks |
| `Registrations.PhasesRebalance` | internal/registry/model_registry.go:359-462 | the five phases together do what the closed form says: the old multiplicity leaves the old provider, the new one arrives at the new provider, metadata is fresh, the client's marks are gone |
| `Registrations.RebalancedTallies` | internal/registry/model_registry.go:340-462 | reconciling changes the count by new minus old multiplicity and each provider's tally by exactly the client's share |
| `Registrations.RebalancedWellKept` | internal/registry/model_registry.go:340-462 | reconciling leaves no zero entries, no nameless provider, and metadata for exactly the providers that have units |
| `Registrations.OfferTallies` | internal/registry/model_registry.go:491-530 | adding n units raises the count by n and only that provider's tally by n |
| `Registrations.RebalancedIsLeaveAndJoin` | internal/registry/model_registry.go:340-462 | for one model, reconciling equals withdrawing everything and offering afresh if and only if the marks condition holds |
| `RegistryTables.ConsistentHolds` | internal/registry/model_registry.go:532-565 | in a consistent registry a client's own units are always really held by the index under its provider |
| `RegistryTables.PresentIffListed` | internal/registry/model_registry.go:491-565 | a model is present exactly when some client lists it |
| `RegistryTables.ProviderPresentIffServed` | internal/registry/model_registry.go:491-565 | a provider has an entry under a model exactly when some client of that provider lists the model |
| `RegistryTables.FirstInfosOfIds` | internal/registry/model_registry.go:283-296 | the collected metadata belongs to exactly the usable identifiers, each being the first model of the list with that identifier |
| `RegistryTables.EveryOccurrenceCounts` | internal/registry/model_registry.go:283-296 | a collected identifier is as often in the client's list as the registered list names it |
| `RegistryTables.IdsInOrder` | internal/registry/model_registry.go:283-296 | the collected identifiers are those of all named models of the list, in its order |
| `RegistryTables.EmptyListUnregisters` | internal/registry/model_registry.go:298-306 | a list without usable models is the same as unregistering |
| `RegistryTables.SlotsAfterRegister` | internal/registry/model_registry.go:276-489 | after a registration each model's entry is what its own multiplicities prescribe, also for models neither listed before nor now |
| `RegistryTables.RegisterKeepsBalance` | internal/registry/model_registry.go:276-489 | count and every provider tally of a model stay equal to their sums over the client tables, whatever changes |
| `RegistryTables.RegisterKeepsConsistency` | internal/registry/model_registry.go:276-489 | registering keeps the whole conservation invariant |
| `RegistryTables.RegisteredUnits` | internal/registry/model_registry.go:276-489 | afterwards the client's own part of the count, and of its provider's tally, is the number of positions at which its list names the model |
| `RegistryTables.RegisteredInfos` | internal/registry/model_registry.go:417-462 | the first model a list names under an identifier is what the index shows for it, in general and for the provider, and what the client's table holds |
| `RegistryTables.ReconcilingClearsOwnMarks` | internal/registry/model_registry.go:420-445 | a known client that registers again has no marks on the models it lists or listed |
| `RegistryTables.RegisteringLeavesTheRest` | internal/registry/model_registry.go:276-489 | models not concerned, other clients' marks and other providers' infos stay as they are |
| `RegistryTables.ReRegisterIsLeaveAndJoin` | internal/registry/model_registry.go:276-489 | re-registering an existing client gives the tables of unregistering and registering it if and only if the marks condition holds on every model |
| `RegistryTables.OfferedMarksRebind` | internal/registry/model_registry.go:420-462 | if marks belong to clients that list the model, the marks condition holds |
| `RegistryTables.RegisterKeepsMarksOffered` | internal/registry/model_registry.go:532-565 | registering never leaves a mark behind on a model its client stopped listing |
| `Listings.NoRecoverySameListing` | internal/registry/model_registry.go:844-866 | as long as no counted mark recovers the listing is the same set of rows |
| `Listings.ExhaustedSameIffNoRecovery` | internal/registry/model_registry.go:929-942 | between two moments the clients over quota are the same for every model and provider if and only if no counted mark recovers up to the second |
| `Listings.ListingStable` | internal/registry/model_registry.go:844-866 | until the computed expiry the listing is the same set of rows |
| `Listings.ExpiryIsTight` | internal/registry/model_registry.go:929-942 | the expiry lies in the future and at that very moment some counted quota window has closed |
| `Listings.CleanupIsInvisible` | internal/registry/model_registry.go:1377-1396 | cleaning up expired marks changes no listing asked for with a clock at or after its own |
| `Recount.RegisterKeepsSuspensionsNamed` | internal/registry/model_registry.go:276-489 | registering never attaches a suspension to the nameless client |
| `Recount.RecountAgreesWithIndex` | internal/registry/model_registry.go:1009-1125 | the recount from the client tables and the index-based rule give the same answer if and only if the nameless client does not decide |
| `RegistryRuns.StepKeepsConsistency` | internal/registry/model_registry.go:276-489 | every operation of the registry keeps the conservation invariant |
| `RegistryRuns.QuotaMarksAfter` | internal/registry/model_registry.go:684-711 | a quota mark is set, cleared, or dropped after five minutes, and every other mark stays |
| `RegistryRuns.SuspensionsAfter` | internal/registry/model_registry.go:718-769 | a named client is suspended with its first reason until it is resumed, and every other mark stays |
| `RegistryRuns.ReachableIsConsistent` | internal/registry/model_registry.go:276-769 | after any sequence of operations on an empty registry, all counters are their sums |
| `RegistryRuns.StepKeepsMarksOffered` | internal/registry/model_registry.go:684-769 | an operation that marks only listed pairs keeps all marks on listed pairs |
| `RegistryRuns.ReachableMarksAreOffered` | internal/registry/model_registry.go:684-769 | if every mark is placed on a listed pair, every mark ever present belongs to a client listing the model |
| `RegistryRuns.ReachableReRegister` | internal/registry/model_registry.go:276-489 | in such runs re-registering always gives the state of unregistering and then registering |
| `RegistryRuns.UnregisteringAStranger` | internal/registry/model_registry.go:624-678 | unregistering an unknown client changes nothing |
| `RegistryRuns.NamelessClientCanDecide` | internal/registry/model_registry.go:1071-1076 | a concrete run after which the recount and the index disagree |
| `RegistryRuns.StrangersMarkCanSurvive` | internal/registry/model_registry.go:420-462 | a concrete run after which re-registering keeps a mark that leaving and joining drops |
| `Availability.QuotaReason` | internal/registry/model_registry.go:944-956 | a suspension counts as cooling down exactly if its reason says quota, in any case |
| `Availability.ServedUnlessStopped` | internal/registry/model_registry.go:958-963 | as long as no client of the provider is suspended for another reason, a pair is listed exactly if some client of the provider lists the model, whatever quota marks there are |
| `Availability.ServedBesideStopped` | internal/registry/model_registry.go:958-963 | beside one that is, it is listed exactly if there are more units than clients over quota and clients so suspended together |
| `Availability.ServedIffFreeOutnumber` | internal/registry/model_registry.go:958-963 | where lists do not repeat the model and marks are on listed pairs, that is exactly if more clients are free of marks than have both kinds |
| `Availability.ServedIffSomeoneFree` | internal/registry/model_registry.go:958-963 | and if no client has both kinds, exactly if some client is free of marks |
| `Availability.RecountedUnlessStopped` | internal/registry/model_registry.go:1107-1121 | the recount follows the first rule with the marks of named clients |
| `Availability.RecountedBesideStopped` | internal/registry/model_registry.go:1107-1121 | and the second |
| `Availability.RowShowsRegisteredInfo` | internal/registry/model_registry.go:897-917 | after a registration the listed row of the model and the provider shows the registered info |
| `Availability.RowShowsOwnInfo` | internal/registry/model_registry.go:897-917 | a listed row shows what the index holds for its own provider |
| `Availability.OthersLeaveTheRow` | internal/registry/model_registry.go:897-917 | registrations under other providers do not change a row |
| `Availability.DoubleMarkHidesFreeClient` | internal/registry/model_registry.go:958-963 | a concrete run in which a doubly marked client hides a free one |
| `ModelRegistries.CountIds` | internal/registry/model_registry.go:340-343 | the counts are the multiplicities of the old list |
| `ModelRegistries.Collect` | internal/registry/model_registry.go:283-296 | the first loop yields the usable identifiers, their first models, and for each the number of positions that name it |
| `ModelRegistries.CountExhausted` | internal/registry/model_registry.go:929-942 | the number of the provider's clients over quota and the earliest of their recovery times |
| `ModelRegistries.CountSuspended` | internal/registry/model_registry.go:944-956 | how many of the provider's clients are cooling down and how many suspended otherwise |
| `ModelRegistries.CountNamedExhausted` | internal/registry/model_registry.go:1071-1082 | the recount's number of clients over quota, leaving out the nameless one |
| `ModelRegistries.CountNamedSuspended` | internal/registry/model_registry.go:1083-1098 | the recount's numbers of suspended clients, leaving out the nameless one |
| `ModelRegistries.CountList` | internal/registry/model_registry.go:1036-1062 | one client's list raises each model's count by its multiplicity |
| `ModelRegistries.ModelRegistry.AddModelRegistration` | internal/registry/model_registry.go:491-530 | adds one unit to one model and touches no other |
| `ModelRegistries.ModelRegistry.RemoveModelRegistration` | internal/registry/model_registry.go:532-565 | removes one unit from one model and touches no other |
| `ModelRegistries.ModelRegistry.MoveOverlaps` | internal/registry/model_registry.go:359-386 | the loop does phase 1 on every model |
| `ModelRegistries.ModelRegistry.DropRemovedModels` | internal/registry/model_registry.go:388-394 | the loop does phase 2 on every model |
| `ModelRegistries.ModelRegistry.TrimOverages` | internal/registry/model_registry.go:396-405 | the loop does phase 3 on every model |
| `ModelRegistries.ModelRegistry.AddShortfalls` | internal/registry/model_registry.go:407-418 | the loop does phase 4 on every model |
| `ModelRegistries.ModelRegistry.RefreshListed` | internal/registry/model_registry.go:420-462 | the loop does phase 5 on every model |
| `ModelRegistries.ModelRegistry.Reconcile` | internal/registry/model_registry.go:340-462 | the five loops in a row yield the prescribed index |
| `ModelRegistries.ModelRegistry.RegisterFresh` | internal/registry/model_registry.go:313-338 | the pure addition path yields the prescribed index |
| `ModelRegistries.ModelRegistry.RegisterClient` | internal/registry/model_registry.go:276-489 | the whole new state is the prescribed one, each count is the other clients' part and the number of positions of the list, the invariant holds, and every cached listing is sound |
| `ModelRegistries.ModelRegistry.UnregisterClientInternal` | internal/registry/model_registry.go:624-678 | every listed occurrence is withdrawn and the client's rows are gone |
| `ModelRegistries.ModelRegistry.UnregisterClient` | internal/registry/model_registry.go:616-621 | the whole new state is the prescribed one and the invariant holds |
| `ModelRegistries.ModelRegistry.ProviderModelAvailable` | internal/registry/model_registry.go:919-964 | the answer is the availability rule, the expiry the earliest recovery among the marks that count |
| `ModelRegistries.ModelRegistry.BuildAvailableModels` | internal/registry/model_registry.go:844-866 | the rows are exactly the available pairs, each once, and the expiry the earliest recovery of all |
| `ModelRegistries.ModelRegistry.GetAvailableModels` | internal/registry/model_registry.go:816-842 | a cached or rebuilt listing equals what a rebuild would give at the caller's moment, also if that was read before the cached one was built, unless a mark recovered in between; then it is the listing of some later moment; the listing is cached and other entries stay |
| `ModelRegistries.ModelRegistry.CountProviderModels` | internal/registry/model_registry.go:1022-1062 | the recounted number of each model is the sum over the provider's clients |
| `ModelRegistries.ModelRegistry.GetAvailableModelsByProvider` | internal/registry/model_registry.go:1009-1125 | returns each recount-available model once, with metadata some client of that provider registered |
| `ModelRegistries.ModelRegistry.SetModelQuotaExceeded` | internal/registry/model_registry.go:684-695 | sets one mark, keeps the invariant, and leaves no unsound cached listing |
| `ModelRegistries.ModelRegistry.ClearModelQuotaExceeded` | internal/registry/model_registry.go:701-711 | removes one mark, keeps the invariant, and leaves no unsound cached listing |
| `ModelRegistries.ModelRegistry.SuspendClientModel` | internal/registry/model_registry.go:718-744 | suspends once, keeping the first reason, with the invariant and sound listings |
| `ModelRegistries.ModelRegistry.ResumeClientModel` | internal/registry/model_registry.go:750-769 | lifts one suspension, with the invariant and sound listings |
| `ModelRegistries.ModelRegistry.CleanupExpiredQuotas` | internal/registry/model_registry.go:1377-1396 | drops exactly the expired marks; listings stay sound although the cache is kept when nothing was dropped |
| `Fifo.PopDelivers` | internal/redisqueue/queue.go:199-224 | a pop delivers the payloads behind the stale front, as many as there are but no more than asked for, and leaves the rest |
| `Fifo.EnqueueAppends` | internal/redisqueue/queue.go:127-139 | an enqueueing drops the stale front, which is older than the window or a minute, and puts the new item last |
| `Fifo.StepConserves` | internal/redisqueue/queue.go:110-139 | one operation neither loses, duplicates nor reorders: what left, then what stays, is what was there and came |
| `Fifo.RunConserves` | internal/redisqueue/queue.go:110-241 | over any run the departed items, each with one fate, followed by the queued ones are exactly the added ones in order |
| `Fifo.OutputsAreDeliveries` | internal/redisqueue/queue.go:199-224 | what callers were handed is exactly the payloads of the delivered items, in order, each once |
| `Fifo.RunStaysSorted` | internal/redisqueue/queue.go:127-139 | if items are added in the order of their times, in the order of the locked sections, the queue is in order of time |
| `Fifo.SortedExpiryIsExact` | internal/redisqueue/queue.go:226-241 | on a sorted queue prefix pruning removes exactly the items older than the cutoff |
| `Fifo.OrderedRunExpiresExactly` | internal/redisqueue/queue.go:226-241 | after any run whose locked sections come in the order of their times, the next operation expires exactly the items older than its cutoff |
| `Fifo.ExpiryIsExactIff` | internal/redisqueue/queue.go:226-241 | prefix pruning removes exactly the items older than the cutoff if and only if none waits behind a younger one |
| `Fifo.RunExpiresExactlyIff` | internal/redisqueue/queue.go:226-241 | after any run the next operation expires exactly the items older than its cutoff if and only if none waits behind a younger one |
| `Fifo.EveryExpiryIsExactIffSorted` | internal/redisqueue/queue.go:226-241 | after any run the next operation does so at whatever time if and only if the queue is in order of time |
| `Fifo.OldItemCanOutliveItsCutoff` | internal/redisqueue/queue.go:127-131 | a concrete run in which the caller that read the clock later got the lock first, and an old item stays behind a younger one |
| `Subscribers.StepKeepsInvariant` | internal/redisqueue/queue.go:110-197 | every step of publish, subscribe, unsubscribe, clear, a delayed close or a receive keeps the subscriber invariant |
| `Subscribers.PublishReaches` | internal/redisqueue/queue.go:141-160 | a publication is put last in the channel of every subscriber with room; one without is dropped and its channel closed |
| `Subscribers.PublishLeavesOthers` | internal/redisqueue/queue.go:141-160 | no other channel gets it or is closed |
| `Subscribers.SubscribeAdds` | internal/redisqueue/queue.go:162-184 | a new subscriber has a channel of its own with its first message waiting, and changes no other |
| `Subscribers.RemovalsRemove` | internal/redisqueue/queue.go:110-125 | who unsubscribes or is cleared is no longer subscribed, and the channel is closed later |
| `Subscribers.ReceiveTakesOldest` | internal/redisqueue/queue.go:162-184 | a receiver takes the oldest waiting message |
| `Subscribers.EverySubscriberIsServed` | internal/redisqueue/queue.go:141-184 | in every interleaving a channel's messages are a prefix of its first message and all later publications, all of it while subscribed; it is closed at most once and never sent to afterwards |
| `Subscribers.ClosedStaysAsItIs` | internal/redisqueue/queue.go:141-160 | a closed channel is never sent to or closed again by any step |
| `Subscribers.UnsubscribeTouchesOnlyItsOwn` | internal/redisqueue/queue.go:186-197 | an unsubscribe, however late, affects no subscription but its own |
| `Subscribers.NoLeakedChannel` | internal/redisqueue/queue.go:110-125 | when no removal is waiting to close, the open channels are exactly the subscribed ones |
| `UsageQueues.Queue.PruneLocked` | internal/redisqueue/queue.go:226-241 | the visible contents lose exactly their stale front |
| `UsageQueues.Queue.MaybeCompactLocked` | internal/redisqueue/queue.go:243-257 | compaction never changes the visible contents, and bounds the dead slots |
| `UsageQueues.Queue.EnqueueItem` | internal/redisqueue/queue.go:127-139 | the contents become those of the plain queue, with dead slots bounded |
| `UsageQueues.Queue.PopOldest` | internal/redisqueue/queue.go:199-224 | output and contents are those of the plain queue, with dead slots bounded |
| `UsageQueues.Queue.PublishToSubscribers` | internal/redisqueue/queue.go:141-160 | follows the publish step, and reports whether there was a subscriber |
| `UsageQueues.Queue.OfferToAll` | internal/redisqueue/queue.go:149-157 | the loop offers the payload once to every channel, in any order, dropping and closing the full ones |
| `UsageQueues.Queue.Subscribe` | internal/redisqueue/queue.go:162-184 | follows the subscribe step with a channel and an identifier of its own |
| `UsageQueues.Queue.UnsubscribeLocked` | internal/redisqueue/queue.go:186-192 | follows the unsubscribe step; the channel to close is its own if it is still subscribed |
| `UsageQueues.Queue.ClearLocked` | internal/redisqueue/queue.go:110-120 | empties the queue and the table; the channels to close are all that were subscribed |
| `UsageQueues.Queue.CloseRemoved` | internal/redisqueue/queue.go:122-124 | the delayed close happens on a channel not closed before |
| `UsageQueues.Queue.Receive` | internal/redisqueue/queue.go:162-184 | a reader gets the oldest waiting message |
| `UsageQueues.Queue.Enqueue` | internal/redisqueue/queue.go:65-76 | with nothing between its two locked sections, a payload goes to the subscribers if there are any and into the queue otherwise, never both, and nowhere if disabled or empty |
| `Enqueuing.RunFollows` | internal/redisqueue/queue.go:65-76 | in every interleaving of both locked sections with all other operations the queue is a run of the plain queue and the subscribers are a run of their state machine |
| `Enqueuing.EveryRecordIsSomewhere` | internal/redisqueue/queue.go:65-76 | in every interleaving each accepted record is in exactly one of: published (the publications being the delivered records and the notices), between the two sections, departed with one fate, still queued |
| `Enqueuing.OrderedQueueIsSorted` | internal/redisqueue/queue.go:127-139 | in every interleaving whose second sections come in the order of their times the queue is in order of time |
| `Enqueuing.SubscriberIffNewcomer` | internal/redisqueue/queue.go:141-147 | from a moment without subscribers on, there is one if and only if one that came later is still subscribed |
| `Enqueuing.QueuedBesideSubscriberIff` | internal/redisqueue/queue.go:65-76 | a record's second section puts it last in the queue, and beside a subscriber if and only if one that subscribed after its first section is still subscribed |
| `Enqueuing.TableStaysEmpty` | internal/redisqueue/queue.go:162-184 | as long as nobody subscribes an empty table stays empty |
| `Enqueuing.SubscriberCanMissARecord` | internal/redisqueue/queue.go:65-76 | a concrete interleaving in which it is |
| `Enqueuing.OnlyPendingRecordsEnter` | internal/redisqueue/queue.go:65-76 | while no record is newly accepted, what enters the queue is exactly what ceases to be between its two sections |
| `Enqueuing.ClearedStaysEmptyIff` | internal/redisqueue/queue.go:110-125 | a cleared queue stays empty until a record is newly accepted if and only if none was between its two sections at the clearing |
| `Enqueuing.PendingRecordEnters` | internal/redisqueue/queue.go:127-139 | after a clearing a second section puts its record into the queue if and only if it was between its two sections |
| `Enqueuing.RecordCanOutliveClearing` | internal/redisqueue/queue.go:65-76 | a concrete interleaving in which a record enters the queue after the clearing that followed its acceptance |
| `YamlTrees.Pruned` | internal/config/config.go:1654-1688 | pruning keeps kind, tag, value, notes and a sequence's length, and changes only mappings and sequences |
| `YamlTrees.FirstUnused` | internal/config/config.go:1792-1833 | the first unused accepted element, none before it qualifying |
| `YamlTrees.Match` | internal/config/config.go:1792-1833 | a matched element is unused and resembles the target by identity or structure |
| `YamlTrees.MatchIsFirst` | internal/config/config.go:1792-1833 | the match is the first unused element of the same identity, or without any the first of the same structure |
| `YamlTrees.MatchesInjective` | internal/config/config.go:1770-1790 | no original element is taken over by two source elements |
| `YamlTrees.UnmatchedMeansUnavailable` | internal/config/config.go:1792-1833 | an element goes unmatched only if every resembling original was already taken |
| `YamlMatching.FirstScalarCounts` | internal/config/config.go:1859-1875 | the text under a name is that of the first scalar whose trimmed key says the name in any case |
| `YamlMatching.KnownByName` | internal/config/config.go:1835-1845 | a mapping is known by the first of nine names under which it has a text |
| `YamlMatching.KnownByFirstText` | internal/config/config.go:1846-1857 | without one it is known by its first text, or not at all |
| `YamlMatching.StructurallyEqualIff` | internal/config/config.go:1877-1915 | trees are structurally equal exactly if kinds, numbers of children and trimmed texts agree throughout |
| `YamlMatching.StructureKeepsIdentity` | internal/config/config.go:1835-1915 | structurally equal mappings have the same identity |
| `YamlMatching.OnlyOneIsTaken` | internal/config/config.go:1792-1833 | the one source element with a text or identity takes over the one original with it |
| `YamlMatching.LabelledElementKeepsNotes` | internal/config/config.go:1549-1571 | so it keeps that element's comments, wherever it has moved to |
| `YamlMatching.MergedShell` | internal/config/config.go:1521-1584 | kind, tag and text of a merged node by the kinds of both, an explicit null staying for an empty sequence |
| `YamlMatching.KeptKeysAre` | internal/config/config.go:1976-1988 | the keys a matched element keeps are the non-blank keys of its source element, trimmed |
| `YamlMerge.PrunedCovers` | internal/config/config.go:1654-1688 | a pruned copy still covers what it was copied from |
| `YamlMerge.CoversItself` | internal/config/config.go:1736-1748 | a plain copy covers its original |
| `YamlMerge.MergedMappingLookup` | internal/config/config.go:1482-1516 | the fate of each key: merged in place, appended in pruned form, dropped as a default, or left alone |
| `YamlMerge.BlankKeyNeverKept` | internal/config/config.go:1978-1988 | a blank key never survives the pruning of a matched element |
| `YamlMerge.PruneMissingCovers` | internal/config/config.go:1972-2001 | removing keys the source lacks keeps it covered if and only if the values of its blank keys are droppable |
| `YamlMerge.MergeCovers` | internal/config/config.go:1521-1584 | merging into any paired tree covers every well-formed, blank-safe source, at every depth |
| `YamlMerge.OwnMatches` | internal/config/config.go:1770-1790 | merged into itself a sequence keeps every element in its place |
| `YamlMerge.MergeCoversIffBlankSafe` | internal/config/config.go:1521-1584 | a well-formed source is covered in every destination if and only if it is blank-safe, and if and only if it is covered when merged into itself |
| `YamlMerge.BlankKeyCanBeLost` | internal/config/config.go:1978-1988 | a concrete tree that is not covered when merged into itself |
| `YamlMerge.SaveCoversIffBlankSafe` | internal/config/config.go:1360-1361 | a generated mapping is covered in every existing one it is saved to if and only if it is blank-safe |
| `YamlMerge.KeysInOrder` | internal/config/config.go:1482-1516 | the keys are the destination's in their order, then the new ones in the source's order |
| `YamlMerge.DestinationKeepsItsPlaces` | internal/config/config.go:1482-1516 | every key node of the destination stays at its index, and only values with a source change |
| `YamlMerge.NotesSurvive` | internal/config/config.go:1521-1584 | the merge never changes the notes of the node it merges into |
| `YamlMerge.SequenceElements` | internal/config/config.go:1549-1571 | a sequence ends with the source's length; a matched element keeps its notes and has no key the source element lacks, an unmatched one is a copy |
| `YamlMerge.KeptOnlyWanted` | internal/config/config.go:1972-2001 | after pruning no key remains that the source element lacks |
| `YamlMerge.RootMerge` | internal/config/config.go:1360-1361 | saving into an existing file: every key node and value of the file keeps its place, new keys follow in source order, notes stay, and a blank-safe tree is covered |
| `YamlDefaults.ScalarTests` | internal/config/config.go:1614-1650 | a scalar is zero or a known default exactly if it is in the written-out table of tags, texts and dotted paths |
| `YamlDefaults.DroppableIffAllDefault` | internal/config/config.go:1506-1514 | a new value is left out exactly if all its scalar leaves are in the table, elements of sequences as zero values |
| `YamlDefaults.PrunedScalarIff` | internal/config/config.go:1654-1688 | below a new value exactly the scalars of the table are left out, and the others are there as they were |
| `YamlDefaults.EveryValueIsSaved` | internal/config/config.go:1482-1584 | every value of the source is found in the merge at its keys, a scalar with its tag and text; what is missing was absent from the destination and is in the table altogether |
| `YamlDefaults.NewScalarIsSavedIff` | internal/config/config.go:1506-1514 | a scalar at keys the destination lacks is written, as it is, exactly if it is not in the table |
| `YamlDefaults.SavedValues` | internal/config/config.go:1360-1361 | the same for saving a generated mapping into an existing one |
| `YamlResave.MergeKeepsPaired` | internal/config/config.go:1521-1584 | merging leaves a tree whose mappings pair every key with a value, so that it can be merged into again |
| `YamlResave.UnchangedIffSettled` | internal/config/config.go:1521-1584 | merging a source changes nothing if and only if the tree is settled: scalars agree, missing keys are droppable, elements matched in their places keep no foreign key and are settled, and others already are what their match gives |
| `YamlResave.SavingTwiceIff` | internal/config/config.go:1521-1584 | merging a source twice is merging it once if and only if the first result is settled |
| `YamlResave.OwnPlacesIff` | internal/config/config.go:1770-1790 | every element is matched in its own place if and only if each is recognised there, by identity or, if the identity is found nowhere from there on, by structure |
| `YamlResave.SavingTwiceInPlace` | internal/config/config.go:1521-1584 | merging a blank-safe source twice is merging it once if every element is recognised in its place in the first result and has no key its source element lacks |
| `YamlResave.SavingTwiceCanLoseComments` | internal/config/config.go:1792-1857 | a concrete element whose comment the first merge keeps and the second loses |
| `YamlNodes.DeepCopy` | internal/config/config.go:1736-1748 | a copy stands for the same tree and shares no node |
| `YamlNodes.CopyNodeShallow` | internal/config/config.go:1752-1768 | everything but the notes is replaced by fresh copies |
| `YamlNodes.FindMapKeyIndex` | internal/config/config.go:1588-1598 | the index of the first pair with the key, or -1, also for anything but a mapping |
| `YamlNodes.PruneKnownDefaults` | internal/config/config.go:1654-1688 | in-place pruning yields the pruned tree within the same nodes |
| `YamlNodes.PruneMissingMapKeys` | internal/config/config.go:1972-2001 | keeps exactly the pairs whose trimmed key the source has |
| `YamlNodes.MatchSequenceElement` | internal/config/config.go:1792-1833 | the two loops find the match by identity first and by structure otherwise |
| `YamlNodes.ReorderSequence` | internal/config/config.go:1770-1790 | the choices are made one after the other, each excluding the earlier ones |
| `YamlNodes.MergePairInto` | internal/config/config.go:1482-1516 | one source pair is merged, appended or left out, in place |
| `YamlNodes.MergeMappingPreserve` | internal/config/config.go:1482-1516 | the in-place merge yields the merged tree and a proper tree of nodes |
| `YamlNodes.MergeSequence` | internal/config/config.go:1549-1571 | the sequence becomes the matched and copied elements in the source's order, sharing no node |
| `YamlNodes.MergeNodePreserve` | internal/config/config.go:1521-1584 | the in-place merge of any two separate trees yields the merged tree |
| `Unrolling.UnrollingUnique` | internal/routing/virtual_models.go:113-156 | a name has at most one finite unrolling |
| `Unrolling.NeverBelowItself` | internal/routing/virtual_models.go:113-127 | a finite unrolling repeats no name on any chain |
| `VirtualModels.SuccessUnrolls` | internal/routing/virtual_models.go:113-156 | success yields a finite unrolling within the bound that flattens to the result, from any visiting set and depth |
| `VirtualModels.UnrollingExpands` | internal/routing/virtual_models.go:113-156 | on a finite unrolling the expansion returns its flattening within the bound and the depth error beyond it, shared sub-models included |
| `VirtualModels.SucceedsIffUnrollsWithinBound` | internal/routing/virtual_models.go:113-156 | expansion returns out if and only if out is the flattening of a finite unrolling within the bound |
| `VirtualModels.OtherErrorsMeanNoUnrolling` | internal/routing/virtual_models.go:113-156 | a cycle, an empty target list or a malformed target is reported only if there is no finite unrolling |
| `VirtualModels.DepthUnreachable` | internal/routing/virtual_models.go:113-127 | with a bound above the number of virtual models the depth error never occurs |
| `VirtualModels.AmpleBoundIsExact` | internal/routing/virtual_models.go:113-156 | with such a bound, success is the same as having a finite unrolling |
| `VirtualModels.ErrorHasChain` | internal/routing/virtual_models.go:113-156 | every reported error is witnessed by a chain of references from the requested name |
| `VirtualModels.SuccessHasGoodChains` | internal/routing/virtual_models.go:113-156 | after success no chain is too long, repeats a name, or ends at an empty or malformed target |
| `VirtualModels.SucceedsIffChainsAreGood` | internal/routing/virtual_models.go:113-156 | success if and only if every chain from the name is good |
| `VirtualModels.Resolver.ExpandVirtual` | internal/routing/virtual_models.go:113-156 | the depth is the size of the visiting set at every entry, the set is restored on every return, and the result is the specified expansion |
| `VirtualModels.ResolveVirtualModel` | internal/routing/virtual_models.go:27-58 | a request matches exactly for an enabled virtual model, with the flattening of its unrolling within the configured depth or five; a failure carries the expansion's error or means an empty flattening |
| `VirtualNames.SuffixIsParsed` | internal/thinking/suffix.go:23-44 | a base followed by a text in parentheses without an opening one is read as just that |
| `VirtualNames.SuffixIff` | internal/thinking/suffix.go:23-44 | a name is read as suffixed exactly if it has that form |
| `VirtualNames.ConcreteTarget` | internal/routing/virtual_models.go:158-169 | what stands before the first slash is the provider, trimmed and in lower case, what follows is the trimmed model, with the requested suffix if it has none; either being blank is an error |
| `VirtualNames.NotConcrete` | internal/routing/virtual_models.go:158-169 | a reference without a slash is an error |
| `VirtualNames.LiveRefsInOrder` | internal/routing/virtual_models.go:132-139 | the references followed are those of all targets neither disabled nor blank, trimmed, in their order |
| `VirtualNames.RequestedName` | internal/routing/virtual_models.go:27-44 | a request is for the virtual model of the trimmed name before its suffix, if routing is on, the entry is not disabled, and the name is not one of a provider and a model |
| `VirtualNames.ResolveSingle` | internal/routing/virtual_models.go:27-58 | a request for a virtual model with one target of a provider and a model resolves to them, or is refused if either is blank |
| `ClientGuard.StepKeepsInvariant` | internal/pluginhost/client_guard.go:23-79 | every step of every thread keeps the monitor invariant |
| `ClientGuard.BeginningWaitsForCalls` | internal/pluginhost/client_guard.go:54-68 | a Shutdown closes the guard, and waits exactly if a call is in flight |
| `ClientGuard.ReturnLeavesNoCall` | internal/pluginhost/client_guard.go:60-79 | with whatever step a Shutdown, first or later, is back where it came from, no call is in flight |
| `ClientGuard.LastCallWakes` | internal/pluginhost/client_guard.go:45-52 | who waits is woken by the end of the last call and by nothing else |
| `ClientGuard.CallsAndShutdownExclude` | internal/pluginhost/client_guard.go:23-79 | in every interleaving the counter is the number of threads inside Call; the plugin is shut down at most once and then no call is or gets inside; a Shutdown that begins while a call is in flight waits, and none returns before all have ended; a waiting one has a call to wait for |
| `ClientGuard.ClosedForGood` | internal/pluginhost/client_guard.go:32-43 | once closed, no thread enters a call again |
| `ClientGuard.ClosingMakesProgress` | internal/pluginhost/client_guard.go:45-79 | once closed, every effective step other than a new Shutdown lowers the remaining work |
| `ClientGuard.NoDeadlock` | internal/pluginhost/client_guard.go:45-79 | while some thread is not outside, some thread can take an effective step, unless one waits in Shutdown for its own call |
| `ClientGuard.ShutdownInsideCallHangs` | internal/pluginhost/client_guard.go:54-72 | a thread that waits for its own call does so in every continuation, and no Shutdown ever gets to the plugin or returns |
| `ClientGuard.ShutdownInsideCallCanHappen` | internal/pluginhost/client_guard.go:54-72 | a concrete run into that state |
| `ClientGuard.PluginConserved` | internal/pluginhost/client_guard.go:54-79 | the plugin is either still held or was shut down, and a closed guard that holds it has an owner on its way |
| `ClientGuard.ClosingTerminates` | internal/pluginhost/client_guard.go:45-79 | every schedule of effective steps of a closed guard is bounded by the remaining work |
| `ClientGuard.EveryScheduleEndsQuiet` | internal/pluginhost/client_guard.go:54-79 | such a schedule ends, with every call and Shutdown returned and the plugin shut down exactly once if and only if no thread had shut the guard down from inside its own call |
| `ClientGuard.GuardedClient.Acquire` | internal/pluginhost/client_guard.go:32-43 | enters a call unless closed or without a plugin, following the state machine |
| `ClientGuard.GuardedClient.Release` | internal/pluginhost/client_guard.go:45-52 | leaves a call, waking the waiting when it was the last |
| `ClientGuard.GuardedClient.EnterShutdown` | internal/pluginhost/client_guard.go:54-72 | the first locked section of Shutdown, from outside or from inside a call: it closes the guard, has to wait exactly if a call is in flight, and otherwise gets the plugin exactly if it is the first |
| `ClientGuard.GuardedClient.ResumeShutdown` | internal/pluginhost/client_guard.go:60-72 | a woken Shutdown never waits again, and takes the plugin only as owner |
| `ClientGuard.GuardedClient.FinishShutdown` | internal/pluginhost/client_guard.go:73-79 | when the plugin's own shutdown is over no call is in flight |
| `Resp.AtoiItoa` | internal/home/certificate.go:334-347 | reading a written length gives it back |
| `Resp.BulkRoundTrip` | internal/api/redis_queue_protocol.go:455-475 | a bulk string of any bytes is read back, consuming exactly its bytes |
| `Resp.ArrayRoundTrip` | internal/api/redis_queue_protocol.go:413-438 | an encoded argument list of any bytes is read back, consuming exactly its bytes |
| `Resp.OptionalArrayRoundTrip` | internal/api/redis_queue_protocol.go:528-541 | a written reply list is read back, null payloads as empty ones |
| `Resp.ReplyRoundTrip` | internal/home/certificate.go:349-381 | the certificate client's reader undoes the server's writer on payloads that are present, and refuses the null one |
| `Resp.StreamRoundTrip` | internal/api/redis_queue_protocol.go:413-438 | any concatenation of encoded lists is read back in order to its last byte |
| `Resp.ReadArrayIncremental` | internal/api/redis_queue_protocol.go:413-485 | on any part of its input the reader reports the end of input until the last byte of the value is there, and then the same value |
| `Resp.PartialRequestWaits` | internal/api/redis_queue_protocol.go:413-485 | no proper prefix of an encoded request is taken for a value or a protocol error |
| `RespWire.DecimalDigits` | internal/home/certificate.go:334-347 | numbers are written in decimal digits, negative ones with a sign |
| `RespWire.BulkOnTheWire` | internal/api/redis_queue_protocol.go:511-526 | the bytes of a bulk string, and of the missing one |
| `RespWire.ArrayOnTheWire` | internal/home/certificate.go:334-347 | the bytes of an array of bulk strings |
| `RespWire.OptionalArrayOnTheWire` | internal/api/redis_queue_protocol.go:528-541 | the bytes of a reply list |
| `RespWire.LinesAreRead` | internal/api/redis_queue_protocol.go:440-453 | simple strings and integers are read as their line |
| `RespWire.OtherPrefixesAreErrors` | internal/api/redis_queue_protocol.go:413-453 | every other prefix is an error, of which the client's reader reports the prefix |
| `RespWire.NegativeLengths` | internal/api/redis_queue_protocol.go:455-475 | a negative length is read as an empty string, and is an error for an array |
| `RespWire.UnclosedPayload` | internal/api/redis_queue_protocol.go:455-475 | a payload that is not followed by a line break is an error |
| `RespWire.BadLengths` | internal/api/redis_queue_protocol.go:413-475 | a length with anything but digits after its sign is an error |
| `RespWire.ErrorReplyIsReported` | internal/home/certificate.go:372-377 | an error reply is reported with its message |
| `RespStreams.ReadRespLine` | internal/api/redis_queue_protocol.go:477-485 | follows the line decoder in result, error and position |
| `RespStreams.ReadRespBulkString` | internal/api/redis_queue_protocol.go:455-475 | follows the bulk string decoder in result, error and position |
| `RespStreams.ReadRespString` | internal/api/redis_queue_protocol.go:440-453 | follows the value decoder in result, error and position |
| `RespStreams.ReadRespArray` | internal/api/redis_queue_protocol.go:413-438 | the loop follows the array decoder in result and position, stopping at the first failing value with its error and what it left unread |
| `RespStreams.ReadRespBulk` | internal/home/certificate.go:349-381 | follows the reply decoder in result, error and position |
| `RespStreams.EncodeRespArray` | internal/home/certificate.go:334-347 | the loop writes the encoding of the argument list |
| `RespStreams.WriteRedisBulkString` | internal/api/redis_queue_protocol.go:511-526 | appends the encoding of the payload, or the null bulk string |
| `RespStreams.WriteRedisArrayOfBulkStrings` | internal/api/redis_queue_protocol.go:528-541 | appends the encoding of the whole list |
| `RespStreams.SendAndReceive` | internal/home/certificate.go:334-347 | what the certificate client sends is what the server reads, and nothing of what follows is touched |
| `ReplayCaches.KeysDiffer` | internal/cache/codex_reasoning_replay_cache.go:123-132 | different models or sessions never share a key while model names hold no NUL |
| `ReplayCaches.CollidesIffSplitsElsewhere` | internal/cache/codex_reasoning_replay_cache.go:123-132 | a key is shared with another model or session if and only if the joined text holds another NUL with no white space beside it |
| `ReplayCaches.KeysCanCollide` | internal/cache/codex_reasoning_replay_cache.go:123-132 | a concrete pair of sessions that share an entry |
| `ReplayCaches.SizeAfterEviction` | internal/cache/codex_reasoning_replay_cache.go:222-243 | an eviction removes exactly the batch, or everything if there is less |
| `ReplayCaches.YoungestSurvives` | internal/cache/codex_reasoning_replay_cache.go:222-243 | a strictly youngest entry outlives any eviction that does not empty the cache |
| `ReplayCaches.SortByAge` | internal/cache/codex_reasoning_replay_cache.go:229-236 | sorting keeps every candidate once, in order of age |
| `ReplayCaches.ReplayCache.NormalizeItems` | internal/cache/codex_reasoning_replay_cache.go:134-143 | the accepted items, normalised, in order |
| `ReplayCaches.ReplayCache.NormalizedInOrder` | internal/cache/codex_reasoning_replay_cache.go:134-143 | what is kept are all accepted items, normalised, in their order |
| `ReplayCaches.ReplayCache.EvictOldest` | internal/cache/codex_reasoning_replay_cache.go:222-243 | what goes is no younger than what stays, and the rest is unchanged |
| `ReplayCaches.ReplayCache.CacheItems` | internal/cache/codex_reasoning_replay_cache.go:47-69 | stores under the key exactly if there is a key and something acceptable, evicting one batch when full; never more than the maximum remains |
| `ReplayCaches.ReplayCache.GetItems` | internal/cache/codex_reasoning_replay_cache.go:81-102 | a hit returns what was last stored under the key, no older than its sliding lifetime, which starts anew; an outdated entry is removed |
| `ReplayCaches.ReplayCache.DeleteItems` | internal/cache/codex_reasoning_replay_cache.go:106-114 | removes the one entry |
| `ReplayCaches.ReplayCache.PurgeExpired` | internal/cache/codex_reasoning_replay_cache.go:245-253 | removes exactly the outdated entries |
| `HomeClients.UsableInOrder` | internal/home/client.go:384-400 | the usable nodes are all with an address and a port, trimmed and without negative loads, in the order received |
| `HomeClients.NormalizeClusterNodes` | internal/home/client.go:384-400 | the usable nodes, trimmed, stably sorted by load |
| `HomeClients.FirstIsLeastLoaded` | internal/home/client.go:384-400 | sorting keeps the members, and the first is the first of the least loaded |
| `HomeClients.NextTargetNoneIffNowhereElse` | internal/home/client.go:458-479 | there is no next target exactly when no usable candidate differs from the current one |
| `HomeClients.NextTargetIsFirst` | internal/home/client.go:458-479 | the next target is the first candidate with an address and a port that differs from the current one |
| `HomeClients.Client.NodesComeBeforeSeed` | internal/home/client.go:458-466 | the candidates are the nodes in their order and then the seed, if it has an address and a port |
| `HomeClients.Client.constructor` | internal/home/client.go:77-83 | a new client targets its seed with no failures and no nodes |
| `HomeClients.Client.EnsureClients` | internal/home/client.go:145-175 | each missing connection is dialled to the current target if its options can be built, the second only after the first; a dialled one stays if the other fails |
| `HomeClients.Client.SwitchToNode` | internal/home/client.go:402-414 | moves exactly to a usable other node, closing both connections, and otherwise changes nothing |
| `HomeClients.Client.RefreshClusterNodes` | internal/home/client.go:331-360 | the least loaded node becomes the target, unless discovery is disabled or the list is unusable; only addresses of the received list become known |
| `HomeClients.Client.UpdateClusterNodes` | internal/home/client.go:370-382 | a pushed list replaces the candidates and leaves the target alone |
| `HomeClients.Client.SwitchToNextNode` | internal/home/client.go:458-479 | moves to the first usable candidate that differs, and reports no switch exactly when there is none |
| `HomeClients.Client.FailoverAfterReconnectFailure` | internal/home/client.go:423-441 | fails over at the third failure in a row, the counter staying below three |
| `HomeClients.Client.FailoverAfterSubscriptionTimeout` | internal/home/client.go:443-456 | fails over at once and resets the counter; never with discovery disabled |

## Left out

- Registrations are values inside the registry's map rather than shared objects behind pointers; aliasing and the
  cloning that prevents it are not modelled. `LastUpdated`, hooks, log lines, the display format of a row and the
  qualified identifiers in it are left out; a listing is compared as a set of rows.
- Identifiers and provider names are taken to be trimmed, as the registry stores them; the recount's own trimming of
  listed identifiers is the identity on those.
- The registry's other readers (`GetModelCount`, `GetModelProviders`, `GetModelInfo`, `GetFirstAvailableModel`,
  `GetModelsForClient`, `ClientSupportsModel`) only look things up in the same tables.
- Lower-casing is that of ASCII letters.
- Each locked section is one step. The retention setting and the enabled flag are parameters of the queue's operations,
  the error queue is another instance of the same object, and the 64-bit subscriber counter does not wrap around.
- `UsageQueues.Queue.Enqueue`: is one step here; what may come between its two locked sections is in `Enqueuing`.
- `UsageQueues.Queue.Subscribe`: requires room for the first message, since the original would block without it.
- YAML parsing and printing, removal of legacy keys and of keys the generated file lacks at the top, and the style
  clean-up before writing are left out; style, anchors and comments are one field. Absent (nil) children and alias targets
  are not modelled, and a mapping with a dangling last key only as far as its stray node is carried along.
- `YamlMerge.MergeCovers`: requires a source without aliases or repeated keys in a mapping, which is what marshalling a
  configuration yields, and a destination whose mappings pair every key with a value, which is what parsing yields.
- Loading a saved configuration back: the merge deliberately leaves out new keys with zero values.
- The read-only helpers of the YAML merge (identity, structural equality, zero and default tests) work on the tree value
  a node stands for.
- Listing virtual models by the availability of their targets is left out, and so is the text of error messages.
- A call made from inside another call counts as a thread of its own, and what else a plugin's call may wait for is left
  out, such as another thread's Shutdown.
- A nil guard or plugin, and wake-ups of a condition variable without a broadcast; the error the plugin's own call
  returns passes through the guard unchanged.
- `Resp.ReplyRoundTrip`: white space around a length is trimmed for ASCII only. Lengths are those of 64-bit integers, and
  running out of memory on a huge announced length is not modelled.
- The replay cache's acceptance and normalisation of an item is a parameter of the cache; sorting by age is an insertion
  sort where the original calls the library, ties being in any order.
- Home: dialling, TLS options (whether each connection's can be built is a parameter), decoding of node lists, heartbeats and the
  commands sent to a node are left out.
