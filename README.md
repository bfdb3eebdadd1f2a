# CacheMgt: a verified model of the cache-invalidation coordinator

`CacheMgt` is the process-wide coordinator of the application's caches. Caches
register under one or more labels and are filed, per label, in a `CachesGroup`
keyed by cache id. Reset requests arrive as a `CacheInvalidateMultiRequest`:
a batch of per-table or per-record requests, which resets everything when it
holds the reset-all request.
Each request is executed in a `ResetMode`. LOCAL invalidates the caches of
this process and fires the cache reset listeners. JUST_BROADCAST posts the
request to other processes. LOCAL_AND_BROADCAST does both. A full reset is
protected by a recursion guard and counts the completed full resets. Inside a
transaction, `resetLocalNowAndBroadcastOnTrxCommit` resets locally at once and
defers the broadcast: it enqueues the requests in the transaction's
`RecordsToResetOnTrxCommitCollector`, which splits them into a local batch and
a broadcast batch on commit.

The project has these modules:

- `ResetModes`: the three modes.
- `CacheModel`: the collaborator value types (labels, record references,
  requests, and the registrable cache as an abstract value).
- `CachesGroups`: the class `CachesGroup`, with its failure-swallowing
  fan-outs and the sums they compute.
- `Registry`: the registry seen as a map from label to group entries, with
  the specifications of registration, unregistration and request routing.
- `Listeners`: the listener lists and the notification log a firing produces.
- `Pending`: the map the collector fills and its two batches.
- `MgtStates`: the coordinator's observable state as a value, and the
  relations each reset path establishes between the state before and after.
- `CacheManagement`: the classes `CacheMgt`, `RecordsToResetOnTrxCommitCollector`
  and `Trx`, whose methods update fields in place. Each method is proved
  against the functions and relations above.
- `Sums` and `Wrappers`: generic support.

Listener calls and remote posts are recorded in two ghost logs of `CacheMgt`:
`notifications` and `broadcasts`. The hash map behind the per-table listeners
is iterated in an order the source does not fix. Each firing therefore
carries a ghost witness `order`, which lists every affected table exactly once.
The properties proved about a firing hold for every such order.

Where an informal description of the system and the code differ, the model
follows the code. Two cases stand out:

- `reset()` returns before its `try`/`finally` while another full reset holds
  the guard, so that early return leaves the guard set.
- `invalidateForMultiRequest` accumulates into an `int`. Only
  `Registry.RequestsInvalidationsAsWritten` follows the code there; the
  coordinator's `InvalidateForRequests`, `InvalidateForMultiRequest` and
  `ResetMulti` return the unbounded sum, the evidently intended behaviour.
  See "Findings".

## Model

| member | source | states |
|---|---|---|
| ResetModes.ResetMode.IsResetLocal | de.metas.adempiere.adempiere/base/src/main/java/de/metas/cache/CacheMgt.java:290-293 | true for every mode except JUST_BROADCAST |
| ResetModes.ResetMode.IsBroadcast | de.metas.adempiere.adempiere/base/src/main/java/de/metas/cache/CacheMgt.java:295-298 | true for every mode except LOCAL |
| ResetModes.EveryModeActs | de.metas.adempiere.adempiere/base/src/main/java/de/metas/cache/CacheMgt.java:286-299 | every mode resets locally, broadcasts, or both |
| ResetModes.ModeActions | de.metas.adempiere.adempiere/base/src/main/java/de/metas/cache/CacheMgt.java:286-299 | LOCAL_AND_BROADCAST is the only mode that does both; LOCAL only resets; JUST_BROADCAST only posts |
| CachesGroups.CachesGroup.constructor | de.metas.adempiere.adempiere/base/src/main/java/de/metas/cache/CacheMgt.java:547-550 | a new group carries its label and holds no entries |
| CachesGroups.CachesGroup.AddCache | de.metas.adempiere.adempiere/base/src/main/java/de/metas/cache/CacheMgt.java:561-564 | the cache is filed under its id and replaces any entry with that id; no other entry changes |
| CachesGroups.CachesGroup.RemoveCache | de.metas.adempiere.adempiere/base/src/main/java/de/metas/cache/CacheMgt.java:566-569 | the entry with the cache's id is dropped and no other entry changes |
| CachesGroups.CachesGroup.Collect | de.metas.adempiere.adempiere/base/src/main/java/de/metas/cache/CacheMgt.java:543-545 | a weakly held value cleared by the garbage collector leaves a cleared entry in place, and the fan-outs then skip it |
| CachesGroups.CachesGroup.ComputeTotalSize | de.metas.adempiere.adempiere/base/src/main/java/de/metas/cache/CacheMgt.java:578-583 | the result is the sum of the sizes of the live caches |
| CachesGroups.CachesGroup.InvalidateAllNoFail | de.metas.adempiere.adempiere/base/src/main/java/de/metas/cache/CacheMgt.java:585-590 | the result is the sum, over the live caches, of what each reset reports, with a throwing cache counted as 0 |
| CachesGroups.CachesGroup.InvalidateForRecordNoFail | de.metas.adempiere.adempiere/base/src/main/java/de/metas/cache/CacheMgt.java:592-597 | the result is the same sum for one record, with each cache's failure swallowed |
| CachesGroups.GroupInvalidateAllRemove | de.metas.adempiere.adempiere/base/src/main/java/de/metas/cache/CacheMgt.java:585-590 | the group total is the entry's own count plus the total of the other entries, so no cache is skipped or counted twice |
| CachesGroups.GroupInvalidateAllUpdate | de.metas.adempiere.adempiere/base/src/main/java/de/metas/cache/CacheMgt.java:561-564 | after a put under an id, the group total is the new entry's count plus the total of every other entry |
| CachesGroups.FailingEntryCountsZero | de.metas.adempiere.adempiere/base/src/main/java/de/metas/cache/CacheMgt.java:613-630 | a throwing cache or a cleared entry contributes nothing, and every other cache is still counted |
| CachesGroups.GroupInvalidateAllIncludes | de.metas.adempiere.adempiere/base/src/main/java/de/metas/cache/CacheMgt.java:585-590 | every live cache's count is part of its group's total |
| CachesGroups.GroupInvalidateAllZero | de.metas.adempiere.adempiere/base/src/main/java/de/metas/cache/CacheMgt.java:585-590 | the group total is 0 if and only if no live cache reports a positive count |
| CachesGroups.OneFailingOfTwo | de.metas.adempiere.adempiere/base/src/main/java/de/metas/cache/CacheMgt.java:613-630 | in a group of two caches where the second throws, the total is exactly what the first cache reports |
| CachesGroups.InvalidateNoFail | de.metas.adempiere.adempiere/base/src/main/java/de/metas/cache/CacheMgt.java:613-630 | a cache that reports a count yields that count; one that throws yields 0 |
| CachesGroups.InvalidateRecordNoFail | de.metas.adempiere.adempiere/base/src/main/java/de/metas/cache/CacheMgt.java:599-611 | a cache that reports a count for the record yields that count; one that throws yields 0 |
| CachesGroups.GroupInvalidateForRecordRemove | de.metas.adempiere.adempiere/base/src/main/java/de/metas/cache/CacheMgt.java:592-597 | the per-record total of a group is what any one entry reports plus the total of the rest |
| CachesGroups.GroupTotalSizeRemove | de.metas.adempiere.adempiere/base/src/main/java/de/metas/cache/CacheMgt.java:571-583 | the size of a group is any one entry's size plus the size of the rest |
| CachesGroups.FailingEntryRecordCountsZero | de.metas.adempiere.adempiere/base/src/main/java/de/metas/cache/CacheMgt.java:599-611 | a cache that throws on the record reset, or a cleared entry, contributes nothing to the per-record total, and every other cache is still counted |
| CachesGroups.CollectedEntryHasNoSize | de.metas.adempiere.adempiere/base/src/main/java/de/metas/cache/CacheMgt.java:571-576 | a cleared entry adds nothing to the group's size |
| CachesGroups.CollectDropsContribution | de.metas.adempiere.adempiere/base/src/main/java/de/metas/cache/CacheMgt.java:571-597 | clearing an entry lowers the group's full-reset total, per-record total and size by exactly what that cache contributed |
| CachesGroups.GroupInvalidateForRecordZero | de.metas.adempiere.adempiere/base/src/main/java/de/metas/cache/CacheMgt.java:592-597 | the per-record total is 0 if and only if no live cache reports a positive count for the record |
| Registry.FileUnder | de.metas.adempiere.adempiere/base/src/main/java/de/metas/cache/CacheMgt.java:110-120 | after registration, every label of the set has a group holding the cache under its id; groups of other labels are unchanged; the label set grows by exactly the given labels |
| Registry.FileUnderKeepsOthers | de.metas.adempiere.adempiere/base/src/main/java/de/metas/cache/CacheMgt.java:110-120 | registration keeps every other entry and adds no entry other than the cache's own |
| Registry.RemoveUnder | de.metas.adempiere.adempiere/base/src/main/java/de/metas/cache/CacheMgt.java:122-128 | after unregistration, every label of the set has a group (created when missing) without the id, and groups of other labels are unchanged |
| Registry.RemoveUnderKeepsOthers | de.metas.adempiere.adempiere/base/src/main/java/de/metas/cache/CacheMgt.java:122-128 | unregistration keeps every other entry and adds none |
| Registry.FileUnderKeepsFiled | de.metas.adempiere.adempiere/base/src/main/java/de/metas/cache/CacheMgt.java:110-120 | registration preserves the invariant that every live entry sits under its own id in a group of one of its labels |
| Registry.RemoveUnderKeepsFiled | de.metas.adempiere.adempiere/base/src/main/java/de/metas/cache/CacheMgt.java:122-128 | unregistration preserves the same filing invariant |
| Registry.UnregisterRemovesEverywhere | de.metas.adempiere.adempiere/base/src/main/java/de/metas/cache/CacheMgt.java:122-128 | in a registry where every entry is filed under its id and one of its labels, unregistering a cache leaves no group holding it |
| Registry.ReRegisterReplaces | de.metas.adempiere.adempiere/base/src/main/java/de/metas/cache/CacheMgt.java:561-564 | registering a second cache with the same id and labels gives the registry that registering the second cache alone gives |
| Registry.UnregisterUndoesRegister | de.metas.adempiere.adempiere/base/src/main/java/de/metas/cache/CacheMgt.java:122-128 | unregistering right after registering gives the registry that unregistering alone gives |
| Registry.UnregisterAfterRegisterRestores | de.metas.adempiere.adempiere/base/src/main/java/de/metas/cache/CacheMgt.java:122-128 | if every label already has a group without the id, registering and then unregistering restores the registry exactly |
| Registry.TotalInvalidateAllIncludes | de.metas.adempiere.adempiere/base/src/main/java/de/metas/cache/CacheMgt.java:165-168 | every group's total is part of a full reset's total |
| Registry.TotalSizeIncludes | de.metas.adempiere.adempiere/base/src/main/java/de/metas/cache/CacheMgt.java:397-403 | every group's size is part of the coordinator's total size |
| Registry.FileUnderOneLabelTotal | de.metas.adempiere.adempiere/base/src/main/java/de/metas/cache/CacheMgt.java:110-120 | filing a cache with a fresh id under one label raises a full reset's total by the fixed count that cache reports (see Left out) |
| Registry.RegisterTotal | de.metas.adempiere.adempiere/base/src/main/java/de/metas/cache/CacheMgt.java:110-120 | registering a cache with a fresh id under n labels makes a full reset invoke that cache's reset once per label; with the fixed reported count, the total rises by n times that count (see Left out) |
| Registry.UnknownTableCostsNothing | de.metas.adempiere.adempiere/base/src/main/java/de/metas/cache/CacheMgt.java:352-359 | an all-records request for a table without a group counts 0 |
| Registry.RecordRequestCountsBoth | de.metas.adempiere.adempiere/base/src/main/java/de/metas/cache/CacheMgt.java:364-377 | a record request counts its child record in the group of the child's table plus its root record in the group of the root's table |
| Registry.RegisteredCacheIsReset | de.metas.adempiere.adempiere/base/src/main/java/de/metas/cache/CacheMgt.java:350-360 | a registered cache's count is part of what an all-records request for one of its tables counts |
| Registry.RequestsInvalidationsAppend | de.metas.adempiere.adempiere/base/src/main/java/de/metas/cache/CacheMgt.java:340-347 | the per-request loop total for two batches is the sum of their totals |
| Registry.RequestsInvalidationsPermutation | de.metas.adempiere.adempiere/base/src/main/java/de/metas/cache/CacheMgt.java:340-347 | the per-request loop total does not depend on the order of the requests |
| Registry.ToInt32 | de.metas.adempiere.adempiere/base/src/main/java/de/metas/cache/CacheMgt.java:344 | Java's narrowing to int gives a value in the int range that is congruent modulo 2^32 and unchanged when it already fits |
| Registry.RequestsInvalidationsAsWritten | de.metas.adempiere.adempiere/base/src/main/java/de/metas/cache/CacheMgt.java:340-347 | the accumulator as written: each step adds one request's count and narrows the running sum to 32 bits, as `int total += long` does; the result is an `int` congruent to the true total modulo 2^32 |
| Registry.AsWrittenAgreesBelowOverflow | de.metas.adempiere.adempiere/base/src/main/java/de/metas/cache/CacheMgt.java:340-347 | the int accumulator as written agrees with the true total while that total fits in an int |
| Registry.AsWrittenOverflowExample | de.metas.adempiere.adempiere/base/src/main/java/de/metas/cache/CacheMgt.java:340-347 | a single request counting 2^31 makes the int accumulator report -2^31 |
| Listeners.AddIfAbsent | de.metas.adempiere.adempiere/base/src/main/java/de/metas/cache/CacheMgt.java:435-438 | the listener is in the result and the old list is a prefix of it; an already listed listener leaves the list unchanged, otherwise it is appended once; a duplicate-free list stays duplicate-free |
| Listeners.RemoveFirst | de.metas.adempiere.adempiere/base/src/main/java/de/metas/cache/CacheMgt.java:450-459 | the multiset loses exactly one occurrence of the listener when it is listed and none otherwise; the length drops by one exactly when it is listed |
| Listeners.RemoveFirstAbsent | de.metas.adempiere.adempiere/base/src/main/java/de/metas/cache/CacheMgt.java:450-459 | removing a listener that is not listed leaves the list unchanged |
| Listeners.RemoveFirstKeepsOrder | de.metas.adempiere.adempiere/base/src/main/java/de/metas/cache/CacheMgt.java:450-459 | a listed listener is removed at its first position `i` (no earlier occurrence), and the result is `s[..i] + s[i+1..]`, so every other listener keeps its order |
| Listeners.RemoveFirstDistinct | de.metas.adempiere.adempiere/base/src/main/java/de/metas/cache/CacheMgt.java:450-459 | in a duplicate-free list, removing a listener removes it entirely and keeps the list duplicate-free |
| Listeners.RemoveFirstUndoesAdd | de.metas.adempiere.adempiere/base/src/main/java/de/metas/cache/CacheMgt.java:443-459 | adding an absent listener and then removing it gives back the original list |
| Listeners.Notify | de.metas.adempiere.adempiere/base/src/main/java/de/metas/cache/CacheMgt.java:186 | firing a list notifies its listeners in list order, each once, with the request |
| Listeners.NotifyTablesBag | de.metas.adempiere.adempiere/base/src/main/java/de/metas/cache/CacheMgt.java:188-203 | firing the lists of a set of tables, in any iteration order, notifies each listener as often as those tables list it, each time with the request |
| Listeners.FiringLogBag | de.metas.adempiere.adempiere/base/src/main/java/de/metas/cache/CacheMgt.java:184-204 | in any table order, one firing notifies every global listener and every listener of every affected table, with multiplicity, each time with the request |
| Listeners.FiringsLogBag | de.metas.adempiere.adempiere/base/src/main/java/de/metas/cache/CacheMgt.java:184-204 | k firings notify each listener k times as often as one firing does |
| Listeners.FiringsLogRequest | de.metas.adempiere.adempiere/base/src/main/java/de/metas/cache/CacheMgt.java:206-216 | every notification of a run of firings carries the request |
| Pending.PutAll | de.metas.adempiere.adempiere/base/src/main/java/de/metas/cache/CacheMgt.java:494-499 | every request of the batch maps to the mode, and every other entry is kept |
| Pending.PutAllLastWriteWins | de.metas.adempiere.adempiere/base/src/main/java/de/metas/cache/CacheMgt.java:494-499 | enqueuing the same requests with a second mode overrides the first mode entirely |
| Pending.PutAllOrderFree | de.metas.adempiere.adempiere/base/src/main/java/de/metas/cache/CacheMgt.java:494-499 | the order and repetition of the enqueued requests do not matter |
| Pending.PartitionCovers | de.metas.adempiere.adempiere/base/src/main/java/de/metas/cache/CacheMgt.java:513-522 | every enqueued request lands in at least one batch, and exactly the LOCAL_AND_BROADCAST ones land in both |
| Pending.BroadcastOnlyBatches | de.metas.adempiere.adempiere/base/src/main/java/de/metas/cache/CacheMgt.java:494-499 | enqueuing with JUST_BROADCAST keeps a broadcast-only map broadcast-only; such a map has no local batch and broadcasts every request |
| MgtStates.GuardedFullResetIsNoop | de.metas.adempiere.adempiere/base/src/main/java/de/metas/cache/CacheMgt.java:156-160 | while the guard is set, a full reset changes nothing and reports 0 |
| MgtStates.FullResetKeepsRegistries | de.metas.adempiere.adempiere/base/src/main/java/de/metas/cache/CacheMgt.java:151-182 | a full reset leaves the guard as it found it and changes neither registry nor the broadcasts; the counter rises by one exactly when the guard was clear |
| MgtStates.FullResetNotifiesOnce | de.metas.adempiere.adempiere/base/src/main/java/de/metas/cache/CacheMgt.java:170-172 | with the guard clear, a full reset only appends to the log, notifies each listener as often as one reset-all firing does, and every new notification carries the reset-all request |
| MgtStates.JustBroadcastOnlyPosts | de.metas.adempiere.adempiere/base/src/main/java/de/metas/cache/CacheMgt.java:309-331 | a JUST_BROADCAST reset reports 0, fires nothing and only posts the request |
| MgtStates.LocalNeverPosts | de.metas.adempiere.adempiere/base/src/main/java/de/metas/cache/CacheMgt.java:322-326 | a LOCAL reset posts nothing |
| MgtStates.LocalAndBroadcastIsLocalThenPost | de.metas.adempiere.adempiere/base/src/main/java/de/metas/cache/CacheMgt.java:309-331 | a LOCAL_AND_BROADCAST reset is a LOCAL reset followed by posting the same request |
| MgtStates.ResetStepNotifies | de.metas.adempiere.adempiere/base/src/main/java/de/metas/cache/CacheMgt.java:309-331 | a reset only appends to the log; each listener is notified the number of firings times as often as one firing notifies it; the full reset's firing carries the reset-all request and the rest carry the request |
| MgtStates.LocalResetAllFiresTwice | de.metas.adempiere.adempiere/base/src/main/java/de/metas/cache/CacheMgt.java:333-337 | a local reset of any reset-all batch with the guard clear reports every group's total, counts one full reset and fires the listeners twice: once in reset() and once after it |
| MgtStates.GuardedLocalResetAllFiresOnce | de.metas.adempiere.adempiere/base/src/main/java/de/metas/cache/CacheMgt.java:333-337 | a local reset of any reset-all batch while the guard is set reports 0, leaves the counter alone and fires the listeners once, with the request |
| MgtStates.LocalTableResetCountsItsCaches | de.metas.adempiere.adempiere/base/src/main/java/de/metas/cache/CacheMgt.java:224-228 | a local all-records reset of a table counts at least what each cache in that table's group reports |
| MgtStates.FlushStepIntro | de.metas.adempiere.adempiere/base/src/main/java/de/metas/cache/CacheMgt.java:524-534 | a LOCAL reset of the non-empty local batch followed by a JUST_BROADCAST reset of the non-empty broadcast batch make up one flush |
| MgtStates.FlushEmptyIsNoop | de.metas.adempiere.adempiere/base/src/main/java/de/metas/cache/CacheMgt.java:504-507 | flushing an empty map sends nothing and changes nothing |
| MgtStates.FlushBroadcastOnly | de.metas.adempiere.adempiere/base/src/main/java/de/metas/cache/CacheMgt.java:502-537 | flushing a non-empty broadcast-only map posts one JUST_BROADCAST batch of all its requests and changes nothing else |
| MgtStates.DeferredBroadcastMatchesImmediate | de.metas.adempiere.adempiere/base/src/main/java/de/metas/cache/CacheMgt.java:271-284 | a LOCAL reset now plus the commit-time flush of the deferred entries ends where LOCAL_AND_BROADCAST would have; only the posted batch differs, and it holds the same requests, each once; an empty batch posts nothing on commit |
| MgtStates.DeferredResetAllIsBroadcast | de.metas.adempiere.adempiere/base/src/main/java/de/metas/cache/CacheMgt.java:271-284 | a reset-all deferred to commit posts exactly the reset-all batch on commit, as LOCAL_AND_BROADCAST would have |
| MgtStates.FullResetLogNotifies | de.metas.adempiere.adempiere/base/src/main/java/de/metas/cache/CacheMgt.java:170-172 | the two firings of a reset that ran the full reset, one for the reset-all request and one for the request, notify each listener twice as often as one firing |
| MgtStates.ResetLogSnoc | de.metas.adempiere.adempiere/base/src/main/java/de/metas/cache/CacheMgt.java:311-316 | the firings of the full reset, if it ran, followed by the one for the request make up the log of the local branch |
| CacheManagement.CacheMgt.constructor | de.metas.adempiere.adempiere/base/src/main/java/de/metas/cache/CacheMgt.java:70-78 | the coordinator starts with no groups, no listeners, the guard clear and the counter at 0 |
| CacheManagement.CacheMgt.GetCachesGroup | de.metas.adempiere.adempiere/base/src/main/java/de/metas/cache/CacheMgt.java:94-97 | returns the label's group, creating and filing an empty one only when it is missing |
| CacheManagement.CacheMgt.Register | de.metas.adempiere.adempiere/base/src/main/java/de/metas/cache/CacheMgt.java:110-120 | a cache without labels is refused and nothing changes; otherwise the registry becomes FileUnder of the old one; the invariant is kept and nothing else changes |
| CacheManagement.CacheMgt.AddToGroups | de.metas.adempiere.adempiere/base/src/main/java/de/metas/cache/CacheMgt.java:116-119 | the loop over the labels leaves the registry equal to FileUnder of the old one |
| CacheManagement.CacheMgt.AddToGroup | de.metas.adempiere.adempiere/base/src/main/java/de/metas/cache/CacheMgt.java:118-119 | one step adds the cache to one label's group, created when missing, and changes no other group |
| CacheManagement.CacheMgt.Unregister | de.metas.adempiere.adempiere/base/src/main/java/de/metas/cache/CacheMgt.java:122-128 | the registry becomes RemoveUnder of the old one; the invariant is kept and nothing else changes |
| CacheManagement.CacheMgt.RemoveFromGroups | de.metas.adempiere.adempiere/base/src/main/java/de/metas/cache/CacheMgt.java:124-127 | the loop over the labels leaves the registry equal to RemoveUnder of the old one |
| CacheManagement.CacheMgt.RemoveFromGroup | de.metas.adempiere.adempiere/base/src/main/java/de/metas/cache/CacheMgt.java:126-127 | one step drops the id from one label's group, created when missing, and changes no other group |
| CacheManagement.CacheMgt.FireCacheResetListenerNoFail | de.metas.adempiere.adempiere/base/src/main/java/de/metas/cache/CacheMgt.java:206-216 | each call logs exactly one notification of that listener with that request; a failure is swallowed |
| CacheManagement.CacheMgt.FireEach | de.metas.adempiere.adempiere/base/src/main/java/de/metas/cache/CacheMgt.java:186 | appends the notifications of the list, in list order |
| CacheManagement.CacheMgt.FireGlobalCacheResetListeners | de.metas.adempiere.adempiere/base/src/main/java/de/metas/cache/CacheMgt.java:184-204 | appends one firing log for some iteration order of the affected tables |
| CacheManagement.CacheMgt.FireTables | de.metas.adempiere.adempiere/base/src/main/java/de/metas/cache/CacheMgt.java:188-203 | appends the lists of the given tables, in an order that visits each table exactly once |
| CacheManagement.CacheMgt.InvalidateAllGroups | de.metas.adempiere.adempiere/base/src/main/java/de/metas/cache/CacheMgt.java:165-168 | the result is the sum of every group's invalidateAllNoFail |
| CacheManagement.CacheMgt.Reset | de.metas.adempiere.adempiere/base/src/main/java/de/metas/cache/CacheMgt.java:151-182 | establishes FullReset: a no-op reporting 0 under the guard; otherwise the total of every group, one reset-all firing, one more counted reset, and the guard released |
| CacheManagement.CacheMgt.FinishFullReset | de.metas.adempiere.adempiere/base/src/main/java/de/metas/cache/CacheMgt.java:170-176 | fires once for reset-all, counts the reset and clears the guard |
| CacheManagement.CacheMgt.InvalidateForRecord | de.metas.adempiere.adempiere/base/src/main/java/de/metas/cache/CacheMgt.java:382-392 | the count is that of the group of the record's own table, or 0 when that table has no group |
| CacheManagement.CacheMgt.InvalidateForRequest | de.metas.adempiere.adempiere/base/src/main/java/de/metas/cache/CacheMgt.java:350-380 | counts the whole group for an all-records request, else the child record's count plus the root record's |
| CacheManagement.CacheMgt.InvalidateForRequests | de.metas.adempiere.adempiere/base/src/main/java/de/metas/cache/CacheMgt.java:340-347 | the total is the sum of the per-request counts, accumulated in request order |
| CacheManagement.CacheMgt.InvalidateForMultiRequest | de.metas.adempiere.adempiere/base/src/main/java/de/metas/cache/CacheMgt.java:333-348 | a reset-all runs the full reset, whose firing carries the reset-all request; otherwise it sums the requests and fires nothing; the guard is unchanged |
| CacheManagement.CacheMgt.ResetMulti | de.metas.adempiere.adempiere/base/src/main/java/de/metas/cache/CacheMgt.java:309-331 | establishes ResetStep: the count and the firings follow the mode and the guard, and the request is posted exactly when the mode broadcasts |
| CacheManagement.CacheMgt.InvalidateAndFire | de.metas.adempiere.adempiere/base/src/main/java/de/metas/cache/CacheMgt.java:311-316 | the local branch: invalidates, then fires once more for the request, so there are FiringCount firings in all, the full reset's one for the reset-all request |
| CacheManagement.CacheMgt.ResetTable | de.metas.adempiere.adempiere/base/src/main/java/de/metas/cache/CacheMgt.java:224-228 | LOCAL_AND_BROADCAST of an all-records request for the table |
| CacheManagement.CacheMgt.ResetLocal | de.metas.adempiere.adempiere/base/src/main/java/de/metas/cache/CacheMgt.java:238-242 | LOCAL of an all-records request for the table |
| CacheManagement.CacheMgt.ResetRecord | de.metas.adempiere.adempiere/base/src/main/java/de/metas/cache/CacheMgt.java:251-260 | the table and record request (all records for a negative id), LOCAL in unit-test mode and LOCAL_AND_BROADCAST otherwise |
| CacheManagement.CacheMgt.ResetLocalNowAndBroadcastOnTrxCommit | de.metas.adempiere.adempiere/base/src/main/java/de/metas/cache/CacheMgt.java:271-284 | without an active transaction, LOCAL_AND_BROADCAST with the transaction untouched; within one, LOCAL now, and the requests enqueued as JUST_BROADCAST in the transaction's collector, created when missing |
| CacheManagement.CacheMgt.ComputeTotalSize | de.metas.adempiere.adempiere/base/src/main/java/de/metas/cache/CacheMgt.java:397-403 | the result is the sum of every group's size |
| CacheManagement.CacheMgt.AddCacheResetListener | de.metas.adempiere.adempiere/base/src/main/java/de/metas/cache/CacheMgt.java:435-438 | the global list becomes AddIfAbsent of the old one, and nothing else changes |
| CacheManagement.CacheMgt.AddCacheResetListenerForTable | de.metas.adempiere.adempiere/base/src/main/java/de/metas/cache/CacheMgt.java:443-448 | the table's list, created when missing, becomes AddIfAbsent of the old one, and nothing else changes |
| CacheManagement.CacheMgt.RemoveCacheResetListener | de.metas.adempiere.adempiere/base/src/main/java/de/metas/cache/CacheMgt.java:450-459 | false when the table has no list; otherwise whether the listener was listed, and it is then no longer listed |
| CacheManagement.RecordsToResetOnTrxCommitCollector.constructor | de.metas.adempiere.adempiere/base/src/main/java/de/metas/cache/CacheMgt.java:491 | a new collector has an empty map |
| CacheManagement.RecordsToResetOnTrxCommitCollector.AddRecord | de.metas.adempiere.adempiere/base/src/main/java/de/metas/cache/CacheMgt.java:494-499 | the map becomes PutAll of the old one |
| CacheManagement.RecordsToResetOnTrxCommitCollector.Batches | de.metas.adempiere.adempiere/base/src/main/java/de/metas/cache/CacheMgt.java:511-522 | the two batches hold exactly the reset-local and the broadcast entries, once each |
| CacheManagement.RecordsToResetOnTrxCommitCollector.SendRequestsAndClear | de.metas.adempiere.adempiere/base/src/main/java/de/metas/cache/CacheMgt.java:502-537 | establishes FlushStep for the old map, then clears the map |
| CacheManagement.Trx.GetCreateCollector | de.metas.adempiere.adempiere/base/src/main/java/de/metas/cache/CacheMgt.java:465-487 | returns the transaction's collector, creating an empty one on first use |
| CacheManagement.Trx.constructor | de.metas.adempiere.adempiere/base/src/main/java/de/metas/cache/CacheMgt.java:465-470 | a transaction starts with the given activity and no collector, so nothing is pending |
| CacheManagement.Trx.OnCommit | de.metas.adempiere.adempiere/base/src/main/java/de/metas/cache/CacheMgt.java:475-483 | flushes the collector if there is one, and does nothing otherwise |

## Left out

- JMX registration, logging and the `Stopwatch`: they have no observable effect on the state modelled here.
- Concurrency: `ConcurrentHashMap`, `CopyOnWriteArrayList` and the atomics are modelled as plain sequential state, with no interleaving.
- Weak references: garbage collection is modelled only as the explicit `CachesGroup.Collect` step; no collector runs on its own.
- `toString`, `toStringX` and the getters `getCacheLabels` and `getLastCacheReset`: they only read the state, which the model exposes directly.
- `enableRemoteCacheInvalidationForTableName`, `getTableNamesToBroadcast` and `CacheInvalidationRemoteHandler`: they act on or read the remote handler; the remote side is not part of this model; a post is recorded in the `broadcasts` log.
- The internals of `CacheInterface`, `CacheInvalidateRequest`, `CacheInvalidateMultiRequest`, `CacheLabel` and `TableRecordReference`: only the accessors the coordinator calls are modelled. A cache's reset outcome is a fixed attribute, either a count or a failure.
- The reset-all request is one request value with `isAll` set, and a batch resets everything when it holds that request; `CacheInvalidateMultiRequest.java` and `CacheInvalidateRequest.java` are not part of this model, so their other fields for it are arbitrary.
- `DeferredBroadcastMatchesImmediate`: for an empty batch the deferred path enqueues nothing and posts nothing on commit, while LOCAL_AND_BROADCAST would post the empty batch. The lemma states both cases. Whether an empty batch can be built at all depends on `CacheInvalidateMultiRequest`, which is not part of this model.
- `RegisterTotal`: the n-fold rise holds only because a cache's reset outcome is a fixed attribute. A real cache emptied by its first reset would report less on the later resets of the same full reset. The lemma's real content is that the cache is reset once per label.
- `FileUnderOneLabelTotal`: it adds the cache's fixed count even when the cache is already filed under another label. For the same reason, a real cache would report less there.
- Listeners that call back into `CacheMgt` while being fired are not modelled; a listener call only appends to the log.
- The contents of a cache after its reset are not modelled; only the count it reports is.
- The `registerWeak` flag of the private `register` overload: the source ignores it.
- `Adempiere.isUnitTestMode()` and `CacheMgt.get()` become parameters: the `unitTestMode` flag and the `cacheMgt` receiver.
- The transaction manager: the transaction is the `Trx` object or null, and "active" is a field. The after-commit listener registration is modelled as `Trx.OnCommit`, which the commit runs.
- The iteration order of hash maps and sets is not fixed. It appears only as the ghost `order` witnesses, and every property is stated for all orders.
- `long` overflow (64 bits) of counts and sums is not modelled: counts are unbounded naturals. Only the 32-bit `int` accumulator, which the source itself introduces, is modelled (see Findings).
- `Register`: the source's `Check.assumeNotEmpty` throws; the model returns `Fail("labels is not empty")` and changes nothing.

## Findings

| source | as written | input that shows it | evidently intended | confidence | as-written member | corrected member |
|---|---|---|---|---|---|---|
| de.metas.adempiere.adempiere/base/src/main/java/de/metas/cache/CacheMgt.java:340-347 | `int total` accumulates each request's `long` count with `+=`, which narrows the sum to 32 bits before it is returned as `long` | one all-records request for a table whose single cache reports 2^31 invalidated entries: the method returns -2^31 | the returned `long` is the sum of the per-request counts | not executed | Registry.AsWrittenOverflowExample | CacheManagement.CacheMgt.InvalidateForRequests |
