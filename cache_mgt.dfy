/**
 * `CacheMgt`, the cache-invalidation coordinator: a registry that files cache
 * instances by label, listener registries, and the reset paths that run
 * invalidation requests against the registered caches; its per-transaction
 * `RecordsToResetOnTrxCommitCollector`; and a transaction with an active flag
 * and an optional collector.
 */
module CacheManagement {
  import opened Wrappers
  import opened CacheModel
  import opened ResetModes
  import opened Sums
  import opened Listeners
  import opened CachesGroups
  import opened Registry
  import opened Pending
  import opened MgtStates

  class CacheMgt {
    var cachesByLabel: map<CacheLabel, CachesGroup>
    var globalCacheResetListeners: seq<ListenerId>
    var cacheResetListenersByTableName: map<TableName, seq<ListenerId>>
    /** The recursion guard of the full reset. */
    var cacheResetRunning: bool
    /** The number of completed full resets. */
    var lastCacheReset: nat
    /** Every listener call, in order. */
    ghost var notifications: seq<Notification>
    /** Every multi-request handed to the remote broadcaster, in order. */
    ghost var broadcasts: seq<CacheInvalidateMultiRequest>

    /** The registry as a value: each label's group entries. */
    ghost function Registered(): Reg
      reads this`cachesByLabel, cachesByLabel.Values
    {
      map l | l in cachesByLabel :: cachesByLabel[l].caches
    }

    ghost function Snapshot(): MgtState
      reads this, cachesByLabel.Values
    {
      MgtState(Registered(), globalCacheResetListeners, cacheResetListenersByTableName,
               cacheResetRunning, lastCacheReset, notifications, broadcasts)
    }

    /** Each group is filed under its own label, so distinct labels hold distinct groups. */
    ghost predicate Labelled()
      reads this`cachesByLabel
    {
      forall l :: l in cachesByLabel ==> cachesByLabel[l].cacheLabel == l
    }

    ghost predicate Valid()
      reads this`cachesByLabel, this`globalCacheResetListeners, this`cacheResetListenersByTableName, cachesByLabel.Values
    {
      && Labelled()
      && Distinct(globalCacheResetListeners)
      && (forall t :: t in cacheResetListenersByTableName ==> Distinct(cacheResetListenersByTableName[t]))
      && Filed(Registered())
    }

    constructor ()
      ensures Valid()
      ensures Snapshot() == MgtState(map[], [], map[], false, 0, [], [])
    {
      cachesByLabel := map[];
      globalCacheResetListeners := [];
      cacheResetListenersByTableName := map[];
      cacheResetRunning := false;
      lastCacheReset := 0;
      notifications := [];
      broadcasts := [];
    }

    /** `getCachesGroup`: the label's group, created empty when missing (`computeIfAbsent`). */
    method GetCachesGroup(cacheLabel: CacheLabel) returns (group: CachesGroup)
      requires Labelled()
      modifies this`cachesByLabel
      ensures Labelled()
      ensures cacheLabel in cachesByLabel && cachesByLabel[cacheLabel] == group
      ensures cacheLabel in old(cachesByLabel) ==> cachesByLabel == old(cachesByLabel)
      ensures cacheLabel !in old(cachesByLabel) ==>
                fresh(group) && group.caches == map[] && cachesByLabel == old(cachesByLabel)[cacheLabel := group]
    {
      if cacheLabel in cachesByLabel {
        group := cachesByLabel[cacheLabel];
      } else {
        group := new CachesGroup(cacheLabel);
        cachesByLabel := cachesByLabel[cacheLabel := group];
      }
    }

    /**
     * `register`: a cache without labels is refused; otherwise every label's
     * group, created when missing, files the cache under its id.
     */
    method Register(cache: Cache) returns (outcome: Outcome<string>)
      requires Valid()
      modifies this`cachesByLabel, cachesByLabel.Values
      ensures Valid()
      ensures forall l :: l in cachesByLabel ==> cachesByLabel[l] in old(cachesByLabel.Values) || fresh(cachesByLabel[l])
      ensures cache.labels == {} ==> outcome == Fail("labels is not empty") && Snapshot() == old(Snapshot())
      ensures cache.labels != {} ==>
                && outcome == Pass
                && Snapshot() == old(Snapshot()).(registry := FileUnder(old(Registered()), cache.labels, cache))
    {
      if cache.labels == {} {
        return Fail("labels is not empty");
      }
      ghost var start := Registered();
      AddToGroups(cache);
      FileUnderKeepsFiled(start, cache.labels, cache);
      outcome := Pass;
    }

    /** The `forEach` of `register` over the cache's labels. */
    method AddToGroups(cache: Cache)
      requires Labelled()
      modifies this`cachesByLabel, cachesByLabel.Values
      ensures Labelled()
      ensures forall l :: l in cachesByLabel ==> cachesByLabel[l] in old(cachesByLabel.Values) || fresh(cachesByLabel[l])
      ensures Registered() == FileUnder(old(Registered()), cache.labels, cache)
    {
      ghost var start := Registered();
      FileUnderNothing(start, cache);
      var remaining := cache.labels;
      ghost var done: set<CacheLabel> := {};
      while remaining != {}
        invariant remaining !! done && remaining + done == cache.labels
        invariant Labelled()
        invariant forall l :: l in cachesByLabel ==> cachesByLabel[l] in old(cachesByLabel.Values) || fresh(cachesByLabel[l])
        invariant Registered() == FileUnder(start, done, cache)
        decreases remaining
      {
        var l := Pick(remaining);
        AddToGroup(l, cache);
        ghost var after := Registered();
        assert after == FileUnder(start, done + {l}, cache) by {
          FileUnderSplit(start, done, l, cache);
        }
        remaining := remaining - {l};
        done := done + {l};
      }
    }

    /**
     * `unregister`: every label's group, created when missing, drops the
     * cache's id.
     */
    method Unregister(cache: Cache)
      requires Valid()
      modifies this`cachesByLabel, cachesByLabel.Values
      ensures Valid()
      ensures forall l :: l in cachesByLabel ==> cachesByLabel[l] in old(cachesByLabel.Values) || fresh(cachesByLabel[l])
      ensures Snapshot() == old(Snapshot()).(registry := RemoveUnder(old(Registered()), cache.labels, cache.cacheId))
    {
      ghost var start := Registered();
      RemoveFromGroups(cache);
      RemoveUnderKeepsFiled(start, cache.labels, cache.cacheId);
    }

    /** The `forEach` of `unregister` over the cache's labels. */
    method RemoveFromGroups(cache: Cache)
      requires Labelled()
      modifies this`cachesByLabel, cachesByLabel.Values
      ensures Labelled()
      ensures forall l :: l in cachesByLabel ==> cachesByLabel[l] in old(cachesByLabel.Values) || fresh(cachesByLabel[l])
      ensures Registered() == RemoveUnder(old(Registered()), cache.labels, cache.cacheId)
    {
      ghost var start := Registered();
      RemoveUnderNothing(start, cache.cacheId);
      var remaining := cache.labels;
      ghost var done: set<CacheLabel> := {};
      while remaining != {}
        invariant remaining !! done && remaining + done == cache.labels
        invariant Labelled()
        invariant forall l :: l in cachesByLabel ==> cachesByLabel[l] in old(cachesByLabel.Values) || fresh(cachesByLabel[l])
        invariant Registered() == RemoveUnder(start, done, cache.cacheId)
        decreases remaining
      {
        var l := Pick(remaining);
        RemoveFromGroup(l, cache);
        ghost var after := Registered();
        assert after == RemoveUnder(start, done + {l}, cache.cacheId) by {
          RemoveUnderSplit(start, done, l, cache.cacheId);
        }
        remaining := remaining - {l};
        done := done + {l};
      }
    }

    /** One step of `register`'s `forEach`: `getCachesGroup(cacheLabel).addCache(cache)`. */
    method AddToGroup(cacheLabel: CacheLabel, cache: Cache)
      requires Labelled()
      modifies this`cachesByLabel, cachesByLabel.Values
      ensures Labelled()
      ensures forall l :: l in cachesByLabel ==> cachesByLabel[l] in old(cachesByLabel.Values) || fresh(cachesByLabel[l])
      ensures Registered() == FileUnder(old(Registered()), {cacheLabel}, cache)
    {
      ghost var start := Registered();
      var group := GetCachesGroup(cacheLabel);
      ghost var before := group.caches;
      assert before == GroupOf(start, cacheLabel);
      group.AddCache(cache);
      OthersUntouched(group, cacheLabel);
      assert Registered() == start[cacheLabel := before[cache.cacheId := Some(cache)]];
      FileUnderOne(start, cacheLabel, cache);
    }

    /** One step of `unregister`'s `forEach`: `getCachesGroup(cacheLabel).removeCache(cache)`. */
    method RemoveFromGroup(cacheLabel: CacheLabel, cache: Cache)
      requires Labelled()
      modifies this`cachesByLabel, cachesByLabel.Values
      ensures Labelled()
      ensures forall l :: l in cachesByLabel ==> cachesByLabel[l] in old(cachesByLabel.Values) || fresh(cachesByLabel[l])
      ensures Registered() == RemoveUnder(old(Registered()), {cacheLabel}, cache.cacheId)
    {
      ghost var start := Registered();
      var group := GetCachesGroup(cacheLabel);
      ghost var before := group.caches;
      assert before == GroupOf(start, cacheLabel);
      group.RemoveCache(cache);
      OthersUntouched(group, cacheLabel);
      assert Registered() == start[cacheLabel := before - {cache.cacheId}];
      RemoveUnderOne(start, cacheLabel, cache.cacheId);
    }

    /** The group filed under `l` is no other label's group. */
    lemma OthersUntouched(group: CachesGroup, l: CacheLabel)
      requires Labelled() && l in cachesByLabel && cachesByLabel[l] == group
      ensures forall k :: k in cachesByLabel && k != l ==> cachesByLabel[k] != group
    {
    }

    /** `fireCacheResetListenerNoFail`: calls the listener; what it throws is swallowed. */
    method FireCacheResetListenerNoFail(listener: ListenerId, multiRequest: CacheInvalidateMultiRequest)
      modifies this`notifications
      ensures notifications == old(notifications) + [Notification(listener, multiRequest)]
    {
      notifications := notifications + [Notification(listener, multiRequest)];
    }

    /** Fires every listener of a list, in list order. */
    method FireEach(listeners: seq<ListenerId>, multiRequest: CacheInvalidateMultiRequest)
      modifies this`notifications
      ensures notifications == old(notifications) + Notify(listeners, multiRequest)
    {
      for i := 0 to |listeners|
        invariant notifications == old(notifications) + Notify(listeners[..i], multiRequest)
      {
        FireCacheResetListenerNoFail(listeners[i], multiRequest);
        assert Notify(listeners[..i + 1], multiRequest)
            == Notify(listeners[..i], multiRequest) + [Notification(listeners[i], multiRequest)];
      }
      assert listeners[..|listeners|] == listeners;
    }

    /**
     * `fireGlobalCacheResetListeners`: the global listeners in order, then the
     * listeners of every table on a reset-all request, else of the tables the
     * request names, visiting the tables in the order `order`.
     */
    method FireGlobalCacheResetListeners(multiRequest: CacheInvalidateMultiRequest) returns (ghost order: seq<TableName>)
      modifies this`notifications
      ensures notifications
           == old(notifications) + FiringLog(globalCacheResetListeners, cacheResetListenersByTableName, multiRequest, order)
      ensures IsFiringOrder(order, cacheResetListenersByTableName, multiRequest)
    {
      var globals := globalCacheResetListeners;
      var byTable := cacheResetListenersByTableName;
      FireEach(globals, multiRequest);
      var tables := if multiRequest.IsResetAll() then byTable.Keys else multiRequest.TableNamesEffective();
      order := FireTables(byTable, tables, multiRequest);
    }

    /**
     * The listeners of the given tables, list by list, in the order the tables
     * are visited; a table without a list is skipped.
     */
    method FireTables(byTable: map<TableName, seq<ListenerId>>, tables: set<TableName>, multiRequest: CacheInvalidateMultiRequest)
      returns (ghost order: seq<TableName>)
      modifies this`notifications
      ensures notifications == old(notifications) + NotifyTables(byTable, order, multiRequest)
      ensures IsTableOrder(order, tables)
    {
      var remaining := tables;
      order := [];
      while remaining != {}
        invariant remaining <= tables
        invariant forall t :: t in order <==> t in tables && t !in remaining
        invariant Distinct(order)
        invariant notifications == old(notifications) + NotifyTables(byTable, order, multiRequest)
        decreases remaining
      {
        var t := Pick(remaining);
        if t in byTable {
          FireEach(byTable[t], multiRequest);
        }
        NotifyTablesSnoc(byTable, order, t, multiRequest);
        DistinctSnoc(order, t);
        order := order + [t];
        remaining := remaining - {t};
      }
    }

    /** The sum of `invalidateAllNoFail` over all groups, as `reset()` computes it. */
    method InvalidateAllGroups() returns (total: nat)
      ensures total == TotalInvalidateAll(Registered())
    {
      total := 0;
      var remaining := cachesByLabel.Keys;
      assert Registered().Keys == remaining;
      while remaining != {}
        invariant remaining <= cachesByLabel.Keys
        invariant total + SumOver(remaining, GroupTotals(Registered())) == TotalInvalidateAll(Registered())
        decreases remaining
      {
        var l := Pick(remaining);
        SumOverRemove(remaining, GroupTotals(Registered()), l);
        var n := cachesByLabel[l].InvalidateAllNoFail();
        total := total + n;
        remaining := remaining - {l};
      }
    }

    /**
     * `reset()`: returns 0 at once, changing nothing, while another full reset
     * holds the guard; otherwise invalidates every group, fires the listeners
     * once for a reset-all request, counts one more full reset and releases
     * the guard.
     */
    method Reset() returns (total: nat, ghost orders: seq<seq<TableName>>)
      modifies this`cacheResetRunning, this`lastCacheReset, this`notifications
      ensures FullReset(old(Snapshot()), Snapshot(), total, orders)
    {
      if cacheResetRunning {
        return 0, [];
      }
      ghost var s := Snapshot();
      cacheResetRunning := true;
      total := InvalidateAllGroups();
      ghost var order := FinishFullReset();
      orders := [order];
      FullResetIntro(s, Snapshot(), total, order);
    }

    /** The end of `reset()`: fire for a reset-all request, count the reset, release the guard. */
    method FinishFullReset() returns (ghost order: seq<TableName>)
      modifies this`cacheResetRunning, this`lastCacheReset, this`notifications
      ensures !cacheResetRunning && lastCacheReset == old(lastCacheReset) + 1
      ensures notifications
           == old(notifications) + FiringLog(globalCacheResetListeners, cacheResetListenersByTableName, ResetAll, order)
      ensures IsFiringOrder(order, cacheResetListenersByTableName, ResetAll)
    {
      order := FireGlobalCacheResetListeners(ResetAll);
      lastCacheReset := lastCacheReset + 1;
      cacheResetRunning := false;
    }

    /** `invalidateForRecord`: the record's own table's group, if present, for that record. */
    method InvalidateForRecord(recordRef: TableRecordReference) returns (count: nat)
      ensures count == RecordInvalidations(Registered(), recordRef)
    {
      var groupLabel := LabelOfTable(recordRef.tableName);
      if groupLabel !in cachesByLabel {
        return 0;
      }
      count := cachesByLabel[groupLabel].InvalidateForRecordNoFail(recordRef);
    }

    /**
     * `invalidateForRequest`: a whole group for an all-records request (0 when
     * the table has none), else the child record's and the root record's counts.
     */
    method InvalidateForRequest(request: CacheInvalidateRequest) returns (count: nat)
      ensures count == RequestInvalidations(Registered(), request)
    {
      if request.isAllRecords {
        var groupLabel := LabelOfTable(request.tableNameEffective);
        if groupLabel !in cachesByLabel {
          return 0;
        }
        count := cachesByLabel[groupLabel].InvalidateAllNoFail();
      } else {
        count := 0;
        if request.childRecord.Some? {
          var n := InvalidateForRecord(request.childRecord.value);
          count := count + n;
        }
        if request.rootRecord.Some? {
          var n := InvalidateForRecord(request.rootRecord.value);
          count := count + n;
        }
      }
    }

    /**
     * The loop of `invalidateForMultiRequest` over the individual requests.
     * The source accumulates into a 32-bit `int`; this total is the
     * mathematical sum (see `Registry.RequestsInvalidationsAsWritten` for the
     * narrowed one).
     */
    method InvalidateForRequests(requests: seq<CacheInvalidateRequest>) returns (total: nat)
      ensures total == RequestsInvalidations(Registered(), requests)
    {
      total := 0;
      for i := 0 to |requests|
        invariant total == RequestsInvalidations(Registered(), requests[..i])
      {
        var n := InvalidateForRequest(requests[i]);
        assert requests[..i + 1][..i] == requests[..i];
        total := total + n;
      }
      assert requests[..|requests|] == requests;
    }

    /** `invalidateForMultiRequest`: a reset-all request runs the full reset. */
    method InvalidateForMultiRequest(multiRequest: CacheInvalidateMultiRequest) returns (total: nat, ghost orders: seq<seq<TableName>>)
      modifies this`cacheResetRunning, this`lastCacheReset, this`notifications
      ensures total == LocalResetCount(old(Registered()), old(cacheResetRunning), multiRequest, Local)
      ensures cacheResetRunning == old(cacheResetRunning)
      ensures lastCacheReset == old(lastCacheReset) + (if RunsFullReset(old(cacheResetRunning), multiRequest, Local) then 1 else 0)
      ensures |orders| == (if RunsFullReset(old(cacheResetRunning), multiRequest, Local) then 1 else 0)
      ensures AreFiringOrders(orders, cacheResetListenersByTableName, ResetAll)
      ensures notifications
           == old(notifications) + FiringsLog(globalCacheResetListeners, cacheResetListenersByTableName, ResetAll, orders)
    {
      if multiRequest.IsResetAll() {
        total, orders := Reset();
      } else {
        total := InvalidateForRequests(multiRequest.Requests());
        orders := [];
        assert notifications + [] == notifications;
      }
    }

    /**
     * `reset(multiRequest, mode)`: a local mode invalidates and fires the
     * listeners; a broadcasting mode posts the request, whether or not any
     * group is registered here.
     */
    method ResetMulti(multiRequest: CacheInvalidateMultiRequest, mode: ResetMode)
      returns (resetCount: nat, ghost orders: seq<seq<TableName>>)
      modifies this`cacheResetRunning, this`lastCacheReset, this`notifications, this`broadcasts
      ensures ResetStep(old(Snapshot()), Snapshot(), multiRequest, mode, resetCount, orders)
    {
      ghost var s := Snapshot();
      if mode.IsResetLocal() {
        resetCount, orders := InvalidateAndFire(multiRequest, mode);
      } else {
        resetCount := 0;
        orders := [];
        assert notifications + [] == notifications;
      }
      if mode.IsBroadcast() {
        broadcasts := broadcasts + [multiRequest];
      }
      ResetStepIntro(s, Snapshot(), multiRequest, mode, resetCount, orders);
    }

    /** The local part of `reset(multiRequest, mode)`: invalidate, then fire the listeners. */
    method InvalidateAndFire(multiRequest: CacheInvalidateMultiRequest, mode: ResetMode)
      returns (resetCount: nat, ghost orders: seq<seq<TableName>>)
      requires mode.IsResetLocal()
      modifies this`cacheResetRunning, this`lastCacheReset, this`notifications
      ensures resetCount == LocalResetCount(old(Registered()), old(cacheResetRunning), multiRequest, mode)
      ensures cacheResetRunning == old(cacheResetRunning)
      ensures lastCacheReset == old(lastCacheReset) + (if RunsFullReset(old(cacheResetRunning), multiRequest, mode) then 1 else 0)
      ensures |orders| == FiringCount(old(cacheResetRunning), multiRequest, mode)
      ensures AreFiringOrders(orders, cacheResetListenersByTableName, multiRequest)
      ensures notifications
           == old(notifications) + ResetLog(globalCacheResetListeners, cacheResetListenersByTableName,
                                            RunsFullReset(old(cacheResetRunning), multiRequest, mode), multiRequest, orders)
    {
      ghost var full := RunsFullReset(cacheResetRunning, multiRequest, mode);
      ghost var before: seq<seq<TableName>>;
      resetCount, before := InvalidateForMultiRequest(multiRequest);
      ghost var order := FireGlobalCacheResetListeners(multiRequest);
      orders := before + [order];
      ResetLogSnoc(globalCacheResetListeners, cacheResetListenersByTableName, full, multiRequest, before, order);
    }

    /** `reset(tableName)`: all records of the table, LOCAL_AND_BROADCAST. */
    method ResetTable(tableName: TableName) returns (resetCount: nat, ghost orders: seq<seq<TableName>>)
      modifies this`cacheResetRunning, this`lastCacheReset, this`notifications, this`broadcasts
      ensures ResetStep(old(Snapshot()), Snapshot(), AllRecordsForTable(tableName), LocalAndBroadcast, resetCount, orders)
    {
      resetCount, orders := ResetMulti(AllRecordsForTable(tableName), LocalAndBroadcast);
    }

    /** `resetLocal(tableName)`: all records of the table, LOCAL. */
    method ResetLocal(tableName: TableName) returns (resetCount: nat, ghost orders: seq<seq<TableName>>)
      modifies this`cacheResetRunning, this`lastCacheReset, this`notifications, this`broadcasts
      ensures ResetStep(old(Snapshot()), Snapshot(), AllRecordsForTable(tableName), Local, resetCount, orders)
    {
      resetCount, orders := ResetMulti(AllRecordsForTable(tableName), Local);
    }

    /**
     * `reset(tableName, recordId)`: a negative id means all records; the
     * request is not broadcast in unit-test mode.
     */
    method ResetRecord(tableName: TableName, recordId: int, unitTestMode: bool)
      returns (resetCount: nat, ghost orders: seq<seq<TableName>>)
      modifies this`cacheResetRunning, this`lastCacheReset, this`notifications, this`broadcasts
      ensures ResetStep(old(Snapshot()), Snapshot(), FromTableNameAndRecordId(tableName, recordId),
                        if unitTestMode then Local else LocalAndBroadcast, resetCount, orders)
    {
      var mode := if unitTestMode then Local else LocalAndBroadcast;
      resetCount, orders := ResetMulti(FromTableNameAndRecordId(tableName, recordId), mode);
    }

    /**
     * `resetLocalNowAndBroadcastOnTrxCommit`: without an active transaction,
     * the same as LOCAL_AND_BROADCAST; within one, LOCAL now, and each request
     * enqueued in the transaction's collector to be broadcast on commit.
     */
    method ResetLocalNowAndBroadcastOnTrxCommit(trx: Trx?, request: CacheInvalidateMultiRequest)
      returns (ghost count: nat, ghost orders: seq<seq<TableName>>)
      modifies this`cacheResetRunning, this`lastCacheReset, this`notifications, this`broadcasts
      modifies trx, if trx != null && trx.collector != null then {trx.collector} else {}
      ensures trx != null ==> trx.active == old(trx.active)
      ensures (trx == null || !trx.active) ==>
                && ResetStep(old(Snapshot()), Snapshot(), request, LocalAndBroadcast, count, orders)
                && (trx != null ==> trx.collector == old(trx.collector) && trx.Pending() == old(trx.Pending()))
      ensures (trx != null && trx.active) ==>
                && ResetStep(old(Snapshot()), Snapshot(), request, Local, count, orders)
                && trx.collector != null
                && (old(trx.collector) != null ==> trx.collector == old(trx.collector))
                && (old(trx.collector) == null ==> fresh(trx.collector))
                && trx.Pending() == PutAll(old(trx.Pending()), request.Requests(), JustBroadcast)
    {
      if trx == null || !trx.active {
        count, orders := ResetMulti(request, LocalAndBroadcast);
      } else {
        count, orders := ResetMulti(request, Local);
        var collector := trx.GetCreateCollector();
        collector.AddRecord(request, JustBroadcast);
      }
    }

    /** `computeTotalSize`: the sum of every group's size. */
    method ComputeTotalSize() returns (total: nat)
      ensures total == TotalSize(Registered())
    {
      total := 0;
      var remaining := cachesByLabel.Keys;
      assert Registered().Keys == remaining;
      while remaining != {}
        invariant remaining <= cachesByLabel.Keys
        invariant total + SumOver(remaining, GroupSizes(Registered())) == TotalSize(Registered())
        decreases remaining
      {
        var l := Pick(remaining);
        SumOverRemove(remaining, GroupSizes(Registered()), l);
        var n := cachesByLabel[l].ComputeTotalSize();
        total := total + n;
        remaining := remaining - {l};
      }
    }

    /** `addCacheResetListener(listener)`: appended to the global list unless already there. */
    method AddCacheResetListener(listener: ListenerId)
      requires Valid()
      modifies this`globalCacheResetListeners
      ensures Valid()
      ensures Snapshot() == old(Snapshot()).(globals := AddIfAbsent(old(globalCacheResetListeners), listener))
    {
      globalCacheResetListeners := AddIfAbsent(globalCacheResetListeners, listener);
    }

    /**
     * `addCacheResetListener(tableName, listener)`: appended to the table's
     * list, created when missing, unless already there.
     */
    method AddCacheResetListenerForTable(tableName: TableName, listener: ListenerId)
      requires Valid()
      modifies this`cacheResetListenersByTableName
      ensures Valid()
      ensures Snapshot() == old(Snapshot()).(byTable := old(cacheResetListenersByTableName)[tableName :=
                AddIfAbsent(if tableName in old(cacheResetListenersByTableName) then old(cacheResetListenersByTableName)[tableName] else [], listener)])
    {
      var listeners := if tableName in cacheResetListenersByTableName then cacheResetListenersByTableName[tableName] else [];
      cacheResetListenersByTableName := cacheResetListenersByTableName[tableName := AddIfAbsent(listeners, listener)];
    }

    /**
     * `removeCacheResetListener`: false when the table has no list; otherwise
     * whether the listener was on the list, which no longer holds it.
     */
    method RemoveCacheResetListener(tableName: TableName, listener: ListenerId) returns (removed: bool)
      requires Valid()
      modifies this`cacheResetListenersByTableName
      ensures Valid()
      ensures tableName !in old(cacheResetListenersByTableName) ==> !removed && Snapshot() == old(Snapshot())
      ensures tableName in old(cacheResetListenersByTableName) ==>
                && removed == (listener in old(cacheResetListenersByTableName)[tableName])
                && tableName in cacheResetListenersByTableName
                && listener !in cacheResetListenersByTableName[tableName]
                && Snapshot() == old(Snapshot()).(byTable := old(cacheResetListenersByTableName)[tableName :=
                     RemoveFirst(old(cacheResetListenersByTableName)[tableName], listener)])
    {
      if tableName !in cacheResetListenersByTableName {
        return false;
      }
      var listeners := cacheResetListenersByTableName[tableName];
      removed := listener in listeners;
      var rest := RemoveFirst(listeners, listener);
      RemoveFirstDistinct(listeners, listener);
      cacheResetListenersByTableName := cacheResetListenersByTableName[tableName := rest];
    }
  }

  /** Collects the requests to send when a given transaction commits. */
  class RecordsToResetOnTrxCommitCollector {
    var request2resetMode: PendingMap

    constructor ()
      ensures request2resetMode == map[]
    {
      request2resetMode := map[];
    }

    /** `addRecord`: every request of the multi-request is put with the mode; a later put wins. */
    method AddRecord(multiRequest: CacheInvalidateMultiRequest, resetMode: ResetMode)
      modifies this`request2resetMode
      ensures request2resetMode == PutAll(old(request2resetMode), multiRequest.Requests(), resetMode)
    {
      var requests := multiRequest.Requests();
      assert requests[..0] == [];
      PutAllOrderFree(request2resetMode, [], [], resetMode);
      assert PutAll(request2resetMode, [], resetMode) == request2resetMode;
      for i := 0 to |requests|
        invariant request2resetMode == PutAll(old(request2resetMode), requests[..i], resetMode)
      {
        assert requests[..i + 1] == requests[..i] + [requests[i]];
        PutAllSnoc(old(request2resetMode), requests[..i], requests[i], resetMode);
        request2resetMode := request2resetMode[requests[i] := resetMode];
      }
      assert requests[..|requests|] == requests;
    }

    /**
     * `sendRequestsAndClear`: nothing on an empty map; otherwise splits the
     * map into a reset-local batch and a broadcast batch, resets a non-empty
     * local batch with LOCAL, then a non-empty broadcast batch with
     * JUST_BROADCAST, and clears the map.
     */
    method SendRequestsAndClear(cacheMgt: CacheMgt)
      returns (localRequests: seq<CacheInvalidateRequest>, broadcastRequests: seq<CacheInvalidateRequest>,
               ghost orders: seq<seq<TableName>>)
      modifies this`request2resetMode
      modifies cacheMgt`cacheResetRunning, cacheMgt`lastCacheReset, cacheMgt`notifications, cacheMgt`broadcasts
      ensures FlushStep(old(cacheMgt.Snapshot()), cacheMgt.Snapshot(), old(request2resetMode), localRequests, broadcastRequests, orders)
      ensures request2resetMode == map[]
    {
      ghost var s := cacheMgt.Snapshot();
      localRequests, broadcastRequests := Batches();
      orders := [];
      var localCount := 0;
      if localRequests != [] {
        localCount, orders := cacheMgt.ResetMulti(Of(localRequests), Local);
      }
      ghost var mid := cacheMgt.Snapshot();
      var broadcastCount := 0;
      ghost var broadcastOrders: seq<seq<TableName>> := [];
      if broadcastRequests != [] {
        broadcastCount, broadcastOrders := cacheMgt.ResetMulti(Of(broadcastRequests), JustBroadcast);
      }
      FlushStepIntro(s, mid, cacheMgt.Snapshot(), request2resetMode, localRequests, broadcastRequests,
                     localCount, orders, broadcastCount, broadcastOrders);
      request2resetMode := map[];
    }

    /**
     * The splitting loop of `sendRequestsAndClear`: the reset-local and the
     * broadcast requests of the map, each once (none on an empty map).
     */
    method Batches() returns (localRequests: seq<CacheInvalidateRequest>, broadcastRequests: seq<CacheInvalidateRequest>)
      ensures Distinct(localRequests) && Distinct(broadcastRequests)
      ensures forall q :: q in localRequests <==> q in LocalPart(request2resetMode)
      ensures forall q :: q in broadcastRequests <==> q in BroadcastPart(request2resetMode)
    {
      localRequests := [];
      broadcastRequests := [];
      if request2resetMode == map[] {
        return;
      }
      var remaining := request2resetMode.Keys;
      while remaining != {}
        invariant remaining <= request2resetMode.Keys
        invariant Distinct(localRequests) && Distinct(broadcastRequests)
        invariant forall q :: q in localRequests <==> q in LocalPart(request2resetMode) && q !in remaining
        invariant forall q :: q in broadcastRequests <==> q in BroadcastPart(request2resetMode) && q !in remaining
        decreases remaining
      {
        var q := Pick(remaining);
        var mode := request2resetMode[q];
        if mode.IsResetLocal() {
          localRequests := localRequests + [q];
        }
        if mode.IsBroadcast() {
          broadcastRequests := broadcastRequests + [q];
        }
        remaining := remaining - {q};
      }
    }
  }

  /** A transaction: whether it is active, and the collector it carries, if any. */
  class Trx {
    var active: bool
    var collector: RecordsToResetOnTrxCommitCollector?

    constructor (active: bool)
      ensures this.active == active && collector == null
    {
      this.active := active;
      collector := null;
    }

    /** The requests waiting for this transaction's commit. */
    ghost function Pending(): PendingMap
      reads this, collector
    {
      if collector == null then map[] else collector.request2resetMode
    }

    /** `RecordsToResetOnTrxCommitCollector.getCreate`: the transaction's collector, created empty on first use. */
    method GetCreateCollector() returns (c: RecordsToResetOnTrxCommitCollector)
      modifies this`collector
      ensures collector == c
      ensures old(collector) != null ==> c == old(collector)
      ensures old(collector) == null ==> fresh(c) && c.request2resetMode == map[]
    {
      if collector == null {
        collector := new RecordsToResetOnTrxCommitCollector();
      }
      c := collector;
    }

    /**
     * The after-commit handler `getCreate` registers, run on every commit:
     * flushes the collector, if there is one.
     */
    method OnCommit(cacheMgt: CacheMgt)
      returns (localRequests: seq<CacheInvalidateRequest>, broadcastRequests: seq<CacheInvalidateRequest>,
               ghost orders: seq<seq<TableName>>)
      modifies collector
      modifies cacheMgt`cacheResetRunning, cacheMgt`lastCacheReset, cacheMgt`notifications, cacheMgt`broadcasts
      ensures collector == old(collector)
      ensures FlushStep(old(cacheMgt.Snapshot()), cacheMgt.Snapshot(), old(Pending()), localRequests, broadcastRequests, orders)
      ensures Pending() == map[]
    {
      if collector == null {
        return [], [], [];
      }
      localRequests, broadcastRequests, orders := collector.SendRequestsAndClear(cacheMgt);
    }
  }
}
