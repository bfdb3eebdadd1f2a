/**
 * The observable state of the coordinator `CacheMgt` as a value, and the
 * relations between the state before and after each reset path. The class
 * `CacheMgt` is proved to move between states as these relations say; the
 * lemmas here are about the relations themselves.
 */
module MgtStates {
  import opened Wrappers
  import opened CacheModel
  import opened ResetModes
  import opened Sums
  import opened Listeners
  import opened CachesGroups
  import opened Registry
  import opened Pending

  /**
   * The registry (label to group entries), the two listener registries, the
   * recursion guard, the reset generation counter, the log of listener
   * notifications and the log of posted broadcasts.
   */
  datatype MgtState = MgtState(
    registry: Reg,
    globals: seq<ListenerId>,
    byTable: map<TableName, seq<ListenerId>>,
    resetRunning: bool,
    lastCacheReset: nat,
    notifications: seq<Notification>,
    broadcasts: seq<CacheInvalidateMultiRequest>)

  /**
   * `reset()`: with the guard set, nothing happens and 0 is reported.
   * Otherwise every group of the registry is fully invalidated, the listeners
   * fire once for a reset-all request (visiting the tables in the order
   * `orders[0]`), the counter goes up by one and the guard ends as it started
   * (clear).
   */
  ghost predicate FullReset(s: MgtState, t: MgtState, total: nat, orders: seq<seq<TableName>>)
  {
    if s.resetRunning then t == s && total == 0 && orders == []
    else
      && total == TotalInvalidateAll(s.registry)
      && |orders| == 1 && AreFiringOrders(orders, s.byTable, ResetAll)
      && t == s.(lastCacheReset := s.lastCacheReset + 1,
                 notifications := s.notifications + FiringsLog(s.globals, s.byTable, ResetAll, orders))
  }

  /** `FullReset` with the guard clear, from its parts, field by field. */
  lemma FullResetIntro(s: MgtState, t: MgtState, total: nat, order: seq<TableName>)
    requires !s.resetRunning && total == TotalInvalidateAll(s.registry)
    requires IsFiringOrder(order, s.byTable, ResetAll)
    requires t.registry == s.registry && t.globals == s.globals && t.byTable == s.byTable
    requires t.resetRunning == s.resetRunning && t.broadcasts == s.broadcasts
    requires t.lastCacheReset == s.lastCacheReset + 1
    requires t.notifications == s.notifications + FiringLog(s.globals, s.byTable, ResetAll, order)
    ensures FullReset(s, t, total, [order])
  {
    FiringsLogSnoc(s.globals, s.byTable, ResetAll, [], order);
    assert [] + [order] == [order];
  }

  /** Whether `reset(multiRequest, mode)` runs the full reset. */
  predicate RunsFullReset(resetRunning: bool, multiRequest: CacheInvalidateMultiRequest, mode: ResetMode)
  {
    mode.IsResetLocal() && multiRequest.IsResetAll() && !resetRunning
  }

  /**
   * How often `reset(multiRequest, mode)` fires the listeners: never unless
   * the mode resets locally; twice when it runs the full reset (once inside
   * `reset()`, once afterwards); once otherwise.
   */
  function FiringCount(resetRunning: bool, multiRequest: CacheInvalidateMultiRequest, mode: ResetMode): nat
  {
    if !mode.IsResetLocal() then 0
    else if RunsFullReset(resetRunning, multiRequest, mode) then 2
    else 1
  }

  /**
   * The notifications of the firings of `reset(multiRequest, mode)`, one
   * table order each: when the full reset runs, its own firing is for the
   * reset-all request and the one after it for `multiRequest`; otherwise
   * every firing is for `multiRequest`.
   */
  function ResetLog(
    globals: seq<ListenerId>, byTable: map<TableName, seq<ListenerId>>, fullReset: bool,
    multiRequest: CacheInvalidateMultiRequest, orders: seq<seq<TableName>>): seq<Notification>
  {
    if fullReset && orders != [] then
      FiringsLog(globals, byTable, ResetAll, orders[..1]) + FiringsLog(globals, byTable, multiRequest, orders[1..])
    else FiringsLog(globals, byTable, multiRequest, orders)
  }

  /**
   * `reset(multiRequest, mode)`: the reported count, the listener firings
   * (one table order each) and the counter as the mode and the guard decide,
   * the request posted exactly when the mode broadcasts, and the registries
   * and guard unchanged.
   */
  ghost predicate ResetStep(
    s: MgtState, t: MgtState, multiRequest: CacheInvalidateMultiRequest, mode: ResetMode, count: nat,
    orders: seq<seq<TableName>>)
  {
    && count == LocalResetCount(s.registry, s.resetRunning, multiRequest, mode)
    && |orders| == FiringCount(s.resetRunning, multiRequest, mode)
    && AreFiringOrders(orders, s.byTable, multiRequest)
    && t == s.(lastCacheReset := s.lastCacheReset + (if RunsFullReset(s.resetRunning, multiRequest, mode) then 1 else 0),
               notifications := s.notifications
                 + ResetLog(s.globals, s.byTable, RunsFullReset(s.resetRunning, multiRequest, mode), multiRequest, orders),
               broadcasts := s.broadcasts + (if mode.IsBroadcast() then [multiRequest] else []))
  }

  /** `ResetStep` from its parts, field by field. */
  lemma ResetStepIntro(
    s: MgtState, t: MgtState, multiRequest: CacheInvalidateMultiRequest, mode: ResetMode, count: nat,
    orders: seq<seq<TableName>>)
    requires count == LocalResetCount(s.registry, s.resetRunning, multiRequest, mode)
    requires |orders| == FiringCount(s.resetRunning, multiRequest, mode)
    requires AreFiringOrders(orders, s.byTable, multiRequest)
    requires t.registry == s.registry && t.globals == s.globals && t.byTable == s.byTable && t.resetRunning == s.resetRunning
    requires t.lastCacheReset == s.lastCacheReset + (if RunsFullReset(s.resetRunning, multiRequest, mode) then 1 else 0)
    requires t.notifications == s.notifications
      + ResetLog(s.globals, s.byTable, RunsFullReset(s.resetRunning, multiRequest, mode), multiRequest, orders)
    requires t.broadcasts == s.broadcasts + (if mode.IsBroadcast() then [multiRequest] else [])
    ensures ResetStep(s, t, multiRequest, mode, count, orders)
  {
  }

  /**
   * `sendRequestsAndClear` on a map `pending`: the two batches hold exactly the
   * reset-local and the broadcast entries, once each, in some order; a
   * non-empty local batch is reset with LOCAL, then a non-empty broadcast
   * batch is posted with JUST_BROADCAST.
   */
  ghost predicate FlushStep(
    s: MgtState, t: MgtState, pending: PendingMap,
    localRequests: seq<CacheInvalidateRequest>, broadcastRequests: seq<CacheInvalidateRequest>, orders: seq<seq<TableName>>)
  {
    && Distinct(localRequests) && Distinct(broadcastRequests)
    && (forall q :: q in localRequests <==> q in LocalPart(pending))
    && (forall q :: q in broadcastRequests <==> q in BroadcastPart(pending))
    && var mid := t.(broadcasts := s.broadcasts);
       && (if localRequests == [] then mid == s && orders == []
           else ResetStep(s, mid, Of(localRequests), Local,
                          LocalResetCount(s.registry, s.resetRunning, Of(localRequests), Local), orders))
       && t.broadcasts == s.broadcasts + (if broadcastRequests == [] then [] else [Of(broadcastRequests)])
  }

  /**
   * The two resets `sendRequestsAndClear` runs, a LOCAL one of a non-empty
   * local batch followed by a JUST_BROADCAST one of a non-empty broadcast
   * batch, make up one flush of a map whose batches they are.
   */
  lemma FlushStepIntro(
    s: MgtState, mid: MgtState, t: MgtState, pending: PendingMap,
    localRequests: seq<CacheInvalidateRequest>, broadcastRequests: seq<CacheInvalidateRequest>,
    localCount: nat, orders: seq<seq<TableName>>, broadcastCount: nat, broadcastOrders: seq<seq<TableName>>)
    requires Distinct(localRequests) && Distinct(broadcastRequests)
    requires forall q :: q in localRequests <==> q in LocalPart(pending)
    requires forall q :: q in broadcastRequests <==> q in BroadcastPart(pending)
    requires localRequests == [] ==> mid == s && orders == []
    requires localRequests != [] ==> ResetStep(s, mid, Of(localRequests), Local, localCount, orders)
    requires broadcastRequests == [] ==> t == mid
    requires broadcastRequests != [] ==> ResetStep(mid, t, Of(broadcastRequests), JustBroadcast, broadcastCount, broadcastOrders)
    ensures FlushStep(s, t, pending, localRequests, broadcastRequests, orders)
  {
    if localRequests != [] {
      LocalNeverPosts(s, mid, Of(localRequests), localCount, orders);
    }
    if broadcastRequests != [] {
      JustBroadcastOnlyPosts(mid, t, Of(broadcastRequests), broadcastCount, broadcastOrders);
    }
  }

  /** A full reset while the guard is set is a no-op reporting 0. */
  lemma GuardedFullResetIsNoop(s: MgtState, t: MgtState, total: nat, orders: seq<seq<TableName>>)
    requires s.resetRunning
    ensures FullReset(s, t, total, orders) <==> t == s && total == 0 && orders == []
  {
  }

  /** A full reset leaves the guard as it found it and changes no registry. */
  lemma FullResetKeepsRegistries(s: MgtState, t: MgtState, total: nat, orders: seq<seq<TableName>>)
    requires FullReset(s, t, total, orders)
    ensures t.resetRunning == s.resetRunning
    ensures t.registry == s.registry && t.globals == s.globals && t.byTable == s.byTable
    ensures t.broadcasts == s.broadcasts
    ensures t.lastCacheReset == s.lastCacheReset + (if s.resetRunning then 0 else 1)
  {
  }

  /**
   * A full reset with the guard clear notifies each listener as often as one
   * firing for a reset-all request does: every global listener and every
   * listener of every table with a list, each with the reset-all request.
   */
  lemma FullResetNotifiesOnce(s: MgtState, t: MgtState, total: nat, orders: seq<seq<TableName>>, x: ListenerId)
    requires !s.resetRunning && FullReset(s, t, total, orders)
    ensures t.notifications[..|s.notifications|] == s.notifications
    ensures ListenerBag(t.notifications[|s.notifications|..])[x] == FiredListeners(s.globals, s.byTable, ResetAll)[x]
    ensures AllFor(t.notifications[|s.notifications|..], ResetAll)
  {
    var batch := FiringsLog(s.globals, s.byTable, ResetAll, orders);
    assert t.notifications[|s.notifications|..] == batch;
    FiringsLogBag(s.globals, s.byTable, ResetAll, orders, x);
    FiringsLogRequest(s.globals, s.byTable, ResetAll, orders);
  }

  /** JUST_BROADCAST only posts the request: it reports 0, fires nothing and changes nothing local. */
  lemma JustBroadcastOnlyPosts(
    s: MgtState, t: MgtState, multiRequest: CacheInvalidateMultiRequest, count: nat, orders: seq<seq<TableName>>)
    ensures ResetStep(s, t, multiRequest, JustBroadcast, count, orders)
        <==> count == 0 && orders == [] && t == s.(broadcasts := s.broadcasts + [multiRequest])
  {
    assert s.notifications + [] == s.notifications;
  }

  /** LOCAL never posts anything. */
  lemma LocalNeverPosts(
    s: MgtState, t: MgtState, multiRequest: CacheInvalidateMultiRequest, count: nat, orders: seq<seq<TableName>>)
    requires ResetStep(s, t, multiRequest, Local, count, orders)
    ensures t.broadcasts == s.broadcasts
  {
  }

  /** LOCAL_AND_BROADCAST is LOCAL followed by posting the same request. */
  lemma LocalAndBroadcastIsLocalThenPost(
    s: MgtState, t: MgtState, multiRequest: CacheInvalidateMultiRequest, count: nat, orders: seq<seq<TableName>>)
    ensures ResetStep(s, t, multiRequest, LocalAndBroadcast, count, orders)
        <==> ResetStep(s, t.(broadcasts := s.broadcasts), multiRequest, Local, count, orders)
             && t.broadcasts == s.broadcasts + [multiRequest]
  {
  }

  /**
   * The firings of a reset that ran the full reset, the first for the
   * reset-all request and the second for `multiRequest`: each listener is
   * notified twice as often as one firing notifies it.
   */
  lemma FullResetLogNotifies(
    globals: seq<ListenerId>, byTable: map<TableName, seq<ListenerId>>, multiRequest: CacheInvalidateMultiRequest,
    orders: seq<seq<TableName>>, x: ListenerId)
    requires multiRequest.IsResetAll() && |orders| == 2 && AreFiringOrders(orders, byTable, multiRequest)
    ensures var log := ResetLog(globals, byTable, true, multiRequest, orders);
            var k := |FiringsLog(globals, byTable, ResetAll, orders[..1])|;
            && k <= |log|
            && ListenerBag(log)[x] == 2 * FiredListeners(globals, byTable, multiRequest)[x]
            && AllFor(log[..k], ResetAll)
            && AllFor(log[k..], multiRequest)
  {
    ResetAllFiresLikeAll(globals, byTable, multiRequest);
    var first := orders[..1];
    var rest := orders[1..];
    assert AreFiringOrders(first, byTable, ResetAll) by {
      assert first[0] == orders[0];
    }
    assert AreFiringOrders(rest, byTable, multiRequest) by {
      assert rest[0] == orders[1];
    }
    var a := FiringsLog(globals, byTable, ResetAll, first);
    var b := FiringsLog(globals, byTable, multiRequest, rest);
    FiringsLogBag(globals, byTable, ResetAll, first, x);
    FiringsLogBag(globals, byTable, multiRequest, rest, x);
    ListenerBagAppend(a, b);
    FiringsLogRequest(globals, byTable, ResetAll, first);
    FiringsLogRequest(globals, byTable, multiRequest, rest);
    assert (a + b)[..|a|] == a && (a + b)[|a|..] == b;
  }

  /**
   * One reset only appends to the notification log; listener `x` is notified
   * the number of firings times as often as one firing notifies it. When the
   * full reset runs, the notifications of its firing carry the reset-all
   * request and the rest carry the request; otherwise every new notification
   * carries the request.
   */
  lemma ResetStepNotifies(
    s: MgtState, t: MgtState, multiRequest: CacheInvalidateMultiRequest, mode: ResetMode, count: nat,
    orders: seq<seq<TableName>>, x: ListenerId)
    requires ResetStep(s, t, multiRequest, mode, count, orders)
    ensures t.notifications[..|s.notifications|] == s.notifications
    ensures ListenerBag(t.notifications[|s.notifications|..])[x]
         == FiringCount(s.resetRunning, multiRequest, mode) * FiredListeners(s.globals, s.byTable, multiRequest)[x]
    ensures !RunsFullReset(s.resetRunning, multiRequest, mode) ==> AllFor(t.notifications[|s.notifications|..], multiRequest)
    ensures RunsFullReset(s.resetRunning, multiRequest, mode) ==>
              var k := |s.notifications| + |FiringsLog(s.globals, s.byTable, ResetAll, orders[..1])|;
              && k <= |t.notifications|
              && AllFor(t.notifications[|s.notifications|..k], ResetAll)
              && AllFor(t.notifications[k..], multiRequest)
  {
    var full := RunsFullReset(s.resetRunning, multiRequest, mode);
    var batch := ResetLog(s.globals, s.byTable, full, multiRequest, orders);
    assert t.notifications == s.notifications + batch;
    if full {
      FullResetLogNotifies(s.globals, s.byTable, multiRequest, orders, x);
      AppendedSlices(s.notifications, batch, |FiringsLog(s.globals, s.byTable, ResetAll, orders[..1])|);
    } else {
      AppendedSlices(s.notifications, batch, 0);
      FiringsLogBag(s.globals, s.byTable, multiRequest, orders, x);
      FiringsLogRequest(s.globals, s.byTable, multiRequest, orders);
    }
  }

  lemma AppendedSlices<T>(prefix: seq<T>, batch: seq<T>, k: nat)
    requires k <= |batch|
    ensures (prefix + batch)[..|prefix|] == prefix && (prefix + batch)[|prefix|..] == batch
    ensures (prefix + batch)[|prefix|..|prefix| + k] == batch[..k] && (prefix + batch)[|prefix| + k..] == batch[k..]
  {
  }

  /**
   * The firings `reset(multiRequest, mode)` appends: those of the full reset,
   * if it ran, then one for the request.
   */
  lemma ResetLogSnoc(
    globals: seq<ListenerId>, byTable: map<TableName, seq<ListenerId>>, full: bool,
    multiRequest: CacheInvalidateMultiRequest, before: seq<seq<TableName>>, order: seq<TableName>)
    requires full ==> multiRequest.IsResetAll() && |before| == 1
    requires !full ==> before == []
    requires AreFiringOrders(before, byTable, ResetAll) && IsFiringOrder(order, byTable, multiRequest)
    ensures ResetLog(globals, byTable, full, multiRequest, before + [order])
         == FiringsLog(globals, byTable, ResetAll, before) + FiringLog(globals, byTable, multiRequest, order)
    ensures AreFiringOrders(before + [order], byTable, multiRequest)
  {
    FiringsLogSnoc(globals, byTable, multiRequest, [], order);
    assert [] + [order] == [order];
    var orders := before + [order];
    if full {
      ResetAllFiresLikeAll(globals, byTable, multiRequest);
      assert orders[..1] == before && orders[1..] == [order];
    } else {
      assert orders == [order];
    }
    FiringOrdersSnoc(before, order, byTable, multiRequest);
  }

  /**
   * A local reset-all with the guard clear runs the full reset: it reports
   * the total of every group, counts one more full reset, and notifies every
   * listener twice as often as one firing for the reset-all request does.
   */
  lemma LocalResetAllFiresTwice(
    s: MgtState, t: MgtState, multiRequest: CacheInvalidateMultiRequest, mode: ResetMode, count: nat,
    orders: seq<seq<TableName>>, x: ListenerId)
    requires multiRequest.IsResetAll() && mode.IsResetLocal() && !s.resetRunning
    requires ResetStep(s, t, multiRequest, mode, count, orders)
    ensures count == TotalInvalidateAll(s.registry)
    ensures t.lastCacheReset == s.lastCacheReset + 1
    ensures ListenerBag(t.notifications[|s.notifications|..])[x] == 2 * FiredListeners(s.globals, s.byTable, ResetAll)[x]
  {
    assert FiringCount(s.resetRunning, multiRequest, mode) == 2;
    ResetStepNotifies(s, t, multiRequest, mode, count, orders, x);
    ResetAllFiresLikeAll(s.globals, s.byTable, multiRequest);
  }

  /**
   * A local reset-all while the guard is set skips the full reset: it reports
   * 0, leaves the counter alone and fires the listeners once, for the request.
   */
  lemma GuardedLocalResetAllFiresOnce(
    s: MgtState, t: MgtState, multiRequest: CacheInvalidateMultiRequest, mode: ResetMode, count: nat,
    orders: seq<seq<TableName>>, x: ListenerId)
    requires multiRequest.IsResetAll() && mode.IsResetLocal() && s.resetRunning
    requires ResetStep(s, t, multiRequest, mode, count, orders)
    ensures count == 0
    ensures t.lastCacheReset == s.lastCacheReset
    ensures ListenerBag(t.notifications[|s.notifications|..])[x] == FiredListeners(s.globals, s.byTable, ResetAll)[x]
    ensures AllFor(t.notifications[|s.notifications|..], multiRequest)
  {
    assert FiringCount(s.resetRunning, multiRequest, mode) == 1;
    ResetStepNotifies(s, t, multiRequest, mode, count, orders, x);
    ResetAllFiresLikeAll(s.globals, s.byTable, multiRequest);
  }

  /**
   * A local all-records reset of a table counts at least what a cache filed
   * under that table's label reports for itself.
   */
  lemma LocalTableResetCountsItsCaches(
    s: MgtState, t: MgtState, tableName: TableName, mode: ResetMode, count: nat, orders: seq<seq<TableName>>, cache: Cache)
    requires mode.IsResetLocal() && ResetStep(s, t, AllRecordsForTable(tableName), mode, count, orders)
    requires LabelOfTable(tableName) in s.registry
    requires cache.cacheId in s.registry[LabelOfTable(tableName)]
    requires s.registry[LabelOfTable(tableName)][cache.cacheId] == Some(cache)
    ensures InvalidateNoFail(cache) <= count
  {
    var l := LabelOfTable(tableName);
    GroupInvalidateAllIncludes(s.registry[l], cache.cacheId);
    var rs := AllRecordsForTable(tableName).Requests();
    assert rs[..0] == [];
  }

  lemma HeadIsIn<T>(s: seq<T>)
    ensures s != [] ==> s[0] in s
  {
  }

  /** Flushing an empty map changes nothing and sends nothing. */
  lemma FlushEmptyIsNoop(
    s: MgtState, t: MgtState, localRequests: seq<CacheInvalidateRequest>, broadcastRequests: seq<CacheInvalidateRequest>,
    orders: seq<seq<TableName>>)
    requires FlushStep(s, t, map[], localRequests, broadcastRequests, orders)
    ensures localRequests == [] && broadcastRequests == [] && orders == [] && t == s
  {
    HeadIsIn(localRequests);
    HeadIsIn(broadcastRequests);
  }

  /**
   * Flushing a broadcast-only map posts one JUST_BROADCAST batch of all its
   * requests and changes nothing else.
   */
  lemma FlushBroadcastOnly(
    s: MgtState, t: MgtState, pending: PendingMap,
    localRequests: seq<CacheInvalidateRequest>, broadcastRequests: seq<CacheInvalidateRequest>, orders: seq<seq<TableName>>)
    requires BroadcastOnly(pending) && pending != map[]
    requires FlushStep(s, t, pending, localRequests, broadcastRequests, orders)
    ensures localRequests == [] && orders == []
    ensures forall q :: q in broadcastRequests <==> q in pending
    ensures t == s.(broadcasts := s.broadcasts + [Of(broadcastRequests)])
  {
    BroadcastOnlyBatches(pending, []);
    HeadIsIn(localRequests);
    var q :| q in pending;
    assert q in BroadcastPart(pending);
  }

  /**
   * Resetting LOCAL now and flushing, on commit, the JUST_BROADCAST entries
   * the transaction collected for a request (a reset-all request included)
   * ends where LOCAL_AND_BROADCAST would have: only the posted batch differs,
   * holding the same requests, each once. An empty batch enqueues nothing,
   * so nothing is posted on commit.
   */
  lemma {:induction false} DeferredBroadcastMatchesImmediate(
    s: MgtState, mid: MgtState, t: MgtState, request: CacheInvalidateMultiRequest, count: nat, orders: seq<seq<TableName>>,
    localRequests: seq<CacheInvalidateRequest>, broadcastRequests: seq<CacheInvalidateRequest>, flushOrders: seq<seq<TableName>>)
    requires ResetStep(s, mid, request, Local, count, orders)
    requires FlushStep(mid, t, PutAll(map[], request.Requests(), JustBroadcast), localRequests, broadcastRequests, flushOrders)
    ensures flushOrders == []
    ensures request.Requests() != [] ==>
              && ResetStep(s, t.(broadcasts := s.broadcasts + [request]), request, LocalAndBroadcast, count, orders)
              && t.broadcasts == s.broadcasts + [Of(broadcastRequests)]
              && Distinct(broadcastRequests) && (forall q :: q in broadcastRequests <==> q in request.Requests())
    ensures request.Requests() == [] ==> t == mid
  {
    var pending := PutAll(map[], request.Requests(), JustBroadcast);
    LocalNeverPosts(s, mid, request, count, orders);
    if request.Requests() == [] {
      assert pending == map[];
      FlushEmptyIsNoop(mid, t, localRequests, broadcastRequests, flushOrders);
    } else {
      BroadcastOnlyBatches(map[], request.Requests());
      assert request.Requests()[0] in pending;
      FlushBroadcastOnly(mid, t, pending, localRequests, broadcastRequests, flushOrders);
      LocalAndBroadcastIsLocalThenPost(s, t.(broadcasts := s.broadcasts + [request]), request, count, orders);
    }
  }

  /**
   * A reset-all deferred to commit is broadcast on commit: the flush posts
   * exactly the reset-all batch, as LOCAL_AND_BROADCAST would have.
   */
  lemma DeferredResetAllIsBroadcast(
    s: MgtState, mid: MgtState, t: MgtState, count: nat, orders: seq<seq<TableName>>,
    localRequests: seq<CacheInvalidateRequest>, broadcastRequests: seq<CacheInvalidateRequest>, flushOrders: seq<seq<TableName>>)
    requires ResetStep(s, mid, ResetAll, Local, count, orders)
    requires FlushStep(mid, t, PutAll(map[], ResetAll.Requests(), JustBroadcast), localRequests, broadcastRequests, flushOrders)
    ensures t.broadcasts == s.broadcasts + [ResetAll]
    ensures ResetStep(s, t, ResetAll, LocalAndBroadcast, count, orders)
  {
    DeferredBroadcastMatchesImmediate(s, mid, t, ResetAll, count, orders, localRequests, broadcastRequests, flushOrders);
    assert broadcastRequests == [AllRequest] by {
      assert AllRequest in broadcastRequests;
      DistinctSingleton(broadcastRequests, AllRequest);
    }
  }

  /** A duplicate-free sequence whose only element is `x` is `[x]`. */
  lemma {:induction false} DistinctSingleton<T>(s: seq<T>, x: T)
    requires Distinct(s) && x in s && forall y :: y in s ==> y == x
    ensures s == [x]
  {
    if |s| > 1 {
      FirstTwoAre(s, x);
      assert false;
    }
  }

  lemma FirstTwoAre<T>(s: seq<T>, x: T)
    requires |s| > 1 && forall y :: y in s ==> y == x
    ensures s[0] == x && s[1] == x
  {
    assert s[0] in s && s[1] in s;
  }
}
