/**
 * Cache reset listeners: the global list, the per-table lists, and which
 * listeners one reset notifies. A listener is an identity; notifying it is
 * recorded as a `Notification` in a log.
 */
module Listeners {
  import opened CacheModel
  import opened Sums

  /** The identity of an `ICacheResetListener` (the source compares them by reference). */
  type ListenerId = nat

  /** One call `listener.reset(request)`. */
  datatype Notification = Notification(listener: ListenerId, request: CacheInvalidateMultiRequest)

  /** `CopyOnWriteArrayList.addIfAbsent`: appends `x` unless it is already listed. */
  function AddIfAbsent(s: seq<ListenerId>, x: ListenerId): (r: seq<ListenerId>)
    ensures forall y :: y in r <==> y in s || y == x
    ensures s <= r && |r| <= |s| + 1
    ensures x in s ==> r == s
    ensures multiset(r)[x] == if x in s then multiset(s)[x] else 1
    ensures Distinct(s) ==> Distinct(r)
  {
    if x in s then s else s + [x]
  }

  /** `CopyOnWriteArrayList.remove(Object)`: drops the first occurrence of `x`, if any. */
  function RemoveFirst(s: seq<ListenerId>, x: ListenerId): (r: seq<ListenerId>)
    ensures multiset(r) == multiset(s) - multiset{x}
    ensures |r| == if x in s then |s| - 1 else |s|
  {
    if s == [] then []
    else
      assert s == [s[0]] + s[1..];
      if s[0] == x then s[1..]
      else [s[0]] + RemoveFirst(s[1..], x)
  }

  /** Removing a listener that is not listed changes nothing. */
  lemma {:induction false} RemoveFirstAbsent(s: seq<ListenerId>, x: ListenerId)
    requires x !in s
    ensures RemoveFirst(s, x) == s
    decreases |s|
  {
    if s != [] {
      assert s == [s[0]] + s[1..];
      RemoveFirstAbsent(s[1..], x);
    }
  }

  /**
   * A listed `x` is removed at its first position and every other listener
   * keeps its place in the order.
   */
  lemma {:induction false} RemoveFirstKeepsOrder(s: seq<ListenerId>, x: ListenerId) returns (i: nat)
    requires x in s
    ensures i < |s| && s[i] == x && x !in s[..i]
    ensures RemoveFirst(s, x) == s[..i] + s[i + 1..]
    decreases |s|
  {
    assert s == [s[0]] + s[1..];
    if s[0] == x {
      i := 0;
      assert s[..0] == [];
    } else {
      var j := RemoveFirstKeepsOrder(s[1..], x);
      i := j + 1;
      assert s[..i] == [s[0]] + s[1..][..j];
      assert s[i + 1..] == s[1..][j + 1..];
    }
  }

  lemma {:induction false} DistinctTail(s: seq<ListenerId>)
    requires s != [] && Distinct(s)
    ensures Distinct(s[1..]) && s[0] !in s[1..]
  {
    forall i, j | 0 <= i < j < |s[1..]| ensures s[1..][i] != s[1..][j] {
      assert s[1..][i] == s[i + 1] && s[1..][j] == s[j + 1];
    }
  }

  /** Removing a listener from a duplicate-free list removes it entirely and keeps the list duplicate-free. */
  lemma {:induction false} RemoveFirstDistinct(s: seq<ListenerId>, x: ListenerId)
    requires Distinct(s)
    ensures Distinct(RemoveFirst(s, x)) && x !in RemoveFirst(s, x)
  {
    if s != [] {
      DistinctTail(s);
      if s[0] != x {
        var rest := RemoveFirst(s[1..], x);
        RemoveFirstDistinct(s[1..], x);
        assert s[0] !in rest by {
          assert multiset(rest)[s[0]] <= multiset(s[1..])[s[0]];
        }
        assert RemoveFirst(s, x) == [s[0]] + rest;
      }
    }
  }

  /** Adding an absent listener and then removing it gives back the original list. */
  lemma RemoveFirstUndoesAdd(s: seq<ListenerId>, x: ListenerId)
    requires x !in s
    ensures RemoveFirst(AddIfAbsent(s, x), x) == s
  {
    RemoveFirstOfAppended(s, x);
  }

  lemma {:induction false} RemoveFirstOfAppended(s: seq<ListenerId>, x: ListenerId)
    requires x !in s
    ensures RemoveFirst(s + [x], x) == s
    decreases |s|
  {
    if s == [] {
      assert [x][1..] == [];
    } else {
      var tail := s[1..];
      assert s == [s[0]] + tail;
      RemoveFirstOfAppended(tail, x);
      RemoveFirstKeepsHead(s + [x], x);
      assert (s + [x])[1..] == tail + [x];
    }
  }

  lemma RemoveFirstKeepsHead(s: seq<ListenerId>, x: ListenerId)
    requires s != [] && s[0] != x
    ensures RemoveFirst(s, x) == [s[0]] + RemoveFirst(s[1..], x)
  {
  }

  /** The notifications that firing `listeners` in order for `request` produces. */
  function Notify(listeners: seq<ListenerId>, request: CacheInvalidateMultiRequest): (r: seq<Notification>)
    ensures |r| == |listeners|
    ensures forall i :: 0 <= i < |r| ==> r[i] == Notification(listeners[i], request)
  {
    seq(|listeners|, i requires 0 <= i < |listeners| => Notification(listeners[i], request))
  }

  /** The listeners a log notified, in order. */
  function NotifiedListeners(log: seq<Notification>): (r: seq<ListenerId>)
    ensures |r| == |log|
  {
    if log == [] then [] else NotifiedListeners(log[..|log| - 1]) + [log[|log| - 1].listener]
  }

  /** The listeners a log notified, with multiplicity. */
  function ListenerBag(log: seq<Notification>): multiset<ListenerId>
  {
    multiset(NotifiedListeners(log))
  }

  lemma {:induction false} NotifiedListenersAppend(a: seq<Notification>, b: seq<Notification>)
    ensures NotifiedListeners(a + b) == NotifiedListeners(a) + NotifiedListeners(b)
    decreases |b|
  {
    if b == [] {
      assert a + b == a;
    } else {
      var front := b[..|b| - 1];
      assert (a + b)[..|a + b| - 1] == a + front;
      assert (a + b)[|a + b| - 1] == b[|b| - 1];
      NotifiedListenersAppend(a, front);
    }
  }

  lemma ListenerBagAppend(a: seq<Notification>, b: seq<Notification>)
    ensures ListenerBag(a + b) == ListenerBag(a) + ListenerBag(b)
  {
    NotifiedListenersAppend(a, b);
  }

  lemma {:induction false} NotifiedListenersNotify(listeners: seq<ListenerId>, request: CacheInvalidateMultiRequest)
    ensures NotifiedListeners(Notify(listeners, request)) == listeners
    decreases |listeners|
  {
    if listeners != [] {
      var front := listeners[..|listeners| - 1];
      assert Notify(listeners, request)[..|listeners| - 1] == Notify(front, request);
      NotifiedListenersNotify(front, request);
    }
  }

  lemma ListenerBagNotify(listeners: seq<ListenerId>, request: CacheInvalidateMultiRequest)
    ensures ListenerBag(Notify(listeners, request)) == multiset(listeners)
  {
    NotifiedListenersNotify(listeners, request);
  }

  /**
   * The listeners of the given tables, with multiplicity; a table without a
   * listener list contributes nothing (the `filter(notNull)` at the lookup).
   */
  ghost function TableListeners(byTable: map<TableName, seq<ListenerId>>, tables: set<TableName>): multiset<ListenerId>
    decreases tables
  {
    if tables == {} then multiset{}
    else
      var t :| t in tables;
      ListOf(byTable, t) + TableListeners(byTable, tables - {t})
  }

  function ListOf(byTable: map<TableName, seq<ListenerId>>, t: TableName): multiset<ListenerId>
  {
    if t in byTable then multiset(byTable[t]) else multiset{}
  }

  /** Any table can be taken out first. */
  lemma {:induction false} TableListenersRemove(byTable: map<TableName, seq<ListenerId>>, tables: set<TableName>, t: TableName)
    requires t in tables
    ensures TableListeners(byTable, tables) == ListOf(byTable, t) + TableListeners(byTable, tables - {t})
    decreases tables
  {
    var u :| u in tables && TableListeners(byTable, tables) == ListOf(byTable, u) + TableListeners(byTable, tables - {u});
    if u != t {
      TableListenersRemove(byTable, tables - {u}, t);
      TableListenersRemove(byTable, tables - {t}, u);
      assert tables - {u} - {t} == tables - {t} - {u};
    }
  }

  lemma TableListenersInsert(byTable: map<TableName, seq<ListenerId>>, tables: set<TableName>, t: TableName)
    requires t !in tables
    ensures TableListeners(byTable, tables + {t}) == TableListeners(byTable, tables) + ListOf(byTable, t)
  {
    TableListenersRemove(byTable, tables + {t}, t);
    assert tables + {t} - {t} == tables;
  }

  /**
   * `fireGlobalCacheResetListeners`: every global listener, then the listeners
   * of every table on a reset-all request, else of the tables the request names.
   */
  ghost function FiredListeners(
    globals: seq<ListenerId>, byTable: map<TableName, seq<ListenerId>>, request: CacheInvalidateMultiRequest): multiset<ListenerId>
  {
    multiset(globals) + TableListeners(byTable, FiredTables(byTable, request))
  }

  function FiredTables(byTable: map<TableName, seq<ListenerId>>, request: CacheInvalidateMultiRequest): set<TableName>
  {
    if request.IsResetAll() then byTable.Keys else request.TableNamesEffective()
  }

  /**
   * Every reset-all batch visits every table that has a list, as the batch
   * `ResetAll` does, so the two fire the same listeners.
   */
  lemma ResetAllFiresLikeAll(globals: seq<ListenerId>, byTable: map<TableName, seq<ListenerId>>, request: CacheInvalidateMultiRequest)
    requires request.IsResetAll()
    ensures FiredTables(byTable, request) == FiredTables(byTable, ResetAll) == byTable.Keys
    ensures FiredListeners(globals, byTable, request) == FiredListeners(globals, byTable, ResetAll)
    ensures forall order :: IsFiringOrder(order, byTable, request) <==> IsFiringOrder(order, byTable, ResetAll)
    ensures forall orders :: AreFiringOrders(orders, byTable, request) <==> AreFiringOrders(orders, byTable, ResetAll)
  {
    assert AllRequest in ResetAll.requests;
  }

  /** Every notification of the log carries `request`. */
  predicate AllFor(log: seq<Notification>, request: CacheInvalidateMultiRequest)
  {
    forall i :: 0 <= i < |log| ==> log[i].request == request
  }

  /** The notifications that firing the lists of `order`, table by table, produces. */
  function NotifyTables(byTable: map<TableName, seq<ListenerId>>, order: seq<TableName>, request: CacheInvalidateMultiRequest): seq<Notification>
    decreases |order|
  {
    if order == [] then []
    else
      var t := order[|order| - 1];
      NotifyTables(byTable, order[..|order| - 1], request) + (if t in byTable then Notify(byTable[t], request) else [])
  }

  /** `order` lists each of `tables` once: one iteration order of a set of table names. */
  ghost predicate IsTableOrder(order: seq<TableName>, tables: set<TableName>)
  {
    Distinct(order) && forall t :: t in order <==> t in tables
  }

  /** Visiting one more table appends that table's list, if it has one. */
  lemma NotifyTablesSnoc(byTable: map<TableName, seq<ListenerId>>, order: seq<TableName>, t: TableName, request: CacheInvalidateMultiRequest)
    ensures NotifyTables(byTable, order + [t], request)
         == NotifyTables(byTable, order, request) + (if t in byTable then Notify(byTable[t], request) else [])
  {
    assert (order + [t])[..|order|] == order;
  }

  /** Appending a table not yet visited keeps the order duplicate-free. */
  lemma DistinctSnoc(order: seq<TableName>, t: TableName)
    requires Distinct(order) && t !in order
    ensures Distinct(order + [t])
  {
  }

  lemma DistinctFront<T>(s: seq<T>)
    requires s != [] && Distinct(s)
    ensures Distinct(s[..|s| - 1]) && s[|s| - 1] !in s[..|s| - 1]
  {
  }

  /**
   * Firing the lists of the tables in some iteration order notifies each
   * listener, with the request, as often as those tables list it.
   */
  lemma {:induction false} NotifyTablesBag(
    byTable: map<TableName, seq<ListenerId>>, order: seq<TableName>, tables: set<TableName>, request: CacheInvalidateMultiRequest)
    requires IsTableOrder(order, tables)
    ensures AllFor(NotifyTables(byTable, order, request), request)
    ensures ListenerBag(NotifyTables(byTable, order, request)) == TableListeners(byTable, tables)
    decreases |order|
  {
    if order == [] {
      assert tables == {};
    } else {
      var t := order[|order| - 1];
      var front := order[..|order| - 1];
      DistinctFront(order);
      assert front + [t] == order;
      assert IsTableOrder(front, tables - {t});
      NotifyTablesBag(byTable, front, tables - {t}, request);
      FireTablesStep(byTable, tables - {t}, t, NotifyTables(byTable, front, request), request);
      assert tables - {t} + {t} == tables;
    }
  }

  /** One more table's list fired after those of `done`. */
  lemma FireTablesStep(
    byTable: map<TableName, seq<ListenerId>>, done: set<TableName>, t: TableName,
    fired: seq<Notification>, request: CacheInvalidateMultiRequest)
    requires t !in done
    requires AllFor(fired, request) && ListenerBag(fired) == TableListeners(byTable, done)
    ensures var more := if t in byTable then Notify(byTable[t], request) else [];
            && AllFor(fired + more, request)
            && ListenerBag(fired + more) == TableListeners(byTable, done + {t})
  {
    var more := if t in byTable then Notify(byTable[t], request) else [];
    if t in byTable {
      ListenerBagNotify(byTable[t], request);
    }
    assert ListenerBag(more) == ListOf(byTable, t);
    ListenerBagAppend(fired, more);
    TableListenersInsert(byTable, done, t);
  }

  /**
   * The notifications of one `fireGlobalCacheResetListeners` run for `request`
   * that visits the affected tables in `order`: the global listeners in list
   * order, then each visited table's list in list order.
   */
  function FiringLog(
    globals: seq<ListenerId>, byTable: map<TableName, seq<ListenerId>>, request: CacheInvalidateMultiRequest,
    order: seq<TableName>): seq<Notification>
  {
    Notify(globals, request) + NotifyTables(byTable, order, request)
  }

  /** `order` is an iteration order of the tables a firing for `request` visits. */
  ghost predicate IsFiringOrder(order: seq<TableName>, byTable: map<TableName, seq<ListenerId>>, request: CacheInvalidateMultiRequest)
  {
    IsTableOrder(order, FiredTables(byTable, request))
  }

  /** Whatever the table order, one firing notifies the listeners `FiredListeners` names, each with the request. */
  lemma FiringLogBag(
    globals: seq<ListenerId>, byTable: map<TableName, seq<ListenerId>>, request: CacheInvalidateMultiRequest,
    order: seq<TableName>)
    requires IsFiringOrder(order, byTable, request)
    ensures AllFor(FiringLog(globals, byTable, request, order), request)
    ensures ListenerBag(FiringLog(globals, byTable, request, order)) == FiredListeners(globals, byTable, request)
  {
    NotifyTablesBag(byTable, order, FiredTables(byTable, request), request);
    ListenerBagNotify(globals, request);
    ListenerBagAppend(Notify(globals, request), NotifyTables(byTable, order, request));
  }

  /** Successive firings for the same request, each in its own table order. */
  function FiringsLog(
    globals: seq<ListenerId>, byTable: map<TableName, seq<ListenerId>>, request: CacheInvalidateMultiRequest,
    orders: seq<seq<TableName>>): seq<Notification>
    decreases |orders|
  {
    if orders == [] then []
    else FiringsLog(globals, byTable, request, orders[..|orders| - 1]) + FiringLog(globals, byTable, request, orders[|orders| - 1])
  }

  ghost predicate AreFiringOrders(orders: seq<seq<TableName>>, byTable: map<TableName, seq<ListenerId>>, request: CacheInvalidateMultiRequest)
  {
    forall i :: 0 <= i < |orders| ==> IsFiringOrder(orders[i], byTable, request)
  }

  lemma FiringsLogSnoc(
    globals: seq<ListenerId>, byTable: map<TableName, seq<ListenerId>>, request: CacheInvalidateMultiRequest,
    orders: seq<seq<TableName>>, order: seq<TableName>)
    ensures FiringsLog(globals, byTable, request, orders + [order])
         == FiringsLog(globals, byTable, request, orders) + FiringLog(globals, byTable, request, order)
  {
    assert (orders + [order])[..|orders|] == orders;
  }

  lemma FiringOrdersFront(orders: seq<seq<TableName>>, byTable: map<TableName, seq<ListenerId>>, request: CacheInvalidateMultiRequest)
    requires orders != [] && AreFiringOrders(orders, byTable, request)
    ensures AreFiringOrders(orders[..|orders| - 1], byTable, request)
    ensures IsFiringOrder(orders[|orders| - 1], byTable, request)
  {
    var front := orders[..|orders| - 1];
    forall i | 0 <= i < |front| ensures IsFiringOrder(front[i], byTable, request) {
      assert front[i] == orders[i];
    }
  }

  /** Appending one more firing order to a list of firing orders keeps it a list of firing orders. */
  lemma FiringOrdersSnoc(
    orders: seq<seq<TableName>>, order: seq<TableName>, byTable: map<TableName, seq<ListenerId>>, request: CacheInvalidateMultiRequest)
    requires AreFiringOrders(orders, byTable, request) && IsFiringOrder(order, byTable, request)
    ensures AreFiringOrders(orders + [order], byTable, request)
  {
  }

  /** Every notification of successive firings for a request carries the request. */
  lemma {:induction false} FiringsLogRequest(
    globals: seq<ListenerId>, byTable: map<TableName, seq<ListenerId>>, request: CacheInvalidateMultiRequest,
    orders: seq<seq<TableName>>)
    requires AreFiringOrders(orders, byTable, request)
    ensures AllFor(FiringsLog(globals, byTable, request, orders), request)
    decreases |orders|
  {
    if orders != [] {
      var front := orders[..|orders| - 1];
      FiringOrdersFront(orders, byTable, request);
      FiringsLogRequest(globals, byTable, request, front);
      FiringLogBag(globals, byTable, request, orders[|orders| - 1]);
    }
  }

  /** `k` firings for a request notify each listener `k` times as often as one firing does. */
  lemma {:induction false} FiringsLogBag(
    globals: seq<ListenerId>, byTable: map<TableName, seq<ListenerId>>, request: CacheInvalidateMultiRequest,
    orders: seq<seq<TableName>>, x: ListenerId)
    requires AreFiringOrders(orders, byTable, request)
    ensures ListenerBag(FiringsLog(globals, byTable, request, orders))[x] == |orders| * FiredListeners(globals, byTable, request)[x]
    decreases |orders|
  {
    if orders != [] {
      var front := orders[..|orders| - 1];
      var last := orders[|orders| - 1];
      FiringOrdersFront(orders, byTable, request);
      FiringsLogBag(globals, byTable, request, front, x);
      FiringLogBag(globals, byTable, request, last);
      ListenerBagAppend(FiringsLog(globals, byTable, request, front), FiringLog(globals, byTable, request, last));
      MulStep(|orders|, |front|, FiredListeners(globals, byTable, request)[x]);
    }
  }
}
