/**
 * The coordinator's registry seen as a value: each label maps to the entries
 * of that label's `CachesGroup`. Registration, unregistration and the routing
 * of invalidation requests are specified here; the class `CacheMgt` is proved
 * against these definitions.
 */
module Registry {
  import opened Wrappers
  import opened CacheModel
  import opened ResetModes
  import opened Sums
  import opened CachesGroups

  /** `cachesByLabel`, with every group replaced by its entries. */
  type Reg = map<CacheLabel, CacheEntries>

  /** The entries of a label's group; a label without a group has none. */
  function GroupOf(reg: Reg, l: CacheLabel): CacheEntries
  {
    if l in reg then reg[l] else map[]
  }

  /**
   * Registration for the labels in `labels`: each label's group, created when
   * missing, files `cache` under its id.
   */
  function FileUnder(reg: Reg, labels: set<CacheLabel>, cache: Cache): (r: Reg)
    ensures r.Keys == reg.Keys + labels
    ensures forall l :: l in labels ==> cache.cacheId in r[l] && r[l][cache.cacheId] == Some(cache)
    ensures forall l :: l in reg && l !in labels ==> r[l] == reg[l]
  {
    map l | l in reg.Keys + labels :: if l in labels then GroupOf(reg, l)[cache.cacheId := Some(cache)] else reg[l]
  }

  /** Registration keeps every other entry and adds none but the cache's own. */
  lemma FileUnderKeepsOthers(reg: Reg, labels: set<CacheLabel>, cache: Cache)
    ensures var r := FileUnder(reg, labels, cache);
            && (forall l, id :: l in reg && id in reg[l] && !(l in labels && id == cache.cacheId)
                  ==> id in r[l] && r[l][id] == reg[l][id])
            && (forall l, id :: l in r && id in r[l] && !(l in labels && id == cache.cacheId)
                  ==> l in reg && id in reg[l])
  {
  }

  /**
   * Unregistration for the labels in `labels`: each label's group, created when
   * missing (`getCachesGroup` uses `computeIfAbsent`), drops the id.
   */
  function RemoveUnder(reg: Reg, labels: set<CacheLabel>, id: CacheId): (r: Reg)
    ensures r.Keys == reg.Keys + labels
    ensures forall l :: l in labels ==> id !in r[l]
    ensures forall l :: l in reg && l !in labels ==> r[l] == reg[l]
  {
    map l | l in reg.Keys + labels :: if l in labels then GroupOf(reg, l) - {id} else reg[l]
  }

  /** Unregistration keeps every other entry and adds none. */
  lemma RemoveUnderKeepsOthers(reg: Reg, labels: set<CacheLabel>, id: CacheId)
    ensures var r := RemoveUnder(reg, labels, id);
            && (forall l, k :: l in reg && k in reg[l] && !(l in labels && k == id) ==> k in r[l] && r[l][k] == reg[l][k])
            && (forall l, k :: l in r && k in r[l] ==> l in reg && k in reg[l])
  {
  }

  /** Every live entry sits under its own id, in the group of one of its labels. */
  ghost predicate Filed(reg: Reg)
  {
    forall l, id :: l in reg && id in reg[l] && reg[l][id].Some?
      ==> reg[l][id].value.cacheId == id && l in reg[l][id].value.labels
  }

  lemma FileUnderKeepsFiled(reg: Reg, labels: set<CacheLabel>, cache: Cache)
    requires Filed(reg) && labels <= cache.labels
    ensures Filed(FileUnder(reg, labels, cache))
  {
    FileUnderKeepsOthers(reg, labels, cache);
  }

  lemma RemoveUnderKeepsFiled(reg: Reg, labels: set<CacheLabel>, id: CacheId)
    requires Filed(reg)
    ensures Filed(RemoveUnder(reg, labels, id))
  {
    RemoveUnderKeepsOthers(reg, labels, id);
  }

  /**
   * In a registry where every entry is filed under its own id and one of its
   * own labels, unregistering a cache leaves no group holding it.
   */
  lemma UnregisterRemovesEverywhere(reg: Reg, cache: Cache)
    requires Filed(reg)
    ensures var r := RemoveUnder(reg, cache.labels, cache.cacheId);
            forall l, id :: l in r && id in r[l] ==> r[l][id] != Some(cache)
  {
    RemoveUnderKeepsFiled(reg, cache.labels, cache.cacheId);
  }

  /** Registering again under the same id replaces the earlier entry. */
  lemma ReRegisterReplaces(reg: Reg, first: Cache, second: Cache)
    requires first.cacheId == second.cacheId && first.labels == second.labels
    ensures FileUnder(FileUnder(reg, first.labels, first), second.labels, second) == FileUnder(reg, second.labels, second)
  {
    var id := second.cacheId;
    var inner := FileUnder(reg, first.labels, first);
    var once := FileUnder(reg, second.labels, second);
    var twice := FileUnder(inner, second.labels, second);
    assert twice.Keys == once.Keys;
    forall l | l in once
      ensures twice[l] == once[l]
    {
      var g := GroupOf(reg, l);
      if l in second.labels {
        assert inner[l] == g[id := Some(first)];
        assert twice[l] == inner[l][id := Some(second)];
        assert g[id := Some(first)][id := Some(second)] == g[id := Some(second)];
      } else {
        assert twice[l] == inner[l] == reg[l];
      }
    }
  }

  lemma UnregisterUndoesRegister(reg: Reg, cache: Cache)
    ensures RemoveUnder(FileUnder(reg, cache.labels, cache), cache.labels, cache.cacheId)
         == RemoveUnder(reg, cache.labels, cache.cacheId)
  {
    var filed := FileUnder(reg, cache.labels, cache);
    var direct := RemoveUnder(reg, cache.labels, cache.cacheId);
    var roundTrip := RemoveUnder(filed, cache.labels, cache.cacheId);
    assert roundTrip.Keys == direct.Keys;
    forall l | l in direct
      ensures roundTrip[l] == direct[l]
    {
      if l in cache.labels {
        assert filed[l] == GroupOf(reg, l)[cache.cacheId := Some(cache)];
        assert GroupOf(filed, l) == filed[l];
        assert roundTrip[l] == filed[l] - {cache.cacheId};
        assert direct[l] == GroupOf(reg, l) - {cache.cacheId};
        assert GroupOf(reg, l)[cache.cacheId := Some(cache)] - {cache.cacheId} == GroupOf(reg, l) - {cache.cacheId};
      } else {
        assert roundTrip[l] == filed[l] == reg[l];
      }
    }
  }

  /**
   * When every label of the cache already has a group that does not hold its
   * id, registering and then unregistering it restores the registry exactly.
   */
  lemma UnregisterAfterRegisterRestores(reg: Reg, cache: Cache)
    requires forall l :: l in cache.labels ==> l in reg && cache.cacheId !in reg[l]
    ensures RemoveUnder(FileUnder(reg, cache.labels, cache), cache.labels, cache.cacheId) == reg
  {
    UnregisterUndoesRegister(reg, cache);
    var r := RemoveUnder(reg, cache.labels, cache.cacheId);
    assert r.Keys == reg.Keys;
    forall l | l in reg
      ensures r[l] == reg[l]
    {
      if l in cache.labels {
        assert reg[l] - {cache.cacheId} == reg[l];
      }
    }
  }

  /** Each group's `invalidateAllNoFail` total, by label. */
  ghost function GroupTotals(reg: Reg): CacheLabel -> nat
  {
    l => if l in reg then GroupInvalidateAll(reg[l]) else 0
  }

  /** Each group's `computeTotalSize`, by label. */
  ghost function GroupSizes(reg: Reg): CacheLabel -> nat
  {
    l => if l in reg then GroupTotalSize(reg[l]) else 0
  }

  /** The count of an unguarded full reset: the sum of every group's `invalidateAllNoFail`. */
  ghost function TotalInvalidateAll(reg: Reg): nat
  {
    SumOver(reg.Keys, GroupTotals(reg))
  }

  /** `CacheMgt.computeTotalSize`: the sum of every group's size. */
  ghost function TotalSize(reg: Reg): nat
  {
    SumOver(reg.Keys, GroupSizes(reg))
  }

  /** Every group's total is part of a full reset's total. */
  lemma TotalInvalidateAllIncludes(reg: Reg, l: CacheLabel)
    requires l in reg
    ensures GroupInvalidateAll(reg[l]) <= TotalInvalidateAll(reg)
  {
    SumOverAtLeast(reg.Keys, GroupTotals(reg), l);
  }

  /** Every group's size is part of `computeTotalSize`'s sum. */
  lemma TotalSizeIncludes(reg: Reg, l: CacheLabel)
    requires l in reg
    ensures GroupTotalSize(reg[l]) <= TotalSize(reg)
  {
    SumOverAtLeast(reg.Keys, GroupSizes(reg), l);
  }

  /** Filing a cache with a fresh id under one label adds its count once to a full reset's total. */
  lemma {:induction false} FileUnderOneLabelTotal(reg: Reg, l: CacheLabel, cache: Cache)
    requires l in reg ==> cache.cacheId !in reg[l]
    ensures TotalInvalidateAll(FileUnder(reg, {l}, cache)) == TotalInvalidateAll(reg) + InvalidateNoFail(cache)
  {
    var r := FileUnder(reg, {l}, cache);
    var g := GroupOf(reg, l);
    GroupInvalidateAllUpdate(g, cache.cacheId, Some(cache));
    assert g - {cache.cacheId} == g;
    assert GroupTotals(r)(l) == InvalidateNoFail(cache) + GroupTotals(reg)(l) by {
      if l !in reg {
        assert g == map[];
        assert GroupInvalidateAll(g) == 0;
      }
    }
    SumOverRemove(r.Keys, GroupTotals(r), l);
    SumOverCongruent(r.Keys - {l}, GroupTotals(r), GroupTotals(reg));
    if l in reg {
      assert r.Keys == reg.Keys;
      SumOverRemove(reg.Keys, GroupTotals(reg), l);
    } else {
      assert r.Keys - {l} == reg.Keys;
    }
  }

  lemma FileUnderSplit(reg: Reg, labels: set<CacheLabel>, l: CacheLabel, cache: Cache)
    requires l !in labels
    ensures FileUnder(reg, labels + {l}, cache) == FileUnder(FileUnder(reg, labels, cache), {l}, cache)
  {
    var a := FileUnder(reg, labels + {l}, cache);
    var b := FileUnder(FileUnder(reg, labels, cache), {l}, cache);
    assert a.Keys == b.Keys;
    forall k | k in a
      ensures a[k] == b[k]
    {
    }
  }

  lemma RemoveUnderSplit(reg: Reg, labels: set<CacheLabel>, l: CacheLabel, id: CacheId)
    requires l !in labels
    ensures RemoveUnder(reg, labels + {l}, id) == RemoveUnder(RemoveUnder(reg, labels, id), {l}, id)
  {
    var a := RemoveUnder(reg, labels + {l}, id);
    var b := RemoveUnder(RemoveUnder(reg, labels, id), {l}, id);
    assert a.Keys == b.Keys;
    forall k | k in a
      ensures a[k] == b[k]
    {
    }
  }

  lemma FileUnderOne(reg: Reg, l: CacheLabel, cache: Cache)
    ensures FileUnder(reg, {l}, cache) == reg[l := GroupOf(reg, l)[cache.cacheId := Some(cache)]]
  {
    var a := FileUnder(reg, {l}, cache);
    var b := reg[l := GroupOf(reg, l)[cache.cacheId := Some(cache)]];
    assert a.Keys == b.Keys;
  }

  lemma RemoveUnderOne(reg: Reg, l: CacheLabel, id: CacheId)
    ensures RemoveUnder(reg, {l}, id) == reg[l := GroupOf(reg, l) - {id}]
  {
    var a := RemoveUnder(reg, {l}, id);
    var b := reg[l := GroupOf(reg, l) - {id}];
    assert a.Keys == b.Keys;
  }

  lemma RemoveUnderNothing(reg: Reg, id: CacheId)
    ensures RemoveUnder(reg, {}, id) == reg
  {
    var r := RemoveUnder(reg, {}, id);
    assert r.Keys == reg.Keys;
  }

  lemma FileUnderNothing(reg: Reg, cache: Cache)
    ensures FileUnder(reg, {}, cache) == reg
  {
    var r := FileUnder(reg, {}, cache);
    assert r.Keys == reg.Keys;
  }

  /**
   * A full reset resets a cache once per label it is filed under: registering a
   * cache whose id no group of its labels holds raises a full reset's total by
   * its own count times its number of labels.
   */
  lemma {:induction false} RegisterTotal(reg: Reg, cache: Cache, labels: set<CacheLabel>)
    requires forall l :: l in labels && l in reg ==> cache.cacheId !in reg[l]
    ensures TotalInvalidateAll(FileUnder(reg, labels, cache)) == TotalInvalidateAll(reg) + |labels| * InvalidateNoFail(cache)
    decreases labels
  {
    if labels == {} {
      FileUnderNothing(reg, cache);
    } else {
      var l := Choose(labels);
      RegisterTotal(reg, cache, labels - {l});
      RegisterTotalStep(reg, cache, labels, l);
      MulStep(|labels|, |labels - {l}|, InvalidateNoFail(cache));
    }
  }

  lemma RegisterTotalStep(reg: Reg, cache: Cache, labels: set<CacheLabel>, l: CacheLabel)
    requires l in labels
    requires l in reg ==> cache.cacheId !in reg[l]
    ensures TotalInvalidateAll(FileUnder(reg, labels, cache))
         == TotalInvalidateAll(FileUnder(reg, labels - {l}, cache)) + InvalidateNoFail(cache)
  {
    var rest := labels - {l};
    FileUnderSplit(reg, rest, l, cache);
    assert rest + {l} == labels;
    var mid := FileUnder(reg, rest, cache);
    assert l in mid ==> cache.cacheId !in mid[l] by {
      if l in mid {
        assert l in reg && mid[l] == reg[l];
      }
    }
    FileUnderOneLabelTotal(mid, l, cache);
  }


  /** `invalidateForRecord`: the group of the record's own table, if there is one. */
  ghost function RecordInvalidations(reg: Reg, recordRef: TableRecordReference): nat
  {
    var l := LabelOfTable(recordRef.tableName);
    if l in reg then GroupInvalidateForRecord(reg[l], recordRef) else 0
  }

  ghost function OptionalRecordInvalidations(reg: Reg, recordRef: Option<TableRecordReference>): nat
  {
    if recordRef.Some? then RecordInvalidations(reg, recordRef.value) else 0
  }

  /**
   * `invalidateForRequest`: all caches of the table's group for an all-records
   * request, else the child record's count plus the root record's.
   */
  ghost function RequestInvalidations(reg: Reg, request: CacheInvalidateRequest): nat
  {
    if request.isAllRecords then
      var l := LabelOfTable(request.tableNameEffective);
      if l in reg then GroupInvalidateAll(reg[l]) else 0
    else
      OptionalRecordInvalidations(reg, request.childRecord) + OptionalRecordInvalidations(reg, request.rootRecord)
  }

  /** The loop of `invalidateForMultiRequest`, accumulated in request order. */
  ghost function RequestsInvalidations(reg: Reg, requests: seq<CacheInvalidateRequest>): nat
    decreases |requests|
  {
    if requests == [] then 0
    else RequestsInvalidations(reg, requests[..|requests| - 1]) + RequestInvalidations(reg, requests[|requests| - 1])
  }

  /** An all-records request for a table without a group costs nothing. */
  lemma UnknownTableCostsNothing(reg: Reg, tableName: TableName)
    requires LabelOfTable(tableName) !in reg
    ensures RequestsInvalidations(reg, AllRecordsForTable(tableName).Requests()) == 0
  {
    var rs := AllRecordsForTable(tableName).Requests();
    assert rs[..0] == [];
  }

  /**
   * A record request counts its child record in the group of the child's
   * table and its root record in the group of the root's table; a record
   * whose table has no group counts nothing.
   */
  lemma RecordRequestCountsBoth(reg: Reg, request: CacheInvalidateRequest)
    requires !request.isAllRecords && request.childRecord.Some? && request.rootRecord.Some?
    ensures RequestInvalidations(reg, request)
         == GroupInvalidateForRecord(GroupOf(reg, LabelOfTable(request.childRecord.value.tableName)), request.childRecord.value)
          + GroupInvalidateForRecord(GroupOf(reg, LabelOfTable(request.rootRecord.value.tableName)), request.rootRecord.value)
  {
    var empty: CacheEntries := map[];
    assert GroupInvalidateForRecord(empty, request.childRecord.value) == 0;
    assert GroupInvalidateForRecord(empty, request.rootRecord.value) == 0;
  }

  /** A registered cache is among what an all-records request for one of its tables resets. */
  lemma RegisteredCacheIsReset(reg: Reg, cache: Cache, tableName: TableName)
    requires LabelOfTable(tableName) in cache.labels
    ensures InvalidateNoFail(cache)
         <= RequestsInvalidations(FileUnder(reg, cache.labels, cache), AllRecordsForTable(tableName).Requests())
  {
    var r := FileUnder(reg, cache.labels, cache);
    var l := LabelOfTable(tableName);
    GroupInvalidateAllIncludes(r[l], cache.cacheId);
    var rs := AllRecordsForTable(tableName).Requests();
    assert rs[..0] == [];
  }

  /** Requests in two batches cost what they cost together. */
  lemma {:induction false} RequestsInvalidationsAppend(reg: Reg, a: seq<CacheInvalidateRequest>, b: seq<CacheInvalidateRequest>)
    ensures RequestsInvalidations(reg, a + b) == RequestsInvalidations(reg, a) + RequestsInvalidations(reg, b)
    decreases |b|
  {
    if b == [] {
      assert a + b == a;
    } else {
      var n := |b| - 1;
      assert (a + b)[..|a + b| - 1] == a + b[..n];
      assert (a + b)[|a + b| - 1] == b[n];
      RequestsInvalidationsAppend(reg, a, b[..n]);
    }
  }

  /** The order of the requests of a batch does not matter. */
  lemma {:induction false} RequestsInvalidationsPermutation(reg: Reg, a: seq<CacheInvalidateRequest>, b: seq<CacheInvalidateRequest>)
    requires multiset(a) == multiset(b)
    ensures RequestsInvalidations(reg, a) == RequestsInvalidations(reg, b)
    decreases |a|
  {
    if a != [] {
      var n := |a| - 1;
      var x := a[n];
      assert a == a[..n] + [x];
      assert x in multiset(b);
      var k :| 0 <= k < |b| && b[k] == x;
      assert b == b[..k] + [x] + b[k + 1..];
      var rest := b[..k] + b[k + 1..];
      RemoveMatched(a, b, k);
      RequestsInvalidationsPermutation(reg, a[..n], rest);
      RequestsInvalidationsAppend(reg, b[..k] + [x], b[k + 1..]);
      RequestsInvalidationsAppend(reg, b[..k], [x]);
      RequestsInvalidationsAppend(reg, b[..k], b[k + 1..]);
      assert [x][..0] == [];
    }
  }

  /** Dropping the last element of `a` and a matching element of `b` keeps two permutations permutations. */
  lemma RemoveMatched<T>(a: seq<T>, b: seq<T>, k: nat)
    requires a != [] && k < |b| && b[k] == a[|a| - 1] && multiset(a) == multiset(b)
    ensures multiset(a[..|a| - 1]) == multiset(b[..k] + b[k + 1..])
  {
    var n := |a| - 1;
    var x := a[n];
    var rest := b[..k] + b[k + 1..];
    assert a == a[..n] + [x];
    assert b == b[..k] + [x] + b[k + 1..];
    calc {
      multiset(a[..n]) + multiset{x};
      multiset(a[..n] + [x]);
      multiset(b[..k] + [x] + b[k + 1..]);
      multiset(b[..k]) + multiset{x} + multiset(b[k + 1..]);
      multiset(rest) + multiset{x};
    }
    assert multiset(a[..n]) + multiset{x} - multiset{x} == multiset(a[..n]);
    assert multiset(rest) + multiset{x} - multiset{x} == multiset(rest);
  }

  /**
   * The count `reset(multiRequest, mode)` reports: nothing unless the mode
   * resets locally; a reset-all delegates to the full reset, which reports 0
   * while another full reset is running.
   */
  ghost function LocalResetCount(reg: Reg, fullResetRunning: bool, multiRequest: CacheInvalidateMultiRequest, mode: ResetMode): nat
  {
    if !mode.IsResetLocal() then 0
    else if multiRequest.IsResetAll() then (if fullResetRunning then 0 else TotalInvalidateAll(reg))
    else RequestsInvalidations(reg, multiRequest.Requests())
  }

  // ---------------------------------------------------------------------------
  // The accumulator of `invalidateForMultiRequest` as written in the source: an
  // `int` (32 bits, two's complement) to which each request's `long` count is
  // added with `+=`, which narrows the sum back to 32 bits.

  const TwoTo31: int := 0x8000_0000
  const TwoTo32: int := 0x1_0000_0000

  /** Java's narrowing of a `long` to an `int`: keep the low 32 bits, signed. */
  function ToInt32(x: int): (r: int)
    ensures -TwoTo31 <= r < TwoTo31
    ensures (r - x) % TwoTo32 == 0
    ensures -TwoTo31 <= x < TwoTo31 ==> r == x
  {
    (x + TwoTo31) % TwoTo32 - TwoTo31
  }

  /** Adding the same count to two values congruent modulo 2^32, then narrowing one of them, keeps them congruent. */
  lemma CongruentStep(a: int, t: int, c: int)
    requires (a - t) % TwoTo32 == 0
    ensures (ToInt32(a + c) - (t + c)) % TwoTo32 == 0
  {
    var u := ToInt32(a + c) - (a + c);
    var v := a - t;
    assert u == TwoTo32 * (u / TwoTo32);
    assert v == TwoTo32 * (v / TwoTo32);
    assert u + v == TwoTo32 * (u / TwoTo32 + v / TwoTo32);
  }

  /**
   * The accumulator of `invalidateForMultiRequest` as written: each step adds
   * one request's count and narrows the running sum to 32 bits. The result is
   * always an `int` and agrees with the true total modulo 2^32.
   */
  ghost function RequestsInvalidationsAsWritten(reg: Reg, requests: seq<CacheInvalidateRequest>): (r: int)
    ensures -TwoTo31 <= r < TwoTo31
    ensures (r - RequestsInvalidations(reg, requests)) % TwoTo32 == 0
    decreases |requests|
  {
    if requests == [] then 0
    else
      var front := requests[..|requests| - 1];
      var c := RequestInvalidations(reg, requests[|requests| - 1]);
      CongruentStep(RequestsInvalidationsAsWritten(reg, front), RequestsInvalidations(reg, front), c);
      ToInt32(RequestsInvalidationsAsWritten(reg, front) + c)
  }

  lemma {:induction false} RequestsInvalidationsPrefix(reg: Reg, requests: seq<CacheInvalidateRequest>, n: nat)
    requires n <= |requests|
    ensures RequestsInvalidations(reg, requests[..n]) <= RequestsInvalidations(reg, requests)
  {
    assert requests == requests[..n] + requests[n..];
    RequestsInvalidationsAppend(reg, requests[..n], requests[n..]);
  }

  /** The 32-bit accumulator agrees with the mathematical total while that fits in an `int`. */
  lemma {:induction false} AsWrittenAgreesBelowOverflow(reg: Reg, requests: seq<CacheInvalidateRequest>)
    requires RequestsInvalidations(reg, requests) < TwoTo31
    ensures RequestsInvalidationsAsWritten(reg, requests) == RequestsInvalidations(reg, requests)
    decreases |requests|
  {
    if requests != [] {
      var n := |requests| - 1;
      RequestsInvalidationsPrefix(reg, requests, n);
      AsWrittenAgreesBelowOverflow(reg, requests[..n]);
    }
  }

  /**
   * One all-records request for a table whose only cache reports 2^31
   * invalidated entries: the source's `int` accumulator reports -2^31, while
   * the count is 2^31.
   */
  lemma AsWrittenOverflowExample()
    ensures var cache := Cache(CacheId(1), {LabelOfTable("T")}, 0, Invalidated(TwoTo31), _ => Failed);
            var reg: Reg := map[LabelOfTable("T") := map[CacheId(1) := Some(cache)]];
            var requests := AllRecordsForTable("T").Requests();
            && RequestsInvalidations(reg, requests) == TwoTo31
            && RequestsInvalidationsAsWritten(reg, requests) == -TwoTo31
  {
    var cache := Cache(CacheId(1), {LabelOfTable("T")}, 0, Invalidated(TwoTo31), _ => Failed);
    var group: CacheEntries := map[CacheId(1) := Some(cache)];
    var reg: Reg := map[LabelOfTable("T") := group];
    GroupInvalidateAllRemove(group, CacheId(1));
    assert group - {CacheId(1)} == map[];
    assert GroupInvalidateAll(group) == TwoTo31;
    var requests := AllRecordsForTable("T").Requests();
    assert requests[..0] == [];
    assert RequestInvalidations(reg, requests[0]) == TwoTo31;
  }
}
