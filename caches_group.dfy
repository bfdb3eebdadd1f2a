/**
 * `CacheMgt.CachesGroup`: the caches filed under one label, keyed by cache id.
 * Entries are held weakly by the source; an entry whose value the garbage
 * collector has cleared is `None` here and is skipped by every fan-out.
 */
module CachesGroups {
  import opened Wrappers
  import opened CacheModel
  import opened Sums

  /** The contents of one group: cache id to (possibly cleared) cache. */
  type CacheEntries = map<CacheId, Option<Cache>>

  /** What a failure barrier around one call makes of its outcome: a throwing cache counts 0. */
  function CountNoFail(outcome: ResetOutcome): nat
  {
    match outcome
    case Invalidated(n) => n
    case Failed => 0
  }

  /** `invalidateNoFail(cache)`: reset one cache, swallowing its failure. */
  function InvalidateNoFail(cache: Cache): (r: nat)
    ensures cache.resetOutcome.Invalidated? ==> r == cache.resetOutcome.count
    ensures cache.resetOutcome.Failed? ==> r == 0
  {
    CountNoFail(cache.resetOutcome)
  }

  /** `invalidateNoFail(cache, recordRef)`: reset one record of one cache, swallowing its failure. */
  function InvalidateRecordNoFail(cache: Cache, recordRef: TableRecordReference): (r: nat)
    ensures cache.resetForRecordOutcome(recordRef).Invalidated? ==> r == cache.resetForRecordOutcome(recordRef).count
    ensures cache.resetForRecordOutcome(recordRef).Failed? ==> r == 0
  {
    CountNoFail(cache.resetForRecordOutcome(recordRef))
  }

  /** Per-entry counts of `invalidateAllNoFail`; cleared entries are filtered out (`streamCaches`). */
  ghost function ResetCounts(caches: CacheEntries): CacheId -> nat
  {
    id => if id in caches && caches[id].Some? then InvalidateNoFail(caches[id].value) else 0
  }

  /** Per-entry counts of `invalidateForRecordNoFail`. */
  ghost function RecordCounts(caches: CacheEntries, recordRef: TableRecordReference): CacheId -> nat
  {
    id => if id in caches && caches[id].Some? then InvalidateRecordNoFail(caches[id].value, recordRef) else 0
  }

  /** Per-entry sizes of `computeTotalSize`. */
  ghost function Sizes(caches: CacheEntries): CacheId -> nat
  {
    id => if id in caches && caches[id].Some? then caches[id].value.size else 0
  }

  /** What `invalidateAllNoFail` returns: the sum over the live caches of what each reset reports. */
  ghost function GroupInvalidateAll(caches: CacheEntries): nat
  {
    SumOver(caches.Keys, ResetCounts(caches))
  }

  /** What `invalidateForRecordNoFail` returns. */
  ghost function GroupInvalidateForRecord(caches: CacheEntries, recordRef: TableRecordReference): nat
  {
    SumOver(caches.Keys, RecordCounts(caches, recordRef))
  }

  /** What `computeTotalSize` returns. */
  ghost function GroupTotalSize(caches: CacheEntries): nat
  {
    SumOver(caches.Keys, Sizes(caches))
  }

  /** What one entry contributes to `invalidateAllNoFail`: 0 if cleared or failing. */
  function EntryResetCount(entry: Option<Cache>): nat
  {
    if entry.Some? then InvalidateNoFail(entry.value) else 0
  }

  /**
   * Removing one entry lowers the group's total by exactly what that entry
   * reported, so every other cache is still counted.
   */
  lemma GroupInvalidateAllRemove(caches: CacheEntries, id: CacheId)
    requires id in caches
    ensures GroupInvalidateAll(caches) == EntryResetCount(caches[id]) + GroupInvalidateAll(caches - {id})
  {
    SumOverRemove(caches.Keys, ResetCounts(caches), id);
    assert (caches - {id}).Keys == caches.Keys - {id};
    SumOverCongruent(caches.Keys - {id}, ResetCounts(caches), ResetCounts(caches - {id}));
  }

  /** What one entry contributes to `invalidateForRecordNoFail`: 0 if cleared or failing. */
  function EntryRecordCount(entry: Option<Cache>, recordRef: TableRecordReference): nat
  {
    if entry.Some? then InvalidateRecordNoFail(entry.value, recordRef) else 0
  }

  /** What one entry contributes to `computeTotalSize`: 0 if cleared. */
  function EntrySize(entry: Option<Cache>): nat
  {
    if entry.Some? then entry.value.size else 0
  }

  /** Removing one entry lowers the group's per-record total by exactly what that entry reported. */
  lemma GroupInvalidateForRecordRemove(caches: CacheEntries, id: CacheId, recordRef: TableRecordReference)
    requires id in caches
    ensures GroupInvalidateForRecord(caches, recordRef)
         == EntryRecordCount(caches[id], recordRef) + GroupInvalidateForRecord(caches - {id}, recordRef)
  {
    SumOverRemove(caches.Keys, RecordCounts(caches, recordRef), id);
    assert (caches - {id}).Keys == caches.Keys - {id};
    SumOverCongruent(caches.Keys - {id}, RecordCounts(caches, recordRef), RecordCounts(caches - {id}, recordRef));
  }

  /** Removing one entry lowers the group's size by exactly that entry's size. */
  lemma GroupTotalSizeRemove(caches: CacheEntries, id: CacheId)
    requires id in caches
    ensures GroupTotalSize(caches) == EntrySize(caches[id]) + GroupTotalSize(caches - {id})
  {
    SumOverRemove(caches.Keys, Sizes(caches), id);
    assert (caches - {id}).Keys == caches.Keys - {id};
    SumOverCongruent(caches.Keys - {id}, Sizes(caches), Sizes(caches - {id}));
  }

  /** A cache that throws on a record reset, or a cleared entry, contributes nothing and hides no other cache. */
  lemma FailingEntryRecordCountsZero(caches: CacheEntries, id: CacheId, recordRef: TableRecordReference)
    requires id in caches
    requires caches[id].None? || caches[id].value.resetForRecordOutcome(recordRef).Failed?
    ensures GroupInvalidateForRecord(caches, recordRef) == GroupInvalidateForRecord(caches - {id}, recordRef)
  {
    GroupInvalidateForRecordRemove(caches, id, recordRef);
  }

  /** A cleared entry adds nothing to the group's size. */
  lemma CollectedEntryHasNoSize(caches: CacheEntries, id: CacheId)
    requires id in caches && caches[id].None?
    ensures GroupTotalSize(caches) == GroupTotalSize(caches - {id})
  {
    GroupTotalSizeRemove(caches, id);
  }

  /**
   * Once the collector clears an entry, the group's full reset, record reset
   * and size all drop by exactly what the cache had contributed.
   */
  lemma CollectDropsContribution(caches: CacheEntries, id: CacheId, recordRef: TableRecordReference)
    requires id in caches
    ensures GroupInvalidateAll(caches) == EntryResetCount(caches[id]) + GroupInvalidateAll(caches[id := None])
    ensures GroupInvalidateForRecord(caches, recordRef)
         == EntryRecordCount(caches[id], recordRef) + GroupInvalidateForRecord(caches[id := None], recordRef)
    ensures GroupTotalSize(caches) == EntrySize(caches[id]) + GroupTotalSize(caches[id := None])
  {
    var cleared := caches[id := None];
    assert cleared - {id} == caches - {id};
    GroupInvalidateAllRemove(caches, id);
    GroupInvalidateAllRemove(cleared, id);
    GroupInvalidateForRecordRemove(caches, id, recordRef);
    GroupInvalidateForRecordRemove(cleared, id, recordRef);
    GroupTotalSizeRemove(caches, id);
    GroupTotalSizeRemove(cleared, id);
  }

  /** The group's per-record total is 0 exactly when no live cache reports a positive count for the record. */
  lemma GroupInvalidateForRecordZero(caches: CacheEntries, recordRef: TableRecordReference)
    ensures GroupInvalidateForRecord(caches, recordRef) == 0
        <==> forall id :: id in caches ==> EntryRecordCount(caches[id], recordRef) == 0
  {
    SumOverZero(caches.Keys, RecordCounts(caches, recordRef));
    if GroupInvalidateForRecord(caches, recordRef) == 0 {
      forall id | id in caches
        ensures EntryRecordCount(caches[id], recordRef) == 0
      {
        assert RecordCounts(caches, recordRef)(id) == EntryRecordCount(caches[id], recordRef);
      }
    } else {
      var id :| id in caches.Keys && RecordCounts(caches, recordRef)(id) != 0;
      assert EntryRecordCount(caches[id], recordRef) != 0;
    }
  }

  /** Storing `entry` under `id` replaces what was there: the total changes by the difference. */
  lemma GroupInvalidateAllUpdate(caches: CacheEntries, id: CacheId, entry: Option<Cache>)
    ensures GroupInvalidateAll(caches[id := entry]) == EntryResetCount(entry) + GroupInvalidateAll(caches - {id})
  {
    GroupInvalidateAllRemove(caches[id := entry], id);
    assert caches[id := entry] - {id} == caches - {id};
  }

  /** A cache that throws, or a cleared entry, contributes nothing and hides no other cache. */
  lemma FailingEntryCountsZero(caches: CacheEntries, id: CacheId)
    requires id in caches
    requires caches[id].None? || caches[id].value.resetOutcome.Failed?
    ensures GroupInvalidateAll(caches) == GroupInvalidateAll(caches - {id})
  {
    GroupInvalidateAllRemove(caches, id);
  }

  /** Every live cache's count is included in its group's total. */
  lemma GroupInvalidateAllIncludes(caches: CacheEntries, id: CacheId)
    requires id in caches
    ensures EntryResetCount(caches[id]) <= GroupInvalidateAll(caches)
  {
    GroupInvalidateAllRemove(caches, id);
  }

  /** The group reports zero exactly when no live cache reports a positive count. */
  lemma GroupInvalidateAllZero(caches: CacheEntries)
    ensures GroupInvalidateAll(caches) == 0 <==> forall id :: id in caches ==> EntryResetCount(caches[id]) == 0
  {
    SumOverZero(caches.Keys, ResetCounts(caches));
    if GroupInvalidateAll(caches) == 0 {
      forall id | id in caches
        ensures EntryResetCount(caches[id]) == 0
      {
        assert ResetCounts(caches)(id) == EntryResetCount(caches[id]);
      }
    } else {
      var id :| id in caches.Keys && ResetCounts(caches)(id) != 0;
      assert EntryResetCount(caches[id]) != 0;
    }
  }

  /**
   * Two caches in one group, the second throwing on `reset`: the group reports
   * exactly the first cache's count.
   */
  lemma OneFailingOfTwo(a: Cache, b: Cache)
    requires a.cacheId != b.cacheId
    requires b.resetOutcome.Failed?
    ensures GroupInvalidateAll(map[a.cacheId := Some(a), b.cacheId := Some(b)]) == InvalidateNoFail(a)
  {
    var caches := map[a.cacheId := Some(a), b.cacheId := Some(b)];
    FailingEntryCountsZero(caches, b.cacheId);
    var single := caches - {b.cacheId};
    assert single == map[a.cacheId := Some(a)];
    GroupInvalidateAllRemove(single, a.cacheId);
    assert single - {a.cacheId} == map[];
  }

  class CachesGroup {
    /** The group's `label` (`label` is a keyword here). */
    const cacheLabel: CacheLabel
    var caches: CacheEntries

    constructor (cacheLabel: CacheLabel)
      ensures this.cacheLabel == cacheLabel && caches == map[]
    {
      this.cacheLabel := cacheLabel;
      caches := map[];
    }

    /** `addCache`: files the cache under its id, replacing an entry with the same id. */
    method AddCache(cache: Cache)
      modifies this`caches
      ensures caches == old(caches)[cache.cacheId := Some(cache)]
    {
      caches := caches[cache.cacheId := Some(cache)];
    }

    /** `removeCache`: drops the entry with the cache's id, if any. */
    method RemoveCache(cache: Cache)
      modifies this`caches
      ensures caches == old(caches) - {cache.cacheId}
    {
      caches := caches - {cache.cacheId};
    }

    /** The garbage collector clears the weak value held under `id`; the entry stays until removed. */
    method Collect(id: CacheId)
      modifies this`caches
      ensures caches == if id in old(caches) then old(caches)[id := None] else old(caches)
    {
      if id in caches {
        caches := caches[id := None];
      }
    }

    /** `computeTotalSize`: the sum of the sizes of the live caches. */
    method ComputeTotalSize() returns (total: nat)
      ensures total == GroupTotalSize(caches)
    {
      total := 0;
      var remaining := caches.Keys;
      while remaining != {}
        invariant remaining <= caches.Keys
        invariant total + SumOver(remaining, Sizes(caches)) == GroupTotalSize(caches)
        decreases remaining
      {
        var id := Pick(remaining);
        SumOverRemove(remaining, Sizes(caches), id);
        var entry := caches[id];
        if entry.Some? {
          total := total + entry.value.size;
        }
        remaining := remaining - {id};
      }
    }

    /** `invalidateAllNoFail`: resets every live cache; a failing one counts 0 and the others go on. */
    method InvalidateAllNoFail() returns (total: nat)
      ensures total == GroupInvalidateAll(caches)
    {
      total := 0;
      var remaining := caches.Keys;
      while remaining != {}
        invariant remaining <= caches.Keys
        invariant total + SumOver(remaining, ResetCounts(caches)) == GroupInvalidateAll(caches)
        decreases remaining
      {
        var id := Pick(remaining);
        SumOverRemove(remaining, ResetCounts(caches), id);
        var entry := caches[id];
        if entry.Some? {
          total := total + InvalidateNoFail(entry.value);
        }
        remaining := remaining - {id};
      }
    }

    /** `invalidateForRecordNoFail`: resets one record in every live cache, with the same barrier. */
    method InvalidateForRecordNoFail(recordRef: TableRecordReference) returns (total: nat)
      ensures total == GroupInvalidateForRecord(caches, recordRef)
    {
      total := 0;
      var remaining := caches.Keys;
      while remaining != {}
        invariant remaining <= caches.Keys
        invariant total + SumOver(remaining, RecordCounts(caches, recordRef)) == GroupInvalidateForRecord(caches, recordRef)
        decreases remaining
      {
        var id := Pick(remaining);
        SumOverRemove(remaining, RecordCounts(caches, recordRef), id);
        var entry := caches[id];
        if entry.Some? {
          total := total + InvalidateRecordNoFail(entry.value, recordRef);
        }
        remaining := remaining - {id};
      }
    }
  }
}
