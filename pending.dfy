/**
 * The map a transaction's `RecordsToResetOnTrxCommitCollector` fills before
 * commit: each enqueued request with the mode it is to be sent with, and the
 * two batches the map splits into on commit.
 */
module Pending {
  import opened CacheModel
  import opened ResetModes
  import opened Sums

  /** `request2resetMode`. */
  type PendingMap = map<CacheInvalidateRequest, ResetMode>

  /**
   * The map after `put(request, mode)` for every request of `requests`: each of
   * them maps to `mode`, every other entry is kept.
   */
  function PutAll(m: PendingMap, requests: seq<CacheInvalidateRequest>, mode: ResetMode): (r: PendingMap)
    ensures forall q :: q in r <==> q in m || q in requests
    ensures forall q :: q in requests ==> r[q] == mode
    ensures forall q :: q in m && q !in requests ==> r[q] == m[q]
  {
    map q | q in m.Keys + (set q | q in requests) :: if q in requests then mode else m[q]
  }

  /** Putting one more request is one more map update. */
  lemma {:induction false} PutAllSnoc(m: PendingMap, requests: seq<CacheInvalidateRequest>, q: CacheInvalidateRequest, mode: ResetMode)
    ensures PutAll(m, requests + [q], mode) == PutAll(m, requests, mode)[q := mode]
  {
    var a := PutAll(m, requests + [q], mode);
    var b := PutAll(m, requests, mode)[q := mode];
    assert forall p :: p in requests + [q] <==> p in requests || p == q;
    assert a.Keys == b.Keys;
    forall p | p in a
      ensures a[p] == b[p]
    {
    }
  }

  /** Enqueuing the same requests again with another mode overrides the first mode entirely. */
  lemma {:induction false} PutAllLastWriteWins(m: PendingMap, requests: seq<CacheInvalidateRequest>, first: ResetMode, second: ResetMode)
    ensures PutAll(PutAll(m, requests, first), requests, second) == PutAll(m, requests, second)
  {
    var a := PutAll(PutAll(m, requests, first), requests, second);
    var b := PutAll(m, requests, second);
    assert a.Keys == b.Keys;
    forall q | q in a
      ensures a[q] == b[q]
    {
    }
  }

  /** The order and repetition of the enqueued requests do not matter. */
  lemma {:induction false} PutAllOrderFree(m: PendingMap, a: seq<CacheInvalidateRequest>, b: seq<CacheInvalidateRequest>, mode: ResetMode)
    requires forall q :: q in a <==> q in b
    ensures PutAll(m, a, mode) == PutAll(m, b, mode)
  {
    var x := PutAll(m, a, mode);
    var y := PutAll(m, b, mode);
    assert x.Keys == y.Keys;
    forall q | q in x
      ensures x[q] == y[q]
    {
    }
  }

  /** The requests to reset locally on commit. */
  function LocalPart(m: PendingMap): set<CacheInvalidateRequest>
  {
    set q | q in m && m[q].IsResetLocal()
  }

  /** The requests to broadcast on commit. */
  function BroadcastPart(m: PendingMap): set<CacheInvalidateRequest>
  {
    set q | q in m && m[q].IsBroadcast()
  }

  /**
   * Every enqueued request lands in at least one batch, and exactly the
   * LOCAL_AND_BROADCAST ones land in both.
   */
  lemma {:induction false} PartitionCovers(m: PendingMap)
    ensures LocalPart(m) + BroadcastPart(m) == m.Keys
    ensures LocalPart(m) * BroadcastPart(m) == set q | q in m && m[q] == LocalAndBroadcast
  {
    forall q | q in m
      ensures q in LocalPart(m) || q in BroadcastPart(m)
    {
      EveryModeActs(m[q]);
    }
    forall q | q in m
      ensures q in LocalPart(m) && q in BroadcastPart(m) <==> m[q] == LocalAndBroadcast
    {
      ModeActions(m[q]);
    }
  }

  /** Every entry of the map is to be broadcast only. */
  ghost predicate BroadcastOnly(m: PendingMap)
  {
    forall q :: q in m ==> m[q] == JustBroadcast
  }

  /**
   * Enqueuing with JUST_BROADCAST keeps a broadcast-only map broadcast-only;
   * such a map has no local batch and broadcasts all its requests.
   */
  lemma BroadcastOnlyBatches(m: PendingMap, requests: seq<CacheInvalidateRequest>)
    requires BroadcastOnly(m)
    ensures BroadcastOnly(PutAll(m, requests, JustBroadcast))
    ensures LocalPart(m) == {} && BroadcastPart(m) == m.Keys
  {
  }
}
