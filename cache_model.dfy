/**
 * The values the coordinator exchanges with its collaborators: cache labels,
 * record references, invalidation requests and the registrable cache itself.
 * Only the accessors that the coordinator uses are modelled.
 */
module CacheModel {
  import opened Wrappers

  type TableName = string

  /** The grouping key of registered caches (`CacheLabel`). */
  datatype CacheLabel = CacheLabel(name: string)

  /** `CacheLabel.ofTableName`: the label under which caches of a table are filed. */
  function LabelOfTable(tableName: TableName): CacheLabel
  {
    CacheLabel(tableName)
  }

  /** `TableRecordReference`: one record of one table. */
  datatype TableRecordReference = TableRecordReference(tableName: TableName, recordId: int)

  /**
   * `CacheInvalidateRequest`, seen through the accessors the coordinator calls:
   * `isAll` (the request to reset everything), `isAllRecords`,
   * `getTableNameEffective`, `getChildRecordOrNull` and `getRootRecordOrNull`.
   */
  datatype CacheInvalidateRequest = CacheInvalidateRequest(
    isAll: bool,
    isAllRecords: bool,
    tableNameEffective: TableName,
    childRecord: Option<TableRecordReference>,
    rootRecord: Option<TableRecordReference>)

  /** `CacheInvalidateRequest.all()`: the one request that stands for "reset everything". */
  const AllRequest: CacheInvalidateRequest := CacheInvalidateRequest(true, true, "", None, None)

  /** A request for all records of one table. */
  function AllRecordsRequest(tableName: TableName): CacheInvalidateRequest
  {
    CacheInvalidateRequest(false, true, tableName, None, None)
  }

  /** A request for one record of a table, carried as the root record. */
  function RecordRequest(tableName: TableName, recordId: int): CacheInvalidateRequest
  {
    CacheInvalidateRequest(false, false, tableName, None, Some(TableRecordReference(tableName, recordId)))
  }

  /**
   * `CacheInvalidateMultiRequest`: a batch of requests; the batch resets
   * everything when one of its requests is the reset-all request.
   */
  datatype CacheInvalidateMultiRequest = Of(requests: seq<CacheInvalidateRequest>)
  {
    /** `isResetAll`. */
    predicate IsResetAll()
    {
      exists r :: r in requests && r.isAll
    }

    /** `getRequests`: the individual requests of the batch. */
    function Requests(): seq<CacheInvalidateRequest>
    {
      requests
    }

    /** `getTableNamesEffective`: every table some request of the batch names. */
    function TableNamesEffective(): set<TableName>
    {
      set r | r in Requests() :: r.tableNameEffective
    }
  }

  /** `CacheInvalidateMultiRequest.all()`: the batch holding only the reset-all request. */
  const ResetAll: CacheInvalidateMultiRequest := Of([AllRequest])

  /** `CacheInvalidateMultiRequest.allRecordsForTable`. */
  function AllRecordsForTable(tableName: TableName): CacheInvalidateMultiRequest
  {
    Of([AllRecordsRequest(tableName)])
  }

  /** `CacheInvalidateMultiRequest.fromTableNameAndRecordId`: a negative id means all records. */
  function FromTableNameAndRecordId(tableName: TableName, recordId: int): CacheInvalidateMultiRequest
  {
    Of([if recordId < 0 then AllRecordsRequest(tableName) else RecordRequest(tableName, recordId)])
  }

  /** What one call of a cache's `reset` or `resetForRecordId` does: a count, or it throws. */
  datatype ResetOutcome = Invalidated(count: nat) | Failed

  /** The identity `getCacheId` yields (a Java `long`). */
  datatype CacheId = CacheId(id: int)

  /**
   * A registrable cache (`CacheInterface`) as an abstract value: its identity,
   * its labels, its size, and what its two reset operations report.
   */
  datatype Cache = Cache(
    cacheId: CacheId,
    labels: set<CacheLabel>,
    size: nat,
    resetOutcome: ResetOutcome,
    resetForRecordOutcome: TableRecordReference -> ResetOutcome)
}
