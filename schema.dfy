/**
 * The records the billing export reads and writes: configuration, warehouse
 * job records, storage blobs, the rows of the three report tables, and the
 * errors an invocation can end with.
 */
module Schema {
  import opened Wrappers

  /** The process configuration read from the environment at start-up. */
  datatype Config = Config(
    projectId: string,        // project holding the tracked datasets and the bucket
    mainTableName: string,    // name of the main table inside every tracked dataset
    projects: seq<string>)    // the tracked datasets, in configured order

  /** One object of the data bucket. */
  datatype Blob = Blob(name: string, size: nat)

  /**
   * One record of the organisation's job history. `month` is the `YYYYMM`
   * the warehouse derives from `startTime`; `cacheHit` is None for NULL.
   */
  datatype Job = Job(
    jobType: string,
    state: string,
    startTime: int,
    month: string,
    projectId: string,
    userEmail: string,
    jobId: string,
    bytesBilled: nat,
    bytesProcessed: nat,
    cacheHit: Option<bool>)

  /** The inclusive BETWEEN bounds of the job queries, as timestamps. */
  datatype Window = Window(lo: int, hi: int)

  /** A row of one of the three report tables; each carries its `month`. */
  datatype Row =
    | StorageRow(project: string, month: string, cloudStorageBytes: nat, bigqueryStorageBytes: nat)
    | DetailRow(projectId: string, month: string, startTime: int, userEmail: string, jobId: string,
                bytesBilled: nat, cost: real)
    | SummaryRow(projectId: string, userEmail: string, month: string, numQueries: nat,
                 bytesBilled: nat, cost: real)

  /** The three reports, each with its own destination table. */
  datatype Report = StorageUsage | CostsDetail | CostsPerProject

  /** An external call that can raise. */
  datatype Call = GateLookup(report: Report) | ReportQuery(report: Report) | TableWrite(report: Report)

  /** Why an invocation stopped early. */
  datatype Error =
    | MainTableNotFound(tableId: string)  // `BQ.get_table` raised NotFound in the storage report
    | CallFailed(call: Call)              // any other error of an external call
}
