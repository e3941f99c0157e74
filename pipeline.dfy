/**
 * The entry point of the billing export: resolve the period once, then take
 * the three reports in a fixed order through gate, generation and store.
 * The first error ends the invocation; a refused report is skipped.
 */
module Pipeline {
  import opened Wrappers
  import opened Calendar
  import opened Schema
  import opened StorageUsage
  import opened JobReports
  import opened BillingStore

  function TableName(r: Report): string {
    match r
    case StorageUsage => "storage_usage"
    case CostsDetail => "bq_jobs_costs_detail"
    case CostsPerProject => "bq_jobs_costs_per_project"
  }

  /** The `reports` mapping of the entry point, in iteration order. */
  const REPORTS: seq<Report> := [StorageUsage, CostsDetail, CostsPerProject]

  /**
   * What an invocation reads from outside: the configuration, the table
   * sizes and bucket contents, the job history, how the warehouse turns a
   * 'YYYY-MM-DD' bound into a timestamp, the per-query price, and which
   * external calls raise.
   */
  datatype Env = Env(
    config: Config,
    tableBytes: map<string, nat>,
    bucket: seq<Blob>,
    jobs: seq<Job>,
    timestampOf: Date -> int,
    price: nat -> real,
    failing: set<Call>)

  /** The BETWEEN bounds: the period's first and last day, as the warehouse coerces them. */
  function WindowOf(p: Period, env: Env): Window {
    Window(env.timestampOf(p.firstDay), env.timestampOf(p.lastDay))
  }

  /** The generator registered for report `r`. */
  function Generate(r: Report, p: Period, env: Env): Result<seq<Row>, Error> {
    if ReportQuery(r) in env.failing then Failure(CallFailed(ReportQuery(r)))
    else match r
      case StorageUsage => StorageUsageReport(env.config, p.key, env.tableBytes, env.bucket)
      case CostsDetail => Success(DetailReport(env.jobs, WindowOf(p, env), env.price))
      case CostsPerProject => Success(SummaryReport(env.jobs, WindowOf(p, env), env.price))
  }

  /** One iteration of the entry point's loop: gate, then generate and store. */
  function Step(tables: Tables, r: Report, p: Period, env: Env): Result<Tables, Error> {
    if GateLookup(r) in env.failing then Failure(CallFailed(GateLookup(r)))
    else if !CanInsertData(tables, TableName(r), p.key) then Success(tables)
    else match Generate(r, p, env)
      case Failure(e) => Failure(e)
      case Success(rows) =>
        if TableWrite(r) in env.failing then Failure(CallFailed(TableWrite(r)))
        else Success(Appended(tables, TableName(r), rows))
  }

  datatype Outcome = Completed | Aborted(report: Report, error: Error) | NotStarted(reason: CalendarError)

  datatype RunResult = RunResult(outcome: Outcome, tables: Tables)

  /** The loop over `rs`, stopping at the first error. */
  function Run(tables: Tables, rs: seq<Report>, p: Period, env: Env): RunResult
    decreases |rs|
  {
    if |rs| == 0 then RunResult(Completed, tables)
    else match Step(tables, rs[0], p, env)
      case Failure(e) => RunResult(Aborted(rs[0], e), tables)
      case Success(t) => Run(t, rs[1..], p, env)
  }

  /** One invocation on day `today`. */
  function Invocation(tables: Tables, today: Date, env: Env): RunResult
    requires Valid(today)
  {
    match ResolvePeriod(today)
    case Failure(e) => RunResult(NotStarted(e), tables)
    case Success(p) => Run(tables, REPORTS, p, env)
  }

  predicate DistinctNames(rs: seq<Report>) {
    forall i, k :: 0 <= i < k < |rs| ==> TableName(rs[i]) != TableName(rs[k])
  }

  predicate NotTouched(rs: seq<Report>, name: string) {
    forall i :: 0 <= i < |rs| ==> TableName(rs[i]) != name
  }

  lemma ReportsDistinct()
    ensures DistinctNames(REPORTS)
  {
  }

  /** A step changes at most its own report's table. */
  lemma StepFrame(tables: Tables, r: Report, p: Period, env: Env, name: string)
    requires Step(tables, r, p, env).Success? && name != TableName(r)
    ensures AgreeOn(tables, Step(tables, r, p, env).value, name)
  {
  }

  /** A run never changes a table none of its reports writes. */
  lemma {:induction false} RunFrame(tables: Tables, rs: seq<Report>, p: Period, env: Env, name: string)
    requires NotTouched(rs, name)
    ensures AgreeOn(tables, Run(tables, rs, p, env).tables, name)
    decreases |rs|
  {
    if |rs| > 0 {
      var s := Step(tables, rs[0], p, env);
      if s.Success? {
        StepFrame(tables, rs[0], p, env, name);
        RunFrame(s.value, rs[1..], p, env, name);
      }
    }
  }

  /** Tables that agree on `name` give the same gate decision and the same append there. */
  lemma AgreeOnGate(t1: Tables, t2: Tables, name: string, key: string, rows: seq<Row>)
    requires AgreeOn(t1, t2, name)
    ensures CanInsertData(t1, name, key) == CanInsertData(t2, name, key)
    ensures AgreeOn(Appended(t1, name, rows), Appended(t2, name, rows), name)
  {
  }

  /**
   * After a run, the table of each report either is as it was, or the gate
   * admitted the report on the table as it was before the run, the report
   * was generated, and the table now holds its old rows followed by the
   * report's rows.
   */
  lemma {:induction false} RunReportTable(tables: Tables, rs: seq<Report>, p: Period, env: Env, k: nat)
    requires DistinctNames(rs) && k < |rs|
    ensures var name := TableName(rs[k]);
      var res := Run(tables, rs, p, env).tables;
      || AgreeOn(tables, res, name)
      || (&& CanInsertData(tables, name, p.key)
          && Generate(rs[k], p, env).Success?
          && AgreeOn(Appended(tables, name, Generate(rs[k], p, env).value), res, name))
    decreases |rs|
  {
    var name := TableName(rs[k]);
    var rest := rs[1..];
    assert NotTouched(rest, TableName(rs[0])) by {
      forall i | 0 <= i < |rest| ensures TableName(rest[i]) != TableName(rs[0]) {
        assert rest[i] == rs[i + 1];
      }
    }
    var s := Step(tables, rs[0], p, env);
    if s.Success? {
      if k == 0 {
        RunFrame(s.value, rest, p, env, name);
      } else {
        assert rest[k - 1] == rs[k];
        assert DistinctNames(rest) by {
          forall i, j | 0 <= i < j < |rest| ensures TableName(rest[i]) != TableName(rest[j]) {
            assert rest[i] == rs[i + 1] && rest[j] == rs[j + 1];
          }
        }
        StepFrame(tables, rs[0], p, env, name);
        RunReportTable(s.value, rest, p, env, k - 1);
        if Generate(rs[k], p, env).Success? {
          AgreeOnGate(tables, s.value, name, p.key, Generate(rs[k], p, env).value);
        }
      }
    }
  }

  /**
   * The idempotency invariant: a report table that already holds a row of
   * the period is left exactly as it was by a run.
   */
  lemma NoSecondBatch(tables: Tables, rs: seq<Report>, p: Period, env: Env, k: nat)
    requires DistinctNames(rs) && k < |rs|
    requires TableName(rs[k]) in tables && HasMonth(tables[TableName(rs[k])], p.key)
    ensures AgreeOn(tables, Run(tables, rs, p, env).tables, TableName(rs[k]))
  {
    RunReportTable(tables, rs, p, env, k);
    CanInsertDataSpec(tables, TableName(rs[k]), p.key);
  }

  /**
   * When a run stops on an error raised for some report, the tables of that
   * report and of every report after it are untouched: no partial batch is
   * written and nothing later is attempted.
   */
  lemma {:induction false} AbortLeavesRestUntouched(tables: Tables, rs: seq<Report>, p: Period, env: Env)
    requires DistinctNames(rs)
    ensures var res := Run(tables, rs, p, env);
      && (res.outcome.Aborted? ==> res.outcome.report in rs)
      && (forall k, i :: 0 <= k <= i < |rs| && res.outcome.Aborted? && rs[k] == res.outcome.report ==>
            AgreeOn(tables, res.tables, TableName(rs[i])))
    decreases |rs|
  {
    if |rs| > 0 {
      var rest := rs[1..];
      var s := Step(tables, rs[0], p, env);
      if s.Success? {
        assert DistinctNames(rest) by {
          forall i, j | 0 <= i < j < |rest| ensures TableName(rest[i]) != TableName(rest[j]) {
            assert rest[i] == rs[i + 1] && rest[j] == rs[j + 1];
          }
        }
        AbortLeavesRestUntouched(s.value, rest, p, env);
        var res := Run(tables, rs, p, env);
        assert res == Run(s.value, rest, p, env);
        forall k, i | 0 <= k <= i < |rs| && res.outcome.Aborted? && rs[k] == res.outcome.report
          ensures AgreeOn(tables, res.tables, TableName(rs[i]))
        {
          var k' :| 0 <= k' < |rest| && rest[k'] == res.outcome.report;
          assert rest[k'] == rs[k' + 1];
          assert k == k' + 1;
          assert rest[i - 1] == rs[i];
          StepFrame(tables, rs[0], p, env, TableName(rs[i]));
        }
      }
    }
  }

  /** Every row a report generates carries the period key. */
  predicate GeneratesStamped(r: Report, p: Period, env: Env) {
    var g := Generate(r, p, env);
    g.Success? ==> forall i :: 0 <= i < |g.value| ==> g.value[i].month == p.key
  }

  /** Every selected job started in the period's month, as the window intends. */
  predicate JobsInPeriod(p: Period, env: Env) {
    forall j :: j in env.jobs && IsReported(j, WindowOf(p, env)) ==> j.month == p.key
  }

  /** With the selected jobs in the period's month, all three reports are stamped with the key. */
  lemma ReportsStamped(p: Period, env: Env)
    requires JobsInPeriod(p, env)
    ensures forall i :: 0 <= i < |REPORTS| ==> GeneratesStamped(REPORTS[i], p, env)
  {
    var w := WindowOf(p, env);
    StorageUsageStamped(env.config, p.key, env.tableBytes, env.bucket);
    DetailReportStamped(env.jobs, w, env.price, p.key);
    SummaryReportStamped(env.jobs, w, env.price, p.key);
  }

  /**
   * Re-running a report whose step has already succeeded does nothing: its
   * table either holds rows of the period now, and the gate refuses, or the
   * report was empty and appending it again adds nothing.
   */
  lemma StepAgainIdle(tables: Tables, r: Report, p: Period, env: Env, later: Tables)
    requires GeneratesStamped(r, p, env)
    requires Step(tables, r, p, env).Success?
    requires AgreeOn(Step(tables, r, p, env).value, later, TableName(r))
    ensures Step(later, r, p, env) == Success(later)
  {
    var name := TableName(r);
    CanInsertDataSpec(tables, name, p.key);
    CanInsertDataSpec(later, name, p.key);
    if CanInsertData(tables, name, p.key) {
      var rows := Generate(r, p, env).value;
      if |rows| > 0 {
        assert later[name][|later[name]| - 1] == rows[|rows| - 1];
      } else {
        assert later[name] == (if name in tables then tables[name] else []);
        assert Appended(later, name, rows) == later;
      }
    }
  }

  /**
   * Running again after a completed run, against the same upstream data,
   * changes nothing, provided every generated row carries the period key.
   */
  lemma {:induction false} RerunChangesNothing(tables: Tables, rs: seq<Report>, p: Period, env: Env)
    requires DistinctNames(rs)
    requires forall i :: 0 <= i < |rs| ==> GeneratesStamped(rs[i], p, env)
    requires Run(tables, rs, p, env).outcome == Completed
    ensures Run(Run(tables, rs, p, env).tables, rs, p, env) == Run(tables, rs, p, env)
    decreases |rs|
  {
    if |rs| > 0 {
      var r, rest := rs[0], rs[1..];
      var t1 := Step(tables, r, p, env).value;
      assert DistinctNames(rest) by {
        forall i, j | 0 <= i < j < |rest| ensures TableName(rest[i]) != TableName(rest[j]) {
          assert rest[i] == rs[i + 1] && rest[j] == rs[j + 1];
        }
      }
      assert forall i :: 0 <= i < |rest| ==> GeneratesStamped(rest[i], p, env) by {
        forall i | 0 <= i < |rest| ensures GeneratesStamped(rest[i], p, env) {
          assert rest[i] == rs[i + 1];
        }
      }
      RerunChangesNothing(t1, rest, p, env);
      var later := Run(t1, rest, p, env).tables;
      assert NotTouched(rest, TableName(r)) by {
        forall i | 0 <= i < |rest| ensures TableName(rest[i]) != TableName(r) {
          assert rest[i] == rs[i + 1];
        }
      }
      RunFrame(t1, rest, p, env, TableName(r));
      assert GeneratesStamped(rs[0], p, env);
      StepAgainIdle(tables, r, p, env, later);
    }
  }

  /** The entry point's three reports: a second run of a completed month is a no-op. */
  lemma SecondRunChangesNothing(tables: Tables, p: Period, env: Env)
    requires JobsInPeriod(p, env)
    requires Run(tables, REPORTS, p, env).outcome == Completed
    ensures Run(Run(tables, REPORTS, p, env).tables, REPORTS, p, env) == Run(tables, REPORTS, p, env)
  {
    ReportsDistinct();
    ReportsStamped(p, env);
    RerunChangesNothing(tables, REPORTS, p, env);
  }

  /** The generator call of the loop body: the storage report runs its loop, the job reports their queries. */
  method GenerateReport(r: Report, p: Period, env: Env) returns (g: Result<seq<Row>, Error>)
    ensures g == Generate(r, p, env)
  {
    if ReportQuery(r) in env.failing {
      return Failure(CallFailed(ReportQuery(r)));
    }
    match r
    case StorageUsage =>
      g := GenerateStorageUsage(env.config, p.key, env.tableBytes, env.bucket);
    case CostsDetail =>
      g := Success(DetailReport(env.jobs, WindowOf(p, env), env.price));
    case CostsPerProject =>
      g := Success(SummaryReport(env.jobs, WindowOf(p, env), env.price));
  }

  /**
   * `main`: resolves the period, then for each report in order asks the
   * gate and, when admitted, generates the report and stores it; a refused
   * report is skipped, and the first error ends the invocation.
   */
  method Invoke(ds: BillingDataset, today: Date, env: Env) returns (outcome: Outcome)
    requires Valid(today)
    modifies ds
    ensures RunResult(outcome, ds.tables) == Invocation(old(ds.tables), today, env)
  {
    var resolved := ResolvePeriod(today);
    if resolved.Failure? {
      return NotStarted(resolved.error);
    }
    var p := resolved.value;
    var i := 0;
    while i < |REPORTS|
      invariant 0 <= i <= |REPORTS|
      invariant Run(old(ds.tables), REPORTS, p, env) == Run(ds.tables, REPORTS[i..], p, env)
    {
      var r := REPORTS[i];
      var tableName := TableName(r);
      assert REPORTS[i..][0] == r && REPORTS[i..][1..] == REPORTS[i + 1..];
      if GateLookup(r) in env.failing {
        return Aborted(r, CallFailed(GateLookup(r)));
      }
      if CanInsertData(ds.tables, tableName, p.key) {
        var g := GenerateReport(r, p, env);
        if g.Failure? {
          return Aborted(r, g.error);
        }
        var ok := ds.StoreReport(tableName, g.value, TableWrite(r) in env.failing);
        if !ok {
          return Aborted(r, CallFailed(TableWrite(r)));
        }
      }
      i := i + 1;
    }
    outcome := Completed;
  }
}
