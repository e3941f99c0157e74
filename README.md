# Billing export: verified model of the monthly report pipeline

This project models, in Dafny, the core of a scheduled job that exports
monthly warehouse and storage usage into a billing dataset. Once per
invocation the job:

1. resolves the reporting period: the previous calendar month, with its
   first and last day and its `YYYYMM` key;
2. takes three reports in a fixed order: `storage_usage`,
   `bq_jobs_costs_detail` and `bq_jobs_costs_per_project`;
3. for each one, asks the idempotency gate whether the destination table
   may receive rows for that key. The gate allows when the table does not
   exist, or when no row in it carries the key;
4. when allowed, generates the report and appends it to its table. The
   append creates the table when it is absent;
5. stops at the first error. A refused report is only skipped.

The cloud services are abstract inputs, gathered in `Pipeline.Env`:
- the main-table sizes, as a map from table id to bytes;
- the bucket contents;
- the job history;
- how the warehouse turns a date bound into a timestamp;
- the per-query price;
- the set of external calls that raise.

The billing dataset is a class, `BillingStore.BillingDataset`. Its `tables`
field maps each table name to its rows. The store and the entry point
change that field in place.

Modules:
- `Calendar`: the period resolver.
- `StorageUsage`: the storage report. A method with its loops, proved
  against a specification function.
- `JobReports`: row selection, cost, ordering and grouping of the two job
  reports.
- `BillingStore`: the gate, the append and the dataset class.
- `Pipeline`: the entry point. It has a run specification, the method
  `Invoke` proved against it, and the invariants of the run.
- `StringOrder`, `Schema` and `Wrappers`: shared definitions.

Where the code and its design description differ, the model follows the
code:
- The period computation raises `OverflowError` for a date in January of
  year 1. The model returns `NotStarted(DateOutOfRange)` there. The design
  description says the resolver cannot fail.
- A job is charged only when `cache_hit` is FALSE. The SQL writes
  `IF(cache_hit != true, …, 0)`, so a NULL `cache_hit` also costs 0. The
  model keeps `cacheHit` as an `Option<bool>`.
- The `month` column of the two job reports comes from each job's own
  start date (`FORMAT_DATE("%Y%m", date(start_time))`), not from the
  period key that the gate compares against. So "a second run changes
  nothing" is proved under the hypothesis that every selected job started
  in the period's month (`Pipeline.JobsInPeriod`).
- The blob listing filters by plain name prefix. A dataset whose name
  extends another's is counted under both (`StorageUsage.PrefixSizeMonotone`).

## Model

| member | source | states |
|---|---|---|
| `Calendar.PrevDay` | main.py:30 | one day back is a valid date; it fails only at 0001-01-01 |
| `Calendar.NextDay` | main.py:30 | one day forward is a valid, strictly later date |
| `Calendar.PrevNextInverse` | main.py:30 | one day back and one day forward undo each other |
| `Calendar.MinusDays` | main.py:30-31 | `d - timedelta(days=n)`: when it does not overflow, the result is a valid date |
| `Calendar.MinusDaysWithinMonth` | main.py:31 | going back fewer days than the day of the month lands on the same month, `k` days earlier |
| `Calendar.MinusOneDay` | main.py:30 | going back one day is one `PrevDay` step |
| `Calendar.PrevDayOfFirst` | main.py:30 | the day before the first of a month is the last day of the previous month, or an overflow in January of year 1 |
| `Calendar.LastDayOfPreviousMonth` | main.py:30 | going back `today.day` days is the day before the first of today's month |
| `Calendar.FirstDayOfMonth` | main.py:31 | going back `last.day - 1` days is the first day of the same month |
| `Calendar.KeyRoundTrip` | main.py:33 | the `YYYYMM` key is six digits, and parsing it gives back the year and the month |
| `Calendar.KeyInjective` | main.py:33 | two keys are equal exactly when their months are equal |
| `Calendar.ResolvePeriodCorrect` | main.py:29-33 | the last day is the final day of the month before today's month (December of the year before in January, the 29th of February in leap years); the first day is day 1 of that month; first ≤ last; the key parses to that year and month; the resolver fails only in January of year 1 |
| `Calendar.ResolvePeriodLeapMarch` | main.py:29-33 | every day of March 2024 resolves to 2024-02-01 … 2024-02-29, key "202402" |
| `Calendar.ResolvePeriodJanuary` | main.py:29-33 | every day of January 2024 resolves to 2023-12-01 … 2023-12-31, key "202312" |
| `StorageUsage.ListBlobsMembers` | main.py:115 | the listing holds exactly the bucket's objects whose name starts with the dataset name |
| `StorageUsage.TotalSizeAppend` | main.py:116-117 | the accumulated size of two listings in sequence is the sum of their sizes |
| `StorageUsage.PrefixSizeMonotone` | main.py:115 | because the filter is a plain prefix, a dataset whose name extends another's never counts more bytes than the shorter one |
| `StorageUsage.UsageRowsFound` | main.py:100-122 | the report succeeds exactly when every main table exists; it then has one row per configured dataset, in list order, each holding the key, the prefix byte total and the table's `num_bytes` |
| `StorageUsage.UsageRowsMissing` | main.py:105-108 | a missing main table aborts the report with the id of the first missing table |
| `StorageUsage.StorageUsageStamped` | main.py:120 | every storage row carries the period key |
| `StorageUsage.StorageUsageExample` | main.py:100-122 | a 1000-byte table with objects of 10, 20 and 30 bytes under its prefix gives the row (60, 1000) |
| `StorageUsage.GenerateStorageUsage` | main.py:97-125 | the nested loops compute exactly the storage-usage report, or fail as it does |
| `StringOrder.StrLeTotal` | main.py:89 | any two strings are comparable in the ORDER BY order |
| `StringOrder.StrLeAntisymmetric` | main.py:89 | two strings that are each ≤ the other are equal |
| `StringOrder.StrLeTransitive` | main.py:89 | the string order is transitive |
| `JobReports.SelectJobsMembers` | main.py:86-88 | a job is selected exactly when it is a finished query (`QUERY`, `DONE`) that started inside the window |
| `JobReports.DetailLeTotal` | main.py:89 | any two detail rows are comparable by (project, start time, user) |
| `JobReports.DetailLeTransitive` | main.py:89 | the (project, start time, user) order is transitive |
| `JobReports.Insert` | main.py:89 | inserting a row into a sorted report keeps it sorted and adds exactly that row |
| `JobReports.SortRows` | main.py:89 | the ordered rows are sorted and are a permutation of the input rows |
| `JobReports.SortedPairwise` | main.py:89 | in a sorted report every earlier row is ≤ every later row |
| `JobReports.DetailReportSpec` | main.py:78-89 | the detail report is ordered ascending by (project, start time, user) and holds each selected job's row exactly as often as the job occurs; every row comes from a selected job, and a row with non-zero cost comes from a job whose `cache_hit` is FALSE |
| `JobReports.DetailReportStamped` | main.py:79 | when every selected job started in the key's month, every detail row carries the key |
| `JobReports.GroupsSpec` | main.py:62 | the groups are the distinct (user, project, month) values of the selected jobs, each listed once |
| `JobReports.CountInPositive` | main.py:48 | a group that has a member counts at least one query |
| `JobReports.CountSumCovers` | main.py:48 | counting over distinct groups that cover the selection counts every job exactly once |
| `JobReports.SummaryReportSpec` | main.py:45-62 | the per-project report has one row per (user, project, month) group and none twice; each row holds its group's query count (≥ 1), its summed billed bytes and the sum of its per-query costs; the counts add up to the number of selected jobs |
| `JobReports.SummaryReportStamped` | main.py:54 | when every selected job started in the key's month, every per-project row carries the key |
| `BillingStore.RowsOfMonthEmpty` | main.py:144-150 | the lookup query returns no row exactly when no row of the table carries the key |
| `BillingStore.CanInsertDataSpec` | main.py:128-159 | the gate allows exactly when the table is absent or holds no row for the key; it only reads the dataset |
| `BillingStore.BillingDataset.StoreReport` | main.py:162-170 | on success the table holds its old rows followed by the report's rows, or just the report's rows when it was absent; a failed write changes nothing; every other table is unchanged |
| `Pipeline.ReportsDistinct` | main.py:177-181 | the three reports write three different tables |
| `Pipeline.StepFrame` | main.py:183-188 | one loop iteration changes at most its own report's table |
| `Pipeline.RunFrame` | main.py:183-188 | a run never changes a table that none of its reports writes |
| `Pipeline.RunReportTable` | main.py:183-188 | after a run each report table is either unchanged, or the gate allowed it on the table as it was before the run and it now holds the old rows followed by the generated report |
| `Pipeline.NoSecondBatch` | main.py:184-188 | a report table that already holds a row for the key is left exactly as it was |
| `Pipeline.AbortLeavesRestUntouched` | main.py:183-186 | when a generator, gate or write raises for a report, that report's table and the tables of all later reports are untouched |
| `Pipeline.ReportsStamped` | main.py:177-181 | when the selected jobs started in the period's month, all three reports stamp every row with the key |
| `Pipeline.StepAgainIdle` | main.py:184-186 | repeating a report step that already succeeded is a no-op: the gate now refuses, or the report was empty |
| `Pipeline.RerunChangesNothing` | main.py:183-188 | after a completed run, a second run against the same upstream data completes and leaves every table as it is |
| `Pipeline.SecondRunChangesNothing` | main.py:174-188 | the same for the entry point's three reports, given that the selected jobs started in the period's month |
| `Pipeline.GenerateReport` | main.py:185 | dispatching to the report's generator yields that report's rows or its error |
| `Pipeline.Invoke` | main.py:174-188 | the entry point resolves the period once, processes the reports in order (gate, generate, store), skips refused ones and stops at the first error, as the run specification says |

## Left out

- Logger setup, client construction, environment-variable loading and the `__main__` entry (main.py:11-26, 191-194): configuration and I/O. They are the `Config` and `Env` parameters.
- The BigQuery and Cloud Storage calls themselves (`BQ.query`, `BQ.get_table`, `CS.list_blobs`, `df.to_gbq`): foreign libraries. They are the inputs in `Env`. Whether a call raises is the input `Env.failing`. A missing main table is modelled explicitly.
- pandas DataFrames and schema inference on table creation: a report is a sequence of `Row` values.
- Cost arithmetic in FLOAT64: the per-query amount `ROUND(total_bytes_processed * cost_factor, 4)` is the uninterpreted `Env.price`. The final `ROUND(SUM(…), 4)` of the per-project cost is not modelled.
- Bytes in GB: the `/ 1024^3` division and `ROUND(…, 2)` are not modelled. Rows carry billed bytes, per job or summed per group.
- `FORMAT_DATE` and timestamp coercion: each job's `month` is an input field, and so is the coercion of the `BETWEEN` date strings to timestamps (`Env.timestampOf`). Nothing asserts that all of a month's jobs fall inside the window.
- SQL NULLs other than `cache_hit`: job types, states, sizes and start times are never NULL in the model.
- Tie order: the order of detail rows with equal (project, start time, user) and the order of the per-project groups are unspecified by the queries. The model takes insertion order and first appearance.
- Concurrency: the race between the gate and the append when two invocations overlap is not modelled. The code assumes a single writer.
- `date.today()` is evaluated at import time: the model takes `today` per invocation.
- Years before 1000: `strftime('%Y')` output there depends on the platform. The key is modelled as four zero-padded digits.
- Logging of row counts and sizes (main.py:109, 119, 123) is output only.
- `Pipeline.SecondRunChangesNothing`: assumes every selected job started in the period's month, because the job reports take `month` from each job's own start date.
