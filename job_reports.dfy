/**
 * The two job-cost reports. Both read the organisation's job history, keep
 * the finished query jobs started inside the period window, and charge a
 * query nothing unless it is known not to have been served from cache. The
 * detail report has one row per job, ordered by project, start time and
 * user; the per-project report has one row per (user, project, month) group.
 */
module JobReports {
  import opened Wrappers
  import opened Schema
  import opened StringOrder

  /** `job_type = 'QUERY' AND state = 'DONE' AND start_time BETWEEN lo AND hi`. */
  predicate IsReported(j: Job, w: Window) {
    j.jobType == "QUERY" && j.state == "DONE" && w.lo <= j.startTime <= w.hi
  }

  /** The jobs the WHERE clause keeps, in history order. */
  function SelectJobs(jobs: seq<Job>, w: Window): seq<Job> {
    if |jobs| == 0 then []
    else
      var last := jobs[|jobs| - 1];
      SelectJobs(jobs[..|jobs| - 1], w) + (if IsReported(last, w) then [last] else [])
  }

  /** The selection holds exactly the reported jobs of the history. */
  lemma {:induction false} SelectJobsMembers(jobs: seq<Job>, w: Window)
    ensures forall j :: j in SelectJobs(jobs, w) <==> j in jobs && IsReported(j, w)
  {
    if |jobs| > 0 {
      SelectJobsMembers(jobs[..|jobs| - 1], w);
      assert jobs == jobs[..|jobs| - 1] + [jobs[|jobs| - 1]];
    }
  }

  /**
   * `IF(cache_hit != true, price, 0)`: a job is charged only when its
   * cache_hit is FALSE; TRUE and NULL both give 0. `price` stands for the
   * per-query amount, already rounded.
   */
  function Cost(j: Job, price: nat -> real): real {
    if j.cacheHit == Some(false) then price(j.bytesProcessed) else 0.0
  }

  function DetailRowOf(j: Job, price: nat -> real): Row {
    DetailRow(j.projectId, j.month, j.startTime, j.userEmail, j.jobId, j.bytesBilled, Cost(j, price))
  }

  /** One detail row per selected job, before ordering. */
  function DetailRows(sel: seq<Job>, price: nat -> real): (r: seq<Row>)
    ensures |r| == |sel|
  {
    seq(|sel|, i requires 0 <= i < |sel| => DetailRowOf(sel[i], price))
  }

  predicate AllDetail(s: seq<Row>) {
    forall i :: 0 <= i < |s| ==> s[i].DetailRow?
  }

  /** `ORDER BY project_id, start_time, user_email`. */
  predicate DetailLe(a: Row, b: Row)
    requires a.DetailRow? && b.DetailRow?
  {
    if a.projectId != b.projectId then StrLe(a.projectId, b.projectId)
    else if a.startTime != b.startTime then a.startTime < b.startTime
    else StrLe(a.userEmail, b.userEmail)
  }

  lemma DetailLeTotal(a: Row, b: Row)
    requires a.DetailRow? && b.DetailRow?
    ensures DetailLe(a, b) || DetailLe(b, a)
  {
    StrLeTotal(a.projectId, b.projectId);
    StrLeTotal(a.userEmail, b.userEmail);
  }

  lemma DetailLeTransitive(a: Row, b: Row, c: Row)
    requires a.DetailRow? && b.DetailRow? && c.DetailRow?
    requires DetailLe(a, b) && DetailLe(b, c)
    ensures DetailLe(a, c)
  {
    if a.projectId != b.projectId && b.projectId != c.projectId {
      StrLeTransitive(a.projectId, b.projectId, c.projectId);
      if a.projectId == c.projectId {
        StrLeAntisymmetric(a.projectId, b.projectId);
      }
    } else if a.projectId == b.projectId && b.projectId == c.projectId
           && a.startTime == b.startTime && b.startTime == c.startTime {
      StrLeTransitive(a.userEmail, b.userEmail, c.userEmail);
    }
  }

  /** Each row is ordered before the next one. */
  predicate Sorted(s: seq<Row>)
    requires AllDetail(s)
  {
    forall i :: 0 <= i < |s| - 1 ==> DetailLe(s[i], s[i + 1])
  }

  /** Places `x` before the first row it is ordered before. */
  function Insert(x: Row, s: seq<Row>): (r: seq<Row>)
    requires x.DetailRow? && AllDetail(s)
    ensures AllDetail(r) && |r| == |s| + 1
    ensures multiset(r) == multiset(s) + multiset{x}
  {
    if |s| == 0 then [x]
    else if DetailLe(x, s[0]) then [x] + s
    else
      assert s == [s[0]] + s[1..];
      [s[0]] + Insert(x, s[1..])
  }

  /** Inserting into a sorted report keeps it sorted; the new first row is `x` or the old first row. */
  lemma {:induction false} InsertSorted(x: Row, s: seq<Row>)
    requires x.DetailRow? && AllDetail(s) && Sorted(s)
    ensures Sorted(Insert(x, s))
    ensures Insert(x, s)[0] == x || (|s| > 0 && Insert(x, s)[0] == s[0])
  {
    if |s| > 0 && !DetailLe(x, s[0]) {
      var t := s[1..];
      assert Sorted(t);
      InsertSorted(x, t);
      DetailLeTotal(x, s[0]);
      var r := Insert(x, s);
      assert r == [s[0]] + Insert(x, t);
      assert DetailLe(s[0], r[1]);
    }
  }

  /** The ordering the detail query applies to its rows. */
  function SortRows(s: seq<Row>): (r: seq<Row>)
    requires AllDetail(s)
    ensures AllDetail(r) && Sorted(r)
    ensures multiset(r) == multiset(s)
  {
    if |s| == 0 then []
    else
      assert s == [s[0]] + s[1..];
      var sorted := SortRows(s[1..]);
      InsertSorted(s[0], sorted);
      Insert(s[0], sorted)
  }

  /** Sorted by neighbours means sorted pairwise. */
  lemma {:induction false} SortedPairwise(s: seq<Row>)
    requires AllDetail(s) && Sorted(s)
    ensures forall i, k :: 0 <= i < k < |s| ==> DetailLe(s[i], s[k])
  {
    if |s| > 1 {
      var t := s[1..];
      assert Sorted(t);
      SortedPairwise(t);
      forall i, k | 0 <= i < k < |s| ensures DetailLe(s[i], s[k]) {
        if i == 0 && k > 1 {
          assert DetailLe(t[0], t[k - 1]);
          DetailLeTransitive(s[0], s[1], s[k]);
        } else if i > 0 {
          assert DetailLe(t[i - 1], t[k - 1]);
        }
      }
    }
  }

  /** `generate_bq_jobs_costs_detail`. */
  function DetailReport(jobs: seq<Job>, w: Window, price: nat -> real): seq<Row> {
    SortRows(DetailRows(SelectJobs(jobs, w), price))
  }

  /**
   * The detail report is ordered by (project, start time, user) and holds
   * the row of every selected job exactly as often as the job occurs; every
   * row comes from a finished query job inside the window, and a job not
   * known to have missed the cache costs 0.
   */
  lemma DetailReportSpec(jobs: seq<Job>, w: Window, price: nat -> real)
    ensures var r := DetailReport(jobs, w, price);
      && AllDetail(r)
      && (forall i, k :: 0 <= i < k < |r| ==> DetailLe(r[i], r[k]))
      && multiset(r) == multiset(DetailRows(SelectJobs(jobs, w), price))
      && (forall i :: 0 <= i < |r| ==> exists j :: j in jobs && IsReported(j, w) && r[i] == DetailRowOf(j, price))
      && (forall j :: j in jobs && IsReported(j, w) ==> DetailRowOf(j, price) in r)
      && (forall i :: 0 <= i < |r| && r[i].cost != 0.0 ==>
            exists j :: j in jobs && j.cacheHit == Some(false) && r[i] == DetailRowOf(j, price))
  {
    var sel := SelectJobs(jobs, w);
    var rows := DetailRows(sel, price);
    var r := DetailReport(jobs, w, price);
    SortedPairwise(r);
    SelectJobsMembers(jobs, w);
    forall i | 0 <= i < |r|
      ensures exists j :: j in jobs && IsReported(j, w) && r[i] == DetailRowOf(j, price)
    {
      assert r[i] in multiset(rows);
      var k :| 0 <= k < |rows| && rows[k] == r[i];
      assert sel[k] in sel;
    }
    forall j | j in jobs && IsReported(j, w)
      ensures DetailRowOf(j, price) in r
    {
      var k :| 0 <= k < |sel| && sel[k] == j;
      assert rows[k] in multiset(r);
    }
  }

  /** The grouping columns of the per-project report. */
  datatype GroupKey = GroupKey(userEmail: string, projectId: string, month: string)

  function KeyOf(j: Job): GroupKey {
    GroupKey(j.userEmail, j.projectId, j.month)
  }

  /** The distinct groups of `sel`, in order of first occurrence. */
  function Groups(sel: seq<Job>): seq<GroupKey> {
    if |sel| == 0 then []
    else
      var init := Groups(sel[..|sel| - 1]);
      var g := KeyOf(sel[|sel| - 1]);
      if g in init then init else init + [g]
  }

  predicate Distinct(gs: seq<GroupKey>) {
    forall i, k :: 0 <= i < k < |gs| ==> gs[i] != gs[k]
  }

  /** Each group of the selection is listed once, and nothing else is. */
  lemma {:induction false} GroupsSpec(sel: seq<Job>)
    ensures Distinct(Groups(sel))
    ensures forall g :: g in Groups(sel) <==> exists j :: j in sel && KeyOf(j) == g
  {
    if |sel| > 0 {
      var init := sel[..|sel| - 1];
      GroupsSpec(init);
      assert sel == init + [sel[|sel| - 1]];
    }
  }

  /** `count(*)` of group `g`. */
  function CountIn(sel: seq<Job>, g: GroupKey): nat {
    if |sel| == 0 then 0
    else CountIn(sel[..|sel| - 1], g) + (if KeyOf(sel[|sel| - 1]) == g then 1 else 0)
  }

  /** `SUM(total_bytes_billed)` of group `g`. */
  function BytesIn(sel: seq<Job>, g: GroupKey): nat {
    if |sel| == 0 then 0
    else BytesIn(sel[..|sel| - 1], g) + (if KeyOf(sel[|sel| - 1]) == g then sel[|sel| - 1].bytesBilled else 0)
  }

  /** `SUM(cost_in_dollar)` of group `g`: the sum of the per-query costs. */
  function CostIn(sel: seq<Job>, g: GroupKey, price: nat -> real): real {
    if |sel| == 0 then 0.0
    else CostIn(sel[..|sel| - 1], g, price) + (if KeyOf(sel[|sel| - 1]) == g then Cost(sel[|sel| - 1], price) else 0.0)
  }

  /** A group with a member has a positive count. */
  lemma {:induction false} CountInPositive(sel: seq<Job>, j: Job)
    requires j in sel
    ensures CountIn(sel, KeyOf(j)) > 0
  {
    var init := sel[..|sel| - 1];
    if sel[|sel| - 1] != j {
      assert sel == init + [sel[|sel| - 1]];
      CountInPositive(init, j);
    }
  }

  function GroupRow(sel: seq<Job>, g: GroupKey, price: nat -> real): Row {
    SummaryRow(g.projectId, g.userEmail, g.month, CountIn(sel, g), BytesIn(sel, g), CostIn(sel, g, price))
  }

  function GroupRows(sel: seq<Job>, gs: seq<GroupKey>, price: nat -> real): seq<Row> {
    if |gs| == 0 then []
    else GroupRows(sel, gs[..|gs| - 1], price) + [GroupRow(sel, gs[|gs| - 1], price)]
  }

  lemma {:induction false} GroupRowsAt(sel: seq<Job>, gs: seq<GroupKey>, price: nat -> real)
    ensures |GroupRows(sel, gs, price)| == |gs|
    ensures forall i :: 0 <= i < |gs| ==> GroupRows(sel, gs, price)[i] == GroupRow(sel, gs[i], price)
  {
    if |gs| > 0 {
      GroupRowsAt(sel, gs[..|gs| - 1], price);
    }
  }

  /** `generate_bq_jobs_costs_per_project`. */
  function SummaryReport(jobs: seq<Job>, w: Window, price: nat -> real): seq<Row> {
    var sel := SelectJobs(jobs, w);
    GroupRows(sel, Groups(sel), price)
  }

  /** Sum of `num_queries` over a report. */
  function TotalQueries(rows: seq<Row>): nat {
    if |rows| == 0 then 0
    else TotalQueries(rows[..|rows| - 1]) + (if rows[|rows| - 1].SummaryRow? then rows[|rows| - 1].numQueries else 0)
  }

  /** Sum of the group counts of `gs`. */
  function CountSum(sel: seq<Job>, gs: seq<GroupKey>): nat {
    if |gs| == 0 then 0 else CountSum(sel, gs[..|gs| - 1]) + CountIn(sel, gs[|gs| - 1])
  }

  /** Number of times `g` occurs in `gs`. */
  function Occurrences(gs: seq<GroupKey>, g: GroupKey): nat {
    if |gs| == 0 then 0 else Occurrences(gs[..|gs| - 1], g) + (if gs[|gs| - 1] == g then 1 else 0)
  }

  lemma {:induction false} OccurrencesDistinct(gs: seq<GroupKey>, g: GroupKey)
    requires Distinct(gs)
    ensures Occurrences(gs, g) == (if g in gs then 1 else 0)
  {
    if |gs| > 0 {
      var init := gs[..|gs| - 1];
      OccurrencesDistinct(init, g);
      assert gs == init + [gs[|gs| - 1]];
    }
  }

  lemma {:induction false} CountSumExtend(sel: seq<Job>, j: Job, gs: seq<GroupKey>)
    ensures CountSum(sel + [j], gs) == CountSum(sel, gs) + Occurrences(gs, KeyOf(j))
  {
    if |gs| > 0 {
      CountSumExtend(sel, j, gs[..|gs| - 1]);
      assert (sel + [j])[..|sel + [j]| - 1] == sel;
    }
  }

  /** Counting over a list of distinct groups that covers the selection counts every job once. */
  lemma {:induction false} CountSumCovers(sel: seq<Job>, gs: seq<GroupKey>)
    requires Distinct(gs)
    requires forall j :: j in sel ==> KeyOf(j) in gs
    ensures CountSum(sel, gs) == |sel|
  {
    if |sel| == 0 {
      CountSumEmpty(sel, gs);
    } else {
      var init, j := sel[..|sel| - 1], sel[|sel| - 1];
      assert sel == init + [j];
      CountSumCovers(init, gs);
      CountSumExtend(init, j, gs);
      OccurrencesDistinct(gs, KeyOf(j));
    }
  }

  lemma {:induction false} CountSumEmpty(sel: seq<Job>, gs: seq<GroupKey>)
    requires |sel| == 0
    ensures CountSum(sel, gs) == 0
  {
    if |gs| > 0 {
      CountSumEmpty(sel, gs[..|gs| - 1]);
    }
  }

  lemma {:induction false} TotalQueriesOfGroupRows(sel: seq<Job>, gs: seq<GroupKey>, price: nat -> real)
    ensures TotalQueries(GroupRows(sel, gs, price)) == CountSum(sel, gs)
  {
    if |gs| > 0 {
      TotalQueriesOfGroupRows(sel, gs[..|gs| - 1], price);
    }
  }

  /**
   * The per-project report has one row per (user, project, month) group of
   * the selected jobs and no two rows for one group; each row carries its
   * group's query count (at least 1), billed bytes and summed per-query
   * cost; the counts add up to the number of selected jobs.
   */
  lemma SummaryReportSpec(jobs: seq<Job>, w: Window, price: nat -> real)
    ensures var sel := SelectJobs(jobs, w);
      var r := SummaryReport(jobs, w, price);
      && (forall i :: 0 <= i < |r| ==>
            exists j :: j in sel && r[i] == GroupRow(sel, KeyOf(j), price) && r[i].numQueries > 0)
      && (forall j :: j in sel ==> GroupRow(sel, KeyOf(j), price) in r)
      && (forall i :: 0 <= i < |r| ==> r[i].SummaryRow?)
      && (forall i, k :: 0 <= i < k < |r| ==>
            GroupKey(r[i].userEmail, r[i].projectId, r[i].month) != GroupKey(r[k].userEmail, r[k].projectId, r[k].month))
      && TotalQueries(r) == |sel|
  {
    var sel := SelectJobs(jobs, w);
    var gs := Groups(sel);
    var r := SummaryReport(jobs, w, price);
    GroupsSpec(sel);
    GroupRowsAt(sel, gs, price);
    forall i | 0 <= i < |r|
      ensures exists j :: j in sel && r[i] == GroupRow(sel, KeyOf(j), price) && r[i].numQueries > 0
    {
      assert gs[i] in gs;
      var j :| j in sel && KeyOf(j) == gs[i];
      CountInPositive(sel, j);
    }
    forall j | j in sel
      ensures GroupRow(sel, KeyOf(j), price) in r
    {
      assert KeyOf(j) in gs;
      var i :| 0 <= i < |gs| && gs[i] == KeyOf(j);
      assert r[i] == GroupRow(sel, KeyOf(j), price);
    }
    forall i, k | 0 <= i < k < |r|
      ensures GroupKey(r[i].userEmail, r[i].projectId, r[i].month) != GroupKey(r[k].userEmail, r[k].projectId, r[k].month)
    {
      assert gs[i] != gs[k];
    }
    TotalQueriesOfGroupRows(sel, gs, price);
    CountSumCovers(sel, gs);
  }

  /** When every selected job started in month `key`, every detail row carries `key`. */
  lemma DetailReportStamped(jobs: seq<Job>, w: Window, price: nat -> real, key: string)
    requires forall j :: j in jobs && IsReported(j, w) ==> j.month == key
    ensures var r := DetailReport(jobs, w, price);
      forall i :: 0 <= i < |r| ==> r[i].month == key
  {
    DetailReportSpec(jobs, w, price);
  }

  /** When every selected job started in month `key`, every per-project row carries `key`. */
  lemma SummaryReportStamped(jobs: seq<Job>, w: Window, price: nat -> real, key: string)
    requires forall j :: j in jobs && IsReported(j, w) ==> j.month == key
    ensures var r := SummaryReport(jobs, w, price);
      forall i :: 0 <= i < |r| ==> r[i].month == key
  {
    SummaryReportSpec(jobs, w, price);
    SelectJobsMembers(jobs, w);
  }
}
