/**
 * The storage-usage report: for every tracked dataset, the byte size of its
 * main warehouse table and the total size of the bucket objects whose name
 * starts with the dataset's name.
 */
module StorageUsage {
  import opened Wrappers
  import opened Schema

  predicate HasPrefix(s: string, prefix: string) {
    |prefix| <= |s| && s[..|prefix|] == prefix
  }

  /** `CS.list_blobs(bucket, prefix=p)`: the bucket's objects named with prefix `p`, in bucket order. */
  function ListBlobs(bucket: seq<Blob>, p: string): seq<Blob> {
    if |bucket| == 0 then []
    else
      var last := bucket[|bucket| - 1];
      ListBlobs(bucket[..|bucket| - 1], p) + (if HasPrefix(last.name, p) then [last] else [])
  }

  /** The listing holds exactly the bucket's objects whose name starts with `p`, and no more of them. */
  lemma {:induction false} ListBlobsMembers(bucket: seq<Blob>, p: string)
    ensures forall b :: b in ListBlobs(bucket, p) <==> b in bucket && HasPrefix(b.name, p)
    ensures |ListBlobs(bucket, p)| <= |bucket|
  {
    if |bucket| > 0 {
      ListBlobsMembers(bucket[..|bucket| - 1], p);
      assert bucket == bucket[..|bucket| - 1] + [bucket[|bucket| - 1]];
    }
  }

  /** Sum of the sizes of `blobs`. */
  function TotalSize(blobs: seq<Blob>): nat {
    if |blobs| == 0 then 0 else TotalSize(blobs[..|blobs| - 1]) + blobs[|blobs| - 1].size
  }

  lemma {:induction false} TotalSizeAppend(a: seq<Blob>, b: seq<Blob>)
    ensures TotalSize(a + b) == TotalSize(a) + TotalSize(b)
    decreases |b|
  {
    if |b| == 0 {
      assert a + b == a;
    } else {
      assert (a + b)[..|a + b| - 1] == a + b[..|b| - 1];
      assert (a + b)[|a + b| - 1] == b[|b| - 1];
      TotalSizeAppend(a, b[..|b| - 1]);
    }
  }

  /** Size of the bucket objects counted for dataset `p`: those named with prefix `p`. */
  function PrefixSize(bucket: seq<Blob>, p: string): nat {
    TotalSize(ListBlobs(bucket, p))
  }

  /**
   * The listing filters by plain string prefix, so a dataset whose name
   * extends another's (`sales` and `sales_eu`) is counted inside the shorter
   * one as well: the shorter prefix never counts less.
   */
  lemma {:induction false} PrefixSizeMonotone(bucket: seq<Blob>, p: string, q: string)
    requires HasPrefix(q, p)
    ensures PrefixSize(bucket, q) <= PrefixSize(bucket, p)
  {
    if |bucket| > 0 {
      var init, last := bucket[..|bucket| - 1], bucket[|bucket| - 1];
      PrefixSizeMonotone(init, p, q);
      TotalSizeAppend(ListBlobs(init, q), if HasPrefix(last.name, q) then [last] else []);
      TotalSizeAppend(ListBlobs(init, p), if HasPrefix(last.name, p) then [last] else []);
      if HasPrefix(last.name, q) {
        assert last.name[..|p|] == q[..|p|];
      }
    }
  }

  /** `project_id + '.' + project + '.' + main_table_name`. */
  function MainTableId(cfg: Config, project: string): string {
    cfg.projectId + "." + project + "." + cfg.mainTableName
  }

  /** The row emitted for dataset `p`, whose main table is known. */
  function UsageRow(cfg: Config, key: string, tableBytes: map<string, nat>, bucket: seq<Blob>, p: string): Row
    requires MainTableId(cfg, p) in tableBytes
  {
    StorageRow(p, key, PrefixSize(bucket, p), tableBytes[MainTableId(cfg, p)])
  }

  /** The report for `projects`: fails at the first dataset whose main table is missing. */
  function UsageRows(cfg: Config, key: string, tableBytes: map<string, nat>, bucket: seq<Blob>,
                     projects: seq<string>): Result<seq<Row>, Error>
  {
    if |projects| == 0 then Success([])
    else if MainTableId(cfg, projects[0]) !in tableBytes then Failure(MainTableNotFound(MainTableId(cfg, projects[0])))
    else match UsageRows(cfg, key, tableBytes, bucket, projects[1..])
      case Failure(e) => Failure(e)
      case Success(rest) => Success([UsageRow(cfg, key, tableBytes, bucket, projects[0])] + rest)
  }

  /** The storage-usage report over the configured datasets. */
  function StorageUsageReport(cfg: Config, key: string, tableBytes: map<string, nat>, bucket: seq<Blob>): Result<seq<Row>, Error> {
    UsageRows(cfg, key, tableBytes, bucket, cfg.projects)
  }

  /** Every dataset in `projects[..n]` has its main table. */
  predicate AllFound(cfg: Config, tableBytes: map<string, nat>, projects: seq<string>, n: int)
    requires 0 <= n <= |projects|
  {
    forall i :: 0 <= i < n ==> MainTableId(cfg, projects[i]) in tableBytes
  }

  /**
   * When every main table is found the report has exactly one row per
   * dataset, in configured order, stamped with the key and carrying the
   * bucket total and table size of that dataset.
   */
  lemma {:induction false} UsageRowsFound(cfg: Config, key: string, tableBytes: map<string, nat>, bucket: seq<Blob>,
                                          projects: seq<string>)
    ensures var r := UsageRows(cfg, key, tableBytes, bucket, projects);
      && (r.Success? <==> AllFound(cfg, tableBytes, projects, |projects|))
      && (r.Success? ==>
            && |r.value| == |projects|
            && forall i :: 0 <= i < |projects| ==>
                 r.value[i] == StorageRow(projects[i], key, PrefixSize(bucket, projects[i]),
                                          tableBytes[MainTableId(cfg, projects[i])]))
  {
    if |projects| > 0 {
      var rest := projects[1..];
      UsageRowsFound(cfg, key, tableBytes, bucket, rest);
      assert forall i :: 0 < i < |projects| ==> projects[i] == rest[i - 1];
      if AllFound(cfg, tableBytes, rest, |rest|) && MainTableId(cfg, projects[0]) in tableBytes {
        assert AllFound(cfg, tableBytes, projects, |projects|);
      }
    }
  }

  /** When some main table is missing the report fails naming the first one missing. */
  lemma {:induction false} UsageRowsMissing(cfg: Config, key: string, tableBytes: map<string, nat>, bucket: seq<Blob>,
                                            projects: seq<string>, k: nat)
    requires k < |projects| && AllFound(cfg, tableBytes, projects, k)
    requires MainTableId(cfg, projects[k]) !in tableBytes
    ensures UsageRows(cfg, key, tableBytes, bucket, projects) == Failure(MainTableNotFound(MainTableId(cfg, projects[k])))
  {
    if k > 0 {
      var rest := projects[1..];
      assert forall i :: 0 < i < |projects| ==> projects[i] == rest[i - 1];
      assert AllFound(cfg, tableBytes, rest, k - 1);
      UsageRowsMissing(cfg, key, tableBytes, bucket, rest, k - 1);
    }
  }

  /** Every row of the storage-usage report is stamped with the key. */
  lemma StorageUsageStamped(cfg: Config, key: string, tableBytes: map<string, nat>, bucket: seq<Blob>)
    ensures var r := StorageUsageReport(cfg, key, tableBytes, bucket);
      r.Success? ==> forall i :: 0 <= i < |r.value| ==> r.value[i].month == key
  {
    UsageRowsFound(cfg, key, tableBytes, bucket, cfg.projects);
  }

  /** The listing keeps the objects under the prefix, in bucket order. */
  lemma ListBlobsExample()
    ensures ListBlobs([Blob("p/a", 10), Blob("q/x", 7), Blob("p/b", 20), Blob("p/c", 30)], "p")
            == [Blob("p/a", 10), Blob("p/b", 20), Blob("p/c", 30)]
  {
    var bucket := [Blob("p/a", 10), Blob("q/x", 7), Blob("p/b", 20), Blob("p/c", 30)];
    assert bucket[..3] == [Blob("p/a", 10), Blob("q/x", 7), Blob("p/b", 20)];
    assert bucket[..3][..2] == [Blob("p/a", 10), Blob("q/x", 7)];
    assert bucket[..3][..2][..1] == [Blob("p/a", 10)];
    assert !HasPrefix("q/x", "p") by { assert "q/x"[..1][0] == 'q'; }
    assert ListBlobs(bucket[..3][..2][..1], "p") == [Blob("p/a", 10)];
    assert ListBlobs(bucket[..3][..2], "p") == [Blob("p/a", 10)];
    assert ListBlobs(bucket[..3], "p") == [Blob("p/a", 10), Blob("p/b", 20)];
  }

  /** A dataset with a 1000-byte main table and objects of 10, 20 and 30 bytes under its prefix. */
  lemma StorageUsageExample(cfg: Config)
    requires cfg.projects == ["p"]
    ensures var bucket := [Blob("p/a", 10), Blob("q/x", 7), Blob("p/b", 20), Blob("p/c", 30)];
      StorageUsageReport(cfg, "202402", map[MainTableId(cfg, "p") := 1000], bucket)
      == Success([StorageRow("p", "202402", 60, 1000)])
  {
    var bucket := [Blob("p/a", 10), Blob("q/x", 7), Blob("p/b", 20), Blob("p/c", 30)];
    var tableBytes := map[MainTableId(cfg, "p") := 1000];
    ListBlobsExample();
    var listed := ListBlobs(bucket, "p");
    assert listed[..2][..1] == [Blob("p/a", 10)];
    assert listed[..2] == [Blob("p/a", 10), Blob("p/b", 20)];
    assert TotalSize(listed[..2][..1]) == 10;
    assert TotalSize(listed[..2]) == 30;
    assert PrefixSize(bucket, "p") == 60;
    UsageRowsFound(cfg, "202402", tableBytes, bucket, cfg.projects);
    assert AllFound(cfg, tableBytes, cfg.projects, 1);
    var r := StorageUsageReport(cfg, "202402", tableBytes, bucket);
    assert r.Success? && |r.value| == 1;
    assert r.value[0] == StorageRow("p", "202402", 60, 1000);
    assert r.value == [StorageRow("p", "202402", 60, 1000)];
  }

  /**
   * `generate_storage_usage`: loops over the datasets, reads each main
   * table's size, sums the listed objects' sizes, and appends one row.
   */
  method GenerateStorageUsage(cfg: Config, key: string, tableBytes: map<string, nat>, bucket: seq<Blob>)
    returns (r: Result<seq<Row>, Error>)
    ensures r == StorageUsageReport(cfg, key, tableBytes, bucket)
  {
    var data: seq<Row> := [];
    var i := 0;
    while i < |cfg.projects|
      invariant 0 <= i <= |cfg.projects|
      invariant AllFound(cfg, tableBytes, cfg.projects, i)
      invariant |data| == i
      invariant forall k :: 0 <= k < i ==> data[k] == UsageRow(cfg, key, tableBytes, bucket, cfg.projects[k])
    {
      var project := cfg.projects[i];
      var mainTableId := MainTableId(cfg, project);
      if mainTableId !in tableBytes {
        UsageRowsMissing(cfg, key, tableBytes, bucket, cfg.projects, i);
        return Failure(MainTableNotFound(mainTableId));
      }
      var bqProjectSize := tableBytes[mainTableId];
      var blobs := ListBlobs(bucket, project);
      var csProjectSize := 0;
      var j := 0;
      while j < |blobs|
        invariant 0 <= j <= |blobs|
        invariant csProjectSize == TotalSize(blobs[..j])
      {
        assert blobs[..j + 1][..j] == blobs[..j];
        csProjectSize := csProjectSize + blobs[j].size;
        j := j + 1;
      }
      assert blobs[..j] == blobs;
      data := data + [StorageRow(project, key, csProjectSize, bqProjectSize)];
      i := i + 1;
    }
    UsageRowsFound(cfg, key, tableBytes, bucket, cfg.projects);
    ghost var expected := StorageUsageReport(cfg, key, tableBytes, bucket);
    assert expected.Success?;
    assert forall k :: 0 <= k < |data| ==> expected.value[k] == data[k];
    assert expected.value == data;
    r := Success(data);
  }
}
