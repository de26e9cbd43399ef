/** The script's top level: one `list_tables` call, then for each listed
    table in order a scan into a fresh accumulator and a write of its
    snapshot, with write failures caught per table and a listing failure
    ending the run before any table is touched. */
module BackupOrchestrator {
  import opened DynamoTypes
  import opened DynamoClient
  import opened TableScanner
  import opened SnapshotWriter

  /** The outcome of one table, in place of its log lines: where its
      snapshot went, what was written, how its scan ended and whether the
      write succeeded. */
  datatype TableReport = TableReport(table: string, path: string, items: seq<Item>, scan: ScanStatus, write: WriteStatus)

  /** The outcome of a run: the listing failed, or every listed table was processed. */
  datatype RunReport = ListFailed(error: AwsError) | Completed(tables: seq<TableReport>)

  function TablesOf(report: RunReport): seq<TableReport>
  {
    match report
    case ListFailed(_) => []
    case Completed(tables) => tables
  }

  /** The outcome of one table: it depends on that table's pages and its
      snapshot path only. */
  function TableOutcome(b: Backend, faults: map<string, IOFault>, t: string): TableReport
  {
    var path := BackupPath(t);
    TableReport(t, path, Snapshot(b, t), StatusOf(b, t), WriteOutcome(faults, path))
  }

  /** The outcomes of the listed tables, in listing order. */
  function Reports(b: Backend, faults: map<string, IOFault>, names: seq<string>): seq<TableReport>
  {
    if names == [] then []
    else Reports(b, faults, names[..|names| - 1]) + [TableOutcome(b, faults, names[|names| - 1])]
  }

  /** The scan calls made for the listed tables, table after table. */
  function RunScans(b: Backend, names: seq<string>): seq<Exchange>
  {
    if names == [] then []
    else RunScans(b, names[..|names| - 1]) + ScanLog(b, names[|names| - 1])
  }

  /** The directory after the writes of the given outcomes, in order. */
  function FilesAfter(files: map<string, FileContent>, rs: seq<TableReport>): map<string, FileContent>
  {
    if rs == [] then files
    else
      var last := rs[|rs| - 1];
      AfterWrite(FilesAfter(files, rs[..|rs| - 1]), last.path, last.items, last.write)
  }

  /** What a run reports, given the account and the directory's faults. */
  function RunSpec(b: Backend, faults: map<string, IOFault>): RunReport
  {
    match b.listing
    case ListErr(e) => ListFailed(e)
    case Listed(names) => Completed(Reports(b, faults, names))
  }

  /** Every scan call a run makes. */
  function RunLog(b: Backend): seq<Exchange>
  {
    match b.listing
    case ListErr(_) => []
    case Listed(names) => RunScans(b, names)
  }

  predicate DistinctNames(names: seq<string>)
  {
    forall i, j :: 0 <= i < j < |names| ==> names[i] != names[j]
  }

  /** The run processes exactly the listed tables, one outcome per name and
      in listing order; what is scanned and written for each table is that
      table's own outcome, whatever happened to the tables before it. */
  lemma {:induction false} ReportsFollowListing(b: Backend, faults: map<string, IOFault>, names: seq<string>)
    ensures |Reports(b, faults, names)| == |names|
    ensures forall i :: 0 <= i < |names| ==> Reports(b, faults, names)[i] == TableOutcome(b, faults, names[i])
  {
    if names != [] {
      var init := names[..|names| - 1];
      ReportsFollowListing(b, faults, init);
      var rs := Reports(b, faults, names);
      assert rs == Reports(b, faults, init) + [TableOutcome(b, faults, names[|names| - 1])];
      forall i | 0 <= i < |names| - 1
        ensures rs[i] == Reports(b, faults, init)[i] && names[i] == init[i]
      {
      }
    }
  }

  /** A request carries a start key only when the request just before it
      was for the same table and handed out that key as a truthy cursor. */
  predicate ThreadedPerTable(log: seq<Exchange>)
  {
    forall j :: 0 <= j < |log| && log[j].start != None ==>
      && 0 < j
      && log[j - 1].table == log[j].table
      && Continues(log[j - 1].response)
      && log[j].start == log[j - 1].response.page.lastKey
  }

  /** Across the whole run the accumulator and the cursor are reset per table:
      no table's cursor is ever sent for another table, and every request is
      for a listed table. */
  lemma {:induction false} RunScansThreadCursorsPerTable(b: Backend, names: seq<string>)
    ensures ThreadedPerTable(RunScans(b, names))
    ensures forall j :: 0 <= j < |RunScans(b, names)| ==> RunScans(b, names)[j].table in names
  {
    if names != [] {
      var init, t := names[..|names| - 1], names[|names| - 1];
      RunScansThreadCursorsPerTable(b, init);
      ScanLogThreadsCursor(b, t);
      var p, l := RunScans(b, init), ScanLog(b, t);
      var log := p + l;
      assert RunScans(b, names) == log;
      forall j | 0 <= j < |log|
        ensures log[j].table in names
        ensures log[j].start != None ==>
          && 0 < j
          && log[j - 1].table == log[j].table
          && Continues(log[j - 1].response)
          && log[j].start == log[j - 1].response.page.lastKey
      {
        if j < |p| {
          assert log[j] == p[j];
          assert p[j].table in init;
          if j > 0 { assert log[j - 1] == p[j - 1]; }
        } else {
          var k := j - |p|;
          assert log[j] == l[k];
          if k > 0 { assert log[j - 1] == l[k - 1]; }
        }
      }
    }
  }

  /** No two outcomes share a snapshot path. */
  predicate DistinctPaths(rs: seq<TableReport>)
  {
    forall i, j :: 0 <= i < j < |rs| ==> rs[i].path != rs[j].path
  }

  /** Writing outcomes with pairwise distinct paths leaves at each path the
      artifact of its own write, and every other path as it was. */
  lemma {:induction false} FilesAfterDistinct(files: map<string, FileContent>, rs: seq<TableReport>)
    requires DistinctPaths(rs)
    ensures var f := FilesAfter(files, rs);
      && (forall i :: 0 <= i < |rs| ==>
            Lookup(f, rs[i].path) == Artifact(Lookup(files, rs[i].path), rs[i].items, rs[i].write))
      && (forall p :: (forall i :: 0 <= i < |rs| ==> rs[i].path != p) ==> Lookup(f, p) == Lookup(files, p))
  {
    if rs != [] {
      var init, last := rs[..|rs| - 1], rs[|rs| - 1];
      FilesAfterDistinct(files, init);
      var g := FilesAfter(files, init);
      var f := FilesAfter(files, rs);
      assert f == AfterWrite(g, last.path, last.items, last.write);
      forall i | 0 <= i < |rs|
        ensures Lookup(f, rs[i].path) == Artifact(Lookup(files, rs[i].path), rs[i].items, rs[i].write)
      {
        if i < |rs| - 1 {
          assert rs[i] == init[i];
        } else {
          assert forall k :: 0 <= k < |init| ==> init[k].path != last.path by {
            forall k | 0 <= k < |init| ensures init[k].path != last.path {
              assert init[k] == rs[k];
            }
          }
        }
      }
      forall p | forall i :: 0 <= i < |rs| ==> rs[i].path != p
        ensures Lookup(f, p) == Lookup(files, p)
      {
        assert last.path != p;
        forall k | 0 <= k < |init| ensures init[k].path != p {
          assert init[k] == rs[k];
        }
      }
    }
  }

  /** A path no outcome writes keeps its content, whether or not the paths
      of the outcomes are distinct. */
  lemma {:induction false} FilesAfterUntouched(files: map<string, FileContent>, rs: seq<TableReport>, p: string)
    requires forall i :: 0 <= i < |rs| ==> rs[i].path != p
    ensures Lookup(FilesAfter(files, rs), p) == Lookup(files, p)
  {
    if rs != [] {
      var init := rs[..|rs| - 1];
      forall i | 0 <= i < |init| ensures init[i].path != p {
        assert init[i] == rs[i];
      }
      FilesAfterUntouched(files, init, p);
    }
  }

  /** Distinct table names give distinct snapshot paths. */
  lemma ReportPathsDistinct(b: Backend, faults: map<string, IOFault>, names: seq<string>)
    requires DistinctNames(names)
    ensures DistinctPaths(Reports(b, faults, names))
  {
    ReportsFollowListing(b, faults, names);
    var rs := Reports(b, faults, names);
    forall i, j | 0 <= i < j < |rs| ensures rs[i].path != rs[j].path {
      assert rs[i] == TableOutcome(b, faults, names[i]) && rs[j] == TableOutcome(b, faults, names[j]);
      if rs[i].path == rs[j].path {
        BackupPathInjective(names[i], names[j]);
      }
    }
  }

  /** After a run whose listing succeeded, the snapshot file of each listed
      table holds what that table's own write left there: its complete or
      partial snapshot when the write succeeded, whichever other tables'
      writes failed; a file that `open` could not truncate is left as it was. */
  lemma RunArtifacts(b: Backend, faults: map<string, IOFault>, files: map<string, FileContent>)
    requires b.listing.Listed? && DistinctNames(b.listing.names)
    ensures var names, f := b.listing.names, FilesAfter(files, TablesOf(RunSpec(b, faults)));
      forall i :: 0 <= i < |names| ==>
        Lookup(f, BackupPath(names[i])) ==
          Artifact(Lookup(files, BackupPath(names[i])), Snapshot(b, names[i]), WriteOutcome(faults, BackupPath(names[i])))
    ensures var names, f := b.listing.names, FilesAfter(files, TablesOf(RunSpec(b, faults)));
      forall i :: 0 <= i < |names| && BackupPath(names[i]) !in faults ==>
        Lookup(f, BackupPath(names[i])) == Some(Json(Snapshot(b, names[i])))
  {
    var names := b.listing.names;
    var rs := Reports(b, faults, names);
    assert TablesOf(RunSpec(b, faults)) == rs;
    ReportsFollowListing(b, faults, names);
    ReportPathsDistinct(b, faults, names);
    FilesAfterDistinct(files, rs);
    var f := FilesAfter(files, rs);
    forall i | 0 <= i < |names|
      ensures Lookup(f, BackupPath(names[i])) ==
        Artifact(Lookup(files, BackupPath(names[i])), Snapshot(b, names[i]), WriteOutcome(faults, BackupPath(names[i])))
    {
      assert rs[i] == TableOutcome(b, faults, names[i]);
    }
  }

  /** A run touches no file other than the snapshot paths of the listed
      tables; a listing failure touches none at all. */
  lemma RunLeavesOtherFiles(b: Backend, faults: map<string, IOFault>, files: map<string, FileContent>, p: string)
    requires b.listing.Listed? ==> forall i :: 0 <= i < |b.listing.names| ==> BackupPath(b.listing.names[i]) != p
    ensures Lookup(FilesAfter(files, TablesOf(RunSpec(b, faults))), p) == Lookup(files, p)
  {
    if b.listing.Listed? {
      var names := b.listing.names;
      var rs := Reports(b, faults, names);
      assert TablesOf(RunSpec(b, faults)) == rs;
      ReportsFollowListing(b, faults, names);
      FilesAfterUntouched(files, rs, p);
    }
  }

  lemma LookupExtensional(m1: map<string, FileContent>, m2: map<string, FileContent>)
    requires forall p :: Lookup(m1, p) == Lookup(m2, p)
    ensures m1 == m2
  {
    assert forall p :: p in m1 <==> Lookup(m1, p).Some?;
    assert forall p :: p in m2 <==> Lookup(m2, p).Some?;
    assert m1.Keys == m2.Keys;
    forall p | p in m1 ensures m1[p] == m2[p] {
      assert Lookup(m1, p) == Lookup(m2, p);
    }
  }

  /** Running the backup again against an unchanged account and directory
      leaves the same files as running it once. */
  lemma RerunIsIdempotent(b: Backend, faults: map<string, IOFault>, files: map<string, FileContent>)
    requires b.listing.Listed? ==> DistinctNames(b.listing.names)
    ensures var rs := TablesOf(RunSpec(b, faults));
      FilesAfter(FilesAfter(files, rs), rs) == FilesAfter(files, rs)
  {
    var rs := TablesOf(RunSpec(b, faults));
    if b.listing.Listed? {
      assert rs == Reports(b, faults, b.listing.names);
      ReportPathsDistinct(b, faults, b.listing.names);
      var f1 := FilesAfter(files, rs);
      var f2 := FilesAfter(f1, rs);
      FilesAfterDistinct(files, rs);
      FilesAfterDistinct(f1, rs);
      forall p ensures Lookup(f2, p) == Lookup(f1, p) {
        if exists i :: 0 <= i < |rs| && rs[i].path == p {
          var i :| 0 <= i < |rs| && rs[i].path == p;
          match rs[i].write
          case Written =>
          case WriteFailed(OpenFault) =>
          case WriteFailed(DumpFault) =>
        }
      }
      LookupExtensional(f2, f1);
    }
  }

  /** A table whose first page has no cursor is read with one request, and
      its snapshot is that page's items. */
  lemma SinglePageOutcome(b: Backend, faults: map<string, IOFault>, t: string, p: Page)
    requires t in b.tables && |b.tables[t]| > 0 && b.tables[t][0] == Ok(p) && !Truthy(p.lastKey)
    ensures ScanLog(b, t) == [Exchange(t, None, Ok(p))]
    ensures TableOutcome(b, faults, t) ==
      TableReport(t, BackupPath(t), ItemsOf(Ok(p)), Complete, WriteOutcome(faults, BackupPath(t)))
  {
    var log := [Exchange(t, None, Ok(p))];
    assert ScanLog(b, t) == log;
    CollectedCons(log[0], []);
    assert log == [log[0]] + [];
  }

  /** A table whose first page hands out cursor k and whose second request
      raises e: two requests, the second carrying k, and the first page's
      items as a partial snapshot. */
  lemma FailedSecondPageOutcome(b: Backend, faults: map<string, IOFault>, t: string, p: Page, k: Key, e: AwsError)
    requires t in b.tables && |b.tables[t]| > 1 && b.tables[t][0] == Ok(p) && p.lastKey == Some(k) && |k| > 0
    requires b.tables[t][1] == Err(e)
    ensures ScanLog(b, t) == [Exchange(t, None, Ok(p)), Exchange(t, Some(k), Err(e))]
    ensures TableOutcome(b, faults, t) ==
      TableReport(t, BackupPath(t), ItemsOf(Ok(p)), Partial(e), WriteOutcome(faults, BackupPath(t)))
  {
    var s := PagesOf(b, t);
    var e1, e2 := Exchange(t, None, Ok(p)), Exchange(t, Some(k), Err(e));
    assert ScanFrom(s, t, 1, Some(k)) == [e2];
    assert ScanFrom(s, t, 0, None) == [e1] + [e2];
    CollectedCons(e1, [e2]);
    CollectedCons(e2, []);
    assert [e2] == [e2] + [];
  }

  /** With two listed tables, the outcomes are the first's then the second's. */
  lemma TwoReports(b: Backend, faults: map<string, IOFault>, t1: string, t2: string)
    ensures Reports(b, faults, [t1, t2]) == [TableOutcome(b, faults, t1), TableOutcome(b, faults, t2)]
  {
    var r1, r2 := TableOutcome(b, faults, t1), TableOutcome(b, faults, t2);
    assert [t1, t2][..1] == [t1] && [t1][..0] == [];
    assert Reports(b, faults, [t1]) == [r1] by {
      assert Reports(b, faults, [t1]) == Reports(b, faults, []) + [r1];
    }
    assert Reports(b, faults, [t1, t2]) == [r1] + [r2];
  }

  /** With two listed tables, the scan calls are the first's then the second's. */
  lemma TwoScans(b: Backend, t1: string, t2: string)
    ensures RunScans(b, [t1, t2]) == ScanLog(b, t1) + ScanLog(b, t2)
  {
    assert [t1, t2][..1] == [t1] && [t1][..0] == [];
    assert RunScans(b, [t1]) == ScanLog(b, t1) by {
      assert RunScans(b, [t1]) == RunScans(b, []) + ScanLog(b, t1);
    }
    assert RunScans(b, [t1, t2]) == RunScans(b, [t1]) + ScanLog(b, t2);
  }

  /** Two outcomes are written first the one, then the other. */
  lemma TwoWrites(files: map<string, FileContent>, r1: TableReport, r2: TableReport)
    ensures FilesAfter(files, [r1, r2]) == AfterWrite(AfterWrite(files, r1.path, r1.items, r1.write), r2.path, r2.items, r2.write)
  {
    assert [r1, r2][..1] == [r1] && [r1][..0] == [];
    assert FilesAfter(files, [r1]) == AfterWrite(files, r1.path, r1.items, r1.write) by {
      assert FilesAfter(files, []) == files;
    }
  }

  /** Two tables, `Orders` with two items on one page and `Users` empty
      (any two distinct names): both scans complete, both writes succeed, and
      the two snapshot files hold a two-element array and an empty array. */
  lemma OrdersAndUsersScenario(orders: string, users: string, o1: Item, o2: Item, files: map<string, FileContent>)
    requires orders != users
    ensures var b := Backend(Listed([orders, users]),
                             map[orders := [Ok(Page(Some([o1, o2]), None))], users := [Ok(Page(Some([]), None))]]);
      var report := RunSpec(b, map[]);
      && report == Completed([
           TableReport(orders, BackupPath(orders), [o1, o2], Complete, Written),
           TableReport(users, BackupPath(users), [], Complete, Written)])
      && FilesAfter(files, TablesOf(report)) ==
           files[BackupPath(orders) := Json([o1, o2])][BackupPath(users) := Json([])]
  {
    var b := Backend(Listed([orders, users]),
                     map[orders := [Ok(Page(Some([o1, o2]), None))], users := [Ok(Page(Some([]), None))]]);
    SinglePageOutcome(b, map[], orders, Page(Some([o1, o2]), None));
    SinglePageOutcome(b, map[], users, Page(Some([]), None));
    TwoReports(b, map[], orders, users);
    TwoWrites(files, TableOutcome(b, map[], orders), TableOutcome(b, map[], users));
  }

  /** The second page of `Orders` is refused and `open` fails for the `Users`
      snapshot: `Orders` still gets the items of its first page, the request
      for its second page carried the first page's cursor, no request follows
      the refused one, and the `Users` file keeps its old content. */
  lemma PartialScanAndWriteFailureScenario(orders: string, users: string, o1: Item, o2: Item, k: Key,
                                           e: AwsError, files: map<string, FileContent>)
    requires orders != users && |k| > 0
    ensures var b := Backend(Listed([orders, users]),
                             map[orders := [Ok(Page(Some([o1]), Some(k))), Err(e), Ok(Page(Some([o2]), None))],
                                 users := [Ok(Page(None, None))]]);
      var faults := map[BackupPath(users) := OpenFault];
      var report := RunSpec(b, faults);
      && RunLog(b) == [
           Exchange(orders, None, Ok(Page(Some([o1]), Some(k)))),
           Exchange(orders, Some(k), Err(e)),
           Exchange(users, None, Ok(Page(None, None)))]
      && report == Completed([
           TableReport(orders, BackupPath(orders), [o1], Partial(e), Written),
           TableReport(users, BackupPath(users), [], Complete, WriteFailed(OpenFault))])
      && FilesAfter(files, TablesOf(report)) == files[BackupPath(orders) := Json([o1])]
  {
    var b := Backend(Listed([orders, users]),
                     map[orders := [Ok(Page(Some([o1]), Some(k))), Err(e), Ok(Page(Some([o2]), None))],
                         users := [Ok(Page(None, None))]]);
    var faults := map[BackupPath(users) := OpenFault];
    assert BackupPath(orders) != BackupPath(users) by {
      if BackupPath(orders) == BackupPath(users) {
        BackupPathInjective(orders, users);
      }
    }
    FailedSecondPageOutcome(b, faults, orders, Page(Some([o1]), Some(k)), k, e);
    SinglePageOutcome(b, faults, users, Page(None, None));
    TwoReports(b, faults, orders, users);
    TwoScans(b, orders, users);
    TwoWrites(files, TableOutcome(b, faults, orders), TableOutcome(b, faults, users));
  }

  /** The facts that carry the table loop from one table to the next. */
  lemma ReportsStep(b: Backend, faults: map<string, IOFault>, names: seq<string>, i: nat)
    requires i < |names|
    ensures Reports(b, faults, names[..i + 1]) == Reports(b, faults, names[..i]) + [TableOutcome(b, faults, names[i])]
  {
    assert names[..i + 1][..i] == names[..i];
  }

  lemma ScansStep(b: Backend, names: seq<string>, i: nat, log0: seq<Exchange>)
    requires i < |names|
    ensures log0 + RunScans(b, names[..i]) + ScanLog(b, names[i]) == log0 + RunScans(b, names[..i + 1])
  {
    assert names[..i + 1][..i] == names[..i];
    AppendAssoc(log0, RunScans(b, names[..i]), ScanLog(b, names[i]));
  }

  lemma WritesStep(files0: map<string, FileContent>, reports: seq<TableReport>, r: TableReport)
    ensures FilesAfter(files0, reports + [r]) == AfterWrite(FilesAfter(files0, reports), r.path, r.items, r.write)
  {
    assert (reports + [r])[..|reports|] == reports;
  }

  /** The body of the table loop: a scan into a fresh accumulator and cursor,
      then the write of what it accumulated to the table's snapshot path,
      with an `IOError` caught and recorded. */
  method BackupTable(client: Client, store: FileStore, table: string) returns (r: TableReport)
    requires ValidBackend(client.backend)
    modifies client, store
    ensures r == TableOutcome(client.backend, store.faults, table)
    ensures client.log == old(client.log) + ScanLog(client.backend, table)
    ensures store.files == AfterWrite(old(store.files), r.path, r.items, r.write)
  {
    var items, status := ScanTable(client, table);
    var path := BackupPath(table);
    var w := store.Write(path, items);
    r := TableReport(table, path, items, status, w);
  }

  /** The table loop: each listed name in order, a failed write of one table
      leaving the loop to go on with the next. */
  method BackupTables(client: Client, store: FileStore, names: seq<string>) returns (reports: seq<TableReport>)
    requires ValidBackend(client.backend)
    modifies client, store
    ensures reports == Reports(client.backend, store.faults, names)
    ensures client.log == old(client.log) + RunScans(client.backend, names)
    ensures store.files == FilesAfter(old(store.files), reports)
  {
    ghost var b, faults, log0, files0 := client.backend, store.faults, client.log, store.files;
    reports := [];
    for i := 0 to |names|
      invariant reports == Reports(b, faults, names[..i])
      invariant client.log == log0 + RunScans(b, names[..i])
      invariant store.files == FilesAfter(files0, reports)
    {
      var r := BackupTable(client, store, names[i]);
      ReportsStep(b, faults, names, i);
      ScansStep(b, names, i, log0);
      WritesStep(files0, reports, r);
      reports := reports + [r];
    }
    assert names[..|names|] == names;
  }

  /** The script from the `list_tables` call to the end of the table loop:
      a listing failure is caught by the outer handler before any table is
      scanned or written. */
  method RunBackup(client: Client, store: FileStore) returns (report: RunReport)
    requires ValidBackend(client.backend)
    modifies client, store
    ensures report == RunSpec(client.backend, store.faults)
    ensures client.log == old(client.log) + RunLog(client.backend)
    ensures store.files == FilesAfter(old(store.files), TablesOf(report))
    ensures report.ListFailed? ==> client.log == old(client.log) && store.files == old(store.files)
  {
    var listing := client.ListTables();
    if listing.ListErr? {
      report := ListFailed(listing.error);
      return;
    }
    var reports := BackupTables(client, store, listing.names);
    report := Completed(reports);
  }
}
