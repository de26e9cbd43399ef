/** The paginated scan of one table: the `while True` loop that grows
    `all_items` page by page and threads `last_evaluated_key` from one
    response into the next request. */
module TableScanner {
  import opened DynamoTypes
  import opened DynamoClient

  /** How the scan of one table ended: it read a page without a cursor, or a
      page request raised and the items read so far were kept. */
  datatype ScanStatus = Complete | Partial(error: AwsError)

  /** The scan calls made for table t, whose responses in order are s, from
      response number i on, when the next request carries start: each
      response that continues leads to a request carrying its
      `LastEvaluatedKey`; the first that does not ends the scan. */
  function ScanFrom(s: seq<PageResult>, t: string, i: nat, start: Option<Key>): seq<Exchange>
    requires i <= |s|
    decreases |s| - i
  {
    var r := PageAt(s, i);
    [Exchange(t, start, r)] + if Continues(r) then ScanFrom(s, t, i + 1, r.page.lastKey) else []
  }

  /** Every scan call the script makes for table t, starting without a key. */
  function ScanLog(b: Backend, t: string): seq<Exchange>
  {
    ScanFrom(PagesOf(b, t), t, 0, None)
  }

  /** The items a run of scan calls accumulates, in request order. */
  function Collected(log: seq<Exchange>): seq<Item>
  {
    if log == [] then [] else ItemsOf(log[0].response) + Collected(log[1..])
  }

  /** The outcome a run of scan calls reports: partial when its last call raised. */
  function LogStatus(log: seq<Exchange>): ScanStatus
  {
    if log != [] && log[|log| - 1].response.Err? then Partial(log[|log| - 1].response.error)
    else Complete
  }

  /** The snapshot of table t: everything its scan accumulates. */
  function Snapshot(b: Backend, t: string): seq<Item>
  {
    Collected(ScanLog(b, t))
  }

  /** How the scan of table t ends. */
  function StatusOf(b: Backend, t: string): ScanStatus
  {
    LogStatus(ScanLog(b, t))
  }

  /** The first position from i on whose response does not continue. */
  function StopFrom(s: seq<PageResult>, i: nat): (k: nat)
    requires i <= |s|
    ensures i <= k <= |s| && !Continues(PageAt(s, k))
    ensures forall j :: i <= j < k ==> Continues(PageAt(s, j))
    decreases |s| - i
  {
    if !Continues(PageAt(s, i)) then i else StopFrom(s, i + 1)
  }

  /** The items of responses i up to n (exclusive) of a page sequence. */
  function ItemsBetween(s: seq<PageResult>, i: nat, n: nat): seq<Item>
    requires i <= n
    decreases n - i
  {
    if i == n then [] else ItemsOf(PageAt(s, i)) + ItemsBetween(s, i + 1, n)
  }

  lemma {:induction false} CollectedAppend(a: seq<Exchange>, c: seq<Exchange>)
    ensures Collected(a + c) == Collected(a) + Collected(c)
  {
    if a == [] {
      assert a + c == c;
    } else {
      assert (a + c)[1..] == a[1..] + c;
      CollectedAppend(a[1..], c);
    }
  }

  lemma AppendAssoc<T>(a: seq<T>, b: seq<T>, c: seq<T>)
    ensures a + b + c == a + (b + c)
  {
  }

  lemma CollectedCons(e: Exchange, rest: seq<Exchange>)
    ensures Collected([e] + rest) == ItemsOf(e.response) + Collected(rest)
  {
    assert ([e] + rest)[1..] == rest;
  }

  lemma {:induction false} ItemsBetweenSplit(s: seq<PageResult>, i: nat, m: nat, n: nat)
    requires i <= m <= n
    ensures ItemsBetween(s, i, n) == ItemsBetween(s, i, m) + ItemsBetween(s, m, n)
    decreases m - i
  {
    if i < m {
      ItemsBetweenSplit(s, i + 1, m, n);
    }
  }

  /** The calls from response i on read responses i, i + 1, ... up to the
      first that does not continue, all for table t, each carrying the cursor
      of the one before. */
  lemma {:induction false} ScanFromShape(s: seq<PageResult>, t: string, i: nat, start: Option<Key>)
    requires i <= |s|
    ensures var log := ScanFrom(s, t, i, start);
      && |log| == StopFrom(s, i) - i + 1
      && log[0].start == start
      && (forall j :: 0 <= j < |log| ==> log[j].table == t && log[j].response == PageAt(s, i + j))
      && (forall j :: 0 <= j < |log| - 1 ==> log[j + 1].start == log[j].response.page.lastKey)
    decreases |s| - i
  {
    var r := PageAt(s, i);
    if Continues(r) {
      var rest := ScanFrom(s, t, i + 1, r.page.lastKey);
      ScanFromShape(s, t, i + 1, r.page.lastKey);
      var log := [Exchange(t, start, r)] + rest;
      assert ScanFrom(s, t, i, start) == log;
      forall j | 0 <= j < |log|
        ensures log[j].table == t && log[j].response == PageAt(s, i + j)
      {
        if j > 0 { assert log[j] == rest[j - 1]; }
      }
      forall j | 0 <= j < |log| - 1
        ensures log[j + 1].start == log[j].response.page.lastKey
      {
        if j > 0 { assert log[j] == rest[j - 1]; }
      }
    }
  }

  /** The calls from response i on collect exactly the items of responses
      i up to the first that does not continue. */
  lemma {:induction false} ScanFromCollects(s: seq<PageResult>, t: string, i: nat, start: Option<Key>)
    requires i <= |s|
    ensures Collected(ScanFrom(s, t, i, start)) == ItemsBetween(s, i, StopFrom(s, i) + 1)
    decreases |s| - i
  {
    var r := PageAt(s, i);
    var rest := if Continues(r) then ScanFrom(s, t, i + 1, r.page.lastKey) else [];
    CollectedCons(Exchange(t, start, r), rest);
    var k := StopFrom(s, i);
    assert ItemsBetween(s, i, k + 1) == ItemsOf(r) + ItemsBetween(s, i + 1, k + 1);
    if Continues(r) {
      ScanFromCollects(s, t, i + 1, r.page.lastKey);
      assert k == StopFrom(s, i + 1);
    } else {
      assert k == i;
      assert ItemsBetween(s, i + 1, k + 1) == [] == Collected(rest);
    }
  }

  /** The first request for a table carries no `ExclusiveStartKey`; every
      later one carries exactly the truthy `LastEvaluatedKey` of the response
      before it; and every request names the table being backed up. */
  lemma ScanLogThreadsCursor(b: Backend, t: string)
    ensures var log := ScanLog(b, t);
      && log != [] && log[0].start == None
      && (forall j :: 0 <= j < |log| ==> log[j].table == t)
      && (forall j :: 0 <= j < |log| - 1 ==>
            log[j].response.Ok? && Truthy(log[j].response.page.lastKey) &&
            log[j + 1].start == log[j].response.page.lastKey)
  {
    ScanFromShape(PagesOf(b, t), t, 0, None);
  }

  /** The scan reads the table's responses in order and stops right after
      the first one that raised or came without a truthy cursor: no request
      follows it. */
  lemma ScanLogStopsAtFirstFinalResponse(b: Backend, t: string)
    ensures var log, s := ScanLog(b, t), PagesOf(b, t);
      && |log| == StopFrom(s, 0) + 1
      && (forall j :: 0 <= j < |log| ==> log[j].response == PageAt(s, j))
      && (forall j :: 0 <= j < |log| - 1 ==> Continues(log[j].response))
      && !Continues(log[|log| - 1].response)
  {
    ScanFromShape(PagesOf(b, t), t, 0, None);
  }

  /** A complete snapshot is the concatenation, in order, of the items of
      every response up to and including the first one without a cursor. */
  lemma SnapshotOfCompleteScan(b: Backend, t: string)
    requires StatusOf(b, t) == Complete
    ensures var s, k := PagesOf(b, t), StopFrom(PagesOf(b, t), 0);
      && PageAt(s, k).Ok? && !Truthy(PageAt(s, k).page.lastKey)
      && Snapshot(b, t) == ItemsBetween(s, 0, k + 1)
  {
    ScanFromShape(PagesOf(b, t), t, 0, None);
    ScanFromCollects(PagesOf(b, t), t, 0, None);
  }

  /** When the request for response k raises, the snapshot is exactly the
      items of responses 0 .. k - 1: what was read is kept, nothing else is
      added, and a failure on the first request gives an empty snapshot. */
  lemma SnapshotOfPartialScan(b: Backend, t: string, e: AwsError)
    requires StatusOf(b, t) == Partial(e)
    ensures var s, k := PagesOf(b, t), StopFrom(PagesOf(b, t), 0);
      && PageAt(s, k) == Err(e)
      && Snapshot(b, t) == ItemsBetween(s, 0, k)
      && (k == 0 ==> Snapshot(b, t) == [])
  {
    var s, k := PagesOf(b, t), StopFrom(PagesOf(b, t), 0);
    ScanFromShape(s, t, 0, None);
    ScanFromCollects(s, t, 0, None);
    ItemsBetweenSplit(s, 0, k, k + 1);
    assert ItemsBetween(s, k, k + 1) == ItemsOf(PageAt(s, k)) + ItemsBetween(s, k + 1, k + 1);
  }

  lemma {:induction false} ItemsBetweenOfEmptyPages(s: seq<PageResult>, i: nat, n: nat)
    requires i <= n
    requires forall j :: 0 <= j < |s| ==> ItemsOf(s[j]) == []
    ensures ItemsBetween(s, i, n) == []
    decreases n - i
  {
    if i < n {
      ItemsBetweenOfEmptyPages(s, i + 1, n);
      assert ItemsOf(PageAt(s, i)) == [];
    }
  }

  /** Pages that never carry `Items` (or raise) contribute nothing: a table
      none of whose responses has items gets an empty snapshot, however
      many pages its scan reads. */
  lemma SnapshotOfPagesWithoutItems(b: Backend, t: string)
    requires forall j :: 0 <= j < |PagesOf(b, t)| ==> ItemsOf(PagesOf(b, t)[j]) == []
    ensures Snapshot(b, t) == []
  {
    var s := PagesOf(b, t);
    ScanFromCollects(s, t, 0, None);
    ItemsBetweenOfEmptyPages(s, 0, StopFrom(s, 0) + 1);
  }

  /** Scanning a table the account does not have makes one request, which
      raises; the snapshot is empty and the scan is reported partial. */
  lemma ScanOfMissingTable(b: Backend, t: string)
    requires t !in b.tables
    ensures ScanLog(b, t) == [Exchange(t, None, Err(ClientError("ResourceNotFoundException")))]
    ensures Snapshot(b, t) == [] && StatusOf(b, t) == Partial(ClientError("ResourceNotFoundException"))
  {
    var x := Exchange(t, None, Err(ClientError("ResourceNotFoundException")));
    assert ScanLog(b, t) == [x];
    CollectedCons(x, []);
    assert [x] == [x] + [];
  }

  /** The per-table scan loop: `all_items` and `last_evaluated_key` start
      empty, each round sends the cursor when it is truthy, extends the
      accumulator with the page's items, and the loop ends on the first page
      without a truthy cursor or on the first page error. */
  method ScanTable(client: Client, table: string) returns (items: seq<Item>, status: ScanStatus)
    requires ValidBackend(client.backend)
    modifies client
    ensures client.log == old(client.log) + ScanLog(client.backend, table)
    ensures items == Collected(client.log[|old(client.log)|..])
    ensures items == Snapshot(client.backend, table) && status == StatusOf(client.backend, table)
  {
    ghost var b, s, log0 := client.backend, PagesOf(client.backend, table), client.log;
    ghost var done: seq<Exchange> := [];
    ghost var i: nat := 0;
    ghost var full := ScanLog(b, table);
    items := [];
    var lastKey: Option<Key> := None;
    while true
      invariant i <= |s|
      invariant i == 0 ==> lastKey == None
      invariant i > 0 ==> Continues(PageAt(s, i - 1)) && lastKey == PageAt(s, i - 1).page.lastKey
      invariant client.log == log0 + done
      invariant done + ScanFrom(s, table, i, lastKey) == full
      invariant items == Collected(done)
      decreases |s| - i
    {
      var start := if Truthy(lastKey) then lastKey else None;
      var response := client.Scan(table, start);
      assert start == lastKey && response == PageAt(s, i) by {
        if i > 0 {
          RespondAfter(b, table, i - 1);
        }
      }
      ghost var e := Exchange(table, start, response);
      ghost var tail := if Continues(response) then ScanFrom(s, table, i + 1, response.page.lastKey) else [];
      assert done + [e] + tail == full by {
        assert ScanFrom(s, table, i, lastKey) == [e] + tail;
        AppendAssoc(done, [e], tail);
      }
      assert client.log == log0 + (done + [e]) by {
        AppendAssoc(log0, done, [e]);
      }
      assert Collected(done + [e]) == items + ItemsOf(response) by {
        CollectedAppend(done, [e]);
        assert [e][1..] == [];
      }
      done := done + [e];
      if response.Err? {
        assert done == full;
        status := Partial(response.error);
        break;
      }
      items := items + ItemsOf(response);
      lastKey := response.page.lastKey;
      if !Truthy(lastKey) {
        assert done == full;
        status := Complete;
        break;
      }
      i := i + 1;
    }
  }
}
