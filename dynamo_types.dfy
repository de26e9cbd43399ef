/** The values the backup script exchanges with DynamoDB, and the account
    it reads, seen as a pure function from a request to its response. */
module DynamoTypes {

  datatype Option<+T> = None | Some(value: T)

  /** One record of a table. The backup never looks inside an item, so the
      type is left abstract. */
  type Item

  /** A key attribute value: DynamoDB key attributes are strings, numbers
      (carried as decimal text) or binary. */
  datatype KeyValue = S(s: string) | N(n: string) | B(b: seq<bv8>)

  /** A `LastEvaluatedKey` / `ExclusiveStartKey`: the primary key of the
      last item a scan page evaluated. */
  type Key = map<string, KeyValue>

  /** Python truthiness of the cursor variable: `None` and the empty dict
      are false, every other dict is true. */
  predicate Truthy(k: Option<Key>)
  {
    k.Some? && |k.value| > 0
  }

  /** The two exception families the script catches around AWS calls. */
  datatype AwsError = ClientError(code: string) | BotoCoreError(reason: string)

  /** One successful `scan` response: its optional `Items` field and its
      optional `LastEvaluatedKey` field. */
  datatype Page = Page(items: Option<seq<Item>>, lastKey: Option<Key>)

  /** A `scan` call either returns a page or raises one of the caught errors. */
  datatype PageResult = Ok(page: Page) | Err(error: AwsError)

  /** A `list_tables` call either returns its `TableNames` or raises. */
  datatype ListResult = Listed(names: seq<string>) | ListErr(error: AwsError)

  /** One `scan` call as the client saw it: the table, the exclusive start
      key sent (None when the parameter was omitted), and the response. */
  datatype Exchange = Exchange(table: string, start: Option<Key>, response: PageResult)

  /** What a response adds to the accumulator: `response.get('Items', [])`;
      a call that raised adds nothing. */
  function ItemsOf(r: PageResult): seq<Item>
  {
    match r
    case Err(_) => []
    case Ok(Page(None, _)) => []
    case Ok(Page(Some(xs), _)) => xs
  }

  /** True of exactly the responses after which the scan loop issues another
      request: a page whose `LastEvaluatedKey` is truthy. */
  predicate Continues(r: PageResult)
  {
    r.Ok? && Truthy(r.page.lastKey)
  }

  /** The account during one run: the answer `list_tables` gives, and for
      each table the responses its scan yields in order. Entry 0 answers the
      request without a start key; entry i + 1 answers the request whose
      start key is the `LastEvaluatedKey` of entry i. */
  datatype Backend = Backend(listing: ListResult, tables: map<string, seq<PageResult>>)

  /** The page sequence of a table; scanning a table the account does not
      have fails on the first request (ResourceNotFoundException). */
  function PagesOf(b: Backend, t: string): seq<PageResult>
  {
    if t in b.tables then b.tables[t] else [Err(ClientError("ResourceNotFoundException"))]
  }

  /** Response number i of a page sequence. Past its end a scan answers an
      empty page with no cursor: DynamoDB may hand out a cursor on the last
      page with data, and the request it invites then returns nothing. */
  function PageAt(s: seq<PageResult>, i: nat): (r: PageResult)
    ensures i < |s| ==> r == s[i]
    ensures i >= |s| ==> r.Ok? && ItemsOf(r) == [] && !Continues(r)
  {
    if i < |s| then s[i] else Ok(Page(Some([]), None))
  }

  /** The first position of s whose response continues with cursor k. */
  function PositionOf(s: seq<PageResult>, k: Key): (p: Option<nat>)
    ensures p.Some? ==> p.value < |s| && Continues(s[p.value]) && s[p.value].page.lastKey == Some(k)
    ensures p.Some? ==> forall j :: 0 <= j < p.value && Continues(s[j]) ==> s[j].page.lastKey != Some(k)
    ensures p.None? ==> forall j :: 0 <= j < |s| && Continues(s[j]) ==> s[j].page.lastKey != Some(k)
  {
    if |s| == 0 then None
    else if Continues(s[0]) && s[0].page.lastKey == Some(k) then Some(0)
    else match PositionOf(s[1..], k)
      case None => None
      case Some(j) => Some(j + 1)
  }

  /** `scan(TableName = t, ExclusiveStartKey = start)`: resume after the
      page that handed out `start`. The script only ever sends keys a page
      handed out; answering any other key with a ValidationException is a
      choice of this model, not what the service does with a well-formed
      key. */
  function Respond(b: Backend, t: string, start: Option<Key>): PageResult
  {
    var s := PagesOf(b, t);
    match start
    case None => PageAt(s, 0)
    case Some(k) =>
      match PositionOf(s, k)
      case None => Err(ClientError("ValidationException"))
      case Some(i) => PageAt(s, i + 1)
  }

  /** The truthy cursors of one table are pairwise distinct: a scan moves
      forward through the key space and never hands out a key twice. */
  predicate DistinctCursors(s: seq<PageResult>)
  {
    forall i, j :: 0 <= i < j < |s| && Continues(s[i]) && Continues(s[j]) ==>
      s[i].page.lastKey != s[j].page.lastKey
  }

  /** The assumption under which every scan loop ends: no table hands out
      the same cursor twice. */
  predicate ValidBackend(b: Backend)
  {
    forall t :: t in b.tables ==> DistinctCursors(b.tables[t])
  }

  /** Sending the cursor of response i brings back response i + 1. */
  lemma RespondAfter(b: Backend, t: string, i: nat)
    requires ValidBackend(b)
    requires i < |PagesOf(b, t)| && Continues(PagesOf(b, t)[i])
    ensures Respond(b, t, PagesOf(b, t)[i].page.lastKey) == PageAt(PagesOf(b, t), i + 1)
  {
  }
}
