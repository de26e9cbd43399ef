/** The DynamoDB client handle the script creates from the default session,
    as an oracle over a fixed account. The ghost log records every `scan`
    call, in the order the script makes them. */
module DynamoClient {
  import opened DynamoTypes

  class Client {
    const backend: Backend
    ghost var log: seq<Exchange>

    constructor (backend: Backend)
      ensures this.backend == backend && log == []
    {
      this.backend := backend;
      log := [];
    }

    /** `dynamodb.list_tables()`: one call, whose answer is fixed by the account. */
    method ListTables() returns (r: ListResult)
      ensures r == backend.listing
    {
      r := backend.listing;
    }

    /** `dynamodb.scan(TableName = table[, ExclusiveStartKey = start])`. */
    method Scan(table: string, start: Option<Key>) returns (r: PageResult)
      modifies this
      ensures r == Respond(backend, table, start)
      ensures log == old(log) + [Exchange(table, start, r)]
    {
      r := Respond(backend, table, start);
      log := log + [Exchange(table, start, r)];
    }
  }
}
