/**
 * The synchronisation engine as the program runs it: an object holding the
 * clock, the module variable `lastRequestTime`, the database tables and the
 * write counter, whose methods are `rateLimitedPost`, `upsert`, `saveLog`, the
 * three fetchers with their page loop, the three syncs with their write loop,
 * and `run`. Each method is proved to leave exactly the state the functions of
 * `Machine`, `Pages` and `Runs` describe, and to keep the engine's invariant.
 */
module SyncEngine {
  import opened Wrappers
  import opened Rows
  import Merge
  import RateLimit
  import opened Machine
  import opened Pages
  import opened Records
  import opened Runs

  class Engine {
    /** `Date.now()`. */
    var now: int
    var lastRequestTime: int
    /** The database: each table name with its rows, keyed by `Id`. */
    var tables: map<string, Table>
    /** The number of writes issued so far. */
    var attempts: nat
    /** The requests sent upstream so far. */
    ghost var trace: seq<Request>
    /** Which writes the database rejects, and how long a write takes. */
    const env: Env

    ghost function Snapshot(): State
      reads this
    {
      State(now, lastRequestTime, tables, attempts, trace)
    }

    ghost predicate Valid()
      reads this
    {
      Good(Snapshot())
    }

    /** The process starts with `lastRequestTime = 0` and no request sent. */
    constructor(clock: int, database: map<string, Table>, store: Env)
      requires 0 <= clock
      requires forall name :: name in database ==> Keyed(database[name], KeyColumn)
      ensures Snapshot() == State(clock, 0, database, 0, []) && env == store
      ensures Valid()
    {
      now := clock;
      lastRequestTime := 0;
      tables := database;
      attempts := 0;
      trace := [];
      env := store;
    }

    /**
     * `rateLimitedPost`: sleep out the rest of the interval since the previous
     * request, record the start time, send the request, and wait `took`
     * milliseconds for the answer.
     */
    method RateLimitedPost(resource: string, after: Option<string>, since: Option<int>, took: nat)
      requires Valid()
      modifies this
      ensures Snapshot() == Posted(old(Snapshot()), resource, after, since, took)
      ensures Valid()
    {
      PostedGood(Snapshot(), resource, after, since, took);
      var wait := RateLimit.Max(0, RateLimit.Interval - (now - lastRequestTime));
      if wait != 0 {
        now := now + wait;
      }
      lastRequestTime := now;
      trace := trace + [Request(resource, now, AfterClause(after), since)];
      now := now + took;
    }

    /**
     * `upsert(table, 'Id', item)`: one `MERGE` statement. The store either
     * rejects it, leaving every table as it was, or merges the item into the
     * table.
     */
    method Upsert(table: string, item: Row) returns (err: Option<string>)
      requires Valid()
      modifies this
      ensures (Snapshot(), err) == Write(old(Snapshot()), env, table, item)
      ensures Valid()
    {
      WriteGood(Snapshot(), env, table, item);
      err := WriteError(env, attempts, tables, table, item);
      if err.None? {
        tables := tables[table := Merge.Apply(tables[table], KeyColumn, item)];
      }
      attempts := attempts + 1;
      now := now + env.writeMillis;
    }

    /** `saveLog(message, resource)`: an entry keyed by the current millisecond. */
    method SaveLog(message: string, resource: string) returns (err: Option<string>)
      requires Valid()
      modifies this
      ensures (Snapshot(), err) == Machine.SaveLog(old(Snapshot()), env, message, resource)
      ensures Valid()
    {
      LogItemBindings(now, message, resource);
      err := Upsert(LogTable, LogItem(now, message, resource));
    }

    /**
     * The loop shared by the three fetchers: request a page after the held
     * cursor, push one row per edge and hold the edge's cursor, and go on while
     * the page says there is a next one. A failed request or a node that cannot
     * be mapped is logged under the resource name and ends the loop; if that log
     * write throws, its error escapes instead of the rows.
     */
    method Fetch<N>(resource: string, since: Option<int>, toRow: N -> Result<Row>, pages: seq<PageResult<N>>)
      returns (rows: Result<seq<Row>>)
      requires Valid()
      requires Answered(toRow, pages, 0)
      modifies this
      ensures Walked(Snapshot(), rows) == Walk(env, resource, since, toRow, pages, 0, old(Snapshot()), None, [])
      ensures Valid()
    {
      ghost var goal := Walk(env, resource, since, toRow, pages, 0, Snapshot(), None, []);
      var after: Option<string> := None;
      var list: seq<Row> := [];
      var stop: Option<Result<seq<Row>>> := None;
      var i := 0;
      while stop.None?
        invariant 0 <= i <= |pages|
        invariant stop.None? ==> Answered(toRow, pages, i) && Walk(env, resource, since, toRow, pages, i, Snapshot(), after, list) == goal
        invariant stop.Some? ==> Walked(Snapshot(), stop.value) == goal
        invariant Valid()
        decreases |pages| - i
      {
        stop, after, list := Turn(resource, since, toRow, pages, i, after, list);
        i := i + 1;
      }
      rows := stop.value;
    }

    /**
     * One turn of the fetchers' `while (hasNext)` loop, on page `i`: the request,
     * the edges, and the `catch`. `stop` is what the fetcher returns when this
     * turn ends the loop (the rows, or the error its log write threw), and
     * `None` when the page asks for the next one.
     */
    method Turn<N>(resource: string, since: Option<int>, toRow: N -> Result<Row>, pages: seq<PageResult<N>>,
                   i: nat, after0: Option<string>, list0: seq<Row>)
      returns (stop: Option<Result<seq<Row>>>, after: Option<string>, list: seq<Row>)
      requires Valid()
      requires i < |pages| && Answered(toRow, pages, i)
      modifies this
      ensures stop.Some? ==> Walked(Snapshot(), stop.value) == Walk(env, resource, since, toRow, pages, i, old(Snapshot()), after0, list0)
      ensures stop.None? ==> i + 1 < |pages| && Answered(toRow, pages, i + 1)
      ensures stop.None? ==>
        Walk(env, resource, since, toRow, pages, i + 1, Snapshot(), after, list)
          == Walk(env, resource, since, toRow, pages, i, old(Snapshot()), after0, list0)
      ensures Valid()
    {
      ghost var s := Snapshot();
      var page := pages[i];
      PostedGood(s, resource, after0, since, page.took);
      RateLimitedPost(resource, after0, since, page.took);
      if page.Failed? {
        WalkStops(env, resource, since, toRow, pages, i, s, after0, list0);
        assert list0 + PageRows(toRow, page) == list0;
        var e := SaveLog(page.message, resource);
        return Some(if e.Some? then Err(e.value) else Ok(list0)), after0, list0;
      }
      var failed: Option<string>;
      list, after, failed := MapPage(toRow, page.edges, after0, list0);
      MapEdgesShift(toRow, page.edges, after0, list0);
      if failed.Some? || !page.hasNextPage {
        WalkStops(env, resource, since, toRow, pages, i, s, after0, list0);
        if failed.Some? {
          var e := SaveLog(failed.value, resource);
          stop := Some(if e.Some? then Err(e.value) else Ok(list));
        } else {
          stop := Some(Ok(list));
        }
        return;
      }
      WalkContinues(env, resource, since, toRow, pages, i, s, after0, list0);
      stop := None;
    }

    /**
     * The `for` loop over a page's edges: push each node's row and hold its
     * cursor; a node whose mapping throws ends the loop.
     */
    static method MapPage<N>(toRow: N -> Result<Row>, edges: seq<Edge<N>>, after0: Option<string>, list0: seq<Row>)
      returns (list: seq<Row>, after: Option<string>, failed: Option<string>)
      ensures Mapped(list, after, failed) == MapEdges(toRow, edges, after0, list0)
    {
      list, after, failed := list0, after0, None;
      var j := 0;
      while j < |edges|
        invariant 0 <= j <= |edges|
        invariant failed.None?
        invariant MapEdges(toRow, edges[j..], after, list) == MapEdges(toRow, edges, after0, list0)
      {
        var r := toRow(edges[j].node);
        assert edges[j..][0] == edges[j] && edges[j..][1..] == edges[j + 1..];
        if r.Err? {
          failed := Some(r.message);
          return;
        }
        list := list + [r.value];
        after := Some(edges[j].cursor);
        j := j + 1;
      }
      assert edges[j..] == [];
    }

    /**
     * `fetchOrders(hours)`: the `updated_at` bound is read from the clock once,
     * before the first request; a bound out of the `Date` range throws there.
     */
    method FetchOrders(hours: Option<int>, pages: seq<PageResult<OrderNode>>) returns (rows: Result<seq<Row>>)
      requires Valid()
      requires Answered(MapOrder, pages, 0)
      modifies this
      ensures OrdersFilter(hours, old(now)).Err? ==> rows == Err(InvalidTimeValue) && Snapshot() == old(Snapshot())
      ensures OrdersFilter(hours, old(now)).Ok? ==>
        Walked(Snapshot(), rows) == Walk(env, "orders", OrdersFilter(hours, old(now)).value, MapOrder, pages, 0, old(Snapshot()), None, [])
      ensures Valid()
    {
      var updatedMin := OrdersFilter(hours, now);
      if updatedMin.Err? {
        return Err(updatedMin.message);
      }
      rows := Fetch("orders", updatedMin.value, MapOrder, pages);
    }

    method FetchProducts(pages: seq<PageResult<ProductNode>>) returns (rows: Result<seq<Row>>)
      requires Valid()
      requires Answered(MapProduct, pages, 0)
      modifies this
      ensures Walked(Snapshot(), rows) == Walk(env, "products", None, MapProduct, pages, 0, old(Snapshot()), None, [])
      ensures Valid()
    {
      rows := Fetch("products", None, MapProduct, pages);
    }

    method FetchCustomers(pages: seq<PageResult<CustomerNode>>) returns (rows: Result<seq<Row>>)
      requires Valid()
      requires Answered(MapCustomer, pages, 0)
      modifies this
      ensures Walked(Snapshot(), rows) == Walk(env, "customers", None, MapCustomer, pages, 0, old(Snapshot()), None, [])
      ensures Valid()
    {
      rows := Fetch("customers", None, MapCustomer, pages);
    }

    /** The write loop of a sync: upsert each row in order; the first error ends it. */
    method UpsertRows(table: string, rows: seq<Row>) returns (err: Option<string>)
      requires Valid()
      modifies this
      ensures (Snapshot(), err) == UpsertAll(old(Snapshot()), env, table, rows)
      ensures Valid()
    {
      ghost var goal := UpsertAll(Snapshot(), env, table, rows);
      var k := 0;
      err := None;
      while k < |rows|
        invariant 0 <= k <= |rows|
        invariant UpsertAll(Snapshot(), env, table, rows[k..]) == goal
        invariant err.None? && Valid()
      {
        assert rows[k..][0] == rows[k] && rows[k..][1..] == rows[k + 1..];
        err := Upsert(table, rows[k]);
        if err.Some? {
          return;
        }
        k := k + 1;
      }
      assert rows[k..] == [];
    }

    /** `syncOrders(hours)`: fetch every page, then write the rows. */
    method SyncOrders(hours: Option<int>, pages: seq<PageResult<OrderNode>>) returns (err: Option<string>)
      requires Valid()
      requires Answered(MapOrder, pages, 0)
      modifies this
      ensures (Snapshot(), err) == Runs.SyncOrders(old(Snapshot()), env, hours, pages)
      ensures Valid()
    {
      var orders := FetchOrders(hours, pages);
      if orders.Err? {
        return Some(orders.message);
      }
      err := UpsertRows(OrdersTable, orders.value);
    }

    method SyncProducts(pages: seq<PageResult<ProductNode>>) returns (err: Option<string>)
      requires Valid()
      requires Answered(MapProduct, pages, 0)
      modifies this
      ensures (Snapshot(), err) == Runs.SyncProducts(old(Snapshot()), env, pages)
      ensures Valid()
    {
      var products := FetchProducts(pages);
      if products.Err? {
        return Some(products.message);
      }
      err := UpsertRows(ProductsTable, products.value);
    }

    method SyncCustomers(pages: seq<PageResult<CustomerNode>>) returns (err: Option<string>)
      requires Valid()
      requires Answered(MapCustomer, pages, 0)
      modifies this
      ensures (Snapshot(), err) == Runs.SyncCustomers(old(Snapshot()), env, pages)
      ensures Valid()
    {
      var customers := FetchCustomers(pages);
      if customers.Err? {
        return Some(customers.message);
      }
      err := UpsertRows(CustomersTable, customers.value);
    }

    /**
     * `run()`: the selected syncs inside `try`, then the completion log entry;
     * the `catch` logs what was thrown. `escaped` is what the `catch`'s own log
     * write throws.
     */
    method Run(opts: Options, up: Upstream) returns (caught: Option<string>, escaped: Option<string>)
      requires Valid()
      requires Ready(opts, up)
      modifies this
      ensures Outcome(Snapshot(), caught, escaped) == Runs.Run(old(Snapshot()), env, opts, up)
      ensures Valid()
    {
      var err: Option<string>;
      if opts.resource == Some("orders") {
        err := SyncOrders(opts.hours, up.orders);
      } else if opts.resource == Some("products") {
        err := SyncProducts(up.products);
      } else if opts.resource == Some("customers") {
        err := SyncCustomers(up.customers);
      } else {
        err := SyncOrders(opts.hours, up.orders);
        if err.None? {
          err := SyncProducts(up.products);
          if err.None? {
            err := SyncCustomers(up.customers);
          }
        }
      }
      var scope := Scope(opts.resource);
      if err.None? {
        caught := SaveLog("Sync completed", scope);
        if caught.Some? {
          escaped := SaveLog(caught.value, scope);
        } else {
          escaped := None;
        }
      } else {
        caught := err;
        escaped := SaveLog(err.value, scope);
      }
    }
  }
}
