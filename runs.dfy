/**
 * The write half of `syncOrders`, `syncProducts` and `syncCustomers` (fetch every
 * page first, then upsert the rows one at a time, in order, stopping at the first
 * write that throws), and `run`, which picks the resources, logs the outcome and
 * catches what the syncs throw.
 */
module Runs {
  import opened Wrappers
  import opened Rows
  import Merge
  import opened Machine
  import opened Pages
  import opened Records

  /** A row `upsert(table, 'Id', row)` can merge: it binds `Id` to something other than `null`. */
  predicate KeyedRow(row: Row)
  {
    KeyColumn in Bindings(row) && Bindings(row)[KeyColumn] != Null
  }

  predicate AllKeyed(rows: seq<Row>)
  {
    forall i :: 0 <= i < |rows| ==> KeyedRow(rows[i])
  }

  /** The key a row is merged under. */
  function Key(row: Row): Value
    requires KeyedRow(row)
  {
    Bindings(row)[KeyColumn]
  }

  /**
   * The reference meaning of a run of upserts into one table: merge the rows
   * into it one after the other, in order.
   */
  function Fold(t: Table, rows: seq<Row>): Table
    requires AllKeyed(rows)
    decreases |rows|
  {
    if rows == [] then t else Fold(Merge.Apply(t, KeyColumn, rows[0]), rows[1..])
  }

  /** The keys of a run of rows. */
  function KeysOf(rows: seq<Row>): set<Value>
    requires AllKeyed(rows)
    decreases |rows|
  {
    if rows == [] then {} else {Key(rows[0])} + KeysOf(rows[1..])
  }

  /** Merging keeps the table keyed by `Id`. */
  lemma {:induction false} FoldKeyed(t: Table, rows: seq<Row>)
    requires AllKeyed(rows) && Keyed(t, KeyColumn)
    ensures Keyed(Fold(t, rows), KeyColumn)
    decreases |rows|
  {
    if rows != [] {
      FoldKeyed(Merge.Apply(t, KeyColumn, rows[0]), rows[1..]);
    }
  }

  /** The rows of the merged table are the old ones plus one per key upserted. */
  lemma {:induction false} FoldKeys(t: Table, rows: seq<Row>)
    requires AllKeyed(rows)
    ensures Fold(t, rows).Keys == t.Keys + KeysOf(rows)
    decreases |rows|
  {
    if rows != [] {
      FoldKeys(Merge.Apply(t, KeyColumn, rows[0]), rows[1..]);
    }
  }

  /** A row whose key no upserted row carries is left exactly as it was. */
  lemma {:induction false} FoldUntouched(t: Table, rows: seq<Row>, k: Value)
    requires AllKeyed(rows)
    requires forall i :: 0 <= i < |rows| ==> Key(rows[i]) != k
    ensures k in Fold(t, rows) <==> k in t
    ensures k in t ==> Fold(t, rows)[k] == t[k]
    decreases |rows|
  {
    if rows != [] {
      FoldUntouched(Merge.Apply(t, KeyColumn, rows[0]), rows[1..], k);
    }
  }

  /**
   * The upserts run in order, so for each key the last row that carries it
   * decides every column that row has.
   */
  lemma {:induction false} FoldLastWins(t: Table, rows: seq<Row>, i: nat)
    requires AllKeyed(rows) && Keyed(t, KeyColumn)
    requires i < |rows|
    requires forall j :: i < j < |rows| ==> Key(rows[j]) != Key(rows[i])
    ensures Key(rows[i]) in Fold(t, rows)
    ensures forall c :: c in Bindings(rows[i]) ==>
      c in Fold(t, rows)[Key(rows[i])] && Fold(t, rows)[Key(rows[i])][c] == Bindings(rows[i])[c]
    decreases i
  {
    var t1 := Merge.Apply(t, KeyColumn, rows[0]);
    if i == 0 {
      FoldUntouched(t1, rows[1..], Key(rows[0]));
    } else {
      FoldLastWins(t1, rows[1..], i - 1);
    }
  }

  /**
   * The write loop of a sync, one `upsert` per row: write the
   * rows in order; the first write that throws ends the loop and its error
   * escapes the sync.
   */
  function UpsertAll(s: State, env: Env, table: string, rows: seq<Row>): (State, Option<string>)
    decreases |rows|
  {
    if rows == [] then (s, None)
    else
      var (s1, e) := Write(s, env, table, rows[0]);
      if e.Some? then (s1, e) else UpsertAll(s1, env, table, rows[1..])
  }

  /** Every write from attempt `from` on, one per row, goes through: every row has a key and no attempt meets a fault. */
  predicate CleanFrom(env: Env, from: nat, rows: seq<Row>)
  {
    AllKeyed(rows) && forall a :: from <= a < from + |rows| ==> a !in env.faults
  }

  /** A clean run of writes is a clean first write followed by a clean run from the next attempt. */
  lemma CleanFromCons(env: Env, from: nat, rows: seq<Row>)
    requires rows != []
    ensures CleanFrom(env, from, rows)
        <==> KeyedRow(rows[0]) && from !in env.faults && CleanFrom(env, from + 1, rows[1..])
  {
    var rest := rows[1..];
    assert forall i :: 0 <= i < |rest| ==> rest[i] == rows[i + 1];
    if KeyedRow(rows[0]) && AllKeyed(rest) {
      forall i | 0 < i < |rows|
        ensures KeyedRow(rows[i])
      {
        assert rows[i] == rest[i - 1];
      }
    }
  }

  /**
   * The loop issues one write per row up to and including the first that
   * fails; it sends no request, and only the target table can change.
   */
  lemma {:induction false} UpsertAllFrame(s: State, env: Env, table: string, rows: seq<Row>)
    ensures var r := UpsertAll(s, env, table, rows).0;
      && r.trace == s.trace && r.lastRequestTime == s.lastRequestTime
      && s.attempts <= r.attempts <= s.attempts + |rows|
      && r.tables.Keys == s.tables.Keys
      && forall name :: name in s.tables && name != table ==> r.tables[name] == s.tables[name]
    decreases |rows|
  {
    if rows != [] {
      var (s1, e) := Write(s, env, table, rows[0]);
      if e.None? {
        UpsertAllFrame(s1, env, table, rows[1..]);
      }
    }
  }

  /** The clock moved on by `ms` milliseconds for each write issued between `s` and `r`. */
  predicate WritesTook(s: State, r: State, ms: nat)
  {
    r.now == s.now + (r.attempts - s.attempts) * ms
  }

  /** One more write of `ms` milliseconds in front of a run of writes. */
  lemma WritesTookStep(s: State, s1: State, r: State, ms: nat)
    requires s1.now == s.now + ms && s1.attempts == s.attempts + 1
    requires WritesTook(s1, r, ms)
    ensures WritesTook(s, r, ms)
  {
    assert (r.attempts - s1.attempts + 1) * ms == (r.attempts - s1.attempts) * ms + ms;
  }

  /** Each write the loop issues takes the store's write time. */
  lemma {:induction false} UpsertAllClock(s: State, env: Env, table: string, rows: seq<Row>)
    ensures WritesTook(s, UpsertAll(s, env, table, rows).0, env.writeMillis)
    decreases |rows|
  {
    if rows != [] {
      var w := Write(s, env, table, rows[0]);
      if w.1.None? {
        UpsertAllClock(w.0, env, table, rows[1..]);
        WritesTookStep(s, w.0, UpsertAll(w.0, env, table, rows[1..]).0, env.writeMillis);
      }
    }
  }

  /**
   * The loop completes exactly when every row can be written, and then the
   * table holds the rows merged in order; one write per row was issued.
   */
  lemma {:induction false} UpsertAllSucceeds(s: State, env: Env, table: string, rows: seq<Row>)
    ensures var (r, e) := UpsertAll(s, env, table, rows);
      && (e.None? <==> rows == [] || (table in s.tables && CleanFrom(env, s.attempts, rows)))
      && (e.None? ==> r.attempts == s.attempts + |rows|
                      && (table in s.tables ==> table in r.tables && r.tables[table] == Fold(s.tables[table], rows)))
    decreases |rows|
  {
    if rows != [] {
      var w := Write(s, env, table, rows[0]);
      CleanFromCons(env, s.attempts, rows);
      if w.1.None? {
        UpsertAllSucceeds(w.0, env, table, rows[1..]);
      }
    }
  }

  /** The number of writes the loop issues before it returns. */
  function Tried(s: State, env: Env, table: string, rows: seq<Row>): int
  {
    UpsertAll(s, env, table, rows).0.attempts - s.attempts
  }

  /**
   * When a write throws, nothing after it is attempted, and the error is the
   * one that write raises against the tables as they were before the loop.
   */
  lemma {:induction false} UpsertAllStops(s: State, env: Env, table: string, rows: seq<Row>)
    requires UpsertAll(s, env, table, rows).1.Some?
    ensures var n := Tried(s, env, table, rows);
      && 0 < n <= |rows|
      && UpsertAll(s, env, table, rows).1 == WriteError(env, s.attempts + n - 1, s.tables, table, rows[n - 1])
    decreases |rows|
  {
    var w := Write(s, env, table, rows[0]);
    if w.1.None? {
      var r := UpsertAll(w.0, env, table, rows[1..]);
      assert UpsertAll(s, env, table, rows) == r;
      UpsertAllStops(w.0, env, table, rows[1..]);
      var m := Tried(w.0, env, table, rows[1..]);
      assert Tried(s, env, table, rows) == m + 1;
      assert rows[1..][m - 1] == rows[m];
      WriteErrorOfKeys(env, s.attempts + m, w.0.tables, s.tables, table, rows[m]);
    }
  }

  /** A write's error depends on the tables only through which of them exist. */
  lemma WriteErrorOfKeys(env: Env, attempt: nat, t1: map<string, Table>, t2: map<string, Table>, table: string, item: Row)
    requires t1.Keys == t2.Keys
    ensures WriteError(env, attempt, t1, table, item) == WriteError(env, attempt, t2, table, item)
  {
  }

  /** When a write throws, every row before it could be written. */
  lemma {:induction false} UpsertAllCleanBefore(s: State, env: Env, table: string, rows: seq<Row>)
    requires UpsertAll(s, env, table, rows).1.Some?
    ensures var n := Tried(s, env, table, rows);
      0 < n <= |rows| && CleanFrom(env, s.attempts, rows[..n - 1])
    decreases |rows|
  {
    UpsertAllStops(s, env, table, rows);
    var w := Write(s, env, table, rows[0]);
    if w.1.None? {
      var r := UpsertAll(w.0, env, table, rows[1..]);
      assert UpsertAll(s, env, table, rows) == r;
      UpsertAllCleanBefore(w.0, env, table, rows[1..]);
      var n := Tried(s, env, table, rows);
      assert Tried(w.0, env, table, rows[1..]) == n - 1;
      var done := rows[..n - 1];
      assert done[0] == rows[0] && done[1..] == rows[1..][..n - 2];
      CleanFromCons(env, s.attempts, done);
    } else {
      assert rows[..0] == [];
    }
  }

  /** When a write throws, the table holds exactly the rows before it, merged in order. */
  lemma {:induction false} UpsertAllPartial(s: State, env: Env, table: string, rows: seq<Row>)
    requires UpsertAll(s, env, table, rows).1.Some?
    requires table in s.tables
    ensures var n := Tried(s, env, table, rows);
      && 0 < n <= |rows| && AllKeyed(rows[..n - 1])
      && table in UpsertAll(s, env, table, rows).0.tables
      && UpsertAll(s, env, table, rows).0.tables[table] == Fold(s.tables[table], rows[..n - 1])
    decreases |rows|
  {
    UpsertAllCleanBefore(s, env, table, rows);
    var w := Write(s, env, table, rows[0]);
    if w.1.None? {
      var r := UpsertAll(w.0, env, table, rows[1..]);
      assert UpsertAll(s, env, table, rows) == r;
      UpsertAllPartial(w.0, env, table, rows[1..]);
      var n := Tried(s, env, table, rows);
      assert Tried(w.0, env, table, rows[1..]) == n - 1;
      var done := rows[..n - 1];
      assert done[0] == rows[0] && done[1..] == rows[1..][..n - 2];
    } else {
      assert rows[..0] == [];
    }
  }

  /** The loop keeps the engine's invariant. */
  lemma {:induction false} UpsertAllGood(s: State, env: Env, table: string, rows: seq<Row>)
    requires Good(s)
    ensures Good(UpsertAll(s, env, table, rows).0)
    decreases |rows|
  {
    if rows != [] {
      WriteGood(s, env, table, rows[0]);
      var (s1, e) := Write(s, env, table, rows[0]);
      if e.None? {
        UpsertAllGood(s1, env, table, rows[1..]);
      }
    }
  }

  /**
   * One sync: walk every page of the resource first, then upsert the rows
   * collected, in order. An error escaping the walk (a log write that threw)
   * or a write error ends it; that error escapes to the caller.
   */
  function Sync<N>(s: State, env: Env, resource: string, table: string, since: Option<int>,
                   toRow: N -> Result<Row>, pages: seq<PageResult<N>>): (State, Option<string>)
    requires Answered(toRow, pages, 0)
  {
    var w := Walk(env, resource, since, toRow, pages, 0, s, None, []);
    match w.rows
    case Err(e) => (w.state, Some(e))
    case Ok(rows) => UpsertAll(w.state, env, table, rows)
  }

  /**
   * `syncOrders(hours)`: the filter bound is taken from the clock when the fetch
   * starts; a bound the `Date` range cannot hold throws before the first request.
   */
  function SyncOrders(s: State, env: Env, hours: Option<int>, pages: seq<PageResult<OrderNode>>): (State, Option<string>)
    requires Answered(MapOrder, pages, 0)
  {
    match OrdersFilter(hours, s.now)
    case Err(e) => (s, Some(e))
    case Ok(since) => Sync(s, env, "orders", OrdersTable, since, MapOrder, pages)
  }

  /**
   * When the look-back is out of the `Date` range, `syncOrders` throws
   * "Invalid time value" having sent no request and written nothing.
   */
  lemma SyncOrdersBadHours(s: State, env: Env, hours: Option<int>, pages: seq<PageResult<OrderNode>>)
    requires Answered(MapOrder, pages, 0)
    requires hours.Some? && hours.value != 0
    requires !(-MaxTime <= s.now - hours.value * 3600 * 1000 <= MaxTime)
    ensures SyncOrders(s, env, hours, pages) == (s, Some(InvalidTimeValue))
  {
  }

  function SyncProducts(s: State, env: Env, pages: seq<PageResult<ProductNode>>): (State, Option<string>)
    requires Answered(MapProduct, pages, 0)
  {
    Sync(s, env, "products", ProductsTable, None, MapProduct, pages)
  }

  function SyncCustomers(s: State, env: Env, pages: seq<PageResult<CustomerNode>>): (State, Option<string>)
    requires Answered(MapCustomer, pages, 0)
  {
    Sync(s, env, "customers", CustomersTable, None, MapCustomer, pages)
  }

  /**
   * A sync sends requests for its own resource only, after the ones already
   * sent, and changes no table but its own and the log.
   */
  lemma SyncFrame<N>(s: State, env: Env, resource: string, table: string, since: Option<int>,
                     toRow: N -> Result<Row>, pages: seq<PageResult<N>>)
    requires Answered(toRow, pages, 0)
    ensures var r := Sync(s, env, resource, table, since, toRow, pages).0;
      && |r.trace| > |s.trace| && r.trace[..|s.trace|] == s.trace
      && RequestsFor(r.trace, |s.trace|, resource)
      && (forall name :: name != LogTable ==> (name in r.tables <==> name in s.tables))
      && (forall name :: name in s.tables && name != LogTable && name != table ==> r.tables[name] == s.tables[name])
  {
    var w := Walk(env, resource, since, toRow, pages, 0, s, None, []);
    WalkResource(env, resource, since, toRow, pages, 0, s, None, []);
    WalkFrame(env, resource, since, toRow, pages, 0, s, None, []);
    if w.rows.Ok? {
      UpsertAllFrame(w.state, env, table, w.rows.value);
      var r := UpsertAll(w.state, env, table, w.rows.value).0;
      assert Sync(s, env, resource, table, since, toRow, pages).0 == r;
      assert r.trace == w.state.trace;
    }
  }

  /** A sync keeps the engine's invariant. */
  lemma SyncGood<N>(s: State, env: Env, resource: string, table: string, since: Option<int>,
                    toRow: N -> Result<Row>, pages: seq<PageResult<N>>)
    requires Answered(toRow, pages, 0)
    requires Good(s)
    ensures Good(Sync(s, env, resource, table, since, toRow, pages).0)
  {
    var w := Walk(env, resource, since, toRow, pages, 0, s, None, []);
    WalkGood(env, resource, since, toRow, pages, 0, s, None, []);
    if w.rows.Ok? {
      UpsertAllGood(w.state, env, table, w.rows.value);
    }
  }

  /**
   * What a sync stores, with `k` the first page that ends the walk: when it
   * returns without an error, its table holds the rows of pages `0` to `k`
   * merged in order. When the walk ends cleanly the sync succeeds exactly when
   * each of those rows can be written.
   */
  lemma SyncStores<N>(s: State, env: Env, resource: string, table: string, since: Option<int>,
                      toRow: N -> Result<Row>, pages: seq<PageResult<N>>, k: nat)
    requires k < |pages|
    requires forall j :: 0 <= j < k ==> Continues(toRow, pages[j])
    requires !Continues(toRow, pages[k])
    requires table != LogTable
    ensures Answered(toRow, pages, 0)
    ensures var rows := AllRows(toRow, pages[..k + 1]);
            var r := Sync(s, env, resource, table, since, toRow, pages);
      && (StopError(toRow, pages[k]).None? ==>
            (r.1.None? <==> rows == [] || (table in s.tables && CleanFrom(env, s.attempts, rows))))
      && (r.1.None? && table in s.tables ==>
            AllKeyed(rows) && table in r.0.tables && r.0.tables[table] == Fold(s.tables[table], rows))
  {
    WalkFromStart(env, resource, since, toRow, pages, k, s);
    WalkRowsFrom(env, resource, since, toRow, pages, 0, k, s, None, []);
    WalkFrame(env, resource, since, toRow, pages, 0, s, None, []);
    assert pages[0..k + 1] == pages[..k + 1];
    assert [] + AllRows(toRow, pages[..k + 1]) == AllRows(toRow, pages[..k + 1]);
    var w := Walk(env, resource, since, toRow, pages, 0, s, None, []);
    if w.rows.Ok? {
      var rows := w.rows.value;
      UpsertAllSucceeds(w.state, env, table, rows);
      UpsertAllFrame(w.state, env, table, rows);
      if UpsertAll(w.state, env, table, rows).1.None? && rows != [] && table in s.tables {
        assert table in w.state.tables;
        assert CleanFrom(env, w.state.attempts, rows);
      }
    }
  }

  /** The command-line options `run` reads: `--resource` and `--hours`. */
  datatype Options = Options(resource: Option<string>, hours: Option<int>)

  /** What the store answers to each resource's page requests, page by page. */
  datatype Upstream = Upstream(
    orders: seq<PageResult<OrderNode>>,
    products: seq<PageResult<ProductNode>>,
    customers: seq<PageResult<CustomerNode>>)

  /** The `switch`: a named resource selects its own sync; anything else (or nothing) selects all three. */
  predicate SyncsOrders(resource: Option<string>)
  {
    resource != Some("products") && resource != Some("customers")
  }

  predicate SyncsProducts(resource: Option<string>)
  {
    resource != Some("orders") && resource != Some("customers")
  }

  predicate SyncsCustomers(resource: Option<string>)
  {
    resource != Some("orders") && resource != Some("products")
  }

  /** Every walk the run may start ends (some page stops it). */
  ghost predicate Ready(opts: Options, up: Upstream)
  {
    && (SyncsOrders(opts.resource) ==> Answered(MapOrder, up.orders, 0))
    && (SyncsProducts(opts.resource) ==> Answered(MapProduct, up.products, 0))
    && (SyncsCustomers(opts.resource) ==> Answered(MapCustomer, up.customers, 0))
  }

  /** The `try` block's `switch`; the first error thrown ends it. */
  function Dispatch(s: State, env: Env, opts: Options, up: Upstream): (State, Option<string>)
    requires Ready(opts, up)
  {
    if opts.resource == Some("orders") then SyncOrders(s, env, opts.hours, up.orders)
    else if opts.resource == Some("products") then SyncProducts(s, env, up.products)
    else if opts.resource == Some("customers") then SyncCustomers(s, env, up.customers)
    else
      var (s1, e1) := SyncOrders(s, env, opts.hours, up.orders);
      if e1.Some? then (s1, e1)
      else
        var (s2, e2) := SyncProducts(s1, env, up.products);
        if e2.Some? then (s2, e2) else SyncCustomers(s2, env, up.customers)
  }

  /** `options.resource || 'all'`: the name the outcome is logged under. */
  function Scope(resource: Option<string>): (scope: string)
    ensures resource.Some? && resource.value != "" ==> scope == resource.value
    ensures resource.None? || resource.value == "" ==> scope == "all"
  {
    if resource.Some? && resource.value != "" then resource.value else "all"
  }

  /**
   * How `run` ends: its state, the error its `catch` caught (a sync's error, or
   * the completion log write's), and the error of the `catch`'s own log write,
   * which escapes `run` as a rejected promise.
   */
  datatype Outcome = Outcome(state: State, caught: Option<string>, escaped: Option<string>)

  /**
   * The end of `run` once the `switch` is over with state `s` and error `e`: the
   * completion log entry when nothing was thrown, and the `catch`, which logs
   * what was thrown (a sync's error, or the completion write's) under `scope`.
   */
  function Conclude(s: State, env: Env, e: Option<string>, scope: string): Outcome
  {
    if e.None? then
      var (s1, e1) := SaveLog(s, env, "Sync completed", scope);
      if e1.None? then Outcome(s1, None, None)
      else
        var (s2, e2) := SaveLog(s1, env, e1.value, scope);
        Outcome(s2, e1, e2)
    else
      var (s1, e1) := SaveLog(s, env, e.value, scope);
      Outcome(s1, e, e1)
  }

  /**
   * How a run whose `switch` left state `s` and threw `e` ends: an error thrown
   * there is the one caught, and an error escapes only when something was
   * caught, with no table changed. Otherwise the last write, one write time ago,
   * is the outcome's log entry under `scope`, merged into the log with every
   * other entry and table of `s` kept.
   */
  ghost predicate EndsLogged(r: Outcome, s: State, env: Env, e: Option<string>, scope: string)
  {
    && (e.Some? ==> r.caught == e)
    && (r.escaped.Some? ==> r.caught.Some? && r.state.tables == s.tables)
    && (r.escaped.None? ==>
          var message := if r.caught.None? then "Sync completed" else r.caught.value;
          && Logged(r.state, r.state.now - env.writeMillis, message, scope)
          && LogTable in s.tables
          && r.state.tables == s.tables[LogTable := WithLogEntry(s.tables[LogTable], r.state.now - env.writeMillis, message, scope)])
  }

  /**
   * The end of every run is a log entry under the scope, written as the last
   * write: "Sync completed" when nothing was caught, else the caught error's
   * message. A thrown error is the one caught, and only the `catch`'s own log
   * write can let an error escape.
   */
  lemma ConcludeLogs(s: State, env: Env, e: Option<string>, scope: string)
    ensures EndsLogged(Conclude(s, env, e, scope), s, env, e, scope)
  {
    if e.None? {
      var (s1, e1) := SaveLog(s, env, "Sync completed", scope);
      if e1.Some? {
        var s2 := SaveLog(s1, env, e1.value, scope).0;
        assert s2.now - env.writeMillis == s1.now;
      }
    }
  }

  function Run(s: State, env: Env, opts: Options, up: Upstream): Outcome
    requires Ready(opts, up)
  {
    var d := Dispatch(s, env, opts, up);
    Conclude(d.0, env, d.1, Scope(opts.resource))
  }

  /**
   * Every run ends with a log entry under `options.resource || 'all'`, written
   * as the last write: "Sync completed" when nothing was caught, else the caught
   * error's message. The error a sync throws is the one caught, and only the
   * `catch`'s own log write can let an error escape.
   */
  lemma RunLogsOutcome(s: State, env: Env, opts: Options, up: Upstream)
    requires Ready(opts, up)
    ensures EndsLogged(Run(s, env, opts, up), Dispatch(s, env, opts, up).0, env, Dispatch(s, env, opts, up).1, Scope(opts.resource))
  {
    var d := Dispatch(s, env, opts, up);
    assert Run(s, env, opts, up) == Conclude(d.0, env, d.1, Scope(opts.resource));
    ConcludeLogs(d.0, env, d.1, Scope(opts.resource));
  }

  /** The order `run` visits the resources in. */
  function Rank(resource: string): nat
  {
    if resource == "orders" then 0
    else if resource == "products" then 1
    else if resource == "customers" then 2
    else 3
  }

  /** The requests from position `from` on never go back to an earlier resource. */
  ghost predicate InOrder(trace: seq<Request>, from: nat)
  {
    forall a, b :: from <= a < b < |trace| ==> Rank(trace[a].resource) <= Rank(trace[b].resource)
  }

  /** The requests from position `from` on are for resources up to `rank`. */
  ghost predicate RanksUpTo(trace: seq<Request>, from: nat, rank: nat)
  {
    forall t :: from <= t < |trace| ==> Rank(trace[t].resource) <= rank
  }

  /** The resource `resource` is among those the run syncs. */
  predicate Selected(opt: Option<string>, resource: string)
  {
    || (resource == "orders" && SyncsOrders(opt))
    || (resource == "products" && SyncsProducts(opt))
    || (resource == "customers" && SyncsCustomers(opt))
  }

  ghost predicate AllSelected(trace: seq<Request>, from: nat, opt: Option<string>)
  {
    forall t :: from <= t < |trace| ==> Selected(opt, trace[t].resource)
  }

  /** Requests for one resource appended after requests of no later resource keep the order. */
  lemma InOrderAppend(t1: seq<Request>, t2: seq<Request>, from: nat, resource: string)
    requires from <= |t1| <= |t2| && t2[..|t1|] == t1
    requires InOrder(t1, from) && RanksUpTo(t1, from, Rank(resource))
    requires RequestsFor(t2, |t1|, resource)
    ensures InOrder(t2, from) && RanksUpTo(t2, from, Rank(resource))
  {
    forall a, b | from <= a < b < |t2|
      ensures Rank(t2[a].resource) <= Rank(t2[b].resource)
    {
      if b < |t1| {
        assert t2[a] == t1[a] && t2[b] == t1[b];
      } else if a < |t1| {
        assert t2[a] == t1[a];
      }
    }
    forall t | from <= t < |t2|
      ensures Rank(t2[t].resource) <= Rank(resource)
    {
      if t < |t1| {
        assert t2[t] == t1[t];
      }
    }
  }

  /** A request for a selected resource appended to requests for selected resources. */
  lemma SelectedAppend(t1: seq<Request>, t2: seq<Request>, from: nat, opt: Option<string>, resource: string)
    requires from <= |t1| <= |t2| && t2[..|t1|] == t1
    requires AllSelected(t1, from, opt) && Selected(opt, resource)
    requires RequestsFor(t2, |t1|, resource)
    ensures AllSelected(t2, from, opt)
  {
    forall t | from <= t < |t2|
      ensures Selected(opt, t2[t].resource)
    {
      if t < |t1| {
        assert t2[t] == t1[t];
      }
    }
  }

  /** What one sync of the run does to the trace and to the other tables. */
  ghost predicate SyncStep(s: State, r: State, resource: string, table: string)
  {
    && |r.trace| >= |s.trace| && r.trace[..|s.trace|] == s.trace
    && RequestsFor(r.trace, |s.trace|, resource)
    && (forall name :: name != LogTable ==> (name in r.tables <==> name in s.tables))
    && (forall name :: name in s.tables && name != LogTable && name != table ==> r.tables[name] == s.tables[name])
  }

  lemma SyncOrdersStep(s: State, env: Env, hours: Option<int>, pages: seq<PageResult<OrderNode>>)
    requires Answered(MapOrder, pages, 0)
    ensures SyncStep(s, SyncOrders(s, env, hours, pages).0, "orders", OrdersTable)
  {
    if OrdersFilter(hours, s.now).Ok? {
      SyncFrame(s, env, "orders", OrdersTable, OrdersFilter(hours, s.now).value, MapOrder, pages);
    }
  }

  lemma SyncProductsStep(s: State, env: Env, pages: seq<PageResult<ProductNode>>)
    requires Answered(MapProduct, pages, 0)
    ensures SyncStep(s, SyncProducts(s, env, pages).0, "products", ProductsTable)
  {
    SyncFrame(s, env, "products", ProductsTable, None, MapProduct, pages);
  }

  lemma SyncCustomersStep(s: State, env: Env, pages: seq<PageResult<CustomerNode>>)
    requires Answered(MapCustomer, pages, 0)
    ensures SyncStep(s, SyncCustomers(s, env, pages).0, "customers", CustomersTable)
  {
    SyncFrame(s, env, "customers", CustomersTable, None, MapCustomer, pages);
  }

  /** Two sync steps in a row make one, for the tables neither sync owns. */
  lemma SyncStepsChain(s: State, s1: State, s2: State, r1: string, t1: string, r2: string, t2: string)
    requires SyncStep(s, s1, r1, t1) && SyncStep(s1, s2, r2, t2)
    ensures |s2.trace| >= |s.trace| && s2.trace[..|s.trace|] == s.trace
    ensures forall name :: name != LogTable ==> (name in s2.tables <==> name in s.tables)
    ensures forall name :: name in s.tables && name != LogTable && name != t1 && name != t2 ==> s2.tables[name] == s.tables[name]
  {
    assert s2.trace[..|s.trace|] == s2.trace[..|s1.trace|][..|s.trace|];
  }

  /**
   * What the `switch` may do to the trace and the tables: its requests go only
   * to the selected resources, orders before products before customers, and the
   * table of a resource that is not selected does not change.
   */
  ghost predicate SwitchEffect(s: State, r: State, opt: Option<string>)
  {
    && |r.trace| >= |s.trace| && r.trace[..|s.trace|] == s.trace
    && InOrder(r.trace, |s.trace|) && AllSelected(r.trace, |s.trace|, opt)
    && (forall name :: name != LogTable ==> (name in r.tables <==> name in s.tables))
    && (forall name :: name in s.tables && name != LogTable
                       && (name == OrdersTable ==> !SyncsOrders(opt))
                       && (name == ProductsTable ==> !SyncsProducts(opt))
                       && (name == CustomersTable ==> !SyncsCustomers(opt))
                       ==> r.tables[name] == s.tables[name])
  }

  /** One sync of a named resource has the effect the `switch` allows. */
  lemma SingleEffect(s: State, r: State, opt: Option<string>, resource: string, table: string)
    requires opt == Some(resource) && Selected(opt, resource)
    requires resource == "orders" ==> table == OrdersTable
    requires resource == "products" ==> table == ProductsTable
    requires resource == "customers" ==> table == CustomersTable
    requires SyncStep(s, r, resource, table)
    ensures SwitchEffect(s, r, opt)
  {
    InOrderAppend(s.trace, r.trace, |s.trace|, resource);
    SelectedAppend(s.trace, r.trace, |s.trace|, opt, resource);
  }

  /** The default branch: orders, then products, then customers, each only if the one before did not throw. */
  lemma DefaultEffect(s: State, env: Env, opts: Options, up: Upstream)
    requires Ready(opts, up)
    requires SyncsOrders(opts.resource) && SyncsProducts(opts.resource) && SyncsCustomers(opts.resource)
    ensures SwitchEffect(s, Dispatch(s, env, opts, up).0, opts.resource)
  {
    var o := opts.resource;
    var base := s.trace;
    var (s1, e1) := SyncOrders(s, env, opts.hours, up.orders);
    SyncOrdersStep(s, env, opts.hours, up.orders);
    InOrderAppend(base, s1.trace, |base|, "orders");
    SelectedAppend(base, s1.trace, |base|, o, "orders");
    if e1.None? {
      var (s2, e2) := SyncProducts(s1, env, up.products);
      SyncProductsStep(s1, env, up.products);
      InOrderAppend(s1.trace, s2.trace, |base|, "products");
      SelectedAppend(s1.trace, s2.trace, |base|, o, "products");
      SyncStepsChain(s, s1, s2, "orders", OrdersTable, "products", ProductsTable);
      if e2.None? {
        var s3 := SyncCustomers(s2, env, up.customers).0;
        SyncCustomersStep(s2, env, up.customers);
        assert s3.trace[..|base|] == s3.trace[..|s2.trace|][..|base|];
        InOrderAppend(s2.trace, s3.trace, |base|, "customers");
        SelectedAppend(s2.trace, s3.trace, |base|, o, "customers");
      }
    }
  }

  lemma DispatchEffect(s: State, env: Env, opts: Options, up: Upstream)
    requires Ready(opts, up)
    ensures SwitchEffect(s, Dispatch(s, env, opts, up).0, opts.resource)
  {
    var o := opts.resource;
    if o == Some("orders") {
      SyncOrdersStep(s, env, opts.hours, up.orders);
      SingleEffect(s, Dispatch(s, env, opts, up).0, o, "orders", OrdersTable);
    } else if o == Some("products") {
      SyncProductsStep(s, env, up.products);
      SingleEffect(s, Dispatch(s, env, opts, up).0, o, "products", ProductsTable);
    } else if o == Some("customers") {
      SyncCustomersStep(s, env, up.customers);
      SingleEffect(s, Dispatch(s, env, opts, up).0, o, "customers", CustomersTable);
    } else {
      DefaultEffect(s, env, opts, up);
    }
  }

  /** A log write changes neither the trace nor any table but the log. */
  lemma SaveLogKeepsEffect(s: State, r: State, env: Env, opt: Option<string>, message: string, scope: string)
    requires SwitchEffect(s, r, opt)
    ensures SwitchEffect(s, SaveLog(r, env, message, scope).0, opt)
  {
  }

  /**
   * A whole run sends requests only for the resources it selects, all the
   * orders requests before the products requests before the customers
   * requests, and leaves the table of every resource it does not select as it
   * was.
   */
  lemma RunEffect(s: State, env: Env, opts: Options, up: Upstream)
    requires Ready(opts, up)
    ensures SwitchEffect(s, Run(s, env, opts, up).state, opts.resource)
  {
    DispatchEffect(s, env, opts, up);
    var (s1, e) := Dispatch(s, env, opts, up);
    var scope := Scope(opts.resource);
    if e.None? {
      SaveLogKeepsEffect(s, s1, env, opts.resource, "Sync completed", scope);
      var (s2, e2) := SaveLog(s1, env, "Sync completed", scope);
      if e2.Some? {
        SaveLogKeepsEffect(s, s2, env, opts.resource, e2.value, scope);
      }
    } else {
      SaveLogKeepsEffect(s, s1, env, opts.resource, e.value, scope);
    }
  }

  /**
   * In the default branch the first sync that throws ends the `try` block: the
   * resources after it are not requested and their tables are not touched.
   */
  lemma RunStopsAtFirstError(s: State, env: Env, opts: Options, up: Upstream)
    requires Ready(opts, up)
    requires SyncsOrders(opts.resource) && SyncsProducts(opts.resource) && SyncsCustomers(opts.resource)
    ensures var r := Run(s, env, opts, up);
            var (s1, e1) := SyncOrders(s, env, opts.hours, up.orders);
      && (e1.Some? ==>
            && r.caught == e1 && RanksUpTo(r.state.trace, |s.trace|, Rank("orders"))
            && (ProductsTable in s.tables ==> ProductsTable in r.state.tables && r.state.tables[ProductsTable] == s.tables[ProductsTable])
            && (CustomersTable in s.tables ==> CustomersTable in r.state.tables && r.state.tables[CustomersTable] == s.tables[CustomersTable]))
      && (e1.None? && SyncProducts(s1, env, up.products).1.Some? ==>
            && r.caught == SyncProducts(s1, env, up.products).1
            && RanksUpTo(r.state.trace, |s.trace|, Rank("products"))
            && (CustomersTable in s.tables ==> CustomersTable in r.state.tables && r.state.tables[CustomersTable] == s.tables[CustomersTable]))
  {
    RunEffect(s, env, opts, up);
    var (s1, e1) := SyncOrders(s, env, opts.hours, up.orders);
    var scope := Scope(opts.resource);
    SyncOrdersStep(s, env, opts.hours, up.orders);
    InOrderAppend(s.trace, s1.trace, |s.trace|, "orders");
    if e1.Some? {
      assert Dispatch(s, env, opts, up) == (s1, e1);
    } else {
      var (s2, e2) := SyncProducts(s1, env, up.products);
      if e2.Some? {
        assert Dispatch(s, env, opts, up) == (s2, e2);
        SyncProductsStep(s1, env, up.products);
        InOrderAppend(s1.trace, s2.trace, |s.trace|, "products");
        SyncStepsChain(s, s1, s2, "orders", OrdersTable, "products", ProductsTable);
      }
    }
  }

  /** Page `k` is the first page that ends the walk. */
  predicate StopsAt<N>(toRow: N -> Result<Row>, pages: seq<PageResult<N>>, k: nat)
  {
    && k < |pages|
    && (forall j :: 0 <= j < k ==> Continues(toRow, pages[j]))
    && !Continues(toRow, pages[k])
  }

  lemma StopsAtAnswered<N>(toRow: N -> Result<Row>, pages: seq<PageResult<N>>, k: nat)
    requires StopsAt(toRow, pages, k)
    ensures Answered(toRow, pages, 0)
  {
    assert !Continues(toRow, pages[k]);
  }

  /** Some request from position `from` on goes to `resource`. */
  ghost predicate Requested(trace: seq<Request>, from: nat, resource: string)
  {
    exists t :: from <= t < |trace| && trace[t].resource == resource
  }

  /** If `table` existed in `s`, in `r` it holds `rows` merged into its old rows, in order. */
  ghost predicate Stored(s: State, r: State, table: string, rows: seq<Row>)
  {
    table in s.tables ==> AllKeyed(rows) && table in r.tables && r.tables[table] == Fold(s.tables[table], rows)
  }

  /**
   * A sync that returns without an error sent a request for its resource, and
   * its table holds the rows of the pages up to the one that ended the walk.
   */
  lemma SyncDone<N>(s: State, env: Env, resource: string, table: string, since: Option<int>,
                    toRow: N -> Result<Row>, pages: seq<PageResult<N>>, k: nat)
    requires StopsAt(toRow, pages, k) && table != LogTable
    ensures Answered(toRow, pages, 0)
    ensures var r := Sync(s, env, resource, table, since, toRow, pages);
      r.1.None? ==>
        && |r.0.trace| > |s.trace| && r.0.trace[|s.trace|].resource == resource
        && Stored(s, r.0, table, AllRows(toRow, pages[..k + 1]))
  {
    SyncStores(s, env, resource, table, since, toRow, pages, k);
    SyncFrame(s, env, resource, table, since, toRow, pages);
  }

  /** The tables and requests a later step keeps from an earlier one. */
  lemma StoredKept(s: State, s1: State, r: State, table: string, other: string, rows: seq<Row>, resource: string)
    requires Stored(s, s1, table, rows) && table != other && table != LogTable
    requires |s1.trace| > |s.trace| && s1.trace[|s.trace|].resource == resource
    requires |r.trace| >= |s1.trace| && r.trace[..|s1.trace|] == s1.trace
    requires forall name :: name in s1.tables && name != LogTable && name != other ==> name in r.tables && r.tables[name] == s1.tables[name]
    ensures Stored(s, r, table, rows)
    ensures |r.trace| > |s.trace| && r.trace[|s.trace|].resource == resource
  {
    assert r.trace[|s.trace|] == r.trace[..|s1.trace|][|s.trace|];
  }

  /**
   * The default branch of the `switch`, when nothing throws: each of the three
   * syncs requests its resource, and each table ends up holding its resource's
   * rows merged in order.
   */
  lemma DefaultDispatchStores(s: State, env: Env, opts: Options, up: Upstream, ko: nat, kp: nat, kc: nat)
    requires SyncsOrders(opts.resource) && SyncsProducts(opts.resource) && SyncsCustomers(opts.resource)
    requires StopsAt(MapOrder, up.orders, ko) && StopsAt(MapProduct, up.products, kp) && StopsAt(MapCustomer, up.customers, kc)
    ensures Ready(opts, up)
    ensures var d := Dispatch(s, env, opts, up);
      d.1.None? ==>
        && Requested(d.0.trace, |s.trace|, "orders")
        && Requested(d.0.trace, |s.trace|, "products")
        && Requested(d.0.trace, |s.trace|, "customers")
        && Stored(s, d.0, OrdersTable, AllRows(MapOrder, up.orders[..ko + 1]))
        && Stored(s, d.0, ProductsTable, AllRows(MapProduct, up.products[..kp + 1]))
        && Stored(s, d.0, CustomersTable, AllRows(MapCustomer, up.customers[..kc + 1]))
  {
    StopsAtAnswered(MapOrder, up.orders, ko);
    StopsAtAnswered(MapProduct, up.products, kp);
    StopsAtAnswered(MapCustomer, up.customers, kc);
    var f := OrdersFilter(opts.hours, s.now);
    var (s1, e1) := SyncOrders(s, env, opts.hours, up.orders);
    if e1.None? {
      var (s2, e2) := SyncProducts(s1, env, up.products);
      if e2.None? {
        var (s3, e3) := SyncCustomers(s2, env, up.customers);
        if e3.None? {
          assert f.Ok?;
          assert Dispatch(s, env, opts, up) == (s3, e3);
          SyncDone(s, env, "orders", OrdersTable, f.value, MapOrder, up.orders, ko);
          SyncDone(s1, env, "products", ProductsTable, None, MapProduct, up.products, kp);
          SyncDone(s2, env, "customers", CustomersTable, None, MapCustomer, up.customers, kc);
          SyncOrdersStep(s, env, opts.hours, up.orders);
          SyncProductsStep(s1, env, up.products);
          SyncCustomersStep(s2, env, up.customers);
          ChainStores(s, s1, s2, s3, AllRows(MapOrder, up.orders[..ko + 1]),
                      AllRows(MapProduct, up.products[..kp + 1]), AllRows(MapCustomer, up.customers[..kc + 1]));
        }
      }
    }
  }

  /** Three sync steps in a row, each storing its own rows, store all three. */
  lemma ChainStores(s: State, s1: State, s2: State, s3: State, orderRows: seq<Row>, productRows: seq<Row>, customerRows: seq<Row>)
    requires SyncStep(s, s1, "orders", OrdersTable) && SyncStep(s1, s2, "products", ProductsTable)
    requires SyncStep(s2, s3, "customers", CustomersTable)
    requires |s1.trace| > |s.trace| && s1.trace[|s.trace|].resource == "orders"
    requires |s2.trace| > |s1.trace| && s2.trace[|s1.trace|].resource == "products"
    requires |s3.trace| > |s2.trace| && s3.trace[|s2.trace|].resource == "customers"
    requires Stored(s, s1, OrdersTable, orderRows) && Stored(s1, s2, ProductsTable, productRows)
    requires Stored(s2, s3, CustomersTable, customerRows)
    ensures Requested(s3.trace, |s.trace|, "orders")
    ensures Requested(s3.trace, |s.trace|, "products")
    ensures Requested(s3.trace, |s.trace|, "customers")
    ensures Stored(s, s3, OrdersTable, orderRows)
    ensures Stored(s, s3, ProductsTable, productRows)
    ensures Stored(s, s3, CustomersTable, customerRows)
  {
    StoredKept(s, s1, s2, OrdersTable, ProductsTable, orderRows, "orders");
    StoredKept(s, s2, s3, OrdersTable, CustomersTable, orderRows, "orders");
    StoredKept(s1, s2, s3, ProductsTable, CustomersTable, productRows, "products");
    StoredEarlier(s, s1, s3, ProductsTable, OrdersTable, productRows);
    StoredEarlier(s, s2, s3, CustomersTable, ProductsTable, customerRows);
    assert s3.trace[|s.trace|].resource == "orders";
    assert s3.trace[|s1.trace|].resource == "products";
    assert s3.trace[|s2.trace|].resource == "customers";
  }

  /** A table that a step before `s1` left alone is stored from `s` as from `s1`. */
  lemma StoredEarlier(s: State, s1: State, r: State, table: string, other: string, rows: seq<Row>)
    requires Stored(s1, r, table, rows)
    requires table in s.tables ==> table in s1.tables && s1.tables[table] == s.tables[table]
    ensures Stored(s, r, table, rows)
  {
  }

  /**
   * The default branch does sync all three resources: when the run catches
   * nothing, it requested orders, products and customers, each of the three
   * tables holds the rows of its resource's pages up to the page that ended
   * that walk, merged in order, and the last write is "Sync completed".
   */
  lemma DefaultStores(s: State, env: Env, opts: Options, up: Upstream, ko: nat, kp: nat, kc: nat)
    requires SyncsOrders(opts.resource) && SyncsProducts(opts.resource) && SyncsCustomers(opts.resource)
    requires StopsAt(MapOrder, up.orders, ko) && StopsAt(MapProduct, up.products, kp) && StopsAt(MapCustomer, up.customers, kc)
    ensures Ready(opts, up)
    ensures var r := Run(s, env, opts, up);
      r.caught.None? ==>
        && Requested(r.state.trace, |s.trace|, "orders")
        && Requested(r.state.trace, |s.trace|, "products")
        && Requested(r.state.trace, |s.trace|, "customers")
        && Stored(s, r.state, OrdersTable, AllRows(MapOrder, up.orders[..ko + 1]))
        && Stored(s, r.state, ProductsTable, AllRows(MapProduct, up.products[..kp + 1]))
        && Stored(s, r.state, CustomersTable, AllRows(MapCustomer, up.customers[..kc + 1]))
        && Logged(r.state, r.state.now - env.writeMillis, "Sync completed", Scope(opts.resource))
  {
    DefaultDispatchStores(s, env, opts, up, ko, kp, kc);
    RunLogsOutcome(s, env, opts, up);
    var d := Dispatch(s, env, opts, up);
    var r := Run(s, env, opts, up);
    if r.caught.None? {
      assert d.1.None?;
      assert r.state == SaveLog(d.0, env, "Sync completed", Scope(opts.resource)).0;
    }
  }

  /** A run keeps the engine's invariant: its requests are spaced by the rate limit throughout. */
  lemma RunGood(s: State, env: Env, opts: Options, up: Upstream)
    requires Ready(opts, up) && Good(s)
    ensures Good(Run(s, env, opts, up).state)
  {
    var o := opts.resource;
    var h := opts.hours;
    if o == Some("orders") {
      if OrdersFilter(h, s.now).Ok? {
        SyncGood(s, env, "orders", OrdersTable, OrdersFilter(h, s.now).value, MapOrder, up.orders);
      }
    } else if o == Some("products") {
      SyncGood(s, env, "products", ProductsTable, None, MapProduct, up.products);
    } else if o == Some("customers") {
      SyncGood(s, env, "customers", CustomersTable, None, MapCustomer, up.customers);
    } else {
      var (s1, e1) := SyncOrders(s, env, h, up.orders);
      if OrdersFilter(h, s.now).Ok? {
        SyncGood(s, env, "orders", OrdersTable, OrdersFilter(h, s.now).value, MapOrder, up.orders);
      }
      if e1.None? {
        var (s2, e2) := SyncProducts(s1, env, up.products);
        SyncGood(s1, env, "products", ProductsTable, None, MapProduct, up.products);
        if e2.None? {
          SyncGood(s2, env, "customers", CustomersTable, None, MapCustomer, up.customers);
        }
      }
    }
    var (s1, e) := Dispatch(s, env, opts, up);
    var scope := Scope(o);
    if e.None? {
      SaveLogGood(s1, env, "Sync completed", scope);
      var (s2, e2) := SaveLog(s1, env, "Sync completed", scope);
      if e2.Some? {
        SaveLogGood(s2, env, e2.value, scope);
      }
    } else {
      SaveLogGood(s1, env, e.value, scope);
    }
  }
}
