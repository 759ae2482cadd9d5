/**
 * The state the synchronisation engine changes, as a value, and the three
 * primitive steps on it: one rate-limited upstream request, one `upsert`, and
 * one `saveLog`. The engine class keeps exactly this state in its fields.
 */
module Machine {
  import opened Wrappers
  import opened Rows
  import Merge
  import RateLimit

  const OrdersTable: string := "dbo.ShopifyOrders"
  const ProductsTable: string := "dbo.ShopifyProducts"
  const CustomersTable: string := "dbo.ShopifyCustomers"
  const LogTable: string := "dbo.SyncLogs"

  /** Every call of `upsert` merges on this column. */
  const KeyColumn: string := "Id"

  /**
   * One upstream request: the connection it reads (`orders`, `products` or
   * `customers`), when it left (after the rate-limit wait), and the optional
   * `after:` and `updated_at:>=` clauses of its query.
   */
  datatype Request = Request(resource: string, start: int, after: Option<string>, updatedSince: Option<int>)

  /**
   * What the store and the clock do that the engine does not decide: the write
   * attempts that fail (numbered from 0, with the error message they throw) and
   * how many milliseconds each write takes.
   */
  datatype Env = Env(faults: map<nat, string>, writeMillis: nat)

  /**
   * `now` is what `Date.now()` returns; `lastRequestTime` is the module variable
   * of the same name; `tables` maps each table name to its rows; `attempts` counts
   * the writes issued so far; `trace` lists the requests sent upstream.
   */
  datatype State = State(now: int, lastRequestTime: int, tables: map<string, Table>, attempts: nat, trace: seq<Request>)

  /** Any two upstream requests started at least one interval apart. */
  ghost predicate Spaced(trace: seq<Request>)
  {
    forall i, j :: 0 <= i < j < |trace| ==> trace[i].start + RateLimit.Interval <= trace[j].start
  }

  /** Every request from position `from` on goes to `resource`. */
  ghost predicate RequestsFor(trace: seq<Request>, from: nat, resource: string)
  {
    forall t :: from <= t < |trace| ==> trace[t].resource == resource
  }

  /** The invariant the engine keeps. */
  ghost predicate Good(s: State)
  {
    && s.lastRequestTime <= s.now
    && Spaced(s.trace)
    && (s.trace != [] ==> s.trace[|s.trace| - 1].start == s.lastRequestTime)
    && (forall name :: name in s.tables ==> Keyed(s.tables[name], KeyColumn))
  }

  /** `after ? ", after: …" : ""`: the clause is sent only for a truthy cursor. */
  function AfterClause(after: Option<string>): (clause: Option<string>)
    ensures clause.Some? <==> after.Some? && after.value != ""
    ensures clause.Some? ==> clause == after
  {
    if after.Some? && after.value != "" then after else None
  }

  /**
   * `rateLimitedPost`: sleep for `Wait`, record the start time in
   * `lastRequestTime`, then spend `took` milliseconds on the request itself.
   */
  function Posted(s: State, resource: string, after: Option<string>, since: Option<int>, took: nat): (r: State)
    ensures r.tables == s.tables && r.attempts == s.attempts
    ensures r.lastRequestTime == s.now + RateLimit.Wait(s.now, s.lastRequestTime)
    ensures r.lastRequestTime >= s.lastRequestTime + RateLimit.Interval
    ensures r.trace == s.trace + [Request(resource, r.lastRequestTime, AfterClause(after), since)]
    ensures r.now == r.lastRequestTime + took
  {
    var start := s.now + RateLimit.Wait(s.now, s.lastRequestTime);
    s.(now := start + took, lastRequestTime := start,
       trace := s.trace + [Request(resource, start, AfterClause(after), since)])
  }

  /** Successive requests start at least one interval apart, so a request keeps the invariant. */
  lemma PostedGood(s: State, resource: string, after: Option<string>, since: Option<int>, took: nat)
    requires Good(s)
    ensures Good(Posted(s, resource, after, since, took))
  {
    var r := Posted(s, resource, after, since, took);
    forall i, j | 0 <= i < j < |r.trace|
      ensures r.trace[i].start + RateLimit.Interval <= r.trace[j].start
    {
      if j == |r.trace| - 1 && i < |s.trace| - 1 {
        assert s.trace[i].start + RateLimit.Interval <= s.trace[|s.trace| - 1].start;
      }
    }
  }

  /** SQL Server's messages for the writes the store itself rejects. */
  function InvalidObject(table: string): string
  {
    "Invalid object name '" + table + "'."
  }

  function InvalidColumn(column: string): string
  {
    "Invalid column name '" + column + "'."
  }

  function NullKey(column: string, table: string): string
  {
    "Cannot insert the value NULL into column '" + column + "', table '" + table + "'; column does not allow nulls. INSERT fails."
  }

  /** The error, if any, that `upsert(table, 'Id', item)` throws as write attempt `attempt`. */
  function WriteError(env: Env, attempt: nat, tables: map<string, Table>, table: string, item: Row): Option<string>
  {
    if attempt in env.faults then Some(env.faults[attempt])
    else if table !in tables then Some(InvalidObject(table))
    else if KeyColumn !in Bindings(item) then Some(InvalidColumn(KeyColumn))
    else if Bindings(item)[KeyColumn] == Null then Some(NullKey(KeyColumn, table))
    else None
  }

  /**
   * `upsert(table, 'Id', item)`: one write attempt. It succeeds exactly when the
   * store raises no fault, the table exists and the item has a non-null key; then
   * the named table is merged with the item and no other table changes. On an
   * error no table changes. The attempt is counted and takes its time either way.
   */
  function Write(s: State, env: Env, table: string, item: Row): (r: (State, Option<string>))
    ensures r.0.now == s.now + env.writeMillis && r.0.attempts == s.attempts + 1
    ensures r.0.lastRequestTime == s.lastRequestTime && r.0.trace == s.trace
    ensures r.1.None? <==>
      s.attempts !in env.faults && table in s.tables && KeyColumn in Bindings(item) && Bindings(item)[KeyColumn] != Null
    ensures r.1.Some? ==> r.0.tables == s.tables
    ensures r.1.None? ==> r.0.tables == s.tables[table := Merge.Apply(s.tables[table], KeyColumn, item)]
  {
    var err := WriteError(env, s.attempts, s.tables, table, item);
    var s1 := s.(now := s.now + env.writeMillis, attempts := s.attempts + 1);
    if err.Some? then (s1, err)
    else (s1.(tables := s.tables[table := Merge.Apply(s.tables[table], KeyColumn, item)]), None)
  }

  lemma WriteGood(s: State, env: Env, table: string, item: Row)
    requires Good(s)
    ensures Good(Write(s, env, table, item).0)
  {
  }

  /** The object `saveLog` writes: `Date.now()` as its key and `new Date()` as its creation time. */
  function LogItem(now: int, message: string, resource: string): Row
  {
    [Field("Id", Int(now)), Field("Resource", Str(resource)), Field("Message", Str(message)), Field("CreatedAt", Time(now))]
  }

  /** The parameters of a log entry. */
  lemma LogItemBindings(now: int, message: string, resource: string)
    ensures Bindings(LogItem(now, message, resource))
      == map["Id" := Int(now), "Resource" := Str(resource), "Message" := Str(message), "CreatedAt" := Time(now)]
  {
    var item := LogItem(now, message, resource);
    assert item[..3][..2][..1][..0] == [];
    assert item[..3][..2] == item[..2] && item[..2][..1] == item[..1] && item[..3][2] == item[2];
    assert Bindings(item[..1]) == map["Id" := Int(now)];
    assert Bindings(item[..2]) == map["Id" := Int(now), "Resource" := Str(resource)];
    assert Bindings(item[..3]) == map["Id" := Int(now), "Resource" := Str(resource), "Message" := Str(message)];
  }

  /** A log table with the entry `saveLog` writes at `now` merged into it. */
  function WithLogEntry(t: Table, now: int, message: string, resource: string): Table
  {
    LogItemBindings(now, message, resource);
    Merge.Apply(t, KeyColumn, LogItem(now, message, resource))
  }

  /**
   * `saveLog(message, resource)`: upsert a log entry keyed by the current
   * millisecond. When it succeeds, the log table is the old one merged with
   * that entry: it holds an entry for that millisecond with this message and
   * resource, and every other entry is as it was. When it throws, no table
   * changes. No other table changes either way.
   */
  function SaveLog(s: State, env: Env, message: string, resource: string): (r: (State, Option<string>))
    ensures r.0.trace == s.trace && r.0.attempts == s.attempts + 1
    ensures r.0.lastRequestTime == s.lastRequestTime && r.0.now == s.now + env.writeMillis
    ensures r.1.None? <==> s.attempts !in env.faults && LogTable in s.tables
    ensures r.1.None? ==> Logged(r.0, s.now, message, resource)
    ensures r.1.None? ==> r.0.tables[LogTable] == WithLogEntry(s.tables[LogTable], s.now, message, resource)
    ensures r.1.None? ==> r.0.tables == s.tables[LogTable := WithLogEntry(s.tables[LogTable], s.now, message, resource)]
    ensures r.1.None? ==> r.0.tables[LogTable].Keys == s.tables[LogTable].Keys + {Int(s.now)}
    ensures r.1.None? ==> forall k :: k in s.tables[LogTable] && k != Int(s.now) ==> r.0.tables[LogTable][k] == s.tables[LogTable][k]
    ensures r.1.Some? ==> r.0.tables == s.tables
    ensures forall name :: name != LogTable ==> (name in r.0.tables <==> name in s.tables)
    ensures forall name :: name in s.tables && name != LogTable ==> r.0.tables[name] == s.tables[name]
  {
    LogItemBindings(s.now, message, resource);
    if s.attempts !in env.faults && LogTable in s.tables then
      LogEntryStored(s.tables[LogTable], s.now, message, resource);
      Merge.ApplyFrame(s.tables[LogTable], KeyColumn, LogItem(s.now, message, resource));
      Write(s, env, LogTable, LogItem(s.now, message, resource))
    else
      Write(s, env, LogTable, LogItem(s.now, message, resource))
  }

  /** Merging a log entry files its message and resource under its millisecond. */
  lemma LogEntryStored(t: Table, now: int, message: string, resource: string)
    ensures var item := LogItem(now, message, resource);
      && KeyColumn in Bindings(item) && Bindings(item)[KeyColumn] == Int(now)
      && var r := Merge.Apply(t, KeyColumn, item);
      && Int(now) in r
      && "Message" in r[Int(now)] && r[Int(now)]["Message"] == Str(message)
      && "Resource" in r[Int(now)] && r[Int(now)]["Resource"] == Str(resource)
  {
    LogItemBindings(now, message, resource);
  }

  lemma SaveLogGood(s: State, env: Env, message: string, resource: string)
    requires Good(s)
    ensures Good(SaveLog(s, env, message, resource).0)
  {
    WriteGood(s, env, LogTable, LogItem(s.now, message, resource));
  }

  /** The log table holds, under the key `at`, an entry with this message and resource. */
  ghost predicate Logged(s: State, at: int, message: string, resource: string)
  {
    && LogTable in s.tables
    && Int(at) in s.tables[LogTable]
    && "Message" in s.tables[LogTable][Int(at)] && s.tables[LogTable][Int(at)]["Message"] == Str(message)
    && "Resource" in s.tables[LogTable][Int(at)] && s.tables[LogTable][Int(at)]["Resource"] == Str(resource)
  }

  /**
   * Two log entries written in the same millisecond share a key: the log table
   * ends with one entry for that millisecond, the later one, and no other entry
   * is added or changed.
   */
  lemma SameMillisecondLogsCollide(s: State, env: Env, m1: string, r1: string, m2: string, r2: string)
    requires LogTable in s.tables && Keyed(s.tables[LogTable], KeyColumn) && env.writeMillis == 0
    requires s.attempts !in env.faults && s.attempts + 1 !in env.faults
    ensures var s2 := SaveLog(SaveLog(s, env, m1, r1).0, env, m2, r2).0;
      && s2.tables[LogTable].Keys == s.tables[LogTable].Keys + {Int(s.now)}
      && Logged(s2, s.now, m2, r2)
      && forall k :: k in s.tables[LogTable] && k != Int(s.now) ==> s2.tables[LogTable][k] == s.tables[LogTable][k]
  {
    var s1 := SaveLog(s, env, m1, r1).0;
    assert s1.now == s.now;
    LogItemBindings(s.now, m1, r1);
    LogItemBindings(s.now, m2, r2);
    Merge.ApplyLaterWins(s.tables[LogTable], KeyColumn, LogItem(s.now, m1, r1), LogItem(s.now, m2, r2));
  }
}
