/**
 * The cursor page walker shared by `fetchOrders`, `fetchProducts` and
 * `fetchCustomers`: request a page, map each edge's node to a row and remember
 * the edge's cursor, and go on while `pageInfo.hasNextPage` is true. A failed
 * request or a node that cannot be mapped is logged and ends the walk with the
 * rows collected so far.
 */
module Pages {
  import opened Wrappers
  import opened Rows
  import opened Machine

  datatype Edge<N> = Edge(cursor: string, node: N)

  /**
   * What one upstream request gives back: a page of edges with its
   * `hasNextPage` flag, or an error (transport failure, or a response whose
   * `data` is missing). `took` is how long the request took, in milliseconds.
   */
  datatype PageResult<N> =
    | Page(edges: seq<Edge<N>>, hasNextPage: bool, took: nat)
    | Failed(message: string, took: nat)

  /** The mapping of a page's edges: rows pushed, cursor held, and the error that stopped it. */
  datatype Mapped = Mapped(rows: seq<Row>, after: Option<string>, error: Option<string>)

  /**
   * The edge loop of a page: push each node's row, then hold that edge's cursor;
   * a node whose mapping throws stops the loop with the rows pushed before it.
   */
  function MapEdges<N>(toRow: N -> Result<Row>, edges: seq<Edge<N>>, after: Option<string>, list: seq<Row>): Mapped
    decreases |edges|
  {
    if edges == [] then Mapped(list, after, None)
    else match toRow(edges[0].node)
      case Err(e) => Mapped(list, after, Some(e))
      case Ok(row) => MapEdges(toRow, edges[1..], Some(edges[0].cursor), list + [row])
  }

  /** The rows one page contributes: those mapped before an error, none for a failed request. */
  function PageRows<N>(toRow: N -> Result<Row>, p: PageResult<N>): seq<Row>
  {
    if p.Page? then MapEdges(toRow, p.edges, None, []).rows else []
  }

  /** The error a page ends the walk with, if any. */
  function StopError<N>(toRow: N -> Result<Row>, p: PageResult<N>): Option<string>
  {
    if p.Failed? then Some(p.message) else MapEdges(toRow, p.edges, None, []).error
  }

  /** After this page the walker asks for another one. */
  predicate Continues<N>(toRow: N -> Result<Row>, p: PageResult<N>)
  {
    p.Page? && p.hasNextPage && StopError(toRow, p).None?
  }

  /** Some page from index `i` on ends the walk (otherwise the source would request forever). */
  ghost predicate Answered<N>(toRow: N -> Result<Row>, pages: seq<PageResult<N>>, i: nat)
  {
    exists k :: i <= k < |pages| && !Continues(toRow, pages[k])
  }

  /** The rows of a run of pages, in order: the concatenation of the pages' rows. */
  function AllRows<N>(toRow: N -> Result<Row>, pages: seq<PageResult<N>>): seq<Row>
  {
    if pages == [] then [] else PageRows(toRow, pages[0]) + AllRows(toRow, pages[1..])
  }

  /** The cursor of the last edge in a run of pages, or `null` when they hold no edge. */
  function LastCursor<N>(pages: seq<PageResult<N>>): Option<string>
  {
    if pages == [] then None
    else
      var p := pages[|pages| - 1];
      if p.Page? && p.edges != [] then Some(p.edges[|p.edges| - 1].cursor)
      else LastCursor(pages[..|pages| - 1])
  }

  /** What a walk leaves: the new state, and the rows or the error that escaped it. */
  datatype Walked = Walked(state: State, rows: Result<seq<Row>>)

  /**
   * The `catch` block: `saveLog(err.message, resource)` and stop. If the log
   * write itself throws, that error escapes the fetcher and the rows are lost.
   */
  function Abandon(s: State, env: Env, resource: string, message: string, list: seq<Row>): (w: Walked)
    ensures w.state.trace == s.trace && w.state.attempts == s.attempts + 1
    ensures w.rows.Ok? <==> s.attempts !in env.faults && LogTable in s.tables
    ensures w.rows.Ok? ==> w.rows.value == list && Logged(w.state, s.now, message, resource)
    ensures w.rows.Ok? ==> w.state.tables[LogTable] == WithLogEntry(s.tables[LogTable], s.now, message, resource)
    ensures w.rows.Ok? ==> w.state.tables == s.tables[LogTable := WithLogEntry(s.tables[LogTable], s.now, message, resource)]
    ensures w.rows.Err? ==> w.state.tables == s.tables
    ensures forall name :: name != LogTable ==> (name in w.state.tables <==> name in s.tables)
    ensures forall name :: name in s.tables && name != LogTable ==> w.state.tables[name] == s.tables[name]
  {
    var (s1, e) := SaveLog(s, env, message, resource);
    Walked(s1, if e.Some? then Err(e.value) else Ok(list))
  }

  /**
   * The loop of a fetcher from page `i` on, holding cursor `after` and the rows
   * `list` collected so far. Every turn sends one request, so the trace grows.
   */
  function Walk<N>(env: Env, resource: string, since: Option<int>, toRow: N -> Result<Row>,
                   pages: seq<PageResult<N>>, i: nat, s: State, after: Option<string>, list: seq<Row>): (w: Walked)
    requires i <= |pages| && Answered(toRow, pages, i)
    ensures |w.state.trace| > |s.trace| && w.state.trace[..|s.trace|] == s.trace
    decreases |pages| - i
  {
    var s1 := Posted(s, resource, after, since, pages[i].took);
    match pages[i]
    case Failed(message, _) => Abandon(s1, env, resource, message, list)
    case Page(edges, hasNext, _) =>
      var m := MapEdges(toRow, edges, after, list);
      MapEdgesShift(toRow, edges, after, list);
      if m.error.Some? then Abandon(s1, env, resource, m.error.value, m.rows)
      else if !hasNext then Walked(s1, Ok(m.rows))
      else
        var w := Walk(env, resource, since, toRow, pages, i + 1, s1, m.after, m.rows);
        assert w.state.trace[..|s.trace|] == w.state.trace[..|s1.trace|][..|s.trace|];
        w
  }

  /**
   * Mapping a page does not depend on the rows already collected or on the cursor
   * held: it appends the page's own rows, and moves the cursor only if an edge
   * was mapped.
   */
  lemma {:induction false} MapEdgesShift<N>(toRow: N -> Result<Row>, edges: seq<Edge<N>>, after: Option<string>, list: seq<Row>)
    ensures var m := MapEdges(toRow, edges, after, list);
            var m0 := MapEdges(toRow, edges, None, []);
      && m.rows == list + m0.rows
      && m.error == m0.error
      && m.after == if m0.after.None? then after else m0.after
  {
    if edges != [] && toRow(edges[0].node).Ok? {
      var row := toRow(edges[0].node).value;
      var c := Some(edges[0].cursor);
      assert MapEdges(toRow, edges, after, list) == MapEdges(toRow, edges[1..], c, list + [row]);
      assert [] + [row] == [row];
      assert MapEdges(toRow, edges, None, []) == MapEdges(toRow, edges[1..], c, [row]);
      MapEdgesShift(toRow, edges[1..], c, list + [row]);
      MapEdgesShift(toRow, edges[1..], c, [row]);
      var rest := MapEdges(toRow, edges[1..], None, []).rows;
      assert list + [row] + rest == list + ([row] + rest);
    }
  }

  /** A page mapped without error leaves the cursor of its last edge, or the old one if it is empty. */
  lemma {:induction false} MapEdgesCursor<N>(toRow: N -> Result<Row>, edges: seq<Edge<N>>, after: Option<string>, list: seq<Row>)
    requires MapEdges(toRow, edges, after, list).error.None?
    ensures MapEdges(toRow, edges, after, list).after == if edges == [] then after else Some(edges[|edges| - 1].cursor)
  {
    if edges != [] {
      var row := toRow(edges[0].node).value;
      MapEdgesCursor(toRow, edges[1..], Some(edges[0].cursor), list + [row]);
    }
  }

  /** One turn of the loop on a page that continues: request it, map it, go on with the next. */
  lemma WalkContinues<N>(env: Env, resource: string, since: Option<int>, toRow: N -> Result<Row>,
                         pages: seq<PageResult<N>>, i: nat, s: State, after: Option<string>, list: seq<Row>)
    requires i < |pages| && Answered(toRow, pages, i)
    requires Continues(toRow, pages[i])
    ensures Answered(toRow, pages, i + 1)
    ensures Walk(env, resource, since, toRow, pages, i, s, after, list)
         == Walk(env, resource, since, toRow, pages, i + 1, Posted(s, resource, after, since, pages[i].took),
                 MapEdges(toRow, pages[i].edges, after, list).after, list + PageRows(toRow, pages[i]))
  {
    MapEdgesShift(toRow, pages[i].edges, after, list);
  }

  /** The last turn of the loop: the page ends the walk, with or without an error to log. */
  lemma WalkStops<N>(env: Env, resource: string, since: Option<int>, toRow: N -> Result<Row>,
                     pages: seq<PageResult<N>>, i: nat, s: State, after: Option<string>, list: seq<Row>)
    requires i < |pages|
    requires !Continues(toRow, pages[i])
    ensures Answered(toRow, pages, i)
    ensures var s1 := Posted(s, resource, after, since, pages[i].took);
            var rows := list + PageRows(toRow, pages[i]);
      Walk(env, resource, since, toRow, pages, i, s, after, list)
        == match StopError(toRow, pages[i])
           case None => Walked(s1, Ok(rows))
           case Some(e) => Abandon(s1, env, resource, e, rows)
  {
    assert !Continues(toRow, pages[i]);
    if pages[i].Page? {
      MapEdgesShift(toRow, pages[i].edges, after, list);
    } else {
      assert list + PageRows(toRow, pages[i]) == list;
    }
  }

  /**
   * What a walk that ends on a page with error `e` leaves, measured against the
   * state `s` it started from: without an error, the rows and no write; with one,
   * exactly one write, the log entry of the error under the resource name keyed
   * by the moment the last request returned (`took` after it started), merged
   * into the log with every other entry and table kept, and the rows only if that
   * write succeeds; if it throws, no table changes.
   */
  ghost predicate RowsOutcome(w: Walked, s: State, env: Env, resource: string, e: Option<string>,
                              rows: seq<Row>, took: nat)
  {
    && (e.None? ==> w.rows == Ok(rows) && w.state.tables == s.tables && w.state.attempts == s.attempts)
    && (e.Some? ==> w.state.attempts == s.attempts + 1
                    && (w.rows.Ok? <==> s.attempts !in env.faults && LogTable in s.tables)
                    && (w.rows.Err? ==> w.state.tables == s.tables)
                    && (w.rows.Ok? ==>
                          && w.rows.value == rows && |w.state.trace| > 0 && LogTable in s.tables
                          && Logged(w.state, w.state.trace[|w.state.trace| - 1].start + took, e.value, resource)
                          && w.state.tables == s.tables[LogTable := WithLogEntry(s.tables[LogTable],
                               w.state.trace[|w.state.trace| - 1].start + took, e.value, resource)]))
  }

  /** A request changes no table and no write count, so an outcome measured after it holds before it too. */
  lemma RowsOutcomeEarlier(w: Walked, s1: State, s: State, env: Env, resource: string, e: Option<string>,
                           rows: seq<Row>, took: nat)
    requires s1.tables == s.tables && s1.attempts == s.attempts
    requires RowsOutcome(w, s1, env, resource, e, rows, took)
    ensures RowsOutcome(w, s, env, resource, e, rows, took)
  {
  }

  /** `WalkRowsFrom` when the first page is already the last one. */
  lemma WalkRowsLast<N>(env: Env, resource: string, since: Option<int>, toRow: N -> Result<Row>,
                        pages: seq<PageResult<N>>, k: nat, s: State, after: Option<string>, list: seq<Row>)
    requires k < |pages|
    requires !Continues(toRow, pages[k])
    ensures Answered(toRow, pages, k)
    ensures RowsOutcome(Walk(env, resource, since, toRow, pages, k, s, after, list), s, env, resource,
                        StopError(toRow, pages[k]), list + AllRows(toRow, pages[k..k + 1]), pages[k].took)
  {
    WalkStops(env, resource, since, toRow, pages, k, s, after, list);
    AllRowsOne(toRow, pages, k);
    var s1 := Posted(s, resource, after, since, pages[k].took);
    var rows := list + PageRows(toRow, pages[k]);
    var e := StopError(toRow, pages[k]);
    if e.Some? {
      AbandonOutcome(s1, s, env, resource, e.value, rows, pages[k].took);
    }
  }

  /** The rows of a single page. */
  lemma AllRowsOne<N>(toRow: N -> Result<Row>, pages: seq<PageResult<N>>, k: nat)
    requires k < |pages|
    ensures AllRows(toRow, pages[k..k + 1]) == PageRows(toRow, pages[k])
  {
    assert pages[k..k + 1] == [pages[k]];
    assert [pages[k]][1..] == [];
  }

  /** The `catch` right after the request that started `s` on its way to `s1`, measured against `s`. */
  lemma AbandonOutcome(s1: State, s: State, env: Env, resource: string, message: string, rows: seq<Row>, took: nat)
    requires s1.tables == s.tables && s1.attempts == s.attempts
    requires |s1.trace| > 0 && s1.now == s1.trace[|s1.trace| - 1].start + took
    ensures RowsOutcome(Abandon(s1, env, resource, message, rows), s, env, resource, Some(message), rows, took)
  {
  }

  /** Peeling the first page off a run: its rows come first. */
  lemma AllRowsFirst<N>(toRow: N -> Result<Row>, pages: seq<PageResult<N>>, i: nat, k: nat, list: seq<Row>)
    requires i < k < |pages|
    ensures list + PageRows(toRow, pages[i]) + AllRows(toRow, pages[i + 1..k + 1])
         == list + AllRows(toRow, pages[i..k + 1])
  {
    assert pages[i..k + 1][0] == pages[i];
    assert pages[i..k + 1][1..] == pages[i + 1..k + 1];
  }

  /**
   * The rows a walk returns are the in-order concatenation of the rows of every
   * page requested, up to and including page `k`, the first that does not
   * continue; a page that failed contributes nothing and a page whose mapping
   * threw contributes the rows before the failing node. The writes are as
   * `RowsOutcome` says: none, or the one log entry of the error that ended it.
   */
  lemma {:induction false} WalkRowsFrom<N>(env: Env, resource: string, since: Option<int>, toRow: N -> Result<Row>,
                                           pages: seq<PageResult<N>>, i: nat, k: nat, s: State,
                                           after: Option<string>, list: seq<Row>)
    requires i <= k < |pages|
    requires forall j :: i <= j < k ==> Continues(toRow, pages[j])
    requires !Continues(toRow, pages[k])
    ensures Answered(toRow, pages, i)
    ensures RowsOutcome(Walk(env, resource, since, toRow, pages, i, s, after, list), s, env, resource,
                        StopError(toRow, pages[k]), list + AllRows(toRow, pages[i..k + 1]), pages[k].took)
    decreases k - i
  {
    if i < k {
      assert Continues(toRow, pages[i]);
      WalkContinues(env, resource, since, toRow, pages, i, s, after, list);
      var s1 := Posted(s, resource, after, since, pages[i].took);
      var m := MapEdges(toRow, pages[i].edges, after, list);
      var rows := list + PageRows(toRow, pages[i]);
      WalkRowsFrom(env, resource, since, toRow, pages, i + 1, k, s1, m.after, rows);
      AllRowsFirst(toRow, pages, i, k, list);
      RowsOutcomeEarlier(Walk(env, resource, since, toRow, pages, i + 1, s1, m.after, rows), s1, s, env, resource,
                         StopError(toRow, pages[k]), rows + AllRows(toRow, pages[i + 1..k + 1]), pages[k].took);
    } else {
      WalkRowsLast(env, resource, since, toRow, pages, i, s, after, list);
    }
  }

  /** The request for page `j`, given what the walker received before it. */
  ghost predicate RequestFollows<N>(r: Request, resource: string, since: Option<int>, pages: seq<PageResult<N>>, j: nat)
    requires j <= |pages|
  {
    r.resource == resource && r.updatedSince == since && r.after == AfterClause(LastCursor(pages[..j]))
  }

  /** The requests after the first `base` in `trace` are one per page from `i` to `k`, each as it should be. */
  ghost predicate RequestsFollow<N>(trace: seq<Request>, base: nat, resource: string, since: Option<int>,
                                    pages: seq<PageResult<N>>, i: nat, k: nat)
    requires i <= k < |pages|
  {
    && |trace| == base + k - i + 1
    && forall t :: base <= t < |trace| ==> RequestFollows(trace[t], resource, since, pages, i + t - base)
  }

  /** The cursor held after a clean page is the last cursor received up to and including it. */
  lemma CursorAfterPage<N>(toRow: N -> Result<Row>, pages: seq<PageResult<N>>, i: nat, after: Option<string>, list: seq<Row>)
    requires i < |pages| && Continues(toRow, pages[i])
    requires after == LastCursor(pages[..i])
    ensures MapEdges(toRow, pages[i].edges, after, list).after == LastCursor(pages[..i + 1])
  {
    MapEdgesShift(toRow, pages[i].edges, after, list);
    MapEdgesCursor(toRow, pages[i].edges, after, list);
    assert pages[..i + 1][..i] == pages[..i];
    assert pages[..i + 1][i] == pages[i];
  }

  /** A request for page `i` in front of the requests for pages `i + 1` to `k`. */
  lemma RequestsFollowPrepend<N>(trace: seq<Request>, base: nat, resource: string, since: Option<int>,
                                 pages: seq<PageResult<N>>, i: nat, k: nat)
    requires i < k < |pages|
    requires RequestsFollow(trace, base + 1, resource, since, pages, i + 1, k)
    requires base < |trace| && RequestFollows(trace[base], resource, since, pages, i)
    ensures RequestsFollow(trace, base, resource, since, pages, i, k)
  {
    forall t | base <= t < |trace|
      ensures RequestFollows(trace[t], resource, since, pages, i + t - base)
    {
      if t > base {
        assert i + t - base == i + 1 + t - (base + 1);
      }
    }
  }

  /**
   * Request `j` of a walk (counted from page `i`) goes to this resource with the
   * fixed filter and carries an `after` clause exactly when the last edge
   * received before it has a truthy cursor, and then that cursor. The walk makes
   * one request per page up to and including page `k` and no more.
   */
  lemma {:induction false} WalkRequestsFrom<N>(env: Env, resource: string, since: Option<int>, toRow: N -> Result<Row>,
                                               pages: seq<PageResult<N>>, i: nat, k: nat, s: State,
                                               after: Option<string>, list: seq<Row>)
    requires i <= k < |pages|
    requires forall j :: i <= j < k ==> Continues(toRow, pages[j])
    requires !Continues(toRow, pages[k])
    requires after == LastCursor(pages[..i])
    ensures Answered(toRow, pages, i)
    ensures RequestsFollow(Walk(env, resource, since, toRow, pages, i, s, after, list).state.trace,
                           |s.trace|, resource, since, pages, i, k)
    decreases k - i
  {
    var s1 := Posted(s, resource, after, since, pages[i].took);
    if i < k {
      assert Continues(toRow, pages[i]);
      WalkContinues(env, resource, since, toRow, pages, i, s, after, list);
      var m := MapEdges(toRow, pages[i].edges, after, list);
      var rows := list + PageRows(toRow, pages[i]);
      CursorAfterPage(toRow, pages, i, after, list);
      WalkRequestsFrom(env, resource, since, toRow, pages, i + 1, k, s1, m.after, rows);
      var trace := Walk(env, resource, since, toRow, pages, i + 1, s1, m.after, rows).state.trace;
      assert trace[|s.trace|] == trace[..|s1.trace|][|s.trace|] == s1.trace[|s.trace|];
      RequestsFollowPrepend(trace, |s.trace|, resource, since, pages, i, k);
    } else {
      WalkStops(env, resource, since, toRow, pages, i, s, after, list);
      var trace := Walk(env, resource, since, toRow, pages, i, s, after, list).state.trace;
      assert trace[|s.trace|] == trace[..|s1.trace|][|s.trace|] == s1.trace[|s.trace|];
    }
  }

  /**
   * The fetcher's whole walk, from the first page with no cursor and no rows:
   * its rows are the concatenation of the pages' rows up to the first page that
   * does not continue; the first request has no `after` clause and each later one
   * carries the last cursor received before it.
   */
  lemma WalkFromStart<N>(env: Env, resource: string, since: Option<int>, toRow: N -> Result<Row>,
                         pages: seq<PageResult<N>>, k: nat, s: State)
    requires k < |pages|
    requires forall j :: 0 <= j < k ==> Continues(toRow, pages[j])
    requires !Continues(toRow, pages[k])
    ensures Answered(toRow, pages, 0)
    ensures var w := Walk(env, resource, since, toRow, pages, 0, s, None, []);
      && RequestsFollow(w.state.trace, |s.trace|, resource, since, pages, 0, k)
      && w.state.trace[|s.trace|].after == None
      && (StopError(toRow, pages[k]).None? ==> w.rows == Ok(AllRows(toRow, pages[..k + 1])))
      && (w.rows.Ok? ==> w.rows.value == AllRows(toRow, pages[..k + 1]))
  {
    WalkRowsFrom(env, resource, since, toRow, pages, 0, k, s, None, []);
    WalkRequestsFrom(env, resource, since, toRow, pages, 0, k, s, None, []);
    assert pages[..0] == [];
    assert pages[0..k + 1] == pages[..k + 1];
    assert [] + AllRows(toRow, pages[..k + 1]) == AllRows(toRow, pages[..k + 1]);
  }

  /** A walk writes at most the log table: every other table is as it was. */
  lemma {:induction false} WalkFrame<N>(env: Env, resource: string, since: Option<int>, toRow: N -> Result<Row>,
                                        pages: seq<PageResult<N>>, i: nat, s: State, after: Option<string>, list: seq<Row>)
    requires i <= |pages| && Answered(toRow, pages, i)
    ensures var w := Walk(env, resource, since, toRow, pages, i, s, after, list);
      && (forall name :: name != LogTable ==> (name in w.state.tables <==> name in s.tables))
      && (forall name :: name in s.tables && name != LogTable ==> w.state.tables[name] == s.tables[name])
    decreases |pages| - i
  {
    var s1 := Posted(s, resource, after, since, pages[i].took);
    if Continues(toRow, pages[i]) {
      WalkContinues(env, resource, since, toRow, pages, i, s, after, list);
      WalkFrame(env, resource, since, toRow, pages, i + 1, s1,
                MapEdges(toRow, pages[i].edges, after, list).after, list + PageRows(toRow, pages[i]));
    } else {
      WalkStops(env, resource, since, toRow, pages, i, s, after, list);
    }
  }

  /**
   * A walk keeps the engine's invariant; in particular its requests start at
   * least one rate-limit interval after the requests before them.
   */
  lemma {:induction false} WalkGood<N>(env: Env, resource: string, since: Option<int>, toRow: N -> Result<Row>,
                                       pages: seq<PageResult<N>>, i: nat, s: State, after: Option<string>, list: seq<Row>)
    requires i <= |pages| && Answered(toRow, pages, i)
    requires Good(s)
    ensures Good(Walk(env, resource, since, toRow, pages, i, s, after, list).state)
    decreases |pages| - i
  {
    var s1 := Posted(s, resource, after, since, pages[i].took);
    PostedGood(s, resource, after, since, pages[i].took);
    if Continues(toRow, pages[i]) {
      WalkContinues(env, resource, since, toRow, pages, i, s, after, list);
      WalkGood(env, resource, since, toRow, pages, i + 1, s1,
               MapEdges(toRow, pages[i].edges, after, list).after, list + PageRows(toRow, pages[i]));
    } else {
      WalkStops(env, resource, since, toRow, pages, i, s, after, list);
      var e := StopError(toRow, pages[i]);
      if e.Some? {
        SaveLogGood(s1, env, e.value, resource);
      }
    }
  }

  /** Every request a walk sends goes to the walk's own resource. */
  lemma {:induction false} WalkResource<N>(env: Env, resource: string, since: Option<int>, toRow: N -> Result<Row>,
                                           pages: seq<PageResult<N>>, i: nat, s: State, after: Option<string>, list: seq<Row>)
    requires i <= |pages| && Answered(toRow, pages, i)
    ensures RequestsFor(Walk(env, resource, since, toRow, pages, i, s, after, list).state.trace, |s.trace|, resource)
    decreases |pages| - i
  {
    var s1 := Posted(s, resource, after, since, pages[i].took);
    if Continues(toRow, pages[i]) {
      WalkContinues(env, resource, since, toRow, pages, i, s, after, list);
      var m := MapEdges(toRow, pages[i].edges, after, list);
      var rows := list + PageRows(toRow, pages[i]);
      WalkResource(env, resource, since, toRow, pages, i + 1, s1, m.after, rows);
      var trace := Walk(env, resource, since, toRow, pages, i + 1, s1, m.after, rows).state.trace;
      assert trace[|s.trace|] == trace[..|s1.trace|][|s.trace|];
    } else {
      WalkStops(env, resource, since, toRow, pages, i, s, after, list);
    }
  }
}
