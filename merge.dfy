/**
 * `upsert`: the three lists spliced into the T-SQL `MERGE` statement, and the
 * insert-or-update that statement performs on a table keyed by one column.
 */
module Merge {
  import opened Rows

  /** `[k]`, a column in the column list. */
  function Column(k: string): string
  {
    "[" + k + "]"
  }

  /** `@k`, a parameter in the value list. */
  function Param(k: string): string
  {
    "@" + k
  }

  /** `[k]=@k`, an assignment in the `UPDATE SET` list. */
  function Assign(k: string): string
  {
    "[" + k + "]=@" + k
  }

  /** The column list: each key in brackets, in key order. */
  function ColumnList(keys: seq<string>): seq<string>
  {
    if keys == [] then [] else [Column(keys[0])] + ColumnList(keys[1..])
  }

  /** The value list: each key as a named parameter, in key order. */
  function ValueList(keys: seq<string>): seq<string>
  {
    if keys == [] then [] else [Param(keys[0])] + ValueList(keys[1..])
  }

  /** The `UPDATE SET` list: an assignment for every key except the key column, in key order. */
  function UpdateList(keys: seq<string>, keyColumn: string): seq<string>
  {
    if keys == [] then []
    else if keys[0] == keyColumn then UpdateList(keys[1..], keyColumn)
    else [Assign(keys[0])] + UpdateList(keys[1..], keyColumn)
  }

  /** The column list and the value list name the item's keys, in the same order. */
  lemma {:induction false} ListsAligned(keys: seq<string>)
    ensures |ColumnList(keys)| == |ValueList(keys)| == |keys|
    ensures forall i :: 0 <= i < |keys| ==>
      ColumnList(keys)[i] == Column(keys[i]) && ValueList(keys)[i] == Param(keys[i])
  {
    if keys != [] {
      ListsAligned(keys[1..]);
    }
  }

  /** An assignment names its column only once, so distinct columns give distinct assignments. */
  lemma AssignInjective(a: string, b: string)
    requires Assign(a) == Assign(b)
    ensures a == b
  {
    assert |a| == |b|;
    assert a == Assign(a)[1..1 + |a|];
  }

  /**
   * The `UPDATE SET` list holds one assignment for every key other than the key
   * column, each to its own parameter, and nothing else.
   */
  lemma {:induction false} UpdateListContents(keys: seq<string>, keyColumn: string)
    ensures forall k :: Assign(k) in UpdateList(keys, keyColumn) <==> k in keys && k != keyColumn
    ensures forall x :: x in UpdateList(keys, keyColumn) ==> exists k :: k in keys && k != keyColumn && x == Assign(k)
  {
    if keys != [] {
      UpdateListContents(keys[1..], keyColumn);
      forall k | Assign(k) in UpdateList(keys, keyColumn)
        ensures k in keys && k != keyColumn
      {
        if keys[0] != keyColumn && Assign(k) == Assign(keys[0]) {
          AssignInjective(k, keys[0]);
        }
      }
    }
  }

  /**
   * The meaning of `MERGE … WITH (HOLDLOCK)`: if a row with the item's key exists,
   * the columns of the `UPDATE SET` list are overwritten; otherwise the item is
   * inserted. Rows with other keys are not touched.
   */
  function Apply(t: Table, keyColumn: string, item: Row): (r: Table)
    requires keyColumn in Bindings(item) && Bindings(item)[keyColumn] != Null
    ensures r.Keys == t.Keys + {Bindings(item)[keyColumn]}
  {
    var params := Bindings(item);
    var k := params[keyColumn];
    if k in t then t[k := t[k] + (params - {keyColumn})]
    else t[k := params]
  }

  /** A table whose rows are filed under their own key stays so after a merge. */
  lemma ApplyKeyed(t: Table, keyColumn: string, item: Row)
    requires keyColumn in Bindings(item) && Bindings(item)[keyColumn] != Null
    requires Keyed(t, keyColumn)
    ensures Keyed(Apply(t, keyColumn, item), keyColumn)
  {
  }

  /** After a merge the row under the item's key holds every column of the item, with its value. */
  lemma ApplyStores(t: Table, keyColumn: string, item: Row)
    requires keyColumn in Bindings(item) && Bindings(item)[keyColumn] != Null
    requires Keyed(t, keyColumn)
    ensures var r := Apply(t, keyColumn, item);
            var k := Bindings(item)[keyColumn];
      forall c :: c in Bindings(item) ==> c in r[k] && r[k][c] == Bindings(item)[c]
  {
  }

  /** A merge leaves every row with another key as it was. */
  lemma ApplyFrame(t: Table, keyColumn: string, item: Row)
    requires keyColumn in Bindings(item) && Bindings(item)[keyColumn] != Null
    ensures var r := Apply(t, keyColumn, item);
      forall k :: k in t && k != Bindings(item)[keyColumn] ==> r[k] == t[k]
  {
  }

  /** Upserting the same item twice leaves the same table as upserting it once. */
  lemma ApplyIdempotent(t: Table, keyColumn: string, item: Row)
    requires keyColumn in Bindings(item) && Bindings(item)[keyColumn] != Null
    requires Keyed(t, keyColumn)
    ensures Apply(Apply(t, keyColumn, item), keyColumn, item) == Apply(t, keyColumn, item)
  {
    var once := Apply(t, keyColumn, item);
    var k := Bindings(item)[keyColumn];
    assert once[k] + (Bindings(item) - {keyColumn}) == once[k];
  }

  /**
   * A later item with the same key and at least the same columns fully replaces
   * what an earlier item wrote: only the later values remain.
   */
  lemma ApplyLaterWins(t: Table, keyColumn: string, a: Row, b: Row)
    requires keyColumn in Bindings(a) && Bindings(a)[keyColumn] != Null
    requires keyColumn in Bindings(b) && Bindings(b)[keyColumn] == Bindings(a)[keyColumn]
    requires Bindings(a).Keys <= Bindings(b).Keys
    requires Keyed(t, keyColumn)
    ensures Apply(Apply(t, keyColumn, a), keyColumn, b) == Apply(t, keyColumn, b)
  {
    var k := Bindings(a)[keyColumn];
    var pa := Bindings(a);
    var pb := Bindings(b);
    var two := Apply(Apply(t, keyColumn, a), keyColumn, b);
    var direct := Apply(t, keyColumn, b);
    if k in t {
      Overridden(t[k], pa - {keyColumn}, pb - {keyColumn});
    } else {
      OverriddenExcept(pa, pb, keyColumn);
    }
    assert two[k] == direct[k];
  }

  /** Overriding with `y` after `x` is overriding with `y` alone when `y` covers every key of `x`. */
  lemma Overridden(m: map<string, Value>, x: map<string, Value>, y: map<string, Value>)
    requires x.Keys <= y.Keys
    ensures m + x + y == m + y
  {
  }

  /** The same, when `y` leaves out one key on which it agrees with `x`. */
  lemma OverriddenExcept(x: map<string, Value>, y: map<string, Value>, c: string)
    requires x.Keys <= y.Keys && c in x && x[c] == y[c]
    ensures x + (y - {c}) == y
  {
    assert (x + (y - {c})).Keys == y.Keys;
  }
}
