/**
 * Values, object rows and tables as the synchronisation engine sees them: a row is a
 * JavaScript object literal (its keys in insertion order, as `Object.keys` returns them),
 * and a table is a map from the key column's value to the stored columns.
 */
module Rows {

  /** The values the engine puts into rows and SQL parameters. */
  datatype Value =
    | Null
    | Int(i: int)       // a JavaScript number holding an integer
    | Str(s: string)
    | Time(ms: int)     // a `Date` object, as milliseconds since the epoch

  /** JavaScript truthiness of a value: `null`, `0` and `""` are falsy. */
  predicate Truthy(v: Value)
  {
    match v
    case Null => false
    case Int(i) => i != 0
    case Str(s) => s != ""
    case Time(_) => true
  }

  datatype Field = Field(name: string, value: Value)

  /** An object literal: its properties in insertion order. */
  type Row = seq<Field>

  /** `Object.keys(item)`. */
  function Names(row: Row): (keys: seq<string>)
    ensures |keys| == |row|
    ensures forall i :: 0 <= i < |row| ==> keys[i] == row[i].name
  {
    seq(|row|, i requires 0 <= i < |row| => row[i].name)
  }

  /** The parameters bound to the statement: one per key, the later binding of a repeated name winning. */
  function Bindings(row: Row): (m: map<string, Value>)
    decreases |row|
  {
    if row == [] then map[]
    else Bindings(row[..|row| - 1])[row[|row| - 1].name := row[|row| - 1].value]
  }

  /** A stored table: for each key value, the columns of the one row holding it. */
  type Table = map<Value, map<string, Value>>

  /** Every row of `t` is filed under the value of its own key column. */
  ghost predicate Keyed(t: Table, keyColumn: string)
  {
    forall k :: k in t ==> keyColumn in t[k] && t[k][keyColumn] == k
  }

  /** No two properties of the row share a name (always true of an object literal). */
  predicate DistinctNames(row: Row)
  {
    forall i, j :: 0 <= i < j < |row| ==> row[i].name != row[j].name
  }

  /** The bound parameters are exactly the row's properties, each with its own value. */
  lemma {:induction false} BindingsOfRow(row: Row)
    requires DistinctNames(row)
    ensures forall n :: n in Bindings(row) <==> n in Names(row)
    ensures forall i :: 0 <= i < |row| ==> Bindings(row)[row[i].name] == row[i].value
  {
    if row != [] {
      var init := row[..|row| - 1];
      BindingsOfRow(init);
      assert Names(row) == Names(init) + [row[|row| - 1].name];
    }
  }
}
