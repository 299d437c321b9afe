/** Rows as the warehouse client and the CSV reader hand them over: mappings
    from column name to a dynamically typed value. */
module Rows {
  import opened Seqs

  /** A cell value. `VNull` is Python's `None`; lists and records only arise
      as nested values (the `_answers` field holds a list of rows). */
  datatype Value =
    | VNull
    | VBool(b: bool)
    | VInt(i: int)
    | VStr(s: string)
    | VList(items: seq<Value>)
    | VRecord(fields: map<string, Value>)

  type Row = map<string, Value>

  /** The exceptions the modelled code raises itself. */
  datatype Error =
    | InvalidIdentifier(kind: string, identifier: string)  // ValueError from the identifier check
    | UnhashableKey                                        // TypeError: a list or dict used as a dict key

  /** `row.get(key)`: the value, or `None` when the column is absent. */
  function Get(r: Row, key: string): Value {
    if key in r then r[key] else VNull
  }

  /** Lists and dicts cannot be dictionary keys or set members in Python. */
  predicate Hashable(v: Value) {
    !v.VList? && !v.VRecord?
  }

  /** The representative Python's `==` uses for dictionary keys: `True == 1`
      and `False == 0`, so a boolean and its integer share one key. */
  function Canon(v: Value): (c: Value)
    ensures Hashable(c) == Hashable(v)
    ensures c == VNull <==> v == VNull
    ensures !c.VBool?
  {
    match v
    case VBool(b) => VInt(if b then 1 else 0)
    case _ => v
  }

  /** Python truthiness, as used by `if r.get("id")`. */
  predicate Truthy(v: Value) {
    match v
    case VNull => false
    case VBool(b) => b
    case VInt(i) => i != 0
    case VStr(s) => s != ""
    case VList(items) => items != []
    case VRecord(fields) => fields != map[]
  }

  /** A list of rows stored as a single cell value. */
  function RowsValue(rows: seq<Row>): (v: Value)
    ensures v.VList? && |v.items| == |rows|
    ensures forall i :: 0 <= i < |rows| ==> v.items[i] == VRecord(rows[i])
  {
    VList(seq(|rows|, i requires 0 <= i < |rows| => VRecord(rows[i])))
  }

  function HasColumn(col: string): Row -> bool {
    (r: Row) => col in r
  }

  /** `[row[col] for row in rows if col in row]`: the values of the rows that
      carry the column, in row order, `None` values included. */
  function IdsOf(rows: seq<Row>, col: string): (ids: seq<Value>)
    ensures |ids| == |Filter(rows, HasColumn(col))|
    ensures forall i :: 0 <= i < |ids| ==> ids[i] == Filter(rows, HasColumn(col))[i][col]
    ensures ids == [] <==> forall i :: 0 <= i < |rows| ==> col !in rows[i]
  {
    if |rows| == 0 then []
    else
      var rest := IdsOf(rows[1..], col);
      assert forall i :: 1 <= i < |rows| ==> rows[i] == rows[1..][i - 1];
      (if col in rows[0] then [rows[0][col]] else []) + rest
  }
}
