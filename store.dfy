/** The MySQL tables behind the handlers, reduced to what the handlers' statements
    do to them, and the ways a statement can fail. */
module Store {
  import opened Json

  /** One table row: column name to stored value (the id column is the table key). */
  type Row = map<string, Value>

  /** A table: rows by primary key, and the AUTO_INCREMENT counter that supplies
      the key of the next inserted row. */
  datatype Table = Table(rows: map<int, Row>, nextId: int)

  function ColumnSet(columns: seq<string>): set<string> {
    set c | c in columns
  }

  /** Keys are positive and below the counter, and every row has exactly the table's columns. */
  ghost predicate WellFormed(t: Table, columns: seq<string>) {
    && t.nextId > 0
    && forall k :: k in t.rows ==> 0 < k < t.nextId && t.rows[k].Keys == ColumnSet(columns)
  }

  /** The connector turns `None`, booleans, numbers and strings into SQL
      parameters; a JSON list or object cannot be bound and the statement fails. */
  predicate Storable(v: Value) {
    !v.List? && !v.Object?
  }

  /** A foreign-key value that names an existing row of `parents`. */
  predicate References(v: Value, parents: map<int, Row>) {
    v.Int? && v.n in parents
  }

  /** `row` holds `Int(id)` in `column`: the condition `WHERE column = id`. */
  predicate RefersTo(row: Row, column: string, id: int) {
    column in row && row[column] == Int(id)
  }

  /** `INSERT INTO t (...) VALUES (...)`: the row is stored under the counter's value,
      which then advances. */
  function Insert(t: Table, row: Row): Table {
    Table(t.rows[t.nextId := row], t.nextId + 1)
  }

  /** `DELETE FROM t WHERE column = id`: every row whose `column` holds `id` goes. */
  function DeleteWhere(t: Table, column: string, id: int): Table {
    Table(map k | k in t.rows && !RefersTo(t.rows[k], column, id) :: t.rows[k], t.nextId)
  }

  /** `DELETE FROM t WHERE <key> = id`: the table without that row, and the row count. */
  function DeleteKey(t: Table, id: int): (Table, nat) {
    (Table(t.rows - {id}, t.nextId), if id in t.rows then 1 else 0)
  }

  /** The assignments `c1 = v1, ..., cn = vn` of an UPDATE's SET clause, performed left to right. */
  function ApplySet(row: Row, columns: seq<string>, values: seq<Value>): Row
    requires |columns| == |values|
    decreases |columns|
  {
    if columns == [] then row
    else ApplySet(row[columns[0] := values[0]], columns[1..], values[1..])
  }

  /** With distinct column names, each named column ends up holding its own value,
      and every column not named keeps the value it had. */
  lemma {:induction false} ApplySetAssigns(row: Row, columns: seq<string>, values: seq<Value>)
    requires |columns| == |values|
    requires forall i, j :: 0 <= i < j < |columns| ==> columns[i] != columns[j]
    decreases |columns|
    ensures ApplySet(row, columns, values).Keys == row.Keys + ColumnSet(columns)
    ensures forall i :: 0 <= i < |columns| ==> ApplySet(row, columns, values)[columns[i]] == values[i]
    ensures forall c :: c in row && c !in columns ==> ApplySet(row, columns, values)[c] == row[c]
  {
    if columns != [] {
      var row' := row[columns[0] := values[0]];
      ApplySetAssigns(row', columns[1..], values[1..]);
      assert ColumnSet(columns) == {columns[0]} + ColumnSet(columns[1..]);
      forall i | 0 <= i < |columns|
        ensures ApplySet(row, columns, values)[columns[i]] == values[i]
      {
        if i > 0 {
          assert columns[i] == columns[1..][i - 1];
        } else {
          assert columns[0] !in columns[1..];
        }
      }
    }
  }

  /** `UPDATE t SET c1 = %s, ..., cn = %s WHERE <key> = %s` with the bound
      parameters `params`: the first n fill the SET clause in order, the last one
      the WHERE clause. Gives the new table and the number of rows matched. */
  function ExecUpdate(t: Table, columns: seq<string>, params: seq<Value>): (Table, nat)
    requires |params| == |columns| + 1
  {
    var key := params[|columns|];
    if key.Int? && key.n in t.rows then
      (Table(t.rows[key.n := ApplySet(t.rows[key.n], columns, params[..|columns|])], t.nextId), 1)
    else
      (t, 0)
  }

  /** Where a store error (an `Error` raised by the connector) interrupts a
      handler: opening the connection, its `n`-th `execute` call, or `commit()`. */
  datatype Fault = NoFault | OnConnect | OnExecute(n: nat) | OnCommit

  /** The fault strikes a handler that runs `executed` statements and, when
      `committing`, goes on to commit. */
  predicate Hits(fault: Fault, executed: nat, committing: bool) {
    match fault
    case NoFault => false
    case OnConnect => true
    case OnExecute(n) => 1 <= n <= executed
    case OnCommit => committing
  }
}
