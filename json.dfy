/** Request data as the handlers see it: a JSON body decoded by Python's `json`
    module into a `dict`, with Python's notion of truthiness. */
module Json {

  /** A decoded JSON value. `Null` is Python's `None`. */
  datatype Value =
    | Null
    | Bool(b: bool)
    | Int(n: int)
    | Float(x: real)
    | Str(s: string)
    | List(items: seq<Value>)
    | Object(members: seq<Field>)

  datatype Field = Field(key: string, value: Value)

  predicate DistinctKeys(fields: seq<Field>) {
    forall i, j :: 0 <= i < j < |fields| ==> fields[i].key != fields[j].key
  }

  /** A Python `dict` from strings to values: insertion-ordered, each key at most once. */
  type Dict = fields: seq<Field> | DistinctKeys(fields)

  /** Python's `bool(v)`: `None`, `False`, zero, and empty strings, lists and
      objects are falsy; everything else is truthy. */
  predicate Truthy(v: Value) {
    match v
    case Null => false
    case Bool(b) => b
    case Int(n) => n != 0
    case Float(x) => x != 0.0
    case Str(s) => s != ""
    case List(items) => items != []
    case Object(members) => members != []
  }

  /** `d.get(key)`: the value stored under `key`, or `None` when the key is absent. */
  function Get(d: Dict, key: string): (v: Value)
    ensures forall i :: 0 <= i < |d| && d[i].key == key ==> v == d[i].value
    ensures (forall i :: 0 <= i < |d| ==> d[i].key != key) ==> v == Null
  {
    if d == [] then Null
    else if d[0].key == key then d[0].value
    else Get(d[1..], key)
  }
}
