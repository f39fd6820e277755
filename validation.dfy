/** The checks the handlers make on request data before touching the store, and the
    statement builder of the partial updates. */
module Validation {
  import opened Json
  import opened Store

  /** `a` is `b` with some elements left out, the rest in their order. */
  ghost predicate Subsequence<T>(a: seq<T>, b: seq<T>)
    decreases |b|
  {
    if a == [] then true
    else if b == [] then false
    else if a[0] == b[0] then Subsequence(a[1..], b[1..])
    else Subsequence(a, b[1..])
  }

  /** `[f for f in required if not data.get(f)]`: the required fields that the request
      leaves out or gives a falsy value, in the order `required` lists them. */
  function Missing(data: Dict, required: seq<string>): (missing: seq<string>)
    ensures forall f :: f in missing <==> f in required && !Truthy(Get(data, f))
    ensures Subsequence(missing, required)
  {
    if required == [] then []
    else if !Truthy(Get(data, required[0])) then [required[0]] + Missing(data, required[1..])
    else Missing(data, required[1..])
  }

  lemma {:induction false} SubsequenceMembers<T>(a: seq<T>, b: seq<T>)
    requires Subsequence(a, b)
    decreases |b|
    ensures forall x :: x in a ==> x in b
  {
    if a != [] && b != [] {
      if a[0] == b[0] {
        SubsequenceMembers(a[1..], b[1..]);
        assert forall x :: x in a ==> x == a[0] || x in a[1..];
      } else {
        SubsequenceMembers(a, b[1..]);
      }
    }
  }

  /** Being a subsequence of the required fields that holds exactly the missing ones
      determines the list: with distinct required fields, it can only be Missing's. */
  lemma {:induction false} MissingIsDetermined(data: Dict, required: seq<string>, m: seq<string>)
    requires forall i, j :: 0 <= i < j < |required| ==> required[i] != required[j]
    requires Subsequence(m, required)
    requires forall f :: f in m <==> f in required && !Truthy(Get(data, f))
    decreases |required|
    ensures m == Missing(data, required)
  {
    if required == [] {
      assert m == [];
    } else {
      var first, rest := required[0], required[1..];
      assert first !in rest;
      if !Truthy(Get(data, first)) {
        assert first in m;
        if m[0] != first {
          SubsequenceMembers(m, rest);
          assert false;
        }
        SubsequenceMembers(m[1..], rest);
        forall f ensures f in m[1..] <==> f in rest && !Truthy(Get(data, f)) {
          assert f in m <==> f == m[0] || f in m[1..];
        }
        MissingIsDetermined(data, rest, m[1..]);
        assert m == [first] + m[1..];
      } else {
        assert first !in m;
        assert m != [] ==> m[0] in m;
        MissingIsDetermined(data, rest, m);
      }
    }
  }

  /** A request that gives every required field a truthy value passes validation. */
  lemma NothingMissing(data: Dict, required: seq<string>)
    requires forall f :: f in required ==> Truthy(Get(data, f))
    ensures Missing(data, required) == []
  {
  }

  /** An empty request (also what an unparseable body becomes, through
      `get_json(silent=True) or {}`) misses every required field. */
  lemma {:induction false} EmptyDataMissesAll(required: seq<string>)
    ensures Missing([], required) == required
  {
    if required != [] {
      EmptyDataMissesAll(required[1..]);
    }
  }

  /** `{k: v for k, v in data.items() if k in allowed and v is not None}`: the
      allow-listed, non-null entries of the request, in the request's order. */
  function Keep(data: Dict, allowed: seq<string>): (kept: Dict)
    ensures forall f :: f in kept <==> f in data && f.key in allowed && f.value != Null
    ensures Subsequence(kept, data)
  {
    if data == [] then []
    else
      var rest := Keep(data[1..], allowed);
      assert data == [data[0]] + data[1..];
      if data[0].key in allowed && data[0].value != Null then
        assert DistinctKeys([data[0]] + rest) by {
          forall i | 0 <= i < |rest| ensures rest[i].key != data[0].key {
            assert rest[i] in data[1..];
          }
        }
        [data[0]] + rest
      else
        rest
  }

  /** Looking a column up in the kept entries is looking it up in the request, for an
      allow-listed column; nothing else is kept. A null value and an absent key are alike. */
  lemma GetKept(data: Dict, allowed: seq<string>, key: string)
    ensures Get(Keep(data, allowed), key) == if key in allowed then Get(data, key) else Null
  {
    var kept := Keep(data, allowed);
    if j :| 0 <= j < |data| && data[j].key == key && key in allowed && data[j].value != Null {
      assert data[j] in kept;
    } else {
      forall i | 0 <= i < |kept| ensures kept[i].key != key {
        assert kept[i] in data;
      }
    }
  }

  /** The SET clause's column list and the bound parameters of a partial update:
      one `column = %s` per kept entry, and the kept values in the same order
      followed by the row id (`values.append(id)`), one per placeholder. */
  method BuildUpdate(kept: Dict, id: int) returns (columns: seq<string>, values: seq<Value>)
    ensures |columns| == |kept| && |values| == |kept| + 1
    ensures forall i :: 0 <= i < |kept| ==> columns[i] == kept[i].key && values[i] == kept[i].value
    ensures values[|kept|] == Int(id)
  {
    columns, values := [], [];
    var i := 0;
    while i < |kept|
      invariant 0 <= i <= |kept|
      invariant |columns| == i && |values| == i
      invariant forall j :: 0 <= j < i ==> columns[j] == kept[j].key && values[j] == kept[j].value
    {
      columns := columns + [kept[i].key];
      values := values + [kept[i].value];
      i := i + 1;
    }
    values := values + [Int(id)];
  }

  /** A row after a partial update with request data `data`: each allow-listed column
      to which the request gives a non-null value takes that value; every other
      column keeps its own. */
  function Overwrite(row: Row, data: Dict, allowed: seq<string>): Row {
    map c | c in row :: if c in allowed && Get(data, c) != Null then Get(data, c) else row[c]
  }

  /** The column list of a SET clause built from the kept entries names distinct,
      allow-listed columns. */
  lemma {:induction false} KeptColumns(data: Dict, allowed: seq<string>, columns: seq<string>)
    requires |columns| == |Keep(data, allowed)|
    requires forall i :: 0 <= i < |columns| ==> columns[i] == Keep(data, allowed)[i].key
    ensures forall i, j :: 0 <= i < j < |columns| ==> columns[i] != columns[j]
    ensures forall c :: c in columns ==> c in allowed
  {
    var kept := Keep(data, allowed);
    forall c | c in columns ensures c in allowed {
      var i :| 0 <= i < |columns| && columns[i] == c;
      assert kept[i] in kept;
    }
  }

  /** One column of the partial update: the SET clause gives it the request's
      value when Overwrite does, and leaves it alone otherwise. */
  lemma {:induction false} SetClauseColumn(
    row: Row, data: Dict, allowed: seq<string>, columns: seq<string>, values: seq<Value>, c: string)
    requires |columns| == |values| == |Keep(data, allowed)|
    requires forall i :: 0 <= i < |columns| ==>
               columns[i] == Keep(data, allowed)[i].key && values[i] == Keep(data, allowed)[i].value
    requires forall i, j :: 0 <= i < j < |columns| ==> columns[i] != columns[j]
    requires c in row
    ensures c in ApplySet(row, columns, values)
    ensures ApplySet(row, columns, values)[c] == Overwrite(row, data, allowed)[c]
  {
    var kept := Keep(data, allowed);
    ApplySetAssigns(row, columns, values);
    GetKept(data, allowed, c);
    if i :| 0 <= i < |columns| && columns[i] == c {
      assert Get(kept, c) == values[i];
    } else {
      assert forall i :: 0 <= i < |kept| ==> kept[i].key != c;
    }
  }

  /** Executing the SET clause and parameters that BuildUpdate makes from the kept
      entries performs exactly the partial update Overwrite describes. */
  lemma SetClauseOverwrites(row: Row, data: Dict, allowed: seq<string>, columns: seq<string>, values: seq<Value>)
    requires ColumnSet(allowed) <= row.Keys
    requires |columns| == |values| == |Keep(data, allowed)|
    requires forall i :: 0 <= i < |columns| ==>
               columns[i] == Keep(data, allowed)[i].key && values[i] == Keep(data, allowed)[i].value
    ensures ApplySet(row, columns, values) == Overwrite(row, data, allowed)
  {
    KeptColumns(data, allowed, columns);
    ApplySetAssigns(row, columns, values);
    var updated := ApplySet(row, columns, values);
    assert updated.Keys == row.Keys;
    forall c | c in row ensures updated[c] == Overwrite(row, data, allowed)[c] {
      SetClauseColumn(row, data, allowed, columns, values, c);
    }
  }
}
