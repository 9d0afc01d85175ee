/**
 * Component tables of the grid model.
 *
 * A table whose row order is observable (the scripts iterate over it and the
 * order shows in a result) is a `Table`: the ordered row index together with
 * the map from row name to row. Other tables are plain maps.
 */
module Tables {

  datatype Option<+T> = None | Some(value: T)

  /** No name occurs twice in `s`. */
  ghost predicate Distinct(s: seq<string>)
  {
    forall i, j :: 0 <= i < j < |s| ==> s[i] != s[j]
  }

  /** `s` with every occurrence of `x` taken out, order kept. */
  function Without(s: seq<string>, x: string): (r: seq<string>)
    ensures forall y :: y in r <==> y in s && y != x
    ensures Distinct(s) ==> Distinct(r)
    ensures |r| <= |s|
  {
    if s == [] then []
    else
      var rest := Without(s[..|s| - 1], x);
      assert forall y :: y in s <==> y in s[..|s| - 1] || y == s[|s| - 1];
      assert Distinct(s) ==> Distinct(s[..|s| - 1]) && s[|s| - 1] !in s[..|s| - 1];
      if s[|s| - 1] == x then rest else rest + [s[|s| - 1]]
  }

  /** The names of `s` whose row satisfies `keep`, in the order of `s`. */
  function Filter<R>(s: seq<string>, rows: map<string, R>, keep: R -> bool): (r: seq<string>)
    requires forall k :: k in s ==> k in rows
    ensures forall k :: k in r <==> k in s && keep(rows[k])
    ensures Distinct(s) ==> Distinct(r)
  {
    if s == [] then []
    else
      var rest := Filter(s[..|s| - 1], rows, keep);
      var last := s[|s| - 1];
      assert forall y :: y in s <==> y in s[..|s| - 1] || y == last;
      if keep(rows[last]) then rest + [last] else rest
  }

  /** Updating a merged map updates its right operand. */
  lemma MergeUpdate<K, V>(a: map<K, V>, b: map<K, V>, k: K, v: V)
    ensures (a + b)[k := v] == a + b[k := v]
  {
  }

  /** A table: the row index in order, and the rows by name. */
  datatype Table<R> = Table(index: seq<string>, rows: map<string, R>)
  {
    /** The index lists every row exactly once. */
    ghost predicate Valid()
    {
      Distinct(index) && forall k :: k in rows <==> k in index
    }

    /** Appends a row under a new name (the library's `add`). */
    function Insert(name: string, row: R): (t: Table<R>)
      ensures t.index == index + [name]
      ensures t.rows.Keys == rows.Keys + {name} && t.rows[name] == row
      ensures forall k :: k in rows && k != name ==> t.rows[k] == rows[k]
      ensures name !in rows ==> |t.rows| == |rows| + 1
      ensures Valid() && name !in rows ==> t.Valid()
    {
      Table(index + [name], rows[name := row])
    }

    /** Drops the row of the given name, if any (the library's `remove`). */
    function Delete(name: string): (t: Table<R>)
      ensures t.index == Without(index, name)
      ensures t.rows.Keys == rows.Keys - {name}
      ensures forall k :: k in t.rows ==> t.rows[k] == rows[k]
      ensures name in rows ==> |t.rows| == |rows| - 1
      ensures Valid() ==> t.Valid()
    {
      assert name in rows ==> rows.Keys == (rows - {name}).Keys + {name};
      Table(Without(index, name), rows - {name})
    }

    /** The rows satisfying `keep`, as a new table in the same order. */
    function Where(keep: R -> bool): (t: Table<R>)
      requires Valid()
      ensures t.Valid()
      ensures t.index == Filter(index, rows, keep)
      ensures forall k :: k in t.rows <==> k in rows && keep(rows[k])
      ensures forall k :: k in t.rows ==> t.rows[k] == rows[k]
    {
      Table(Filter(index, rows, keep), map k | k in rows && keep(rows[k]) :: rows[k])
    }

    /** Every row passed through `f`, names and order kept. */
    function MapRows(f: R -> R): (t: Table<R>)
      ensures t.index == index && t.rows.Keys == rows.Keys
      ensures forall k :: k in rows ==> t.rows[k] == f(rows[k])
      ensures Valid() ==> t.Valid()
    {
      Table(index, map k | k in rows :: f(rows[k]))
    }
  }

  /**
   * Appending a row under a fresh name and then, if asked, dropping another
   * row: the table stays well formed, gains the new name, loses the dropped
   * one, and keeps every other row.
   */
  lemma InsertThenDelete<R>(t0: Table<R>, name: string, row: R, gone: string, remove: bool)
    requires t0.Valid() && gone in t0.rows && name !in t0.rows
    ensures var t1 := t0.Insert(name, row);
            var t := if remove then t1.Delete(gone) else t1;
            && t.Valid()
            && t.rows.Keys == t0.rows.Keys + {name} - (if remove then {gone} else {})
            && t.rows[name] == row
            && (forall k :: k in t.rows && k != name ==> t.rows[k] == t0.rows[k])
            && |t.rows| == |t0.rows| + (if remove then 0 else 1)
  {
  }
}
