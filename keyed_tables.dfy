/** Tables built by assigning one entry per row, in row order, into an initially
    empty map (`Map.prototype.set` in the world map, `object[key] = ...` in the
    US map): a later row with the same key replaces the earlier entry. */
module KeyedTables {
  import opened Common

  /** The table after `table[key(r)] := val(r)` for every row `r`, first to last. */
  function Assigned<R, K(==), V>(rows: seq<R>, key: R -> K, val: R -> V): map<K, V>
  {
    if rows == [] then map[]
    else Assigned(rows[..|rows| - 1], key, val)[key(rows[|rows| - 1]) := val(rows[|rows| - 1])]
  }

  /** The index of the last row whose key is `k`, if there is one. */
  function LastIndexWith<R, K(==)>(rows: seq<R>, key: R -> K, k: K): (r: Option<nat>)
    ensures r.Some? ==> r.value < |rows| && key(rows[r.value]) == k
    ensures r.Some? ==> forall j :: r.value < j < |rows| ==> key(rows[j]) != k
    ensures r.None? <==> forall j :: 0 <= j < |rows| ==> key(rows[j]) != k
  {
    if rows == [] then None
    else if key(rows[|rows| - 1]) == k then Some(|rows| - 1)
    else LastIndexWith(rows[..|rows| - 1], key, k)
  }

  /** The rows whose key is in `valid`, in their original order
      (`Array.prototype.filter`). */
  function Filter<R, K(==)>(rows: seq<R>, key: R -> K, valid: set<K>): (r: seq<R>)
    ensures |r| <= |rows|
    ensures forall i :: 0 <= i < |r| ==> key(r[i]) in valid
  {
    if rows == [] then []
    else
      Filter(rows[..|rows| - 1], key, valid)
        + (if key(rows[|rows| - 1]) in valid then [rows[|rows| - 1]] else [])
  }

  /** An entry exists exactly for the keys some row carries, and it is the value
      of the LAST such row. */
  lemma {:induction false} AssignedIsLastRow<R, K, V>(rows: seq<R>, key: R -> K, val: R -> V, k: K)
    ensures k in Assigned(rows, key, val) <==> LastIndexWith(rows, key, k).Some?
    ensures k in Assigned(rows, key, val) ==>
              Assigned(rows, key, val)[k] == val(rows[LastIndexWith(rows, key, k).value])
  {
    if rows != [] {
      AssignedIsLastRow(rows[..|rows| - 1], key, val, k);
      if key(rows[|rows| - 1]) != k {
        var i := LastIndexWith(rows[..|rows| - 1], key, k);
        if i.Some? {
          assert rows[..|rows| - 1][i.value] == rows[i.value];
        }
      }
    }
  }

  /** The key set of the table is exactly the set of keys carried by the rows. */
  lemma {:induction false} AssignedKeys<R, K, V>(rows: seq<R>, key: R -> K, val: R -> V)
    ensures Assigned(rows, key, val).Keys == set i | 0 <= i < |rows| :: key(rows[i])
  {
    if rows != [] {
      var init := rows[..|rows| - 1];
      AssignedKeys(init, key, val);
      var all := set i | 0 <= i < |rows| :: key(rows[i]);
      var before := set i | 0 <= i < |init| :: key(init[i]);
      forall x | x in all
        ensures x in before + {key(rows[|rows| - 1])}
      {
        var i :| 0 <= i < |rows| && key(rows[i]) == x;
        if i < |init| {
          assert init[i] == rows[i];
        }
      }
      forall x | x in before
        ensures x in all
      {
        var i :| 0 <= i < |init| && key(init[i]) == x;
        assert rows[i] == init[i];
      }
      assert all == before + {key(rows[|rows| - 1])};
    }
  }

  /** Filtering rows by key and then building the table is the same as building
      the table from all rows and keeping only the valid keys: a dropped row
      never reaches the table, and a kept key still sees its last row. */
  lemma {:induction false} AssignedAfterFilter<R, K, V>(rows: seq<R>, key: R -> K, val: R -> V, valid: set<K>)
    ensures Assigned(Filter(rows, key, valid), key, val)
         == map k | k in Assigned(rows, key, val) && k in valid :: Assigned(rows, key, val)[k]
  {
    if rows != [] {
      var init, last := rows[..|rows| - 1], rows[|rows| - 1];
      AssignedAfterFilter(init, key, val, valid);
      var f := Filter(init, key, valid);
      var before := Assigned(init, key, val);
      assert Assigned(rows, key, val) == before[key(last) := val(last)];
      RestrictUpdate(before, key(last), val(last), valid);
      if key(last) in valid {
        assert Filter(rows, key, valid) == f + [last];
        assert (f + [last])[..|f + [last]| - 1] == f;
      } else {
        assert Filter(rows, key, valid) == f;
      }
    }
  }

  /** Restricting an updated map to `valid` keeps the update exactly when its
      key is valid. */
  lemma RestrictUpdate<K, V>(m: map<K, V>, k: K, v: V, valid: set<K>)
    ensures k in valid ==>
      (map j | j in m[k := v] && j in valid :: m[k := v][j])
        == (map j | j in m && j in valid :: m[j])[k := v]
    ensures k !in valid ==>
      (map j | j in m[k := v] && j in valid :: m[k := v][j])
        == (map j | j in m && j in valid :: m[j])
  {
  }

  /** Appending a row whose key is not valid leaves the filtered table unchanged. */
  lemma DroppedRowIsInvisible<R, K, V>(rows: seq<R>, r: R, key: R -> K, val: R -> V, valid: set<K>)
    requires key(r) !in valid
    ensures Assigned(Filter(rows + [r], key, valid), key, val)
         == Assigned(Filter(rows, key, valid), key, val)
  {
    assert (rows + [r])[..|rows + [r]| - 1] == rows;
    assert Filter(rows + [r], key, valid) == Filter(rows, key, valid);
  }
}
