/** Grouping a sequence of (key, value) rows into one list per key, as the storages do when they
    fold a JDBC result set or a list of map entries into a map of `ArrayList`s: each row appends
    its value to its key's list, and a key gets a list the first time it is seen. */
module Grouping {

  /** A `LinkedHashMap`: the entries plus the order in which their keys were first inserted. */
  datatype LinkedMap<V> = LinkedMap(order: seq<int>, entries: map<int, seq<V>>)

  /** The keys that occur in `rows`. */
  function KeySet<V>(rows: seq<(int, V)>): set<int> {
    set i | 0 <= i < |rows| :: rows[i].0
  }

  /** The values of the rows with key `k`, in row order. */
  function ValuesOf<V>(rows: seq<(int, V)>, k: int): seq<V> {
    if rows == [] then []
    else
      var last := rows[|rows| - 1];
      ValuesOf(rows[..|rows| - 1], k) + (if last.0 == k then [last.1] else [])
  }

  /** The grouped map: exactly the keys present, each with its values in row order. */
  function Grouped<V>(rows: seq<(int, V)>): map<int, seq<V>> {
    map k | k in KeySet(rows) :: ValuesOf(rows, k)
  }

  /** No key occurs twice. */
  predicate Distinct(ks: seq<int>) {
    forall i, j :: 0 <= i < j < |ks| ==> ks[i] != ks[j]
  }

  /** The keys in order of first appearance, the iteration order of a `LinkedHashMap`
      filled row by row. */
  function KeyOrder<V>(rows: seq<(int, V)>): (ks: seq<int>)
    ensures Distinct(ks)
    ensures forall k :: k in ks <==> k in KeySet(rows)
  {
    if rows == [] then []
    else
      var init := rows[..|rows| - 1];
      var last := rows[|rows| - 1];
      assert rows == init + [last];
      var ks := KeyOrder(init);
      if last.0 in ks then ks else ks + [last.0]
  }

  /** One step of the row loop: the linked map of `rows` becomes that of `rows + [r]` by giving a
      new key an empty list at the end of the order and then appending the row's value. */
  lemma GroupStep<V>(rows: seq<(int, V)>, r: (int, V), order: seq<int>, entries: map<int, seq<V>>)
    requires order == KeyOrder(rows) && entries == Grouped(rows)
    ensures KeyOrder(rows + [r]) == if r.0 in entries then order else order + [r.0]
    ensures var present := if r.0 in entries then entries else entries[r.0 := []];
      Grouped(rows + [r]) == present[r.0 := present[r.0] + [r.1]]
  {
    KeyOrderSnoc(rows, r);
    GroupedSnoc(rows, r);
    assert r.0 in entries <==> r.0 in KeySet(rows);
    if r.0 !in entries {
      assert entries[r.0 := []][r.0 := [] + [r.1]] == entries[r.0 := [] + [r.1]];
    }
  }

  /** Appending one row appends its key to the key order when the key is new. */
  lemma KeyOrderSnoc<V>(rows: seq<(int, V)>, r: (int, V))
    ensures KeyOrder(rows + [r]) == if r.0 in KeySet(rows) then KeyOrder(rows) else KeyOrder(rows) + [r.0]
  {
    assert (rows + [r])[..|rows + [r]| - 1] == rows;
  }

  /** The length of the list stored under `k`, 0 when `k` is absent. */
  function LengthAt<V>(m: map<int, seq<V>>, k: int): nat {
    if k in m then |m[k]| else 0
  }

  /** The summed lengths of the lists stored under the keys `ks`. */
  function SumLengths<V>(m: map<int, seq<V>>, ks: seq<int>): nat {
    if ks == [] then 0 else SumLengths(m, ks[..|ks| - 1]) + LengthAt(m, ks[|ks| - 1])
  }

  /** Appending one row adds its key to the key set. */
  lemma KeySetSnoc<V>(rows: seq<(int, V)>, r: (int, V))
    ensures KeySet(rows + [r]) == KeySet(rows) + {r.0}
  {
    var rows' := rows + [r];
    forall k | k in KeySet(rows') ensures k in KeySet(rows) + {r.0} {
      var i :| 0 <= i < |rows'| && rows'[i].0 == k;
      if i < |rows| { assert rows[i] == rows'[i]; }
    }
    forall k | k in KeySet(rows) ensures k in KeySet(rows') {
      var i :| 0 <= i < |rows| && rows[i].0 == k;
      assert rows'[i] == rows[i];
    }
    assert rows'[|rows|] == r;
  }

  /** Appending one row appends its value to its key's list and leaves every other list as it was. */
  lemma GroupedSnoc<V>(rows: seq<(int, V)>, r: (int, V))
    ensures KeySet(rows + [r]) == KeySet(rows) + {r.0}
    ensures forall k :: k != r.0 ==> ValuesOf(rows + [r], k) == ValuesOf(rows, k)
    ensures ValuesOf(rows + [r], r.0) == ValuesOf(rows, r.0) + [r.1]
    ensures Grouped(rows + [r]) == Grouped(rows)[r.0 := (if r.0 in Grouped(rows) then Grouped(rows)[r.0] else []) + [r.1]]
  {
    var rows' := rows + [r];
    assert rows'[..|rows'| - 1] == rows;
    KeySetSnoc(rows, r);
    ValuesOfPresent(rows, r.0);
    var g, g' := Grouped(rows), Grouped(rows');
    var e := g[r.0 := (if r.0 in g then g[r.0] else []) + [r.1]];
    assert g'.Keys == e.Keys;
    forall k | k in g' ensures g'[k] == e[k] {
    }
  }

  /** A key has a non-empty list exactly when some row carries it: a film with no rows gets no
      key, rather than a key with an empty list. */
  lemma {:induction false} ValuesOfPresent<V>(rows: seq<(int, V)>, k: int)
    ensures ValuesOf(rows, k) != [] <==> k in KeySet(rows)
  {
    if rows != [] {
      var init := rows[..|rows| - 1];
      var last := rows[|rows| - 1];
      assert rows == init + [last];
      ValuesOfPresent(init, k);
      KeySetSnoc(init, last);
    }
  }

  /** A value is listed under `k` exactly when a row pairs `k` with it. */
  lemma {:induction false} ValuesOfMembership<V>(rows: seq<(int, V)>, k: int, v: V)
    ensures v in ValuesOf(rows, k) <==> (k, v) in rows
  {
    if rows != [] {
      var init := rows[..|rows| - 1];
      var last := rows[|rows| - 1];
      assert rows == init + [last];
      ValuesOfMembership(init, k, v);
    }
  }

  /** Rows that come earlier have their values earlier in each list: grouping keeps row order. */
  lemma {:induction false} ValuesOfConcat<V>(a: seq<(int, V)>, b: seq<(int, V)>, k: int)
    ensures ValuesOf(a + b, k) == ValuesOf(a, k) + ValuesOf(b, k)
  {
    if b != [] {
      var init := b[..|b| - 1];
      var last := b[|b| - 1];
      assert b == init + [last];
      assert (a + b)[..|a + b| - 1] == a + init;
      ValuesOfConcat(a, init, k);
    } else {
      assert a + b == a;
    }
  }

  /** Raising one listed key's length by one raises the sum by one. */
  lemma {:induction false} SumLengthsBump<V>(m: map<int, seq<V>>, m': map<int, seq<V>>, ks: seq<int>, key: int)
    requires Distinct(ks) && key in ks
    requires forall k :: k in ks && k != key ==> LengthAt(m', k) == LengthAt(m, k)
    requires LengthAt(m', key) == LengthAt(m, key) + 1
    ensures SumLengths(m', ks) == SumLengths(m, ks) + 1
  {
    var init := ks[..|ks| - 1];
    var last := ks[|ks| - 1];
    assert ks == init + [last];
    if last == key {
      assert key !in init;
      SumLengthsSame(m, m', init);
    } else {
      SumLengthsBump(m, m', init, key);
    }
  }

  /** Maps that agree on the lengths at `ks` have the same sum over `ks`. */
  lemma {:induction false} SumLengthsSame<V>(m: map<int, seq<V>>, m': map<int, seq<V>>, ks: seq<int>)
    requires forall k :: k in ks ==> LengthAt(m', k) == LengthAt(m, k)
    ensures SumLengths(m', ks) == SumLengths(m, ks)
  {
    if ks != [] {
      var init := ks[..|ks| - 1];
      assert ks == init + [ks[|ks| - 1]];
      SumLengthsSame(m, m', init);
    }
  }

  /** Grouping drops nothing and adds nothing: the lists' lengths add up to the number of rows. */
  lemma {:induction false} GroupedConservesRows<V>(rows: seq<(int, V)>)
    ensures SumLengths(Grouped(rows), KeyOrder(rows)) == |rows|
  {
    if rows != [] {
      var init := rows[..|rows| - 1];
      var last := rows[|rows| - 1];
      assert rows == init + [last];
      GroupedConservesRows(init);
      GroupedSnoc(init, last);
      var g, g' := Grouped(init), Grouped(rows);
      var ks := KeyOrder(init);
      assert forall k :: k != last.0 ==> LengthAt(g', k) == LengthAt(g, k);
      assert LengthAt(g', last.0) == LengthAt(g, last.0) + 1;
      if last.0 in ks {
        assert KeyOrder(rows) == ks;
        SumLengthsBump(g, g', ks, last.0);
      } else {
        assert KeyOrder(rows) == ks + [last.0];
        assert (ks + [last.0])[..|ks|] == ks;
        SumLengthsSame(g, g', ks);
        assert LengthAt(g, last.0) == 0;
      }
    }
  }

  /** Rows whose keys never decrease. */
  predicate SortedByKey<V>(rows: seq<(int, V)>) {
    forall i, j :: 0 <= i < j < |rows| ==> rows[i].0 <= rows[j].0
  }

  /** Keys that strictly increase. */
  predicate Ascending(ks: seq<int>) {
    forall i, j :: 0 <= i < j < |ks| ==> ks[i] < ks[j]
  }

  /** When the rows arrive ordered by key, as an `order by` on the key column makes them,
      the keys of the linked map come out in ascending order. */
  lemma {:induction false} SortedRowsGiveAscendingKeys<V>(rows: seq<(int, V)>)
    requires SortedByKey(rows)
    ensures Ascending(KeyOrder(rows))
  {
    if rows != [] {
      var init := rows[..|rows| - 1];
      var last := rows[|rows| - 1];
      assert rows == init + [last];
      SortedRowsGiveAscendingKeys(init);
      var ks := KeyOrder(init);
      forall k | k in ks ensures k <= last.0 {
        var i :| 0 <= i < |init| && init[i].0 == k;
        assert rows[i] == init[i];
      }
      if last.0 !in ks {
        var ks' := ks + [last.0];
        forall i, j | 0 <= i < j < |ks'| ensures ks'[i] < ks'[j] {
          if j == |ks| { assert ks'[i] in ks; }
        }
      }
    }
  }
}
