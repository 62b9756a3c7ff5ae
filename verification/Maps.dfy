/** Deleting and replacing map entries. */
module Maps {
  function Without<K, V>(m: map<K, V>, k: K): map<K, V> {
    map x | x in m && x != k :: m[x]
  }

  lemma PutThenWithout<K, V>(m: map<K, V>, k: K, v: V)
    ensures Without(m[k := v], k) == Without(m, k)
  {
  }

  lemma WithoutSize<K, V>(m: map<K, V>, k: K)
    ensures Without(m, k).Keys == m.Keys - {k}
    ensures |Without(m, k)| == if k in m then |m| - 1 else |m|
    ensures k !in m ==> Without(m, k) == m
  {
    assert Without(m, k).Keys == m.Keys - {k};
    assert |Without(m, k)| == |Without(m, k).Keys|;
    assert |m| == |m.Keys|;
  }

  lemma PutSize<K, V>(m: map<K, V>, k: K, v: V)
    ensures |m[k := v]| == if k in m then |m| else |m| + 1
  {
    assert m[k := v].Keys == m.Keys + {k};
    assert |m[k := v]| == |m[k := v].Keys|;
    assert |m| == |m.Keys|;
  }

  lemma PutTwice<K, V>(m: map<K, V>, k: K, first: V, second: V)
    ensures m[k := first][k := second] == m[k := second]
  {
  }

  ghost predicate Injective<K(!new), L>(f: K -> L) {
    forall a, b :: f(a) == f(b) ==> a == b
  }

  /** The same entries under other keys. */
  ghost function Renamed<K(!new), L, V>(m: map<K, V>, f: K -> L): map<L, V>
    requires Injective(f)
  {
    map k | k in m :: f(k) := m[k]
  }

  lemma RenamedWithout<K(!new), L, V>(m: map<K, V>, f: K -> L, k: K)
    requires Injective(f)
    ensures Renamed(Without(m, k), f) == Without(Renamed(m, f), f(k))
  {
  }

  lemma RenamedPut<K(!new), L, V>(m: map<K, V>, f: K -> L, k: K, v: V)
    requires Injective(f)
    ensures Renamed(m[k := v], f) == Renamed(m, f)[f(k) := v]
  {
    var a, b := Renamed(m[k := v], f), Renamed(m, f)[f(k) := v];
    forall x | x in m
      ensures f(x) in a && f(x) in b
    {
      assert x in m[k := v];
    }
    assert k in m[k := v] && f(k) in a;
    forall t | t in a
      ensures t in b && a[t] == b[t]
    {
      var x :| x in m[k := v] && f(x) == t;
      if x != k {
        assert x in m && f(x) in Renamed(m, f);
      }
    }
    forall t | t in b
      ensures t in a
    {
      if t != f(k) {
        var x :| x in m && f(x) == t;
      }
    }
  }

  /** The entries of a map as the rows of a query result: each once, in some order. */
  predicate Lists<K(==), V(==)>(rows: seq<(K, V)>, m: map<K, V>) {
    && (forall i :: 0 <= i < |rows| ==> rows[i].0 in m && m[rows[i].0] == rows[i].1)
    && (forall i, j :: 0 <= i < j < |rows| ==> rows[i].0 != rows[j].0)
    && forall k :: k in m ==> (k, m[k]) in rows
  }

  method Rows<K(==), V(==)>(m: map<K, V>) returns (rows: seq<(K, V)>)
    ensures Lists(rows, m)
  {
    rows := [];
    var left := m.Keys;
    while left != {}
      invariant forall k :: k in left ==> k in m
      invariant forall i :: 0 <= i < |rows| ==> rows[i].0 in m && rows[i].0 !in left && m[rows[i].0] == rows[i].1
      invariant forall i, j :: 0 <= i < j < |rows| ==> rows[i].0 != rows[j].0
      invariant forall k :: k in m && k !in left ==> (k, m[k]) in rows
    {
      var k :| k in left;
      left := left - {k};
      rows := rows + [(k, m[k])];
    }
  }

  /** The map that a list of entries builds up. */
  function MapOf<K(==), V>(rows: seq<(K, V)>): map<K, V> {
    if rows == [] then map[] else MapOf(rows[..|rows| - 1])[rows[|rows| - 1].0 := rows[|rows| - 1].1]
  }

  lemma MapOfNext<K, V>(rows: seq<(K, V)>, k: K, v: V)
    ensures MapOf(rows + [(k, v)]) == MapOf(rows)[k := v]
  {
    assert (rows + [(k, v)])[..|rows|] == rows;
  }

  lemma {:induction false} MapOfAt<K, V>(rows: seq<(K, V)>, i: nat)
    requires i < |rows| && forall a, b :: 0 <= a < b < |rows| ==> rows[a].0 != rows[b].0
    ensures rows[i].0 in MapOf(rows) && MapOf(rows)[rows[i].0] == rows[i].1
  {
    if i < |rows| - 1 {
      MapOfAt(rows[..|rows| - 1], i);
    }
  }

  lemma {:induction false} MapOfKeys<K, V>(rows: seq<(K, V)>)
    ensures forall k :: k in MapOf(rows) ==> exists i :: 0 <= i < |rows| && rows[i].0 == k
  {
    if rows != [] {
      var front := rows[..|rows| - 1];
      MapOfKeys(front);
      forall k | k in MapOf(rows)
        ensures exists i :: 0 <= i < |rows| && rows[i].0 == k
      {
        if k in MapOf(front) {
          var i :| 0 <= i < |front| && front[i].0 == k;
          assert rows[i].0 == k;
        } else {
          assert rows[|rows| - 1].0 == k;
        }
      }
    }
  }

  /** Listing a map and building it up again. */
  lemma MapOfLists<K, V>(rows: seq<(K, V)>, m: map<K, V>)
    requires Lists(rows, m)
    ensures MapOf(rows) == m
  {
    MapOfKeys(rows);
    forall k | k in m
      ensures k in MapOf(rows) && MapOf(rows)[k] == m[k]
    {
      var i :| 0 <= i < |rows| && rows[i] == (k, m[k]);
      MapOfAt(rows, i);
    }
    forall k | k in MapOf(rows)
      ensures k in m
    {
      var i :| 0 <= i < |rows| && rows[i].0 == k;
    }
  }
}
