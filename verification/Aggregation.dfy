/** Sums over rows, and GROUP BY. */
module Aggregation {

  /** The sum of a column over the rows that satisfy a condition. */
  function Sum<R>(rows: seq<R>, p: R -> bool, w: R -> int): int {
    if rows == [] then 0
    else
      var last := rows[|rows| - 1];
      Sum(rows[..|rows| - 1], p, w) + if p(last) then w(last) else 0
  }

  ghost predicate Same<R(!new)>(p: R -> bool, q: R -> bool) {
    forall r :: p(r) == q(r)
  }

  /** One condition says that one of two others holds, and those exclude each other. */
  ghost predicate Either<R(!new)>(p: R -> bool, q: R -> bool, either: R -> bool) {
    forall r :: (p(r) ==> !q(r)) && (either(r) <==> p(r) || q(r))
  }

  lemma {:induction false} SumSame<R(!new)>(rows: seq<R>, p: R -> bool, q: R -> bool, w: R -> int)
    requires Same(p, q)
    ensures Sum(rows, p, w) == Sum(rows, q, w)
  {
    if rows != [] {
      SumSame(rows[..|rows| - 1], p, q, w);
      assert p(rows[|rows| - 1]) == q(rows[|rows| - 1]);
    }
  }

  /** Conditions need only agree on the rows there are. */
  lemma {:induction false} SumSameOn<R>(rows: seq<R>, p: R -> bool, q: R -> bool, w: R -> int)
    requires forall i :: 0 <= i < |rows| ==> p(rows[i]) == q(rows[i])
    ensures Sum(rows, p, w) == Sum(rows, q, w)
  {
    if rows != [] {
      SumSameOn(rows[..|rows| - 1], p, q, w);
    }
  }

  lemma {:induction false} SumMinus<R(!new)>(rows: seq<R>, p: R -> bool, v: R -> int, w: R -> int, difference: R -> int)
    requires forall r :: difference(r) == v(r) - w(r)
    ensures Sum(rows, p, difference) == Sum(rows, p, v) - Sum(rows, p, w)
  {
    if rows != [] {
      SumMinus(rows[..|rows| - 1], p, v, w, difference);
    }
  }

  /** A sum does not depend on the order of the rows. */
  lemma {:induction false} SumPermuted<R>(a: seq<R>, b: seq<R>, p: R -> bool, w: R -> int)
    requires multiset(a) == multiset(b)
    ensures Sum(a, p, w) == Sum(b, p, w)
  {
    if a == [] {
      assert |multiset(b)| == 0;
    } else {
      var last := |a| - 1;
      MultisetDropped(a, last);
      assert a[..last] + a[last + 1..] == a[..last];
      assert a[last] in multiset(b);
      var j :| 0 <= j < |b| && b[j] == a[last];
      MultisetDropped(b, j);
      SumPermuted(a[..last], b[..j] + b[j + 1..], p, w);
      SumDropped(b, j, p, w);
    }
  }

  lemma MultisetDropped<R>(rows: seq<R>, j: nat)
    requires j < |rows|
    ensures multiset(rows[..j] + rows[j + 1..]) == multiset(rows) - multiset{rows[j]}
  {
    assert rows == rows[..j] + [rows[j]] + rows[j + 1..];
  }

  lemma {:induction false} SumDropped<R>(rows: seq<R>, j: nat, p: R -> bool, w: R -> int)
    requires j < |rows|
    ensures Sum(rows, p, w) == Sum(rows[..j] + rows[j + 1..], p, w) + if p(rows[j]) then w(rows[j]) else 0
  {
    var last := |rows| - 1;
    if j == last {
      assert rows[..j] + rows[j + 1..] == rows[..last];
    } else {
      SumDropped(rows[..last], j, p, w);
      assert (rows[..j] + rows[j + 1..])[..last - 1] == rows[..last][..j] + rows[..last][j + 1..];
    }
  }

  lemma {:induction false} SumEither<R(!new)>(rows: seq<R>, p: R -> bool, q: R -> bool, either: R -> bool, w: R -> int)
    requires Either(p, q, either)
    ensures Sum(rows, either, w) == Sum(rows, p, w) + Sum(rows, q, w)
  {
    if rows != [] {
      SumEither(rows[..|rows| - 1], p, q, either, w);
      var last := rows[|rows| - 1];
      assert (p(last) ==> !q(last)) && (either(last) <==> p(last) || q(last));
    }
  }

  lemma {:induction false} SumNone<R>(rows: seq<R>, p: R -> bool, w: R -> int)
    requires forall i :: 0 <= i < |rows| ==> !p(rows[i])
    ensures Sum(rows, p, w) == 0
  {
    if rows != [] {
      SumNone(rows[..|rows| - 1], p, w);
    }
  }

  function Count<R>(rows: seq<R>, p: R -> bool): nat {
    if rows == [] then 0
    else Count(rows[..|rows| - 1], p) + if p(rows[|rows| - 1]) then 1 else 0
  }

  lemma {:induction false} CountZeroIff<R>(rows: seq<R>, p: R -> bool)
    ensures Count(rows, p) == 0 <==> forall i :: 0 <= i < |rows| ==> !p(rows[i])
  {
    if rows != [] {
      var front := rows[..|rows| - 1];
      CountZeroIff(front, p);
      assert forall i :: 0 <= i < |front| ==> rows[i] == front[i];
    }
  }

  lemma {:induction false} CountSame<R(!new)>(rows: seq<R>, p: R -> bool, q: R -> bool)
    requires Same(p, q)
    ensures Count(rows, p) == Count(rows, q)
  {
    if rows != [] {
      CountSame(rows[..|rows| - 1], p, q);
      assert p(rows[|rows| - 1]) == q(rows[|rows| - 1]);
    }
  }

  lemma {:induction false} CountEither<R(!new)>(rows: seq<R>, p: R -> bool, q: R -> bool, either: R -> bool)
    requires Either(p, q, either)
    ensures Count(rows, either) == Count(rows, p) + Count(rows, q)
  {
    if rows != [] {
      CountEither(rows[..|rows| - 1], p, q, either);
      var last := rows[|rows| - 1];
      assert (p(last) ==> !q(last)) && (either(last) <==> p(last) || q(last));
    }
  }

  /** A group's sums: rows, delivered rows, revenue, cost. */
  datatype Agg = Agg(count: int, delivered: int, revenue: int, cost: int)

  const ZERO := Agg(0, 0, 0, 0)

  function Plus(a: Agg, b: Agg): Agg {
    Agg(a.count + b.count, a.delivered + b.delivered, a.revenue + b.revenue, a.cost + b.cost)
  }

  lemma PlusIs(t: Agg, a: Agg, b: Agg)
    requires t.count == a.count + b.count && t.delivered == a.delivered + b.delivered
    requires t.revenue == a.revenue + b.revenue && t.cost == a.cost + b.cost
    ensures t == Plus(a, b)
  {
  }

  datatype Columns<!R> = Columns(delivered: R -> int, revenue: R -> int, cost: R -> int)

  function Total<R>(rows: seq<R>, p: R -> bool, c: Columns<R>): Agg {
    Agg(Count(rows, p), Sum(rows, p, c.delivered), Sum(rows, p, c.revenue), Sum(rows, p, c.cost))
  }

  lemma TotalSame<R(!new)>(rows: seq<R>, p: R -> bool, q: R -> bool, c: Columns<R>)
    requires Same(p, q)
    ensures Total(rows, p, c) == Total(rows, q, c)
  {
    CountSame(rows, p, q);
    SumSame(rows, p, q, c.delivered);
    SumSame(rows, p, q, c.revenue);
    SumSame(rows, p, q, c.cost);
  }

  lemma TotalEither<R(!new)>(rows: seq<R>, p: R -> bool, q: R -> bool, either: R -> bool, c: Columns<R>)
    requires Either(p, q, either)
    ensures Total(rows, either, c) == Plus(Total(rows, p, c), Total(rows, q, c))
  {
    CountEither(rows, p, q, either);
    SumEither(rows, p, q, either, c.delivered);
    SumEither(rows, p, q, either, c.revenue);
    SumEither(rows, p, q, either, c.cost);
    PlusIs(Total(rows, either, c), Total(rows, p, c), Total(rows, q, c));
  }

  lemma TotalNone<R>(rows: seq<R>, p: R -> bool, c: Columns<R>)
    requires Count(rows, p) == 0
    ensures Total(rows, p, c) == ZERO
  {
    CountZeroIff(rows, p);
    SumNone(rows, p, c.delivered);
    SumNone(rows, p, c.revenue);
    SumNone(rows, p, c.cost);
  }

  // ---- GROUP BY ----

  function Member<R, K(==)>(col: R -> K, where: R -> bool, f: K): R -> bool {
    r => where(r) && col(r) == f
  }

  function GroupKeys<R, K(==)>(rows: seq<R>, col: R -> K, where: R -> bool): set<K> {
    set i | 0 <= i < |rows| && where(rows[i]) :: col(rows[i])
  }

  /** GROUP BY a column over the rows of a condition. */
  function GroupBy<R, K(==)>(rows: seq<R>, col: R -> K, where: R -> bool, c: Columns<R>): map<K, Agg> {
    map f | f in GroupKeys(rows, col, where) :: Total(rows, Member(col, where, f), c)
  }

  function Get<K(==)>(m: map<K, Agg>, f: K): Agg {
    if f in m then m[f] else ZERO
  }

  lemma MembersEither<R(!new), K(!new)>(col: R -> K, p: R -> bool, q: R -> bool, either: R -> bool, f: K)
    requires Either(p, q, either)
    ensures Either(Member(col, p, f), Member(col, q, f), Member(col, either, f))
  {
    forall r
      ensures var a, b := Member(col, p, f), Member(col, q, f);
              (a(r) ==> !b(r)) && (Member(col, either, f)(r) <==> a(r) || b(r))
    {
      assert (p(r) ==> !q(r)) && (either(r) <==> p(r) || q(r));
    }
  }

  /** A group is listed exactly when it has a row, and absent groups sum to nothing. */
  lemma GroupByAt<R, K>(rows: seq<R>, col: R -> K, where: R -> bool, c: Columns<R>, f: K)
    ensures var g, total := GroupBy(rows, col, where, c), Total(rows, Member(col, where, f), c);
            Get(g, f) == total && (f in g <==> total.count > 0)
  {
    var p := Member(col, where, f);
    CountZeroIff(rows, p);
    if f !in GroupKeys(rows, col, where) {
      forall i | 0 <= i < |rows|
        ensures !p(rows[i])
      {
        assert where(rows[i]) ==> col(rows[i]) in GroupKeys(rows, col, where);
      }
      TotalNone(rows, p, c);
    } else {
      var i :| 0 <= i < |rows| && where(rows[i]) && col(rows[i]) == f;
      assert p(rows[i]);
    }
  }

  ghost predicate Agrees<R, K(!new)>(m: map<K, Agg>, rows: seq<R>, col: R -> K, where: R -> bool, c: Columns<R>) {
    forall f :: Get(m, f) == Total(rows, Member(col, where, f), c) && (f in m <==> Get(m, f).count > 0)
  }

  /** A table of groups is the GROUP BY exactly when every group has the right sums and only groups with rows are
      listed. */
  lemma AgreesIff<R, K(!new)>(m: map<K, Agg>, rows: seq<R>, col: R -> K, where: R -> bool, c: Columns<R>)
    ensures m == GroupBy(rows, col, where, c) <==> Agrees(m, rows, col, where, c)
  {
    var g := GroupBy(rows, col, where, c);
    forall f
      ensures Get(g, f) == Total(rows, Member(col, where, f), c) && (f in g <==> Get(g, f).count > 0)
    {
      GroupByAt(rows, col, where, c, f);
    }
    if Agrees(m, rows, col, where, c) {
      forall f
        ensures f in m <==> f in g
        ensures f in m ==> m[f] == g[f]
      {
        assert Get(m, f) == Get(g, f);
      }
    }
  }

  lemma SameGroups<R(!new), K(!new)>(rows: seq<R>, col: R -> K, p: R -> bool, q: R -> bool, c: Columns<R>)
    requires Same(p, q)
    ensures GroupBy(rows, col, p, c) == GroupBy(rows, col, q, c)
  {
    var g := GroupBy(rows, col, p, c);
    forall f
      ensures Get(g, f) == Total(rows, Member(col, q, f), c) && (f in g <==> Get(g, f).count > 0)
    {
      GroupByAt(rows, col, p, c, f);
      assert Same(Member(col, p, f), Member(col, q, f)) by {
        assert forall r :: p(r) == q(r);
      }
      TotalSame(rows, Member(col, p, f), Member(col, q, f), c);
    }
    AgreesIff(g, rows, col, q, c);
  }

  /** The groups of two tables put together. */
  function Merged<K(==)>(m: map<K, Agg>, n: map<K, Agg>): map<K, Agg> {
    map f | f in m.Keys + n.Keys :: Plus(Get(m, f), Get(n, f))
  }

  lemma MergedGroupAt<R(!new), K(!new)>(rows: seq<R>, col: R -> K, p: R -> bool, q: R -> bool,
                                            either: R -> bool, c: Columns<R>, f: K)
    requires Either(p, q, either)
    ensures var m := Merged(GroupBy(rows, col, p, c), GroupBy(rows, col, q, c));
            Get(m, f) == Total(rows, Member(col, either, f), c) && (f in m <==> Get(m, f).count > 0)
  {
    MembersEither(col, p, q, either, f);
    TotalEither(rows, Member(col, p, f), Member(col, q, f), Member(col, either, f), c);
    GroupByAt(rows, col, p, c, f);
    GroupByAt(rows, col, q, c, f);
    MergedAt(GroupBy(rows, col, p, c), GroupBy(rows, col, q, c), f);
  }

  lemma MergedAt<K>(m: map<K, Agg>, n: map<K, Agg>, f: K)
    ensures Get(Merged(m, n), f) == Plus(Get(m, f), Get(n, f))
    ensures f in Merged(m, n) <==> f in m || f in n
  {
  }

  lemma MergedNothing<K>(m: map<K, Agg>)
    ensures Merged(m, map[]) == m
  {
    forall f | f in m
      ensures Merged(m, map[])[f] == m[f]
    {
      PlusIs(m[f], m[f], ZERO);
    }
  }

  /** One more group: added to what is there. */
  lemma MergedPut<K>(m: map<K, Agg>, n: map<K, Agg>, f: K, agg: Agg)
    requires f !in n
    ensures Merged(m, n[f := agg]) == Merged(m, n)[f := Plus(Get(Merged(m, n), f), agg)]
  {
    MergedAt(m, n, f);
    PlusIs(Get(m, f), Get(m, f), ZERO);
    assert Get(Merged(m, n), f) == Get(m, f);
    var a, b := Merged(m, n[f := agg]), Merged(m, n)[f := Plus(Get(m, f), agg)];
    forall g | g in a
      ensures g in b && a[g] == b[g]
    {
      MergedAt(m, n, g);
      MergedAt(m, n[f := agg], g);
    }
    assert a.Keys == b.Keys;
  }

  lemma MergedGroups<R(!new), K(!new)>(rows: seq<R>, col: R -> K, p: R -> bool, q: R -> bool, either: R -> bool, c: Columns<R>)
    requires Either(p, q, either)
    ensures Merged(GroupBy(rows, col, p, c), GroupBy(rows, col, q, c)) == GroupBy(rows, col, either, c)
  {
    var m := Merged(GroupBy(rows, col, p, c), GroupBy(rows, col, q, c));
    forall f
      ensures Get(m, f) == Total(rows, Member(col, either, f), c) && (f in m <==> Get(m, f).count > 0)
    {
      MergedGroupAt(rows, col, p, q, either, c, f);
    }
    AgreesIff(m, rows, col, either, c);
  }

  /** Widening a condition changes the groups exactly when it takes in a row. */
  lemma WiderGroupsIff<R(!new), K(!new)>(rows: seq<R>, col: R -> K, narrow: R -> bool, late: R -> bool,
                                             wide: R -> bool, c: Columns<R>)
    requires Either(narrow, late, wide)
    ensures GroupBy(rows, col, wide, c) == GroupBy(rows, col, narrow, c) <==> forall i :: 0 <= i < |rows| ==> !late(rows[i])
  {
    var g, n, l := GroupBy(rows, col, wide, c), GroupBy(rows, col, narrow, c), GroupBy(rows, col, late, c);
    MergedGroups(rows, col, narrow, late, wide, c);
    if i :| 0 <= i < |rows| && late(rows[i]) {
      var f := col(rows[i]);
      GroupByAt(rows, col, late, c, f);
      assert f in GroupKeys(rows, col, late);
      assert Get(g, f).count == Get(n, f).count + Get(l, f).count > Get(n, f).count;
    } else {
      assert l == map[];
      GroupCounts(rows, col, narrow, c);
      assert g == n;
    }
  }

  lemma GroupCounts<R, K>(rows: seq<R>, col: R -> K, where: R -> bool, c: Columns<R>)
    ensures var g := GroupBy(rows, col, where, c); forall f :: f in g ==> Plus(Get(g, f), ZERO) == Get(g, f)
  {
  }
}
