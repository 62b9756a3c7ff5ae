/** Splitting a list into the groups of its elements' keys, and sending some of the groups. */
module Grouping {

  /** The elements whose key is among the given ones, in their order. */
  function Chosen<T, K(==)>(s: seq<T>, key: T -> K, keys: set<K>): seq<T> {
    if s == [] then []
    else
      var last := s[|s| - 1];
      Chosen(s[..|s| - 1], key, keys) + if key(last) in keys then [last] else []
  }

  function KeysOf<T, K(==)>(s: seq<T>, key: T -> K): set<K> {
    set i | 0 <= i < |s| :: key(s[i])
  }

  lemma {:induction false} ChosenSplit<T, K>(s: seq<T>, key: T -> K, keys: set<K>, k: K)
    requires k !in keys
    ensures multiset(Chosen(s, key, keys + {k})) == multiset(Chosen(s, key, keys)) + multiset(Chosen(s, key, {k}))
  {
    if s != [] {
      ChosenSplit(s[..|s| - 1], key, keys, k);
    }
  }

  lemma {:induction false} ChosenNone<T, K>(s: seq<T>, key: T -> K, keys: set<K>)
    requires forall i :: 0 <= i < |s| ==> key(s[i]) !in keys
    ensures Chosen(s, key, keys) == []
  {
    if s != [] {
      ChosenNone(s[..|s| - 1], key, keys);
    }
  }

  lemma {:induction false} ChosenAll<T, K>(s: seq<T>, key: T -> K, keys: set<K>)
    requires forall i :: 0 <= i < |s| ==> key(s[i]) in keys
    ensures Chosen(s, key, keys) == s
  {
    if s != [] {
      ChosenAll(s[..|s| - 1], key, keys);
      assert s == s[..|s| - 1] + [s[|s| - 1]];
    }
  }

  lemma {:induction false} ChosenSame<T, K>(s: seq<T>, key: T -> K, a: set<K>, b: set<K>)
    requires forall i :: 0 <= i < |s| ==> (key(s[i]) in a <==> key(s[i]) in b)
    ensures Chosen(s, key, a) == Chosen(s, key, b)
  {
    if s != [] {
      ChosenSame(s[..|s| - 1], key, a, b);
    }
  }

  lemma {:induction false} ChosenSize<T, K>(s: seq<T>, key: T -> K, keys: set<K>)
    ensures var n := |Chosen(s, key, keys)|;
            && n <= |s|
            && (n == |s| <==> forall i :: 0 <= i < |s| ==> key(s[i]) in keys)
            && (n == 0 <==> forall i :: 0 <= i < |s| ==> key(s[i]) !in keys)
  {
    if s != [] {
      var front := s[..|s| - 1];
      ChosenSize(front, key, keys);
      assert forall i :: 0 <= i < |front| ==> s[i] == front[i];
    }
  }

  lemma {:induction false} ChosenMembers<T, K>(s: seq<T>, key: T -> K, keys: set<K>)
    ensures forall x :: x in Chosen(s, key, keys) ==> x in s && key(x) in keys
  {
    if s != [] {
      ChosenMembers(s[..|s| - 1], key, keys);
    }
  }

  /** One more element joins the group of its key and no other. */
  lemma ChosenNext<T, K>(s: seq<T>, key: T -> K, i: nat)
    requires i < |s|
    ensures var k := key(s[i]);
            && KeysOf(s[..i + 1], key) == KeysOf(s[..i], key) + {k}
            && Chosen(s[..i + 1], key, {k}) == Chosen(s[..i], key, {k}) + [s[i]]
            && (k !in KeysOf(s[..i], key) ==> Chosen(s[..i], key, {k}) == [])
            && forall o :: o != k ==> Chosen(s[..i + 1], key, {o}) == Chosen(s[..i], key, {o})
  {
    var k, front, next := key(s[i]), s[..i], s[..i + 1];
    assert next[..i] == front && next[i] == s[i];
    assert forall j :: 0 <= j < i ==> next[j] == front[j];
    assert key(next[i]) in KeysOf(next, key);
    assert forall j :: 0 <= j < i ==> key(front[j]) in KeysOf(front, key) && key(next[j]) in KeysOf(next, key);
    if k !in KeysOf(front, key) {
      ChosenNone(front, key, {k});
    }
  }

  lemma KeysInOrOut<T, K>(s: seq<T>, key: T -> K, keys: set<K>)
    ensures KeysOf(s, key) <= keys <==> forall i :: 0 <= i < |s| ==> key(s[i]) in keys
    ensures KeysOf(s, key) !! keys <==> forall i :: 0 <= i < |s| ==> key(s[i]) !in keys
  {
    forall i | 0 <= i < |s|
      ensures key(s[i]) in KeysOf(s, key)
    {
    }
  }

  predicate Distinct<T(==)>(s: seq<T>) {
    forall i, j :: 0 <= i < j < |s| ==> s[i] != s[j]
  }

  function Ids<K(==)>(order: seq<K>): set<K> {
    set i | 0 <= i < |order| :: order[i]
  }

  lemma IdsNext<K>(order: seq<K>)
    requires order != [] && Distinct(order)
    ensures var front, k := order[..|order| - 1], order[|order| - 1];
            Ids(order) == Ids(front) + {k} && k !in Ids(front) && Distinct(front)
  {
    var front, k := order[..|order| - 1], order[|order| - 1];
    assert forall i :: 0 <= i < |front| ==> order[i] == front[i];
    assert k in Ids(order);
    assert forall i :: 0 <= i < |front| ==> front[i] in Ids(front) && order[i] in Ids(order);
  }

  datatype Bundle<Q, T> = Bundle(queue: Q, items: seq<T>)

  /** The groups that are taken, in the order in which they come up, each under the queue of its key. */
  function Taken<T, K(==), Q>(s: seq<T>, key: T -> K, queue: K -> Q, order: seq<K>, accepts: set<K>): seq<Bundle<Q, T>>
    decreases |order|
  {
    if order == [] then []
    else
      var k := order[|order| - 1];
      Taken(s, key, queue, order[..|order| - 1], accepts)
      + if k in accepts then [Bundle(queue(k), Chosen(s, key, {k}))] else []
  }

  function ItemsIn<Q, T(==)>(bundles: seq<Bundle<Q, T>>): multiset<T> {
    if bundles == [] then multiset{} else ItemsIn(bundles[..|bundles| - 1]) + multiset(bundles[|bundles| - 1].items)
  }

  lemma ItemsInNext<Q, T>(bundles: seq<Bundle<Q, T>>, b: Bundle<Q, T>)
    ensures ItemsIn(bundles + [b]) == ItemsIn(bundles) + multiset(b.items)
  {
    assert (bundles + [b])[..|bundles|] == bundles;
  }

  function TakenKeys<K(==)>(order: seq<K>, accepts: set<K>): set<K> {
    if order == [] then {}
    else
      var k := order[|order| - 1];
      TakenKeys(order[..|order| - 1], accepts) + if k in accepts then {k} else {}
  }

  lemma {:induction false} TakenKeysAre<K>(order: seq<K>, accepts: set<K>)
    requires Distinct(order)
    ensures TakenKeys(order, accepts) == accepts * Ids(order)
  {
    if order != [] {
      IdsNext(order);
      TakenKeysAre(order[..|order| - 1], accepts);
    }
  }

  lemma {:induction false} TakenItems<T, K, Q>(s: seq<T>, key: T -> K, queue: K -> Q, order: seq<K>, accepts: set<K>)
    requires Distinct(order)
    ensures ItemsIn(Taken(s, key, queue, order, accepts)) == multiset(Chosen(s, key, TakenKeys(order, accepts)))
    decreases |order|
  {
    if order == [] {
      ChosenNone(s, key, {});
    } else {
      var front, k := order[..|order| - 1], order[|order| - 1];
      TakenItems(s, key, queue, front, accepts);
      var keys, taken := TakenKeys(front, accepts), Taken(s, key, queue, front, accepts);
      if k in accepts {
        IdsNext(order);
        TakenKeysAre(front, accepts);
        ChosenSplit(s, key, keys, k);
        ItemsInNext(taken, Bundle(queue(k), Chosen(s, key, {k})));
      } else {
        assert taken + [] == taken && keys + {} == keys;
      }
    }
  }

  /** Once every key has come up, the bundles hold exactly the elements of the taken groups, ... */
  lemma TakenAll<T, K, Q>(s: seq<T>, key: T -> K, queue: K -> Q, order: seq<K>, accepts: set<K>)
    requires Distinct(order) && Ids(order) == KeysOf(s, key)
    ensures ItemsIn(Taken(s, key, queue, order, accepts)) == multiset(Chosen(s, key, accepts))
  {
    TakenItems(s, key, queue, order, accepts);
    TakenKeysAre(order, accepts);
    forall i | 0 <= i < |s|
      ensures key(s[i]) in Ids(order)
    {
    }
    ChosenSame(s, key, accepts, accepts * Ids(order));
  }

  /** ... each under the queue of its own key. */
  lemma {:induction false} TakenQueues<T, K, Q>(s: seq<T>, key: T -> K, queue: K -> Q, order: seq<K>, accepts: set<K>)
    ensures forall b, x :: b in Taken(s, key, queue, order, accepts) && x in b.items ==> b.queue == queue(key(x)) && x in s
    decreases |order|
  {
    if order != [] {
      var k := order[|order| - 1];
      TakenQueues(s, key, queue, order[..|order| - 1], accepts);
      ChosenMembers(s, key, {k});
    }
  }
}
