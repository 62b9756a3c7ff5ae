/** The retry buffer of unmatched delivery receipts: a hash of items and a sorted set of expiry times that must
    name the same fields (backend/app/utils/dlr_buffer.py). One event loop; Redis failures are not modelled. */
module RetryBuffer {
  import opened Maps

  const RETRY_TTL := 3600
  const MAX_RETRIES := 20
  const CLEANUP_BATCH := 500

  /** What a receipt says, and how often it has been retried. */
  datatype Item = Item(upstreamId: string, newStatus: string, retryCount: int)

  datatype Store = Store(hash: map<string, Item>, zset: map<string, int>)

  const EMPTY := Store(map[], map[])

  function Dropped(s: Store, field: string): Store {
    Store(Without(s.hash, field), Without(s.zset, field))
  }

  // ---- the operations ----

  /** buffer_unmatched_dlr; owned is the answer of the ownership check when the filter is on. */
  function Buffered(s: Store, field: string, upstreamId: string, status: string, filter: bool, owned: bool, now: int): Store {
    if upstreamId == "" then s
    else if filter && !owned then Dropped(s, field)
    else if field in s.hash then s
    else Store(s.hash[field := Item(upstreamId, status, 0)],
               if field in s.zset then s.zset else s.zset[field := now + RETRY_TTL])
  }

  /** ZRANGE 0 limit-1 over n members, negative indices counting from the end. */
  function RangeCount(n: nat, limit: int): nat {
    if limit > 0 then (if limit <= n then limit else n)
    else if n + limit > 0 then n + limit else 0
  }

  /** How many of n items the slice [:limit] takes. */
  function SliceCount(n: nat, limit: int): nat {
    if limit >= 0 then (if limit <= n then limit else n)
    else if n + limit > 0 then n + limit else 0
  }

  /** The fields of the hash in the order it lists them. */
  ghost predicate Enumerates(hash: map<string, Item>, fields: seq<string>) {
    && (forall f :: f in fields <==> f in hash)
    && forall i, j :: 0 <= i < j < |fields| ==> fields[i] != fields[j]
  }

  /** The members by expiry. */
  ghost predicate ByScore(zset: map<string, int>, order: seq<string>) {
    && (forall f :: f in order <==> f in zset)
    && forall i, j :: 0 <= i < j < |order| ==> order[i] != order[j] && zset[order[i]] <= zset[order[j]]
  }

  /** The fields with their items, where there is one. */
  function Present(s: Store, fields: seq<string>): seq<(string, Item)> {
    if fields == [] then []
    else
      var last := fields[|fields| - 1];
      Present(s, fields[..|fields| - 1]) + if last in s.hash then [(last, s.hash[last])] else []
  }

  function Pruned(s: Store, fields: seq<string>): Store {
    Store(s.hash, map f | f in s.zset && (f in s.hash || f !in fields) :: s.zset[f])
  }

  lemma PrunedNext(s: Store, fields: seq<string>, f: string)
    ensures Pruned(s, fields + [f])
            == if f in s.hash then Pruned(s, fields) else Store(s.hash, Without(Pruned(s, fields).zset, f))
    ensures Present(s, fields + [f]) == Present(s, fields) + if f in s.hash then [(f, s.hash[f])] else []
  {
    assert (fields + [f])[..|fields|] == fields;
    assert forall x :: x in fields + [f] <==> x in fields || x == f;
  }

  /** Fields without an index entry get one. */
  function Reindexed(s: Store, fields: seq<string>, now: int): Store {
    Store(s.hash, (map f | f in fields && f !in s.zset :: now + RETRY_TTL) + s.zset)
  }

  lemma ReindexedNext(s: Store, fields: seq<string>, f: string, now: int)
    ensures var zset := Reindexed(s, fields, now).zset;
            Reindexed(s, fields + [f], now).zset == if f in zset then zset else zset[f := now + RETRY_TTL]
  {
    var zset, next := Reindexed(s, fields, now).zset, Reindexed(s, fields + [f], now).zset;
    forall x
      ensures x in next <==> x in zset || x == f
    {
      assert x in fields + [f] <==> x in fields || x == f;
    }
  }

  lemma PresentNext(s: Store, fields: seq<string>, f: string)
    ensures Present(s, fields + [f]) == Present(s, fields) + if f in s.hash then [(f, s.hash[f])] else []
  {
    assert (fields + [f])[..|fields|] == fields;
  }

  /** The fields a pop looks at: those that expire first or, if the index yields none, the first of the hash. */
  function Visited(order: seq<string>, fields: seq<string>, limit: int): seq<string> {
    if RangeCount(|order|, limit) > 0 then order[..RangeCount(|order|, limit)] else fields[..SliceCount(|fields|, limit)]
  }

  /** The store after a pop: an index entry without its item is dropped on the way, and fields found in the hash
      only are indexed anew. */
  function AfterPop(s: Store, order: seq<string>, fields: seq<string>, limit: int, now: int): Store {
    if RangeCount(|order|, limit) > 0 then Pruned(s, Visited(order, fields, limit))
    else Reindexed(s, Visited(order, fields, limit), now)
  }

  /** increment_retry_count, with the item as it was popped. */
  function Incremented(s: Store, field: string, item: Item): Store {
    if item.retryCount + 1 >= MAX_RETRIES then Dropped(s, field)
    else s.(hash := s.hash[field := item.(retryCount := item.retryCount + 1)])
  }

  function CleanedUp(s: Store, expired: seq<string>): Store {
    Store(map f | f in s.hash && f !in expired :: s.hash[f], map f | f in s.zset && f !in expired :: s.zset[f])
  }

  /** cleanup_expired takes the first expired members, at most 500. */
  ghost predicate Expired(s: Store, now: int, expired: seq<string>) {
    && |expired| <= CLEANUP_BATCH
    && (forall i :: 0 <= i < |expired| ==> expired[i] in s.zset && s.zset[expired[i]] <= now)
    && (|expired| < CLEANUP_BATCH ==> forall f :: f in s.zset && s.zset[f] <= now ==> f in expired)
  }

  class Buffer {
    var hash: map<string, Item>
    var zset: map<string, int>

    constructor ()
      ensures State() == EMPTY
    {
      hash, zset := map[], map[];
    }

    function State(): Store
      reads this
    {
      Store(hash, zset)
    }

    method BufferUnmatched(field: string, upstreamId: string, status: string, filter: bool, owned: bool, now: int)
      returns (kept: bool)
      modifies this
      ensures State() == Buffered(old(State()), field, upstreamId, status, filter, owned, now)
      ensures kept ==> field in hash
    {
      if upstreamId == "" {
        return false;
      }
      if filter && !owned {
        hash := Without(hash, field);
        zset := Without(zset, field);
        return false;
      }
      if field !in hash {
        hash := hash[field := Item(upstreamId, status, 0)];
        if field !in zset {
          zset := zset[field := now + RETRY_TTL];
        }
      }
      kept := true;
    }

    /** pop_retry_buffer: the items are returned with their fields, not removed. When the index yields nothing, the
        hash is read instead and its fields are indexed from now on. */
    method PopRetryBuffer(order: seq<string>, fields: seq<string>, limit: int, now: int) returns (popped: seq<(string, Item)>)
      requires ByScore(zset, order) && |order| == |zset| && Enumerates(hash, fields)
      modifies this
      ensures State() == AfterPop(old(State()), order, fields, limit, now)
      ensures popped == Present(old(State()), Visited(order, fields, limit))
    {
      var first := order[..RangeCount(|order|, limit)];
      if first != [] {
        popped := ItemsOf(first);
      } else {
        popped := Reindex(fields[..SliceCount(|fields|, limit)], now);
      }
    }

    /** Each field's item, and ZADD NX for the field. */
    method Reindex(fields: seq<string>, now: int) returns (popped: seq<(string, Item)>)
      requires forall f :: f in fields ==> f in hash
      modifies this
      ensures State() == Reindexed(old(State()), fields, now)
      ensures popped == Present(old(State()), fields)
    {
      popped := [];
      ghost var before := State();
      assert zset == Reindexed(before, fields[..0], now).zset;
      for i := 0 to |fields|
        invariant hash == before.hash && zset == Reindexed(before, fields[..i], now).zset
        invariant popped == Present(before, fields[..i])
      {
        var f := fields[i];
        assert fields[..i + 1] == fields[..i] + [f];
        ReindexedNext(before, fields[..i], f, now);
        PresentNext(before, fields[..i], f);
        if f !in zset {
          zset := zset[f := now + RETRY_TTL];
        }
        popped := popped + [(f, hash[f])];
      }
      assert fields[..|fields|] == fields;
    }

    method ItemsOf(fields: seq<string>) returns (popped: seq<(string, Item)>)
      modifies this
      ensures State() == Pruned(old(State()), fields)
      ensures popped == Present(old(State()), fields)
    {
      popped := [];
      ghost var before := State();
      assert zset == Pruned(before, fields[..0]).zset;
      for i := 0 to |fields|
        invariant hash == before.hash && zset == Pruned(before, fields[..i]).zset
        invariant popped == Present(before, fields[..i])
      {
        var f := fields[i];
        assert fields[..i + 1] == fields[..i] + [f];
        PrunedNext(before, fields[..i], f);
        if f in hash {
          popped := popped + [(f, hash[f])];
        } else {
          zset := Without(zset, f);
        }
      }
      assert fields[..|fields|] == fields;
    }

    method RemoveRetryItem(field: string)
      modifies this
      ensures State() == Dropped(old(State()), field)
    {
      hash := Without(hash, field);
      zset := Without(zset, field);
    }

    method IncrementRetryCount(field: string, item: Item)
      modifies this
      ensures State() == Incremented(old(State()), field, item)
    {
      var count := item.retryCount + 1;
      if count >= MAX_RETRIES {
        hash := Without(hash, field);
        zset := Without(zset, field);
        return;
      }
      hash := hash[field := item.(retryCount := count)];
    }

    method CleanupExpired(now: int, expired: seq<string>) returns (n: nat)
      requires Expired(State(), now, expired)
      modifies this
      ensures State() == CleanedUp(old(State()), expired) && n == |expired|
    {
      for i := 0 to |expired|
        invariant State() == CleanedUp(old(State()), expired[..i])
      {
        assert expired[..i + 1] == expired[..i] + [expired[i]];
        hash := Without(hash, expired[i]);
        zset := Without(zset, expired[i]);
      }
      assert expired[..|expired|] == expired;
      n := |expired|;
    }
  }

  // ---- runs ----

  datatype Event =
    | Receive(field: string, upstreamId: string, status: string, filter: bool, owned: bool, now: int)
    | Pop(order: seq<string>, fields: seq<string>, limit: int, now: int)
    | Remove(field: string)
    | Increment(field: string, item: Item)
    | Cleanup(now: int, expired: seq<string>)

  ghost predicate Enabled(s: Store, e: Event) {
    match e
    case Pop(order, fields, _, _) => ByScore(s.zset, order) && |order| == |s.zset| && Enumerates(s.hash, fields)
    case Increment(_, item) => item.retryCount >= 0
    case Cleanup(now, expired) => Expired(s, now, expired)
    case _ => true
  }

  function Apply(s: Store, e: Event): Store
    requires Enabled(s, e)
  {
    match e
    case Receive(field, upstreamId, status, filter, owned, now) => Buffered(s, field, upstreamId, status, filter, owned, now)
    case Pop(order, fields, limit, now) => AfterPop(s, order, fields, limit, now)
    case Remove(field) => Dropped(s, field)
    case Increment(field, item) => Incremented(s, field, item)
    case Cleanup(_, expired) => CleanedUp(s, expired)
  }

  /** The hash and the index name the same fields. */
  predicate Agree(s: Store) {
    s.hash.Keys == s.zset.Keys
  }

  predicate CountsOk(s: Store) {
    forall f :: f in s.hash ==> 0 <= s.hash[f].retryCount < MAX_RETRIES
  }

  /** Counting a retry is safe while the field is still buffered, and when it is the last one. */
  predicate Safe(s: Store, e: Event) {
    e.Increment? ==> e.field in s.hash || e.item.retryCount + 1 >= MAX_RETRIES
  }

  lemma StepAgreeIff(s: Store, e: Event)
    requires Enabled(s, e) && Agree(s)
    ensures Agree(Apply(s, e)) <==> Safe(s, e)
  {
    var r := Apply(s, e);
    if Safe(s, e) {
      forall f
        ensures f in r.hash <==> f in r.zset
      {
        assert f in s.hash.Keys <==> f in s.zset.Keys;
      }
    } else {
      assert e.field in r.hash.Keys && e.field !in s.hash.Keys;
    }
  }

  lemma StepCounts(s: Store, e: Event)
    requires Enabled(s, e) && CountsOk(s)
    ensures CountsOk(Apply(s, e))
  {
  }

  ghost predicate StepAt(events: seq<Event>, states: seq<Store>, i: nat)
    requires i < |events| && |states| == |events| + 1
  {
    Enabled(states[i], events[i]) && states[i + 1] == Apply(states[i], events[i])
  }

  ghost predicate SafeAt(events: seq<Event>, states: seq<Store>, i: nat)
    requires i < |events| && |states| == |events| + 1
  {
    Safe(states[i], events[i])
  }

  ghost predicate IsRun(events: seq<Event>, states: seq<Store>) {
    && |states| == |events| + 1 && states[0] == EMPTY
    && forall i :: 0 <= i < |events| ==> StepAt(events, states, i)
  }

  lemma {:induction false} AgreeUpTo(events: seq<Event>, states: seq<Store>, n: nat)
    requires IsRun(events, states) && n < |states| && forall i :: 0 <= i < n ==> SafeAt(events, states, i)
    ensures Agree(states[n])
  {
    if n > 0 {
      AgreeUpTo(events, states, n - 1);
      assert StepAt(events, states, n - 1) && SafeAt(events, states, n - 1);
      StepAgreeIff(states[n - 1], events[n - 1]);
    }
  }

  /** Hash and index agree after every operation of a run exactly when every counted retry was safe. */
  lemma AgreementIff(events: seq<Event>, states: seq<Store>)
    requires IsRun(events, states)
    ensures (forall i :: 0 <= i < |states| ==> Agree(states[i])) <==> forall i :: 0 <= i < |events| ==> SafeAt(events, states, i)
  {
    if forall i :: 0 <= i < |events| ==> SafeAt(events, states, i) {
      forall i | 0 <= i < |states|
        ensures Agree(states[i])
      {
        AgreeUpTo(events, states, i);
      }
    }
    if forall i :: 0 <= i < |states| ==> Agree(states[i]) {
      forall i | 0 <= i < |events|
        ensures SafeAt(events, states, i)
      {
        assert StepAt(events, states, i) && Agree(states[i]) && Agree(states[i + 1]);
        StepAgreeIff(states[i], events[i]);
      }
    }
  }

  /** Stored counts stay below the limit, safe or not. */
  lemma {:induction false} CountsStayBelow(events: seq<Event>, states: seq<Store>, n: nat)
    requires IsRun(events, states) && n < |states|
    ensures CountsOk(states[n])
  {
    if n > 0 {
      CountsStayBelow(events, states, n - 1);
      assert StepAt(events, states, n - 1);
      StepCounts(states[n - 1], events[n - 1]);
    }
  }

  ghost predicate IndexedAt(states: seq<Store>, f: string, i: nat)
    requires i < |states|
  {
    f in states[i].zset
  }

  lemma StepKeepsExpiry(s: Store, e: Event, f: string)
    requires Enabled(s, e) && f in s.zset && f in Apply(s, e).zset
    ensures Apply(s, e).zset[f] == s.zset[f]
  {
  }

  lemma StepAtKeepsExpiry(events: seq<Event>, states: seq<Store>, f: string, i: nat)
    requires i < |events| && |states| == |events| + 1 && StepAt(events, states, i)
    requires f in states[i].zset && f in states[i + 1].zset
    ensures states[i + 1].zset[f] == states[i].zset[f]
  {
    StepKeepsExpiry(states[i], events[i], f);
  }

  /** While a receipt stays buffered its expiry is the one it was first given, however often it is retried. */
  lemma {:induction false} ExpiryNeverExtended(events: seq<Event>, states: seq<Store>, f: string, i: nat, j: nat)
    requires IsRun(events, states) && i <= j < |states| && forall k :: i <= k <= j ==> IndexedAt(states, f, k)
    ensures f in states[i].zset && f in states[j].zset && states[j].zset[f] == states[i].zset[f]
  {
    assert IndexedAt(states, f, i) && IndexedAt(states, f, j);
    if i < j {
      ExpiryNeverExtended(events, states, f, i, j - 1);
      StepAtKeepsExpiry(events, states, f, j - 1);
    }
  }

  lemma {:induction false} AllPresent(s: Store, fields: seq<string>)
    requires Agree(s) && forall i :: 0 <= i < |fields| ==> fields[i] in s.zset
    ensures var p := Present(s, fields);
            |p| == |fields| && forall i :: 0 <= i < |p| ==> fields[i] in s.hash && p[i] == (fields[i], s.hash[fields[i]])
  {
    if fields != [] {
      assert fields[|fields| - 1] in s.zset.Keys;
      AllPresent(s, fields[..|fields| - 1]);
    }
  }

  lemma AgreeSame(s: Store)
    requires Agree(s)
    ensures |s.hash| == |s.zset| && forall f :: f in s.zset <==> f in s.hash
  {
    assert |s.hash| == |s.hash.Keys| && |s.zset| == |s.zset.Keys|;
    forall f
      ensures f in s.zset <==> f in s.hash
    {
      assert f in s.zset.Keys <==> f in s.hash.Keys;
    }
  }

  lemma VisitedInOrder(s: Store, order: seq<string>, fields: seq<string>, limit: int)
    requires Agree(s) && |order| == |s.zset| && Enumerates(s.hash, fields) && limit >= 0
    ensures Visited(order, fields, limit) == order[..RangeCount(|order|, limit)]
  {
    if |order| == 0 {
      AgreeSame(s);
      NothingListed(s.hash, fields);
    }
  }

  lemma NothingListed(hash: map<string, Item>, fields: seq<string>)
    requires Enumerates(hash, fields)
    ensures |hash| == 0 ==> fields == []
  {
    if fields != [] {
      assert fields[0] in hash.Keys;
    }
  }

  /** In an agreeing buffer a pop changes nothing and returns the items that expire first: as many as asked for,
      or all of them when none are asked for. */
  lemma PopTakesEarliest(s: Store, order: seq<string>, fields: seq<string>, limit: int, now: int)
    requires Agree(s) && ByScore(s.zset, order) && |order| == |s.zset| && Enumerates(s.hash, fields) && limit >= 0
    ensures AfterPop(s, order, fields, limit, now) == s
    ensures var n := if limit == 0 || limit > |s.hash| then |s.hash| else limit;
            var popped := Present(s, Visited(order, fields, limit));
            && |popped| == n
            && (forall i :: 0 <= i < n ==> order[i] in s.hash && popped[i] == (order[i], s.hash[order[i]]))
            && forall i, j :: 0 <= i < n <= j < |order| ==> s.zset[order[i]] <= s.zset[order[j]]
  {
    AgreeSame(s);
    VisitedInOrder(s, order, fields, limit);
    var n := RangeCount(|order|, limit);
    forall i | 0 <= i < n
      ensures order[..n][i] in s.zset
    {
      assert order[i] in order;
    }
    AllPresent(s, order[..n]);
    assert AfterPop(s, order, fields, limit, now).zset == s.zset;
  }

  // ---- fields that lost their index entry ----

  /** A field in the hash only is out of reach of the cleanup, and a pop reaches it exactly when the index is empty
      and the field is among the first of the hash. */
  lemma OrphanReachedIff(s: Store, order: seq<string>, fields: seq<string>, limit: int, now: int, f: string)
    requires ByScore(s.zset, order) && |order| == |s.zset| && Enumerates(s.hash, fields) && limit > 0
    requires f in s.hash && f !in s.zset
    ensures f in AfterPop(s, order, fields, limit, now).zset
            <==> s.zset == map[] && f in fields[..SliceCount(|fields|, limit)]
    ensures forall expired :: Expired(s, now, expired) ==> f in CleanedUp(s, expired).hash && f !in CleanedUp(s, expired).zset
  {
    assert s.zset == map[] <==> |s.zset| == 0;
  }

  /** A receipt whose removal was overtaken by a counted retry is lost to the index, comes back with the next pop of
      an empty index, and then expires later than it was first given. */
  lemma OrphanOutlivesExpiry()
    ensures var f, item := "1:a", Item("a", "DELIVRD", 0);
            var retried := item.(retryCount := 1);
            var events := [Receive(f, "a", "DELIVRD", false, true, 0), Remove(f), Increment(f, item), Pop([], [f], 100, 5000)];
            var states := [EMPTY, Store(map[f := item], map[f := 3600]), EMPTY, Store(map[f := retried], map[]),
                           Store(map[f := retried], map[f := 8600])];
            IsRun(events, states) && !SafeAt(events, states, 2)
  {
    var f, item := "1:a", Item("a", "DELIVRD", 0);
    var retried := item.(retryCount := 1);
    var given, orphan := Store(map[f := item], map[f := 3600]), Store(map[f := retried], map[]);
    assert Dropped(given, f) == EMPTY;
    OrphanIndexed(orphan, f);
    var events := [Receive(f, "a", "DELIVRD", false, true, 0), Remove(f), Increment(f, item), Pop([], [f], 100, 5000)];
    var states := [EMPTY, given, EMPTY, orphan, Store(map[f := retried], map[f := 8600])];
    assert StepAt(events, states, 0) && StepAt(events, states, 1) && StepAt(events, states, 2) && StepAt(events, states, 3);
  }

  lemma OrphanIndexed(s: Store, f: string)
    requires s.hash.Keys == {f} && s.zset == map[]
    ensures Enumerates(s.hash, [f])
    ensures AfterPop(s, [], [f], 100, 5000) == Store(s.hash, map[f := 8600])
  {
    assert [f][..1] == [f];
    assert forall x :: x in s.hash <==> x in s.hash.Keys;
    assert Reindexed(s, [f], 5000).zset == map[f := 8600];
  }
}
