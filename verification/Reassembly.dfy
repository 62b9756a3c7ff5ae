/** The buffer that joins inbound segments (go-smpp-gateway/inbound_udh_reassembly.go). Each method is one
    lock section; the clock and the random message id are parameters. */
module Reassembly {
  import opened Unicode
  import opened Udh
  import opened Keys
  import opened Maps

  const MAX_GROUPS := 20000
  const TTL := 60

  datatype SubmitJob = SubmitJob(account: int, messageId: string, systemId: string, source: string, dest: string,
                                 message: seq<Byte>, ip: string, registered: int)

  datatype Group = Group(parts: map<Byte, seq<Byte>>, total: Byte, tmpl: SubmitJob, createdAt: int)

  type Groups = map<string, Group>

  /** Stuck: the call does not return, because the joining loop of a 255-part group never ends. */
  datatype AddResult = Waiting(messageId: string) | Ready(job: SubmitJob, messageId: string) | Stuck

  // ---- joining the parts ----

  /** The present parts among 1..n, in order. */
  function Joined(parts: map<Byte, seq<Byte>>, n: Byte): seq<Byte> {
    if n == 0 then [] else Joined(parts, n - 1) + if n in parts then parts[n] else []
  }

  /** The byte loop counter of assembleParts after n rounds. */
  function Counter(n: nat): Byte {
    (1 + n) % 0x100
  }

  /** The loop of assembleParts ends for every total but 255, where its byte counter wraps. */
  lemma AssembleEndsIff(total: Byte)
    ensures (exists n: nat :: Counter(n) > total) <==> total <= 254
  {
    if total <= 254 {
      assert Counter(total as nat) > total;
    }
  }

  method AssembleParts(parts: map<Byte, seq<Byte>>, total: Byte) returns (b: seq<Byte>)
    requires total <= 254
    ensures b == Joined(parts, total)
  {
    b := [];
    var p: Byte := 1;
    while p <= total
      invariant 1 <= p <= total + 1
      invariant b == Joined(parts, p - 1)
    {
      if p in parts {
        b := b + parts[p];
      }
      p := (p + 1) % 0x100;
    }
  }

  // ---- one segment ----

  function WithPart(g: Group, part: Byte, text: seq<Byte>, registered: int): Group {
    g.(parts := g.parts[part := text],
       tmpl := if registered == 1 then g.tmpl.(registered := 1) else g.tmpl)
  }

  function GroupFor(groups: Groups, key: string, total: Byte, tmpl: SubmitJob, now: int, id: string): Group {
    if key in groups then groups[key] else Group(map[], total, tmpl.(messageId := id), now)
  }

  function Flushed(g: Group): SubmitJob {
    g.tmpl.(message := Joined(g.parts, g.total))
  }

  /** Where a group that has just taken a part goes. */
  function Settle(groups: Groups, key: string, g: Group): (Groups, AddResult) {
    if |g.parts| % 0x100 < g.total then (groups[key := g], Waiting(g.tmpl.messageId))
    else if g.total == 255 then (groups[key := g], Stuck)
    else (Without(groups, key), Ready(Flushed(g), g.tmpl.messageId))
  }

  /** addSegment once room has been made. */
  function AddTo(groups: Groups, key: string, ci: ConcatInfo, text: seq<Byte>, tmpl: SubmitJob, now: int, id: string)
    : (Groups, AddResult)
  {
    Settle(groups, key, WithPart(GroupFor(groups, key, ci.total, tmpl, now, id), ci.part, text, tmpl.registered))
  }

  /** The oldest group goes; the map's order decides between equally old ones. */
  ghost predicate OldestEvicted(before: Groups, after: Groups) {
    if before == map[] then after == before
    else exists k :: k in before && after == Without(before, k)
                     && forall o :: o in before ==> before[k].createdAt <= before[o].createdAt
  }

  /** What addSegment may leave before it adds. */
  ghost predicate RoomMade(before: Groups, key: string, after: Groups) {
    if key !in before && |before| >= MAX_GROUPS then OldestEvicted(before, after) else after == before
  }

  predicate Expired(g: Group, now: int) {
    now - g.createdAt > TTL
  }

  function Reaped(groups: Groups, now: int): Groups {
    map k | k in groups && !Expired(groups[k], now) :: groups[k]
  }

  /** What a sweep forwards, by group: the parts that have arrived, joined. */
  function FlushedAll(groups: Groups, now: int): map<string, SubmitJob> {
    map k | k in groups && Expired(groups[k], now) :: Flushed(groups[k])
  }

  /** The jobs of the groups in an order. */
  function JobsOf(order: seq<string>, jobs: map<string, SubmitJob>): seq<SubmitJob> {
    if order == [] then []
    else
      var k := order[|order| - 1];
      JobsOf(order[..|order| - 1], jobs) + if k in jobs then [jobs[k]] else []
  }

  lemma JobsNext(order: seq<string>, k: string, jobs: map<string, SubmitJob>)
    ensures JobsOf(order + [k], jobs) == JobsOf(order, jobs) + if k in jobs then [jobs[k]] else []
  {
    assert (order + [k])[..|order|] == order;
  }

  /** Some expired group has 255 parts as its total. */
  /** The buffer when a sweep has gone through some of the keys. */
  function SweptUpTo(groups: Groups, done: seq<string>, now: int): Groups {
    map k | k in groups && !(k in done && Expired(groups[k], now)) :: groups[k]
  }

  lemma SweptNext(groups: Groups, done: seq<string>, k: string, now: int)
    requires k in groups
    ensures SweptUpTo(groups, done + [k], now)
            == if Expired(groups[k], now) then Without(SweptUpTo(groups, done, now), k) else SweptUpTo(groups, done, now)
  {
    assert forall x :: x in done + [k] <==> x in done || x == k;
  }

  ghost predicate HangsSweep(groups: Groups, now: int) {
    exists k :: k in groups && Expired(groups[k], now) && groups[k].total == 255
  }

  ghost predicate NoneHangs(groups: Groups, done: seq<string>, now: int) {
    forall k :: k in done && k in groups && Expired(groups[k], now) ==> groups[k].total != 255
  }

  lemma NotYetSwept(groups: Groups, order: seq<string>, i: nat, now: int)
    requires i < |order| && order[i] in groups && forall a, b :: 0 <= a < b < |order| ==> order[a] != order[b]
    ensures var swept := SweptUpTo(groups, order[..i], now); order[i] in swept && swept[order[i]] == groups[order[i]]
    ensures order[..i + 1] == order[..i] + [order[i]]
    ensures NoneHangs(groups, order[..i + 1], now)
            <==> NoneHangs(groups, order[..i], now) && !(Expired(groups[order[i]], now) && groups[order[i]].total == 255)
  {
    assert order[..i + 1] == order[..i] + [order[i]];
    assert forall x :: x in order[..i + 1] <==> x in order[..i] || x == order[i];
  }

  lemma SweptAll(groups: Groups, order: seq<string>, now: int)
    requires forall k :: k in order <==> k in groups
    ensures SweptUpTo(groups, order, now) == Reaped(groups, now)
    ensures NoneHangs(groups, order, now) <==> !HangsSweep(groups, now)
  {
  }

  class ReassemblyStore {
    var groups: Groups

    constructor ()
      ensures groups == map[]
    {
      groups := map[];
    }

    method AddSegment(key: string, ci: ConcatInfo, segText: seq<Byte>, tmpl: SubmitJob, now: int, id: string)
      returns (r: AddResult, ghost room: Groups)
      modifies this
      ensures RoomMade(old(groups), key, room)
      ensures (groups, r) == AddTo(room, key, ci, segText, tmpl, now, id)
    {
      if key !in groups && |groups| >= MAX_GROUPS {
        EvictOldest();
      }
      room := groups;
      if key !in groups {
        groups := groups[key := Group(map[], ci.total, tmpl.(messageId := id), now)];
      }
      var g := groups[key];
      ghost var initial := g;
      g := g.(parts := g.parts[ci.part := segText]);
      if tmpl.registered == 1 {
        g := g.(tmpl := g.tmpl.(registered := 1));
      }
      groups := groups[key := g];
      PutTwice(room, key, initial, g);
      assert g == WithPart(GroupFor(room, key, ci.total, tmpl, now, id), ci.part, segText, tmpl.registered);
      if |g.parts| % 0x100 < g.total {
        r := Waiting(g.tmpl.messageId);
      } else if g.total == 255 {
        r := Stuck;
      } else {
        var message := AssembleParts(g.parts, g.total);
        r := Ready(g.tmpl.(message := message), g.tmpl.messageId);
        groups := Without(groups, key);
        PutThenWithout(room, key, g);
      }
    }

    method EvictOldest()
      modifies this
      ensures OldestEvicted(old(groups), groups)
    {
      var left := groups.Keys;
      if left == {} {
        assert groups == map[];
        return;
      }
      var oldest :| oldest in left;
      while left != {}
        invariant left <= groups.Keys && oldest in groups
        invariant forall o :: o in groups.Keys - left ==> groups[oldest].createdAt <= groups[o].createdAt
        decreases left
      {
        var k :| k in left;
        if groups[k].createdAt < groups[oldest].createdAt {
          oldest := k;
        }
        left := left - {k};
      }
      groups := Without(groups, oldest);
    }

    /** One sweep; `order` is the order in which the map yields its groups. An expired group of 255 parts,
        complete or not, is never flushed: the sweep hangs in the joining loop, holding the lock. */
    method Reap(now: int, order: seq<string>) returns (flush: seq<SubmitJob>, stuck: bool)
      requires forall k :: k in order <==> k in groups
      requires forall i, j :: 0 <= i < j < |order| ==> order[i] != order[j]
      modifies this
      ensures stuck <==> HangsSweep(old(groups), now)
      ensures !stuck ==> groups == Reaped(old(groups), now)
      ensures !stuck ==> flush == JobsOf(order, FlushedAll(old(groups), now))
    {
      flush, stuck := [], false;
      ghost var before, jobs := groups, FlushedAll(groups, now);
      for i := 0 to |order|
        invariant groups == SweptUpTo(before, order[..i], now)
        invariant NoneHangs(before, order[..i], now)
        invariant flush == JobsOf(order[..i], jobs)
      {
        var k := order[i];
        NotYetSwept(before, order, i, now);
        var g := groups[k];
        JobsNext(order[..i], k, jobs);
        SweptNext(before, order[..i], k, now);
        if now - g.createdAt > TTL {
          if g.total == 255 {
            return flush, true;
          }
          var message := AssembleParts(g.parts, g.total);
          flush := flush + [g.tmpl.(message := message)];
          groups := Without(groups, k);
        }
      }
      assert order[..|order|] == order;
      SweptAll(before, order, now);
    }
  }

  // ---- the invariant ----

  predicate IsPart(p: Byte, total: Byte) {
    1 <= p <= total
  }

  predicate Within(seen: set<Byte>, total: Byte) {
    forall p :: p in seen ==> IsPart(p, total)
  }

  function PartNumbers(total: Byte): set<Byte> {
    set p: Byte | 1 <= p <= total && IsPart(p, total)
  }

  lemma {:induction false} PartNumbersSize(total: Byte)
    ensures |PartNumbers(total)| == total
  {
    if total == 0 {
      assert PartNumbers(0) == {};
    } else {
      PartNumbersSize(total - 1);
      assert IsPart(total, total);
      assert PartNumbers(total) == PartNumbers(total - 1) + {total};
    }
  }

  lemma SubsetSize<T>(a: set<T>, b: set<T>)
    requires a <= b
    ensures |a| <= |b| && (|a| == |b| ==> a == b)
  {
    assert b == a + (b - a);
    assert |b| == |a| + |b - a|;
  }

  /** Pigeonhole: part numbers drawn from 1..total reach the total only by being all of them. */
  lemma PartsPigeonhole(seen: set<Byte>, total: Byte)
    requires Within(seen, total)
    ensures |seen| <= total && (|seen| == total <==> seen == PartNumbers(total))
  {
    PartNumbersSize(total);
    SubsetSize(seen, PartNumbers(total));
  }

  /** A live group waits for at least one part, holds at least one, and was opened under its own total. */
  ghost predicate GroupOk(key: string, g: Group) {
    && 2 <= g.total
    && TotalField(key) == g.total
    && Within(g.parts.Keys, g.total)
    && 0 < |g.parts| < g.total
  }

  ghost predicate StoreOk(groups: Groups) {
    && |groups| <= MAX_GROUPS
    && forall k :: k in groups ==> GroupOk(k, groups[k])
  }

  /** The guard of handleSubmitSM in front of addSegment, and the key it builds. */
  ghost predicate Admitted(key: string, ci: ConcatInfo) {
    ci.total > 1 && 1 <= ci.part <= ci.total && TotalField(key) == ci.total
  }

  lemma BuiltKeyAdmitted(account: int, src: string, dst: string, ci: ConcatInfo)
    requires ci.total > 1 && 1 <= ci.part <= ci.total
    ensures Admitted(ReassemblyKey(account, src, dst, ci.ref, ci.total), ci)
  {
    TotalOfReassemblyKey(account, src, dst, ci.ref, ci.total);
  }

  lemma RoomKeepsInv(before: Groups, key: string, room: Groups)
    requires StoreOk(before) && RoomMade(before, key, room)
    ensures StoreOk(room) && (key in room <==> key in before)
    ensures key !in room ==> |room| < MAX_GROUPS
  {
    if key !in before && |before| >= MAX_GROUPS {
      var k :| k in before && room == Without(before, k);
      WithoutSize(before, k);
    }
  }

  lemma GrownGroup(groups: Groups, key: string, ci: ConcatInfo, text: seq<Byte>, tmpl: SubmitJob, now: int, id: string)
    returns (g: Group)
    requires StoreOk(groups) && Admitted(key, ci)
    ensures g == WithPart(GroupFor(groups, key, ci.total, tmpl, now, id), ci.part, text, tmpl.registered)
    ensures g.parts.Keys == GroupFor(groups, key, ci.total, tmpl, now, id).parts.Keys + {ci.part}
    ensures g.total == ci.total && 1 <= |g.parts| <= g.total && Within(g.parts.Keys, g.total)
  {
    var g0 := GroupFor(groups, key, ci.total, tmpl, now, id);
    g := WithPart(g0, ci.part, text, tmpl.registered);
    if key in groups {
      assert GroupOk(key, g0);
    }
    assert g.parts.Keys == g0.parts.Keys + {ci.part};
    PartsPigeonhole(g.parts.Keys, ci.total);
    assert |g.parts| == |g.parts.Keys| && ci.part in g.parts.Keys;
  }

  lemma SettleOutcome(groups: Groups, key: string, g: Group)
    requires 1 <= |g.parts| <= g.total
    ensures Settle(groups, key, g).1.Waiting? <==> |g.parts| < g.total
    ensures Settle(groups, key, g).1.Ready? <==> |g.parts| == g.total && g.total < 255
    ensures Settle(groups, key, g).0 == if Settle(groups, key, g).1.Ready? then Without(groups, key) else groups[key := g]
  {
  }

  /** One admitted segment: the group completes exactly when its parts are all of 1..total, and then leaves;
      otherwise it stays and waits. Only a complete group of 255 parts gets stuck. */
  lemma AddOutcome(groups: Groups, key: string, ci: ConcatInfo, text: seq<Byte>, tmpl: SubmitJob, now: int, id: string)
    requires StoreOk(groups) && Admitted(key, ci)
    ensures var parts := GroupFor(groups, key, ci.total, tmpl, now, id).parts.Keys + {ci.part};
            var (after, r) := AddTo(groups, key, ci, text, tmpl, now, id);
            && (r.Waiting? <==> parts != PartNumbers(ci.total))
            && (r.Ready? <==> parts == PartNumbers(ci.total) && ci.total < 255)
            && (r.Waiting? ==> key in after && after[key].parts.Keys == parts)
            && (r.Ready? ==> key !in after)
            && Without(after, key) == Without(groups, key)
  {
    var g := GrownGroup(groups, key, ci, text, tmpl, now, id);
    PartsPigeonhole(g.parts.Keys, ci.total);
    assert |g.parts| == |g.parts.Keys|;
    SettleOutcome(groups, key, g);
    PutThenWithout(groups, key, g);
  }

  lemma AddKeepsInv(groups: Groups, key: string, ci: ConcatInfo, text: seq<Byte>, tmpl: SubmitJob, now: int, id: string)
    requires StoreOk(groups) && Admitted(key, ci)
    requires key !in groups ==> |groups| < MAX_GROUPS
    ensures !AddTo(groups, key, ci, text, tmpl, now, id).1.Stuck? ==>
              StoreOk(AddTo(groups, key, ci, text, tmpl, now, id).0)
  {
    var g := GrownGroup(groups, key, ci, text, tmpl, now, id);
    SettleOutcome(groups, key, g);
    WithoutSize(groups, key);
    PutSize(groups, key, g);
  }

  lemma ReapKeepsInv(groups: Groups, now: int)
    requires StoreOk(groups)
    ensures StoreOk(Reaped(groups, now))
  {
    SubsetSize(Reaped(groups, now).Keys, groups.Keys);
    assert |Reaped(groups, now)| == |Reaped(groups, now).Keys|;
  }
}
