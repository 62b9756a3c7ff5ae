/** The in-flight table of submitted messages and the three parties that compete for its entries: the
    response, the close sweep and the stale sweep (go-smpp-gateway/connector.go). Every table operation is one
    atomic step; a sweep visits keys one at a time while others run, then claims what it collected. */
module InFlight {
  import opened Keys
  import opened Maps

  const STALE_TTL := 20

  datatype SequenceData = SequenceData(messageId: string, logId: int, submitTime: int)

  // ---- the table ----

  /** The sweeps' test of one visited entry. */
  predicate Collects(key: string, data: SequenceData, prefix: string, stale: bool, now: int) {
    HasPrefix(key, prefix) && (stale ==> now - data.submitTime > STALE_TTL)
  }

  function Collected(m: map<string, SequenceData>, prefix: string, stale: bool, now: int): set<string> {
    set k | k in m && Collects(k, m[k], prefix, stale, now)
  }

  function Remaining(m: map<string, SequenceData>, gone: set<string>): map<string, SequenceData> {
    map k | k in m && k !in gone :: m[k]
  }

  class SequenceMap {
    var entries: map<string, SequenceData>

    constructor ()
      ensures entries == map[]
    {
      entries := map[];
    }

    /** submitOneAndTrack: the entry is stored before the PDU is written and taken back if writing fails. */
    method SubmitOneAndTrack(channel: int, session: nat, seqNo: int, data: SequenceData, written: bool)
      modifies this
      ensures var key := SeqMapKey(channel, session, seqNo);
              entries == if written then old(entries)[key := data] else Without(old(entries), key)
    {
      var key := SeqMapKey(channel, session, seqNo);
      entries := entries[key := data];
      if !written {
        PutThenWithout(old(entries), key, data);
        entries := Without(entries, key);
      }
    }

    method LoadAndDelete(key: string) returns (loaded: bool, data: SequenceData)
      modifies this
      ensures loaded == (key in old(entries)) && (loaded ==> data == old(entries)[key])
      ensures entries == Without(old(entries), key)
    {
      loaded, data := key in entries, if key in entries then entries[key] else SequenceData("", 0, 0);
      entries := Without(entries, key);
    }

    /** The collecting pass of a sweep. */
    method Collect(prefix: string, stale: bool, now: int) returns (keys: seq<string>)
      ensures forall k :: k in keys <==> k in Collected(entries, prefix, stale, now)
      ensures forall i, j :: 0 <= i < j < |keys| ==> keys[i] != keys[j]
    {
      keys := [];
      var left := entries.Keys;
      while left != {}
        invariant left <= entries.Keys
        invariant forall k :: k in keys <==> k in entries && k !in left && Collects(k, entries[k], prefix, stale, now)
        invariant forall i, j :: 0 <= i < j < |keys| ==> keys[i] != keys[j]
      {
        var k :| k in left;
        left := left - {k};
        if Collects(k, entries[k], prefix, stale, now) {
          keys := keys + [k];
        }
      }
    }

    /** A sweep that nobody interrupts takes exactly what it collected, each entry once. */
    method Sweep(prefix: string, stale: bool, now: int) returns (claimed: seq<SequenceData>, ghost keys: seq<string>)
      modifies this
      ensures forall k :: k in keys <==> k in Collected(old(entries), prefix, stale, now)
      ensures forall i, j :: 0 <= i < j < |keys| ==> keys[i] != keys[j]
      ensures |claimed| == |keys|
      ensures forall i :: 0 <= i < |keys| ==> keys[i] in old(entries) && claimed[i] == old(entries)[keys[i]]
      ensures entries == Remaining(old(entries), Collected(old(entries), prefix, stale, now))
    {
      var found := Collect(prefix, stale, now);
      keys, claimed := found, [];
      var i := 0;
      while i < |found|
        invariant 0 <= i <= |found| && |claimed| == i
        invariant forall k :: k in entries <==> k in old(entries) && k !in found[..i]
        invariant forall k :: k in entries ==> entries[k] == old(entries)[k]
        invariant forall j :: 0 <= j < i ==> found[j] in old(entries) && claimed[j] == old(entries)[found[j]]
      {
        var loaded, data := LoadAndDelete(found[i]);
        assert found[i] !in found[..i] && found[i] in Collected(old(entries), prefix, stale, now);
        assert found[..i + 1] == found[..i] + [found[i]];
        claimed := claimed + [data];
        i := i + 1;
      }
      assert found[..i] == found;
    }
  }

  /** The close sweep of one session leaves every entry of every other session, and none of its own. */
  lemma CloseSweepIsOwn(m: map<string, SequenceData>, channel: int, session: nat, now: int,
                        channel': int, session': nat, seqNo': int)
    requires SeqMapKey(channel', session', seqNo') in m
    ensures SeqMapKey(channel', session', seqNo') in Collected(m, SessionPrefix(channel, session), false, now)
            <==> channel == channel' && session == session'
  {
    SessionPrefixExact(channel', session', seqNo', channel, session);
  }

  // ---- all interleavings ----

  datatype Key = Key(channel: int, session: nat, seqNo: int)

  function Text(k: Key): string {
    SeqMapKey(k.channel, k.session, k.seqNo)
  }

  datatype Entry = Entry(key: Key, data: SequenceData)

  /** What a sweep notes on a visit: a key, the place of the entry then under it, and the time. */
  datatype Seen = Seen(key: Key, ticket: nat, at: int)

  datatype Claimer = Response | CloseSweep(channel: int, session: nat) | StaleSweep(channel: int, session: nat, seen: Seen)

  datatype Fate = Live | Claimed(claimer: Claimer) | Deleted | Replaced

  datatype Sweep = Sweep(channel: int, session: nat, stale: bool, pending: seq<Seen>)

  /** entries lists every Store so far and fates what became of each; live gives the place in that list of the
      entry under each key. */
  datatype State = State(entries: seq<Entry>, fates: seq<Fate>, live: map<Key, nat>, sweeps: seq<Sweep>)

  datatype Event =
    | Store(entry: Entry)
    | SubmitError(key: Key)
    | SubmitSmResp(key: Key)
    | SweepStarts(channel: int, session: nat, stale: bool)
    | SweepVisits(sweep: nat, visited: Key, now: int)
    | SweepClaims(sweep: nat)

  function ClaimerOf(w: Sweep): Claimer
    requires w.pending != []
  {
    if w.stale then StaleSweep(w.channel, w.session, w.pending[0]) else CloseSweep(w.channel, w.session)
  }

  predicate WellFormed(s: State) {
    |s.fates| == |s.entries| && forall k :: k in s.live ==> s.live[k] < |s.entries|
  }

  /** The entry under a key, if any, leaves the table. */
  function Leave(s: State, key: Key, fate: Fate): (r: State)
    requires WellFormed(s)
    ensures WellFormed(r) && key !in r.live
  {
    if key in s.live then s.(fates := s.fates[s.live[key] := fate], live := Without(s.live, key)) else s
  }

  function Added(s: State, x: Entry): (r: State)
    requires WellFormed(s)
    ensures WellFormed(r)
  {
    s.(entries := s.entries + [x], fates := s.fates + [Live], live := s.live[x.key := |s.entries|])
  }

  /** The sweep test, on the fields of the key. */
  predicate Visited(w: Sweep, key: Key, data: SequenceData, now: int) {
    w.channel == key.channel && w.session == key.session && (w.stale ==> now - data.submitTime > STALE_TTL)
  }

  function Apply(s: State, e: Event): (r: State)
    requires WellFormed(s)
    ensures WellFormed(r)
  {
    match e
    case Store(x) =>
      Added(Leave(s, x.key, Replaced), x)
    case SubmitError(key) => Leave(s, key, Deleted)
    case SubmitSmResp(key) => Leave(s, key, Claimed(Response))
    case SweepStarts(channel, session, stale) =>
      s.(sweeps := s.sweeps + [Sweep(channel, session, stale, [])])
    case SweepVisits(i, key, now) =>
      if i < |s.sweeps| && key in s.live && Visited(s.sweeps[i], key, s.entries[s.live[key]].data, now)
      then s.(sweeps := s.sweeps[i := s.sweeps[i].(pending := s.sweeps[i].pending + [Seen(key, s.live[key], now)])])
      else s
    case SweepClaims(i) =>
      if i < |s.sweeps| && s.sweeps[i].pending != [] then
        var w := s.sweeps[i];
        Leave(s, w.pending[0].key, Claimed(ClaimerOf(w))).(sweeps := s.sweeps[i := w.(pending := w.pending[1..])])
      else s
  }

  lemma TextsDistinct()
    ensures Injective(Text)
  {
    forall k, k' | Text(k) == Text(k')
      ensures k == k'
    {
      SeqMapKeyInjective(k.channel, k.session, k.seqNo, k'.channel, k'.session, k'.seqNo);
    }
  }

  function Held(s: State): map<Key, SequenceData>
    requires WellFormed(s)
  {
    map k | k in s.live :: s.entries[s.live[k]].data
  }

  /** What the shared table really holds. */
  ghost function Table(s: State): map<string, SequenceData>
    requires WellFormed(s)
  {
    TextsDistinct();
    Renamed(Held(s), Text)
  }

  /** The steps on keys are the table's operations on formatted keys: no two keys are formatted alike, and the
      sweeps' prefix test picks the keys of one session. */
  lemma LeaveIsTableDelete(s: State, key: Key, fate: Fate)
    requires WellFormed(s)
    ensures Table(Leave(s, key, fate)) == Without(Table(s), Text(key))
  {
    TextsDistinct();
    assert Held(Leave(s, key, fate)) == Without(Held(s), key);
    RenamedWithout(Held(s), Text, key);
  }

  lemma StoreIsTableUpdate(s: State, x: Entry)
    requires WellFormed(s)
    ensures Table(Apply(s, Store(x))) == Table(s)[Text(x.key) := x.data]
  {
    TextsDistinct();
    assert Held(Apply(s, Store(x))) == Held(s)[x.key := x.data];
    RenamedPut(Held(s), Text, x.key, x.data);
  }

  lemma VisitIsPrefixTest(w: Sweep, key: Key, data: SequenceData, now: int)
    ensures Visited(w, key, data, now) <==> Collects(Text(key), data, SessionPrefix(w.channel, w.session), w.stale, now)
  {
    SessionPrefixExact(key.channel, key.session, key.seqNo, w.channel, w.session);
  }

  predicate IsStale(x: Entry, at: int) {
    at - x.data.submitTime > STALE_TTL
  }

  /** A sweep claims an entry of its session; a stale sweep one it saw stale, if it is the one it saw. */
  predicate ClaimOk(x: Entry, t: nat, f: Fate) {
    match f
    case Claimed(CloseSweep(channel, session)) => x.key.channel == channel && x.key.session == session
    case Claimed(StaleSweep(channel, session, seen)) =>
      x.key.channel == channel && x.key.session == session && seen.key == x.key && (seen.ticket == t ==> IsStale(x, seen.at))
    case _ => true
  }

  function LiveCount(fates: seq<Fate>): nat {
    if fates == [] then 0 else LiveCount(fates[..|fates| - 1]) + if fates[|fates| - 1] == Live then 1 else 0
  }

  ghost predicate Placed(s: State)
    requires WellFormed(s)
  {
    && (forall k :: k in s.live ==> s.entries[s.live[k]].key == k && s.fates[s.live[k]] == Live)
    && forall t :: 0 <= t < |s.entries| && s.fates[t] == Live ==> s.entries[t].key in s.live && s.live[s.entries[t].key] == t
  }

  ghost predicate SweepsOk(sweeps: seq<Sweep>, entries: seq<Entry>) {
    forall i :: 0 <= i < |sweeps| ==> SweepOk(sweeps[i], entries)
  }

  ghost predicate SweepOk(w: Sweep, entries: seq<Entry>) {
    forall j :: 0 <= j < |w.pending| ==> SeenOk(w, w.pending[j], entries)
  }

  predicate SeenOk(w: Sweep, p: Seen, entries: seq<Entry>) {
    && p.key.channel == w.channel && p.key.session == w.session
    && p.ticket < |entries| && entries[p.ticket].key == p.key && (w.stale ==> IsStale(entries[p.ticket], p.at))
  }

  /** Every stored entry is either under its key in the table or has one fate; the numbers add up; a sweep has
      only ever claimed entries of its own session. */
  ghost predicate Ok(s: State) {
    && WellFormed(s)
    && Placed(s)
    && |s.live| == LiveCount(s.fates)
    && SweepsOk(s.sweeps, s.entries)
    && forall t :: 0 <= t < |s.entries| ==> ClaimOk(s.entries[t], t, s.fates[t])
  }

  lemma {:induction false} LiveCountUpdate(fates: seq<Fate>, t: nat, f: Fate)
    requires t < |fates| && fates[t] == Live && f != Live
    ensures LiveCount(fates[t := f]) == LiveCount(fates) - 1
  {
    var n := |fates| - 1;
    if t < n {
      LiveCountUpdate(fates[..n], t, f);
      assert fates[t := f][..n] == fates[..n][t := f];
    } else {
      assert fates[t := f][..n] == fates[..n];
    }
  }

  lemma LeaveKeepsOk(s: State, key: Key, fate: Fate)
    requires Ok(s) && fate != Live && (key in s.live ==> ClaimOk(s.entries[s.live[key]], s.live[key], fate))
    ensures Ok(Leave(s, key, fate))
  {
    if key in s.live {
      WithoutSize(s.live, key);
      LiveCountUpdate(s.fates, s.live[key], fate);
    }
  }

  lemma AddedKeepsOk(s: State, x: Entry)
    requires Ok(s) && x.key !in s.live
    ensures Ok(Added(s, x))
  {
    PutSize(s.live, x.key, |s.entries|);
    forall i | 0 <= i < |s.sweeps|
      ensures SweepOk(s.sweeps[i], s.entries + [x])
    {
      assert SweepOk(s.sweeps[i], s.entries);
      assert forall j :: 0 <= j < |s.sweeps[i].pending| ==> SeenOk(s.sweeps[i], s.sweeps[i].pending[j], s.entries);
    }
    assert (s.fates + [Live])[..|s.fates|] == s.fates;
  }

  lemma ClaimKeepsOk(s: State, i: nat)
    requires Ok(s) && i < |s.sweeps| && s.sweeps[i].pending != []
    ensures Ok(Apply(s, SweepClaims(i)))
  {
    var w := s.sweeps[i];
    assert SweepOk(w, s.entries) && SeenOk(w, w.pending[0], s.entries);
    LeaveKeepsOk(s, w.pending[0].key, Claimed(ClaimerOf(w)));
    var rest := w.(pending := w.pending[1..]);
    forall j | 0 <= j < |rest.pending|
      ensures SeenOk(rest, rest.pending[j], s.entries)
    {
      assert rest.pending[j] == w.pending[j + 1] && SeenOk(w, w.pending[j + 1], s.entries);
    }
    assert SweepOk(rest, s.entries);
  }

  lemma VisitKeepsOk(s: State, i: nat, key: Key, now: int)
    requires Ok(s)
    ensures Ok(Apply(s, SweepVisits(i, key, now)))
  {
    var r := Apply(s, SweepVisits(i, key, now));
    if r != s {
      var w, more := s.sweeps[i], r.sweeps[i];
      assert SweepOk(w, s.entries) && SeenOk(more, Seen(key, s.live[key], now), s.entries);
      assert forall j :: 0 <= j < |w.pending| ==> SeenOk(w, w.pending[j], s.entries) && SeenOk(more, more.pending[j], s.entries);
      assert SweepOk(more, s.entries);
    }
  }

  lemma StepKeepsOk(s: State, e: Event)
    requires Ok(s)
    ensures Ok(Apply(s, e))
  {
    match e
    case Store(x) =>
      LeaveKeepsOk(s, x.key, Replaced);
      AddedKeepsOk(Leave(s, x.key, Replaced), x);
    case SubmitError(key) => LeaveKeepsOk(s, key, Deleted);
    case SubmitSmResp(key) => LeaveKeepsOk(s, key, Claimed(Response));
    case SweepStarts(_, _, _) =>
    case SweepVisits(i, key, now) => VisitKeepsOk(s, i, key, now);
    case SweepClaims(i) =>
      if i < |s.sweeps| && s.sweeps[i].pending != [] {
        ClaimKeepsOk(s, i);
      }
  }

  const START := State([], [], map[], [])

  /** The states of a run, one more than its events. */
  ghost predicate IsRun(events: seq<Event>, states: seq<State>) {
    && |states| == |events| + 1 && states[0] == START
    && forall i :: 0 <= i < |events| ==> StepAt(events, states, i)
  }

  ghost predicate StepAt(events: seq<Event>, states: seq<State>, i: nat)
    requires i < |events| && |states| == |events| + 1
  {
    WellFormed(states[i]) && states[i + 1] == Apply(states[i], events[i])
  }

  lemma {:induction false} RunKeepsOk(events: seq<Event>, states: seq<State>, i: nat)
    requires IsRun(events, states) && i < |states|
    ensures Ok(states[i])
  {
    if i > 0 {
      RunKeepsOk(events, states, i - 1);
      assert StepAt(events, states, i - 1);
      StepKeepsOk(states[i - 1], events[i - 1]);
    }
  }

  /** Whatever the interleaving, a sweep never claims an entry of another session. */
  lemma SweepClaimsOwnSession(events: seq<Event>, states: seq<State>, t: nat, c: Claimer)
    requires IsRun(events, states) && t < |states[|events|].entries| && |states[|events|].fates| == |states[|events|].entries|
    requires states[|events|].fates[t] == Claimed(c) && !c.Response?
    ensures states[|events|].entries[t].key.channel == c.channel && states[|events|].entries[t].key.session == c.session
  {
    RunKeepsOk(events, states, |events|);
    assert ClaimOk(states[|events|].entries[t], t, states[|events|].fates[t]);
  }

  /** A stale sweep claims only entries it saw more than 20 s after their submission, unless another store has
      used the same key since. */
  lemma StaleClaimWasStale(events: seq<Event>, states: seq<State>, t: nat, channel: int, session: nat, seen: Seen)
    requires IsRun(events, states) && t < |states[|events|].entries| && |states[|events|].fates| == |states[|events|].entries|
    requires states[|events|].fates[t] == Claimed(StaleSweep(channel, session, seen))
    ensures var x := states[|events|].entries[t];
            seen.key == x.key && (seen.ticket == t ==> seen.at - x.data.submitTime > STALE_TTL)
  {
    RunKeepsOk(events, states, |events|);
    assert ClaimOk(states[|events|].entries[t], t, states[|events|].fates[t]);
  }

  lemma StepKeepsFates(s: State, e: Event, t: nat)
    requires Ok(s) && t < |s.entries|
    ensures var r := Apply(s, e);
            && t < |r.entries| && r.entries[t] == s.entries[t]
            && (s.fates[t] != Live ==> r.fates[t] == s.fates[t])
            && (s.fates[t] == Live && r.fates[t] == Replaced ==> e.Store? && e.entry.key in s.live)
  {
  }

  /** Each entry is claimed, deleted or replaced at most once: what has become of it never changes again. */
  lemma {:induction false} FatesAreFinal(events: seq<Event>, states: seq<State>, i: nat, j: nat, t: nat)
    requires IsRun(events, states) && i <= j < |states| && t < |states[i].fates|
    requires states[i].fates[t] != Live
    ensures t < |states[j].fates| && states[j].fates[t] == states[i].fates[t]
  {
    if i < j {
      FatesAreFinal(events, states, i, j - 1, t);
      RunKeepsOk(events, states, j - 1);
      assert StepAt(events, states, j - 1);
      StepKeepsFates(states[j - 1], events[j - 1], t);
    }
  }

  function Tally(fates: seq<Fate>, p: Fate -> bool): nat {
    if fates == [] then 0 else Tally(fates[..|fates| - 1], p) + if p(fates[|fates| - 1]) then 1 else 0
  }

  lemma {:induction false} TallySum(fates: seq<Fate>)
    ensures |fates| == LiveCount(fates) + Tally(fates, (f: Fate) => f.Claimed?) + Tally(fates, (f: Fate) => f.Deleted?)
                       + Tally(fates, (f: Fate) => f.Replaced?)
  {
    if fates != [] {
      TallySum(fates[..|fates| - 1]);
    }
  }

  /** Entries stored = claimed + deleted on a submit error + replaced + still live. */
  lemma Conservation(events: seq<Event>, states: seq<State>)
    requires IsRun(events, states)
    ensures var s := states[|events|];
            |s.entries| == Tally(s.fates, (f: Fate) => f.Claimed?) + Tally(s.fates, (f: Fate) => f.Deleted?)
                           + Tally(s.fates, (f: Fate) => f.Replaced?) + |s.live|
  {
    RunKeepsOk(events, states, |events|);
    TallySum(states[|events|].fates);
  }

  ghost predicate ReusesLiveKey(events: seq<Event>, states: seq<State>, i: nat)
    requires IsRun(events, states) && i < |events|
  {
    events[i].Store? && events[i].entry.key in states[i].live
  }

  lemma {:induction false} ReplacedOnlyByReuse(events: seq<Event>, states: seq<State>, n: nat, t: nat)
    requires IsRun(events, states) && n < |states| && t < |states[n].fates| && states[n].fates[t] == Replaced
    ensures exists i :: 0 <= i < n && ReusesLiveKey(events, states, i)
  {
    assert StepAt(events, states, n - 1);
    RunKeepsOk(events, states, n - 1);
    var s := states[n - 1];
    if t < |s.entries| {
      StepKeepsFates(s, events[n - 1], t);
      if s.fates[t] == Replaced {
        ReplacedOnlyByReuse(events, states, n - 1, t);
        var i :| 0 <= i < n - 1 && ReusesLiveKey(events, states, i);
        assert ReusesLiveKey(events, states, i);
      } else {
        assert ReusesLiveKey(events, states, n - 1);
      }
    }
  }

  /** An entry is lost without being claimed or deleted exactly when a Store reuses a key still in flight. */
  lemma LostIffKeyReused(events: seq<Event>, states: seq<State>)
    requires IsRun(events, states)
    ensures (exists t :: 0 <= t < |states[|events|].fates| && states[|events|].fates[t] == Replaced)
            <==> exists i :: 0 <= i < |events| && ReusesLiveKey(events, states, i)
  {
    var n := |events|;
    if i :| 0 <= i < n && ReusesLiveKey(events, states, i) {
      assert StepAt(events, states, i);
      var t := states[i].live[events[i].entry.key];
      assert states[i + 1].fates[t] == Replaced;
      FatesAreFinal(events, states, i + 1, n, t);
    }
    if t :| 0 <= t < |states[n].fates| && states[n].fates[t] == Replaced {
      ReplacedOnlyByReuse(events, states, n, t);
    }
  }
}
