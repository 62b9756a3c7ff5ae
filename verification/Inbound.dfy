/** Runs of the reassembly buffer, and one message's segments among any other traffic
    (go-smpp-gateway/inbound_udh_reassembly.go, inbound_session.go). */
module Inbound {
  import opened Unicode
  import opened Udh
  import opened Maps
  import opened Keys
  import opened Reassembly

  datatype Victim = Nobody | Evicts(key: string)

  /** One lock section on the buffer. */
  datatype Event =
    | Segment(key: string, ci: ConcatInfo, text: seq<Byte>, tmpl: SubmitJob, now: int, id: string, victim: Victim)
    | Sweep(at: int)

  /** The buffer with counts of how its groups came and went. */
  datatype Buffer = Buffer(groups: Groups, created: nat, completed: nat, evicted: nat, flushed: nat)

  datatype Outcome = Swept(flushed: map<string, SubmitJob>) | Added(r: AddResult)

  function Room(b: Buffer, e: Event): Groups
    requires e.Segment?
  {
    if e.victim.Evicts? then Without(b.groups, e.victim.key) else b.groups
  }

  function Apply(b: Buffer, e: Event): (Buffer, Outcome) {
    match e
    case Segment(key, ci, text, tmpl, now, id, victim) =>
      var room := Room(b, e);
      var (after, r) := AddTo(room, key, ci, text, tmpl, now, id);
      (Buffer(after, b.created + (if key in room then 0 else 1), b.completed + (if r.Ready? then 1 else 0),
              b.evicted + (if victim.Evicts? then 1 else 0), b.flushed),
       Added(r))
    case Sweep(at) =>
      SweepShrinks(b.groups, at);
      var after := Reaped(b.groups, at);
      (b.(groups := after, flushed := b.flushed + |b.groups| - |after|), Swept(FlushedAll(b.groups, at)))
  }

  lemma SweepShrinks(groups: Groups, at: int)
    ensures |Reaped(groups, at)| <= |groups|
  {
    SubsetSize(Reaped(groups, at).Keys, groups.Keys);
    assert |Reaped(groups, at)| == |Reaped(groups, at).Keys| && |groups| == |groups.Keys|;
  }

  /** The step can be taken, and returns: neither a segment nor a sweep gets stuck joining 255 parts. */
  ghost predicate Enabled(b: Buffer, e: Event) {
    match e
    case Segment(key, ci, _, _, _, _, victim) =>
      && Admitted(key, ci)
      && RoomMade(b.groups, key, Room(b, e))
      && (victim.Evicts? ==> victim.key in b.groups && key !in b.groups && |b.groups| >= MAX_GROUPS)
      && Apply(b, e).1 != Added(Stuck)
    case Sweep(at) => !HangsSweep(b.groups, at)
  }

  ghost predicate StepAt(bs: seq<Buffer>, events: seq<Event>, rs: seq<Outcome>, i: nat)
    requires i < |events| && |bs| == |events| + 1 && |rs| == |events|
  {
    Enabled(bs[i], events[i]) && (bs[i + 1], rs[i]) == Apply(bs[i], events[i])
  }

  /** The buffers `bs` and answers `rs` of a run through `events`. */
  ghost predicate IsRun(bs: seq<Buffer>, events: seq<Event>, rs: seq<Outcome>) {
    && |bs| == |events| + 1 && |rs| == |events|
    && forall i :: 0 <= i < |events| ==> StepAt(bs, events, rs, i)
  }

  /** Every group that was opened is completed, evicted, flushed, or still there. */
  ghost predicate BufferOk(b: Buffer) {
    StoreOk(b.groups) && b.created == b.completed + b.evicted + b.flushed + |b.groups|
  }

  lemma StepKeepsBuffer(b: Buffer, e: Event)
    requires BufferOk(b) && Enabled(b, e)
    ensures BufferOk(Apply(b, e).0)
  {
    match e
    case Segment(key, ci, text, tmpl, now, id, victim) =>
      var room := Room(b, e);
      if victim.Evicts? {
        WithoutSize(b.groups, victim.key);
      }
      RoomKeepsInv(b.groups, key, room);
      AddKeepsInv(room, key, ci, text, tmpl, now, id);
      var g := GrownGroup(room, key, ci, text, tmpl, now, id);
      SettleOutcome(room, key, g);
      WithoutSize(room, key);
      PutSize(room, key, g);
    case Sweep(at) =>
      ReapKeepsInv(b.groups, at);
  }

  /** Over every run: the invariant holds and each group leaves exactly once. */
  lemma {:induction false} RunKeepsBuffer(bs: seq<Buffer>, events: seq<Event>, rs: seq<Outcome>, n: nat)
    requires IsRun(bs, events, rs) && BufferOk(bs[0]) && n < |bs|
    ensures BufferOk(bs[n])
  {
    if n > 0 {
      RunKeepsBuffer(bs, events, rs, n - 1);
      assert StepAt(bs, events, rs, n - 1);
      StepKeepsBuffer(bs[n - 1], events[n - 1]);
    }
  }

  // ---- one conversation inside a run ----

  predicate Concerns(e: Event, key: string) {
    e.Segment? && e.key == key
  }

  /** What the segments of `key` among the first n events have brought; a repeated part replaces the earlier one. */
  function Collected(events: seq<Event>, key: string, n: nat): map<Byte, seq<Byte>>
    requires n <= |events|
  {
    if n == 0 then map[]
    else
      var before := Collected(events, key, n - 1);
      if Concerns(events[n - 1], key) then before[events[n - 1].ci.part := events[n - 1].text] else before
  }

  /** The id drawn with the first segment of `key` among the first n events. */
  function RoundId(events: seq<Event>, key: string, n: nat): string
    requires n <= |events|
  {
    if n == 0 then ""
    else if Collected(events, key, n - 1) == map[] && Concerns(events[n - 1], key) then events[n - 1].id
    else RoundId(events, key, n - 1)
  }

  /** What the buffer shows of one conversation. */
  datatype View = Absent | Present(parts: map<Byte, seq<Byte>>, total: Byte, id: string)

  function ViewOf(groups: Groups, key: string): View {
    if key in groups then Present(groups[key].parts, groups[key].total, groups[key].tmpl.messageId) else Absent
  }

  function Shown(parts: map<Byte, seq<Byte>>, total: Byte, id: string): View {
    if parts == map[] then Absent else Present(parts, total, id)
  }

  /** The event neither evicts nor times out the group under `key`. */
  ghost predicate Spares(b: Buffer, e: Event, key: string) {
    && !(e.Segment? && e.victim == Evicts(key))
    && (e.Sweep? && key in b.groups ==> !Expired(b.groups[key], e.at))
  }

  lemma OtherStep(b: Buffer, e: Event, key: string)
    requires BufferOk(b) && Enabled(b, e) && !Concerns(e, key) && Spares(b, e, key)
    ensures ViewOf(Apply(b, e).0.groups, key) == ViewOf(b.groups, key)
  {
  }

  /** The answer to a segment that leaves these parts collected, and what is then shown. */
  ghost predicate Answers(o: Outcome, view: View, parts: map<Byte, seq<Byte>>, total: Byte, id: string) {
    if |parts| < total then o == Added(Waiting(id)) && view == Present(parts, total, id)
    else Completed(o, id, Joined(parts, total)) && view == Absent
  }

  ghost predicate Completed(o: Outcome, id: string, message: seq<Byte>) {
    o.Added? && o.r.Ready? && o.r.messageId == id && o.r.job.messageId == id && o.r.job.message == message
  }

  lemma SettledAnswers(room: Groups, key: string, g: Group)
    requires 1 <= |g.parts| <= g.total <= 254
    ensures var (after, r) := Settle(room, key, g);
            Answers(Added(r), ViewOf(after, key), g.parts, g.total, g.tmpl.messageId)
  {
  }

  lemma OwnStep(b: Buffer, e: Event, key: string, parts: map<Byte, seq<Byte>>, total: Byte, id: string)
    requires BufferOk(b) && Enabled(b, e) && Concerns(e, key) && Spares(b, e, key)
    requires ViewOf(b.groups, key) == Shown(parts, total, id) && e.ci.total == total <= 254
    ensures Answers(Apply(b, e).1, ViewOf(Apply(b, e).0.groups, key), parts[e.ci.part := e.text], total,
                    if parts == map[] then e.id else id)
    ensures |parts[e.ci.part := e.text]| <= total
  {
    var room := Room(b, e);
    RoomKeepsInv(b.groups, key, room);
    assert ViewOf(room, key) == ViewOf(b.groups, key);
    var g := GrownGroup(room, key, e.ci, e.text, e.tmpl, e.now, e.id);
    assert g.parts == parts[e.ci.part := e.text] && g.tmpl.messageId == if parts == map[] then e.id else id;
    SettledAnswers(room, key, g);
    assert Apply(b, e).0.groups == Settle(room, key, g).0 && Apply(b, e).1 == Added(Settle(room, key, g).1);
  }

  /** Step i of a run neither disturbs `key` nor announces another total for it. */
  ghost predicate StepOn(bs: seq<Buffer>, events: seq<Event>, key: string, total: Byte, i: nat)
    requires i < |events| < |bs|
  {
    Spares(bs[i], events[i], key) && (Concerns(events[i], key) ==> events[i].ci.total == total)
  }

  /** A run that starts without a group for `key` and carries one message under it. */
  ghost predicate Conversation(bs: seq<Buffer>, events: seq<Event>, rs: seq<Outcome>, key: string, total: Byte) {
    && IsRun(bs, events, rs) && BufferOk(bs[0]) && key !in bs[0].groups && 2 <= total <= 254
    && forall i :: 0 <= i < |events| ==> StepOn(bs, events, key, total, i)
  }

  /** Step n of a conversation, from what is shown before it to what is shown after it. */
  lemma ConversationStep(bs: seq<Buffer>, events: seq<Event>, rs: seq<Outcome>, key: string, total: Byte, n: nat,
                         parts: map<Byte, seq<Byte>>, id: string)
    requires Conversation(bs, events, rs, key, total) && n < |events|
    requires ViewOf(bs[n].groups, key) == Shown(parts, total, id)
    ensures !Concerns(events[n], key) ==> ViewOf(bs[n + 1].groups, key) == Shown(parts, total, id)
    ensures Concerns(events[n], key) ==>
              && |parts[events[n].ci.part := events[n].text]| <= total
              && Answers(rs[n], ViewOf(bs[n + 1].groups, key), parts[events[n].ci.part := events[n].text], total,
                         if parts == map[] then events[n].id else id)
  {
    RunKeepsBuffer(bs, events, rs, n);
    assert StepAt(bs, events, rs, n);
    assert StepOn(bs, events, key, total, n);
    if Concerns(events[n], key) {
      OwnStep(bs[n], events[n], key, parts, total, id);
    } else {
      OtherStep(bs[n], events[n], key);
    }
  }

  /** Until all parts are there, the buffer shows exactly what was collected. */
  lemma {:induction false} ShowsCollected(bs: seq<Buffer>, events: seq<Event>, rs: seq<Outcome>, key: string, total: Byte, n: nat)
    requires Conversation(bs, events, rs, key, total) && n <= |events|
    requires |Collected(events, key, n)| < total
    ensures ViewOf(bs[n].groups, key) == Shown(Collected(events, key, n), total, RoundId(events, key, n))
  {
    if n > 0 {
      CollectedGrows(events, key, n - 1);
      ShowsCollected(bs, events, rs, key, total, n - 1);
      ConversationStep(bs, events, rs, key, total, n - 1, Collected(events, key, n - 1), RoundId(events, key, n - 1));
    }
  }

  lemma CollectedGrows(events: seq<Event>, key: string, n: nat)
    requires n < |events|
    ensures |Collected(events, key, n)| <= |Collected(events, key, n + 1)|
    ensures Concerns(events[n], key) ==>
              Collected(events, key, n + 1) == Collected(events, key, n)[events[n].ci.part := events[n].text]
    ensures Concerns(events[n], key) ==> Collected(events, key, n + 1) != map[]
    ensures !Concerns(events[n], key) ==> Collected(events, key, n + 1) == Collected(events, key, n)
  {
    if Concerns(events[n], key) {
      PutSize(Collected(events, key, n), events[n].ci.part, events[n].text);
      assert events[n].ci.part in Collected(events, key, n + 1);
    }
  }

  lemma {:induction false} CollectedMonotone(events: seq<Event>, key: string, m: nat, n: nat)
    requires m <= n <= |events|
    ensures |Collected(events, key, m)| <= |Collected(events, key, n)|
    ensures Collected(events, key, m) != map[] ==> RoundId(events, key, m) == RoundId(events, key, n)
  {
    if m < n {
      CollectedMonotone(events, key, m, n - 1);
      CollectedGrows(events, key, n - 1);
    }
  }

  /** Segments in any order, with any duplicates and any other traffic in between: while a part is missing
      every segment is answered with one and the same id and nothing is forwarded; the segment that brings
      the last distinct part yields the job, whose text is the parts in order, and the group is gone. */
  lemma LastDistinctPartCompletes(bs: seq<Buffer>, events: seq<Event>, rs: seq<Outcome>, key: string, total: Byte, last: nat)
    requires Conversation(bs, events, rs, key, total) && last < |events|
    requires |Collected(events, key, last)| < total <= |Collected(events, key, last + 1)|
    ensures Completed(rs[last], RoundId(events, key, last + 1), Joined(Collected(events, key, last + 1), total))
    ensures key !in bs[last + 1].groups
    ensures forall i :: 0 <= i < last && Concerns(events[i], key) ==> rs[i] == Added(Waiting(RoundId(events, key, last + 1)))
  {
    CollectedGrows(events, key, last);
    ShowsCollected(bs, events, rs, key, total, last);
    ConversationStep(bs, events, rs, key, total, last, Collected(events, key, last), RoundId(events, key, last));
    forall i | 0 <= i < last && Concerns(events[i], key)
      ensures rs[i] == Added(Waiting(RoundId(events, key, last + 1)))
    {
      EarlierWaits(bs, events, rs, key, total, last, i);
    }
  }

  lemma IdKept(events: seq<Event>, key: string, i: nat, n: nat)
    requires i < n <= |events| && Concerns(events[i], key)
    ensures RoundId(events, key, i + 1) == RoundId(events, key, n)
    ensures |Collected(events, key, i + 1)| <= |Collected(events, key, n)|
    ensures RoundId(events, key, i + 1) == if Collected(events, key, i) == map[] then events[i].id else RoundId(events, key, i)
  {
    CollectedGrows(events, key, i);
    CollectedMonotone(events, key, i + 1, n);
  }

  lemma EarlierWaits(bs: seq<Buffer>, events: seq<Event>, rs: seq<Outcome>, key: string, total: Byte, last: nat, i: nat)
    requires Conversation(bs, events, rs, key, total)
    requires i < last < |events| && |Collected(events, key, last)| < total && Concerns(events[i], key)
    ensures rs[i] == Added(Waiting(RoundId(events, key, last + 1)))
  {
    IdKept(events, key, i, last);
    IdKept(events, key, i, last + 1);
    CollectedGrows(events, key, i);
    ShowsCollected(bs, events, rs, key, total, i);
    ConversationStep(bs, events, rs, key, total, i, Collected(events, key, i), RoundId(events, key, i));
  }

  // ---- after completion ----

  /** How far the segments of a conversation have come: whole rounds, and the parts of the round under way. The
      buffer forgets a completed group, so a late duplicate opens the next round. */
  datatype Progress = Progress(rounds: nat, parts: map<Byte, seq<Byte>>, id: string)

  function Advanced(p: Progress, e: Event, total: Byte): Progress
    requires e.Segment?
  {
    var parts := p.parts[e.ci.part := e.text];
    if |parts| < total then Progress(p.rounds, parts, if p.parts == map[] then e.id else p.id)
    else Progress(p.rounds + 1, map[], "")
  }

  function ProgressAt(events: seq<Event>, key: string, total: Byte, n: nat): Progress
    requires n <= |events|
  {
    if n == 0 then Progress(0, map[], "")
    else
      var before := ProgressAt(events, key, total, n - 1);
      if Concerns(events[n - 1], key) then Advanced(before, events[n - 1], total) else before
  }

  predicate ReadyAt(events: seq<Event>, rs: seq<Outcome>, key: string, i: nat)
    requires i < |events| == |rs|
  {
    Concerns(events[i], key) && rs[i].Added? && rs[i].r.Ready?
  }

  /** Jobs handed on for a key by the first n steps. */
  function Forwarded(events: seq<Event>, rs: seq<Outcome>, key: string, n: nat): nat
    requires n <= |events| == |rs|
  {
    if n == 0 then 0 else Forwarded(events, rs, key, n - 1) + if ReadyAt(events, rs, key, n - 1) then 1 else 0
  }

  /** At every point of a conversation the buffer shows the round under way, as many jobs have been handed on as
      rounds are complete, and each job carries the parts of its own round. */
  lemma {:induction false} RoundsForwarded(bs: seq<Buffer>, events: seq<Event>, rs: seq<Outcome>, key: string,
                                           total: Byte, n: nat)
    requires Conversation(bs, events, rs, key, total) && n <= |events|
    ensures var p := ProgressAt(events, key, total, n);
            && |p.parts| < total
            && ViewOf(bs[n].groups, key) == Shown(p.parts, total, p.id)
            && Forwarded(events, rs, key, n) == p.rounds
  {
    if n > 0 {
      RoundsForwarded(bs, events, rs, key, total, n - 1);
      RoundStep(bs, events, rs, key, total, n - 1);
    }
  }

  lemma RoundStep(bs: seq<Buffer>, events: seq<Event>, rs: seq<Outcome>, key: string, total: Byte, n: nat)
    requires Conversation(bs, events, rs, key, total) && n < |events|
    requires var p := ProgressAt(events, key, total, n);
             |p.parts| < total && ViewOf(bs[n].groups, key) == Shown(p.parts, total, p.id)
    ensures var p, q := ProgressAt(events, key, total, n), ProgressAt(events, key, total, n + 1);
            && |q.parts| < total
            && ViewOf(bs[n + 1].groups, key) == Shown(q.parts, total, q.id)
            && q.rounds == p.rounds + (if ReadyAt(events, rs, key, n) then 1 else 0)
            && (ReadyAt(events, rs, key, n) ==>
                  rs[n].r.job.message == Joined(p.parts[events[n].ci.part := events[n].text], total))
  {
    var p := ProgressAt(events, key, total, n);
    ConversationStep(bs, events, rs, key, total, n, p.parts, p.id);
  }

  /** What the segments of `key` in steps m to n-1 have brought. */
  function CollectedSince(events: seq<Event>, key: string, m: nat, n: nat): map<Byte, seq<Byte>>
    requires m <= n <= |events|
  {
    if n == m then map[]
    else
      var before := CollectedSince(events, key, m, n - 1);
      if Concerns(events[n - 1], key) then before[events[n - 1].ci.part := events[n - 1].text] else before
  }

  lemma {:induction false} SinceStart(events: seq<Event>, key: string, n: nat)
    requires n <= |events|
    ensures CollectedSince(events, key, 0, n) == Collected(events, key, n)
  {
    if n > 0 {
      SinceStart(events, key, n - 1);
    }
  }

  lemma SinceGrows(events: seq<Event>, key: string, m: nat, n: nat)
    requires m <= n < |events|
    ensures |CollectedSince(events, key, m, n)| <= |CollectedSince(events, key, m, n + 1)|
    ensures Concerns(events[n], key) ==> CollectedSince(events, key, m, n + 1) != map[]
  {
    if Concerns(events[n], key) {
      PutSize(CollectedSince(events, key, m, n), events[n].ci.part, events[n].text);
      assert events[n].ci.part in CollectedSince(events, key, m, n + 1);
    }
  }

  /** From the start of a round on, while some part is missing, the round under way holds what has been collected. */
  lemma {:induction false} WithinRound(events: seq<Event>, key: string, total: Byte, m: nat, n: nat)
    requires m <= n <= |events| && ProgressAt(events, key, total, m).parts == map[]
    requires |CollectedSince(events, key, m, n)| < total
    ensures ProgressAt(events, key, total, n).rounds == ProgressAt(events, key, total, m).rounds
    ensures ProgressAt(events, key, total, n).parts == CollectedSince(events, key, m, n)
  {
    if n > m {
      SinceGrows(events, key, m, n - 1);
      WithinRound(events, key, total, m, n - 1);
    }
  }

  /** Once none is missing, another round is complete. */
  lemma {:induction false} RoundCompletes(events: seq<Event>, key: string, total: Byte, m: nat, n: nat)
    requires m <= n <= |events| && ProgressAt(events, key, total, m).parts == map[]
    requires |CollectedSince(events, key, m, n)| >= total > 0
    ensures ProgressAt(events, key, total, n).rounds > ProgressAt(events, key, total, m).rounds
    ensures n > m && |CollectedSince(events, key, m, n - 1)| < total ==>
              ProgressAt(events, key, total, n) == Progress(ProgressAt(events, key, total, m).rounds + 1, map[], "")
  {
    if |CollectedSince(events, key, m, n - 1)| < total {
      WithinRound(events, key, total, m, n - 1);
    } else {
      RoundCompletes(events, key, total, m, n - 1);
    }
  }

  lemma {:induction false} NothingSince(events: seq<Event>, key: string, m: nat, n: nat)
    requires m <= n <= |events|
    ensures CollectedSince(events, key, m, n) == map[] <==> forall i :: m <= i < n ==> !Concerns(events[i], key)
  {
    if n > m {
      NothingSince(events, key, m, n - 1);
      SinceGrows(events, key, m, n - 1);
    }
  }

  /** After the step that completes the message: no second job is handed on exactly when the later segments bring
      fewer than all distinct parts again, and then something is left under the key exactly when one arrives. */
  lemma AfterCompletion(bs: seq<Buffer>, events: seq<Event>, rs: seq<Outcome>, key: string, total: Byte, last: nat)
    requires Conversation(bs, events, rs, key, total) && last < |events|
    requires |Collected(events, key, last)| < total <= |Collected(events, key, last + 1)|
    ensures var again := CollectedSince(events, key, last + 1, |events|);
            && (Forwarded(events, rs, key, |events|) == 1 <==> |again| < total)
            && Forwarded(events, rs, key, |events|) >= 1
            && (|again| < total ==>
                  && ViewOf(bs[|events|].groups, key) == Shown(again, total, ProgressAt(events, key, total, |events|).id)
                  && (key in bs[|events|].groups <==> exists i :: last < i < |events| && Concerns(events[i], key)))
  {
    var n := |events|;
    SinceStart(events, key, last);
    SinceStart(events, key, last + 1);
    RoundCompletes(events, key, total, 0, last + 1);
    RoundsForwarded(bs, events, rs, key, total, n);
    NothingSince(events, key, last + 1, n);
    if |CollectedSince(events, key, last + 1, n)| < total {
      WithinRound(events, key, total, last + 1, n);
    } else {
      RoundCompletes(events, key, total, last + 1, n);
    }
  }

  /** A round left incomplete is forwarded by the first returning sweep that finds it expired, as the parts it has. */
  lemma LeftoverSwept(bs: seq<Buffer>, events: seq<Event>, rs: seq<Outcome>, key: string, total: Byte, at: int)
    requires Conversation(bs, events, rs, key, total)
    requires key in bs[|events|].groups && Expired(bs[|events|].groups[key], at) && Enabled(bs[|events|], Sweep(at))
    ensures var p, (after, o) := ProgressAt(events, key, total, |events|), Apply(bs[|events|], Sweep(at));
            && key in o.flushed && o.flushed[key].message == Joined(p.parts, total) && o.flushed[key].messageId == p.id
            && 0 < |p.parts| < total && key !in after.groups
  {
    RoundsForwarded(bs, events, rs, key, total, |events|);
    var p := ProgressAt(events, key, total, |events|);
    assert p.parts != map[] && |p.parts| == |p.parts.Keys|;
  }

  /** A segment that no other group has to make room for. */
  function SegmentOf(key: string, total: Byte, part: Byte, text: seq<Byte>, tmpl: SubmitJob, id: string): Event {
    Segment(key, ConcatInfo(0, total, part, true), text, tmpl, 0, id, Nobody)
  }

  const EMPTY := Buffer(map[], 0, 0, 0, 0)

  /** One step of a conversation of two parts. */
  ghost predicate Takes(b: Buffer, e: Event, key: string, after: Buffer, o: Outcome) {
    Enabled(b, e) && Apply(b, e) == (after, o) && Concerns(e, key) && e.ci.total == 2 && e.victim == Nobody
  }

  lemma FourTaken(bs: seq<Buffer>, events: seq<Event>, rs: seq<Outcome>, key: string)
    requires |bs| == 5 && |events| == |rs| == 4 && bs[0] == EMPTY
    requires Takes(bs[0], events[0], key, bs[1], rs[0]) && Takes(bs[1], events[1], key, bs[2], rs[1])
    requires Takes(bs[2], events[2], key, bs[3], rs[2]) && Takes(bs[3], events[3], key, bs[4], rs[3])
    ensures Conversation(bs, events, rs, key, 2)
  {
    forall i | 0 <= i < 4
      ensures StepAt(bs, events, rs, i) && StepOn(bs, events, key, 2, i)
    {
      assert i == 0 || i == 1 || i == 2 || i == 3;
      assert Takes(bs[i], events[i], key, bs[i + 1], rs[i]);
    }
  }

  /** Two segments, each arriving twice in turn, into an empty buffer: the message is handed on twice. */
  lemma ForwardedTwice(key: string, first: seq<Byte>, second: seq<Byte>, tmpl: SubmitJob)
    returns (bs: seq<Buffer>, events: seq<Event>, rs: seq<Outcome>)
    requires TotalField(key) == 2
    ensures Conversation(bs, events, rs, key, 2) && bs[0] == EMPTY
    ensures events == [SegmentOf(key, 2, 1, first, tmpl, "a"), SegmentOf(key, 2, 2, second, tmpl, "b"),
                       SegmentOf(key, 2, 1, first, tmpl, "c"), SegmentOf(key, 2, 2, second, tmpl, "d")]
    ensures Forwarded(events, rs, key, 4) == 2
    ensures Completed(rs[1], "a", first + second) && Completed(rs[3], "c", first + second)
  {
    var b1, b2, r1, r2 := RoundTaken(EMPTY, key, first, second, tmpl, "a", "b");
    var b3, b4, r3, r4 := RoundTaken(b2, key, first, second, tmpl, "c", "d");
    events := [SegmentOf(key, 2, 1, first, tmpl, "a"), SegmentOf(key, 2, 2, second, tmpl, "b"),
               SegmentOf(key, 2, 1, first, tmpl, "c"), SegmentOf(key, 2, 2, second, tmpl, "d")];
    bs, rs := [EMPTY, b1, b2, b3, b4], [r1, r2, r3, r4];
    FourTaken(bs, events, rs, key);
    CountFour(events, rs, key);
  }

  lemma CountFour(events: seq<Event>, rs: seq<Outcome>, key: string)
    requires |events| == |rs| == 4
    requires !ReadyAt(events, rs, key, 0) && ReadyAt(events, rs, key, 1)
    requires !ReadyAt(events, rs, key, 2) && ReadyAt(events, rs, key, 3)
    ensures Forwarded(events, rs, key, 4) == 2
  {
    assert Forwarded(events, rs, key, 1) == 0 && Forwarded(events, rs, key, 2) == 1 && Forwarded(events, rs, key, 3) == 1;
  }

  function OneOf(key: string, first: seq<Byte>, tmpl: SubmitJob, id: string): (g: Group)
    ensures g.parts == map[1 := first] && g.total == 2 && g.tmpl.messageId == id
  {
    WithPart(Group(map[], 2, tmpl.(messageId := id), 0), 1, first, tmpl.registered)
  }

  lemma FirstTaken(b: Buffer, key: string, first: seq<Byte>, tmpl: SubmitJob, id: string) returns (b1: Buffer, r1: Outcome)
    requires b.groups == map[] && TotalField(key) == 2
    ensures Takes(b, SegmentOf(key, 2, 1, first, tmpl, id), key, b1, r1)
    ensures r1 == Added(Waiting(id)) && b1.groups == map[key := OneOf(key, first, tmpl, id)]
  {
    var one := SegmentOf(key, 2, 1, first, tmpl, id);
    b1, r1 := Apply(b, one).0, Apply(b, one).1;
  }

  lemma SecondTaken(b: Buffer, key: string, g: Group, first: seq<Byte>, second: seq<Byte>, tmpl: SubmitJob, id': string)
    returns (b2: Buffer, r2: Outcome)
    requires b.groups == map[key := g] && TotalField(key) == 2 && g.parts == map[1 := first] && g.total == 2
    ensures Takes(b, SegmentOf(key, 2, 2, second, tmpl, id'), key, b2, r2)
    ensures Completed(r2, g.tmpl.messageId, first + second) && b2.groups == map[]
  {
    var two := SegmentOf(key, 2, 2, second, tmpl, id');
    b2, r2 := Apply(b, two).0, Apply(b, two).1;
    var g2 := WithPart(g, 2, second, tmpl.registered);
    assert g2.parts == map[1 := first, 2 := second];
    assert Joined(g2.parts, 1) == first && Joined(g2.parts, 2) == first + second;
  }

  /** Both segments of a two-part message, from a buffer without groups and back. */
  lemma RoundTaken(b: Buffer, key: string, first: seq<Byte>, second: seq<Byte>, tmpl: SubmitJob, id: string, id': string)
    returns (b1: Buffer, b2: Buffer, r1: Outcome, r2: Outcome)
    requires b.groups == map[] && TotalField(key) == 2
    ensures Takes(b, SegmentOf(key, 2, 1, first, tmpl, id), key, b1, r1) && r1 == Added(Waiting(id))
    ensures Takes(b1, SegmentOf(key, 2, 2, second, tmpl, id'), key, b2, r2) && Completed(r2, id, first + second)
    ensures b2.groups == map[]
  {
    b1, r1 := FirstTaken(b, key, first, tmpl, id);
    b2, r2 := SecondTaken(b1, key, OneOf(key, first, tmpl, id), first, second, tmpl, id');
  }
}
