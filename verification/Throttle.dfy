/** The outbound submit protocol: a delivery is checked against the done marks, submitted, and answered; a
    throttled message is published again with its counter raised (go-smpp-gateway/consumer.go, connector.go,
    outbound_dedup.go). */
module Throttle {
  import opened Envelope

  const ESME_ROK := 0
  const ESME_RTHROTTLED := 88

  // ---- the duplicate guard ----

  class OutboundDedup {
    var marks: set<string>

    constructor ()
      ensures marks == {}
    {
      marks := {};
    }

    method IsAlreadySubmitted(messageId: string) returns (dup: bool)
      ensures dup == (messageId != "" && messageId in marks)
    {
      dup := messageId != "" && messageId in marks;
    }

    method MarkSubmitted(messageId: string)
      modifies this
      ensures marks == Marked(old(marks), messageId)
    {
      if messageId != "" {
        marks := marks + {messageId};
      }
    }

    /** processSingleSMSData up to the submission. cancelledBatches are the marked batches, batchOf looks a batch id up
        by the log id, dbStatus is the status read from the database, empty when it cannot be read. */
    method CheckBeforeSend(p: Sms, cancelledBatches: set<int>, batchOf: int -> int, dbStatus: string) returns (send: bool)
      ensures send == Passes(p, Cancelled(p, cancelledBatches, batchOf), dbStatus, marks)
    {
      var bs := Lower(Trimmed(p.batchStatus));
      var rs := Trimmed(p.recordStatus);
      var batchId: int := p.batchId;
      if batchId == 0 {
        batchId := batchOf(p.logId);
      }
      var marked := batchId > 0 && batchId in cancelledBatches;
      if (bs == "cancelled" || marked) && (rs == "pending" || rs == "queued") {
        return false;
      }
      if rs == "failed" || rs == "expired" || rs == "delivered" || rs == "sent" {
        return false;
      }
      if rs == "pending" || rs == "queued" {
        if dbStatus != "" && dbStatus != "pending" && dbStatus != "queued" {
          return false;
        }
      }
      var dup := IsAlreadySubmitted(p.messageId);
      send := !dup;
    }
  }

  // ---- statuses ----

  predicate Space(c: char) {
    var x := c as int;
    9 <= x <= 13 || x in {0x20, 0x85, 0xA0, 0x1680, 0x2028, 0x2029, 0x202F, 0x205F, 0x3000} || 0x2000 <= x <= 0x200A
  }

  function TrimLeft(s: string): string {
    if s != "" && Space(s[0]) then TrimLeft(s[1..]) else s
  }

  function TrimRight(s: string): string {
    if s != "" && Space(s[|s| - 1]) then TrimRight(s[..|s| - 1]) else s
  }

  function Trimmed(s: string): string {
    TrimRight(TrimLeft(s))
  }

  /** Small letters for capital ones; those outside ASCII do not matter for the word compared with. */
  function Lower(s: string): string {
    seq(|s|, i requires 0 <= i < |s| => if 'A' <= s[i] <= 'Z' then s[i] - 'A' + 'a' else s[i])
  }

  predicate Cancelled(p: Sms, cancelledBatches: set<int>, batchOf: int -> int) {
    var batchId: int := if p.batchId == 0 then batchOf(p.logId) else p.batchId;
    Lower(Trimmed(p.batchStatus)) == "cancelled" || (batchId > 0 && batchId in cancelledBatches)
  }

  function Marked(marks: set<string>, messageId: string): set<string> {
    if messageId == "" then marks else marks + {messageId}
  }

  predicate Waiting(status: string) {
    status == "pending" || status == "queued"
  }

  predicate Passes(p: Sms, cancelled: bool, dbStatus: string, marks: set<string>) {
    && p.messageId !in marks - {""}
    && (Waiting(Trimmed(p.recordStatus)) ==> !cancelled && (dbStatus == "" || Waiting(dbStatus)))
    && Trimmed(p.recordStatus) !in {"failed", "expired", "delivered", "sent"}
  }

  // ---- runs ----

  /** cleared holds the payloads that have passed the checks and are not yet written to the wire. */
  datatype State = State(queue: seq<Sms>, cleared: seq<Sms>, inflight: seq<Sms>, done: set<string>,
                         submitted: seq<string>, injected: seq<string>)

  const START := State([], [], [], {}, [], [])

  datatype Outcome = Written | TransientError | PermanentError

  /** Inject also stands for a delivery that the broker repeats. */
  datatype Event =
    | Inject(p: Sms)
    | Deliver(i: nat, cancelled: bool, dbStatus: string)
    | Submit(i: nat, outcome: Outcome)
    | Respond(i: nat, status: int, republished: bool)
    | Swept(i: nat)

  predicate Enabled(s: State, e: Event) {
    match e
    case Inject(p) => p.throttleRetry >= 0
    case Deliver(i, _, _) => i < |s.queue|
    case Submit(i, _) => i < |s.cleared|
    case Respond(i, _, _) => i < |s.inflight|
    case Swept(i) => i < |s.inflight|
  }

  function Removed<T>(s: seq<T>, i: nat): seq<T>
    requires i < |s|
  {
    s[..i] + s[i + 1..]
  }

  predicate Retries(p: Sms, max: nat) {
    p.logId != 0 && p.throttleRetry < max
  }

  /** What is published again. */
  function Raised(p: Sms): Sms {
    p.(throttleRetry := if p.throttleRetry < TWO_63 - 1 then p.throttleRetry + 1 else p.throttleRetry,
       recordStatus := "queued")
  }

  /** ... and how it comes off the queue. */
  function Retry(p: Sms): Sms {
    Carried(Raised(p))
  }

  lemma RetryIsExtracted(p: Sms)
    ensures Extract(Value(Wrapped(Native, [Raised(p)]))) == Payloads([Retry(p)])
  {
    ExtractWrapped(Native, [Raised(p)]);
    assert CarriedAll([Raised(p)]) == [Retry(p)];
  }

  function Apply(s: State, e: Event, max: nat): State
    requires Enabled(s, e)
  {
    match e
    case Inject(p) => s.(queue := s.queue + [p], injected := s.injected + [p.messageId])
    case Deliver(i, cancelled, dbStatus) =>
      var p := s.queue[i];
      s.(queue := Removed(s.queue, i),
         cleared := if Passes(p, cancelled, dbStatus, s.done) then s.cleared + [p] else s.cleared)
    case Submit(i, outcome) =>
      var p, rest := s.cleared[i], Removed(s.cleared, i);
      if outcome.Written? then s.(cleared := rest, inflight := s.inflight + [p], submitted := s.submitted + [p.messageId])
      else if outcome.TransientError? then s.(cleared := rest, queue := s.queue + [p])
      else s.(cleared := rest)
    case Respond(i, status, republished) =>
      var p, t := s.inflight[i], s.(inflight := Removed(s.inflight, i));
      if status == ESME_ROK then t.(done := Marked(s.done, p.messageId))
      else if status == ESME_RTHROTTLED && Retries(p, max) && republished then t.(queue := s.queue + [Retry(p)])
      else t
    case Swept(i) => s.(inflight := Removed(s.inflight, i))
  }

  ghost predicate StepAt(events: seq<Event>, states: seq<State>, max: nat, i: nat)
    requires i < |events| && |states| == |events| + 1
  {
    Enabled(states[i], events[i]) && states[i + 1] == Apply(states[i], events[i], max)
  }

  ghost predicate IsRun(events: seq<Event>, states: seq<State>, max: nat) {
    |states| == |events| + 1 && forall i :: 0 <= i < |events| ==> StepAt(events, states, max, i)
  }

  // ---- the retry bound ----

  predicate RaiseSurvives(c: int) {
    ToInt64(Float64(c + 1)) == c + 1
  }

  /** Raising the counter is never undone by the wire exactly when the configured maximum is at most 2^53. */
  lemma CounterSurvivesIff(max: nat)
    requires max < TWO_63
    ensures (forall c :: 0 <= c < max ==> RaiseSurvives(c)) <==> max <= TWO_53
  {
    SmallIsExact(0);
    if max <= TWO_53 {
      forall c | 0 <= c < max
        ensures RaiseSurvives(c)
      {
        SmallIsExact(c + 1);
        WireNumber(c + 1);
      }
    } else {
      assert !RaiseSurvives(TWO_53);
    }
  }

  lemma RetryCounter(p: Sms, max: nat)
    requires Retries(p, max) && max <= TWO_53 && p.throttleRetry >= 0
    ensures Retry(p).throttleRetry == p.throttleRetry + 1 && Retry(p).messageId == p.messageId
    ensures Retry(p).recordStatus == "queued"
  {
    SmallIsExact(p.throttleRetry + 1);
    WireNumber(p.throttleRetry + 1);
  }

  /** Submissions a payload on the queue can still cause, and one in flight. */
  function QueueTries(p: Sms, m: string, max: nat): nat {
    if p.messageId != m then 0 else if p.throttleRetry <= max then max + 1 - p.throttleRetry else 1
  }

  function FlightTries(p: Sms, m: string, max: nat): nat {
    if p.messageId != m || p.throttleRetry > max then 0 else max - p.throttleRetry
  }

  function Sum(ps: seq<Sms>, f: Sms -> nat): nat {
    if ps == [] then 0 else Sum(ps[..|ps| - 1], f) + f(ps[|ps| - 1])
  }

  lemma SumNext(ps: seq<Sms>, p: Sms, f: Sms -> nat)
    ensures Sum(ps + [p], f) == Sum(ps, f) + f(p)
  {
    assert (ps + [p])[..|ps|] == ps;
  }

  lemma {:induction false} SumRemoved(ps: seq<Sms>, i: nat, f: Sms -> nat)
    requires i < |ps|
    ensures Sum(Removed(ps, i), f) == Sum(ps, f) - f(ps[i])
  {
    var n := |ps| - 1;
    if i < n {
      assert Removed(ps, i) == Removed(ps[..n], i) + [ps[n]];
      SumRemoved(ps[..n], i, f);
      SumNext(Removed(ps[..n], i), ps[n], f);
    } else {
      assert Removed(ps, i) == ps[..n];
    }
  }

  function QueueWeight(m: string, max: nat): Sms -> nat {
    (p: Sms) => QueueTries(p, m, max)
  }

  function FlightWeight(m: string, max: nat): Sms -> nat {
    (p: Sms) => FlightTries(p, m, max)
  }

  function Potential(s: State, m: string, max: nat): nat {
    Sum(s.queue, QueueWeight(m, max)) + Sum(s.cleared, QueueWeight(m, max)) + Sum(s.inflight, FlightWeight(m, max))
  }

  ghost predicate Counted(ps: seq<Sms>) {
    forall i :: 0 <= i < |ps| ==> ps[i].throttleRetry >= 0
  }

  ghost predicate Ok(s: State) {
    Counted(s.queue) && Counted(s.cleared) && Counted(s.inflight)
  }

  function Times(s: seq<string>, m: string): nat {
    multiset(s)[m]
  }

  /** Submissions so far and those still possible. */
  function Account(s: State, m: string, max: nat): nat {
    Times(s.submitted, m) + Potential(s, m, max)
  }

  function Brought(e: Event, m: string, max: nat): nat {
    if e.Inject? && e.p.messageId == m then max + 1 else 0
  }

  /** A step adds nothing to the account, except that an injection may bring max + 1. */
  ghost predicate Paid(s: State, e: Event, m: string, max: nat)
    requires Enabled(s, e)
  {
    Account(Apply(s, e, max), m, max) <= Account(s, m, max) + Brought(e, m, max)
  }

  lemma StepKeepsOk(s: State, e: Event, max: nat)
    requires Ok(s) && Enabled(s, e) && max <= TWO_53
    ensures Ok(Apply(s, e, max))
  {
    if e.Respond? && Retries(s.inflight[e.i], max) {
      RetryCounter(s.inflight[e.i], max);
    }
  }

  lemma InjectPaid(s: State, p: Sms, m: string, max: nat)
    requires Ok(s) && p.throttleRetry >= 0
    ensures Paid(s, Inject(p), m, max)
  {
    var w, r := QueueWeight(m, max), Apply(s, Inject(p), max);
    SumNext(s.queue, p, w);
    assert r.queue == s.queue + [p] && r.cleared == s.cleared && r.inflight == s.inflight && r.submitted == s.submitted;
    assert w(p) == QueueTries(p, m, max) <= Brought(Inject(p), m, max);
  }

  lemma DeliverPaid(s: State, i: nat, cancelled: bool, dbStatus: string, m: string, max: nat)
    requires Ok(s) && i < |s.queue|
    ensures Paid(s, Deliver(i, cancelled, dbStatus), m, max)
  {
    SumRemoved(s.queue, i, QueueWeight(m, max));
    SumNext(s.cleared, s.queue[i], QueueWeight(m, max));
  }

  lemma SubmitPaid(s: State, i: nat, outcome: Outcome, m: string, max: nat)
    requires Ok(s) && i < |s.cleared|
    ensures Paid(s, Submit(i, outcome), m, max)
  {
    var p, q, f, r := s.cleared[i], QueueWeight(m, max), FlightWeight(m, max), Apply(s, Submit(i, outcome), max);
    SumRemoved(s.cleared, i, q);
    assert r.cleared == Removed(s.cleared, i);
    assert q(p) == QueueTries(p, m, max) && f(p) == FlightTries(p, m, max);
    match outcome
    case Written =>
      assert r.queue == s.queue && r.inflight == s.inflight + [p] && r.submitted == s.submitted + [p.messageId];
      SumNext(s.inflight, p, f);
      TimesNext(s.submitted, p.messageId, m);
    case TransientError =>
      assert r.queue == s.queue + [p] && r.inflight == s.inflight && r.submitted == s.submitted;
      SumNext(s.queue, p, q);
    case PermanentError =>
  }

  lemma TimesNext(s: seq<string>, x: string, m: string)
    ensures Times(s + [x], m) == Times(s, m) + if x == m then 1 else 0
  {
  }

  lemma RespondPaid(s: State, i: nat, status: int, republished: bool, m: string, max: nat)
    requires Ok(s) && i < |s.inflight| && max <= TWO_53
    ensures Paid(s, Respond(i, status, republished), m, max)
  {
    var p, q, f, r := s.inflight[i], QueueWeight(m, max), FlightWeight(m, max), Apply(s, Respond(i, status, republished), max);
    SumRemoved(s.inflight, i, f);
    assert r.inflight == Removed(s.inflight, i) && r.cleared == s.cleared && r.submitted == s.submitted;
    if Retries(p, max) {
      RetryCounter(p, max);
      SumNext(s.queue, Retry(p), q);
      assert q(Retry(p)) == QueueTries(Retry(p), m, max) == f(p);
    }
    assert r.queue == s.queue || (Retries(p, max) && r.queue == s.queue + [Retry(p)]);
  }

  lemma StepPaid(s: State, e: Event, m: string, max: nat)
    requires Ok(s) && Enabled(s, e) && max <= TWO_53
    ensures Paid(s, e, m, max)
  {
    match e
    case Inject(p) => InjectPaid(s, p, m, max);
    case Deliver(i, cancelled, dbStatus) => DeliverPaid(s, i, cancelled, dbStatus, m, max);
    case Submit(i, outcome) => SubmitPaid(s, i, outcome, m, max);
    case Respond(i, status, republished) => RespondPaid(s, i, status, republished, m, max);
    case Swept(i) => SumRemoved(s.inflight, i, FlightWeight(m, max));
  }

  lemma InjectedNext(s: State, e: Event, m: string, max: nat)
    requires Enabled(s, e)
    ensures Times(Apply(s, e, max).injected, m) * (max + 1) == Times(s.injected, m) * (max + 1) + Brought(e, m, max)
  {
    var n := Times(s.injected, m);
    assert (n + 1) * (max + 1) == n * (max + 1) + (max + 1);
  }

  lemma {:induction false} RunPaid(events: seq<Event>, states: seq<State>, m: string, max: nat, n: nat)
    requires IsRun(events, states, max) && states[0] == START && max <= TWO_53 && n < |states|
    ensures Ok(states[n]) && Account(states[n], m, max) <= Times(states[n].injected, m) * (max + 1)
  {
    if n > 0 {
      RunPaid(events, states, m, max, n - 1);
      assert StepAt(events, states, max, n - 1);
      StepKeepsOk(states[n - 1], events[n - 1], max);
      StepPaid(states[n - 1], events[n - 1], m, max);
      InjectedNext(states[n - 1], events[n - 1], m, max);
    }
  }

  /** However the upstream answers, a message is submitted at most 1 + max times for each time it is injected. */
  lemma SubmissionsBounded(events: seq<Event>, states: seq<State>, m: string, max: nat)
    requires IsRun(events, states, max) && states[0] == START && max <= TWO_53
    ensures Times(states[|events|].submitted, m) <= Times(states[|events|].injected, m) * (max + 1)
  {
    RunPaid(events, states, m, max, |events|);
  }

  /** A throttled message that comes round again is let through unless it was cancelled, has moved on in the
      database, or was submitted meanwhile. */
  lemma RetryPassesIff(p: Sms, max: nat, cancelled: bool, dbStatus: string, marks: set<string>)
    requires Retries(p, max) && max <= TWO_53 && p.throttleRetry >= 0 && "" !in marks
    ensures Passes(Retry(p), cancelled, dbStatus, marks)
            <==> !cancelled && dbStatus in {"", "pending", "queued"} && p.messageId !in marks
  {
    RetryCounter(p, max);
  }

  // ---- the done mark ----

  predicate Cleared(s: State, m: string) {
    exists i :: 0 <= i < |s.cleared| && s.cleared[i].messageId == m
  }

  lemma StepAfterMark(s: State, e: Event, m: string, max: nat)
    requires Enabled(s, e) && m in s.done && m != "" && !Cleared(s, m)
    ensures var r := Apply(s, e, max); m in r.done && !Cleared(r, m) && Times(r.submitted, m) == Times(s.submitted, m)
  {
    var r := Apply(s, e, max);
    match e
    case Submit(i, _) => assert s.cleared[i].messageId != m;
    case _ =>
  }

  /** Once the mark is set and no copy is between its check and its submission, the message is never submitted
      again; and a copy in that window can be. */
  lemma {:induction false} NoneAfterMark(events: seq<Event>, states: seq<State>, m: string, max: nat, n: nat)
    requires IsRun(events, states, max) && n < |states|
    requires m in states[0].done && m != "" && !Cleared(states[0], m)
    ensures m in states[n].done && !Cleared(states[n], m) && Times(states[n].submitted, m) == Times(states[0].submitted, m)
  {
    if n > 0 {
      NoneAfterMark(events, states, m, max, n - 1);
      assert StepAt(events, states, max, n - 1);
      StepAfterMark(states[n - 1], events[n - 1], m, max);
    }
  }

  ghost predicate SubmittedAgain(events: seq<Event>, states: seq<State>, s: State, m: string, max: nat) {
    IsRun(events, states, max) && states[0] == s && Times(states[|events|].submitted, m) > Times(s.submitted, m)
  }

  lemma MarkBlocksIff(s: State, m: string, max: nat)
    requires m in s.done && m != ""
    ensures (exists events, states :: SubmittedAgain(events, states, s, m, max)) <==> Cleared(s, m)
  {
    if Cleared(s, m) {
      var i :| 0 <= i < |s.cleared| && s.cleared[i].messageId == m;
      var events, states := [Submit(i, Written)], [s, Apply(s, Submit(i, Written), max)];
      assert StepAt(events, states, max, 0);
      assert SubmittedAgain(events, states, s, m, max);
    } else {
      forall events, states | IsRun(events, states, max) && states[0] == s
        ensures !SubmittedAgain(events, states, s, m, max)
      {
        NoneAfterMark(events, states, m, max, |events|);
      }
    }
  }
}
