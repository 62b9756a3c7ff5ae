/** What every interleaving of the operations on an account keeps. */
module LedgerLaws {
  import opened Ledger
  import opened Wrappers

  /** Operations on the account, and what the workers do to rows and batches meanwhile. */
  datatype Event =
    | ChargeSms(total: int, row: Row, skipLog: bool)
    | WriteSummary
    | RefundSms(i: nat, kind: RefundKind)
    | RefundBatch(ids: seq<nat>, kind: RefundKind)
    | Switch(batch: int, tariff: Tariff, valid: bool)
    | Pause(batch: int)
    | Resume(batch: int, target: Target)
    | Clear(batch: int)
    | RowProgress(i: nat, status: Status)
    | BatchProgress(batch: int, batchStatus: BatchStatus)

  function Apply(b: Book, e: Event): Book {
    match e
    case ChargeSms(total, row, skipLog) => Charged(b, total, row, skipLog)
    case WriteSummary => Summarized(b)
    case RefundSms(i, kind) => Refunded(b, i, kind)
    case RefundBatch(ids, kind) => RefundedAll(b, ids, kind)
    case Switch(batch, t, valid) => AfterSwitch(b, batch, t, valid)
    case Pause(batch) => Paused(b, batch)
    case Resume(batch, target) => Resumed(b, batch, target)
    case Clear(batch) => Cleared(b, batch)
    case RowProgress(i, status) => if i < |b.rows| then b.(rows := b.rows[i := b.rows[i].(status := status)]) else b
    case BatchProgress(batch, s) => b.(batches := b.batches[batch := s])
  }

  ghost predicate StepAt(events: seq<Event>, states: seq<Book>, i: nat)
    requires i < |events| && |states| == |events| + 1
  {
    states[i + 1] == Apply(states[i], events[i])
  }

  ghost predicate IsRun(events: seq<Event>, states: seq<Book>, opening: int) {
    && |states| == |events| + 1
    && states[0].balance == opening && states[0].log == [] && states[0].unlogged == 0 && states[0].rows == []
    && forall i :: 0 <= i < |events| ==> StepAt(events, states, i)
  }

  // ---- balance and log ----

  predicate LogAgrees(b: Book, opening: int) {
    b.balance == opening + LogSum(b.log) - b.unlogged
  }

  lemma RefundAgrees(b: Book, i: nat, kind: RefundKind, opening: int)
    requires LogAgrees(b, opening)
    ensures LogAgrees(Refunded(b, i, kind), opening)
  {
    if Refundable(b, i, kind) {
      LogNext(b.log, Refund(b.rows[i].sell, i));
    }
  }

  lemma {:induction false} RefundAllAgrees(b: Book, ids: seq<nat>, kind: RefundKind, opening: int)
    requires LogAgrees(b, opening)
    ensures LogAgrees(RefundedAll(b, ids, kind), opening)
    decreases |ids|
  {
    if ids != [] {
      RefundAllAgrees(b, ids[..|ids| - 1], kind, opening);
      RefundAgrees(RefundedAll(b, ids[..|ids| - 1], kind), ids[|ids| - 1], kind, opening);
    }
  }

  lemma SwitchAgrees(b: Book, batch: int, t: Tariff, valid: bool, opening: int)
    requires LogAgrees(b, opening)
    ensures LogAgrees(AfterSwitch(b, batch, t, valid), opening)
  {
    LogNext(b.log, Adjustment(-TotalDiff(b.rows, batch, t)));
  }

  lemma StepAgrees(b: Book, e: Event, opening: int)
    requires LogAgrees(b, opening)
    ensures LogAgrees(Apply(b, e), opening)
  {
    match e
    case ChargeSms(total, row, skipLog) => LogNext(b.log, Charge(-total));
    case WriteSummary => LogNext(b.log, Charge(-b.unlogged));
    case RefundSms(i, kind) => RefundAgrees(b, i, kind, opening);
    case RefundBatch(ids, kind) => RefundAllAgrees(b, ids, kind, opening);
    case Switch(batch, t, valid) => SwitchAgrees(b, batch, t, valid, opening);
    case Resume(batch, target) =>
      if target.NewChannel? {
        SwitchAgrees(b, batch, target.tariff, target.valid, opening);
      }
    case _ =>
  }

  /** At every point of every run the balance is the opening balance plus the log, less the charges of a bulk run
      whose summary is not yet written. */
  lemma {:induction false} BalanceIsLog(events: seq<Event>, states: seq<Book>, opening: int, n: nat)
    requires IsRun(events, states, opening) && n < |states|
    ensures states[n].balance == opening + LogSum(states[n].log) - states[n].unlogged
  {
    if n > 0 {
      BalanceIsLog(events, states, opening, n - 1);
      assert StepAt(events, states, n - 1);
      StepAgrees(states[n - 1], events[n - 1], opening);
    }
  }

  // ---- balance and prices paid ----

  /** The balance and everything paid for and not given back. */
  function Worth(b: Book): int {
    b.balance + Outstanding(b.rows)
  }

  lemma RefundKeepsWorth(b: Book, i: nat, kind: RefundKind)
    ensures Worth(Refunded(b, i, kind)) == Worth(b)
  {
    if Refundable(b, i, kind) {
      OutstandingUpdate(b.rows, i, b.rows[i].(refunded := Some(b.rows[i].sell)));
    }
  }

  lemma {:induction false} RefundAllKeepsWorth(b: Book, ids: seq<nat>, kind: RefundKind)
    ensures Worth(RefundedAll(b, ids, kind)) == Worth(b)
    decreases |ids|
  {
    if ids != [] {
      RefundAllKeepsWorth(b, ids[..|ids| - 1], kind);
      RefundKeepsWorth(RefundedAll(b, ids[..|ids| - 1], kind), ids[|ids| - 1], kind);
    }
  }

  lemma {:induction false} MovedOutstanding(rows: seq<Row>, batch: int, t: Tariff)
    ensures Outstanding(MovedAll(rows, batch, t)) == Outstanding(rows) + TotalDiff(rows, batch, t) - RefundedDiff(rows, batch, t)
  {
    if rows != [] {
      var front := rows[..|rows| - 1];
      MovedOutstanding(front, batch, t);
      assert MovedAll(rows, batch, t)[..|rows| - 1] == MovedAll(front, batch, t);
    } else {
      assert MovedAll(rows, batch, t) == [];
    }
  }

  lemma {:induction false} SameOwed(a: seq<Row>, b: seq<Row>)
    requires |a| == |b| && forall i :: 0 <= i < |a| ==> a[i].sell == b[i].sell && a[i].refunded == b[i].refunded
    ensures Outstanding(a) == Outstanding(b)
  {
    if a != [] {
      SameOwed(a[..|a| - 1], b[..|b| - 1]);
    }
  }

  /** How far a step moves prices of rows that have already been refunded. */
  function Drift(b: Book, e: Event): int {
    match e
    case Switch(batch, t, valid) =>
      if SwitchOutcome(b, batch, t, valid).Switched? then RefundedDiff(b.rows, batch, t) else 0
    case Resume(batch, NewChannel(t, valid)) =>
      if IsStatus(b, batch, {BPaused}) && SwitchOutcome(b, batch, t, valid).Switched? then RefundedDiff(b.rows, batch, t) else 0
    case _ => 0
  }

  lemma SwitchWorth(b: Book, batch: int, t: Tariff, valid: bool)
    ensures Worth(AfterSwitch(b, batch, t, valid))
            == Worth(b) - if SwitchOutcome(b, batch, t, valid).Switched? then RefundedDiff(b.rows, batch, t) else 0
  {
    MovedOutstanding(b.rows, batch, t);
  }

  lemma StepWorth(b: Book, e: Event)
    ensures Worth(Apply(b, e)) == Worth(b) - Drift(b, e)
  {
    match e
    case ChargeSms(total, row, skipLog) =>
      var r := row.(sell := total, refunded := None);
      assert (b.rows + [r])[..|b.rows|] == b.rows;
    case RefundSms(i, kind) => RefundKeepsWorth(b, i, kind);
    case RefundBatch(ids, kind) => RefundAllKeepsWorth(b, ids, kind);
    case Switch(batch, t, valid) => SwitchWorth(b, batch, t, valid);
    case Resume(batch, target) =>
      if target.NewChannel? {
        SwitchWorth(b, batch, target.tariff, target.valid);
      }
    case Clear(batch) => SameOwed(b.rows, Apply(b, e).rows);
    case RowProgress(i, status) => SameOwed(b.rows, Apply(b, e).rows);
    case _ =>
  }

  ghost predicate DriftsAt(events: seq<Event>, states: seq<Book>, i: nat)
    requires i < |events| && |states| == |events| + 1
  {
    Drift(states[i], events[i]) != 0
  }

  lemma {:induction false} WorthUpTo(events: seq<Event>, states: seq<Book>, opening: int, n: nat)
    requires IsRun(events, states, opening) && n < |states|
    requires forall i :: 0 <= i < n ==> !DriftsAt(events, states, i)
    ensures Worth(states[n]) == opening
  {
    if n > 0 {
      WorthUpTo(events, states, opening, n - 1);
      assert StepAt(events, states, n - 1) && !DriftsAt(events, states, n - 1);
      StepWorth(states[n - 1], events[n - 1]);
    }
  }

  /** Balance plus unrefunded selling prices never changes exactly as long as no switch reprices refunded rows by
      a nonzero total. */
  lemma ConservedIff(events: seq<Event>, states: seq<Book>, opening: int)
    requires IsRun(events, states, opening)
    ensures (forall i :: 0 <= i < |states| ==> Worth(states[i]) == opening)
            <==> forall i :: 0 <= i < |events| ==> !DriftsAt(events, states, i)
  {
    if forall i :: 0 <= i < |events| ==> !DriftsAt(events, states, i) {
      forall i | 0 <= i < |states|
        ensures Worth(states[i]) == opening
      {
        WorthUpTo(events, states, opening, i);
      }
    }
    if forall i :: 0 <= i < |states| ==> Worth(states[i]) == opening {
      forall i | 0 <= i < |events|
        ensures !DriftsAt(events, states, i)
      {
        assert StepAt(events, states, i) && Worth(states[i]) == opening && Worth(states[i + 1]) == opening;
        StepWorth(states[i], events[i]);
      }
    }
  }

  lemma {:induction false} NoDriftWithoutRefunds(rows: seq<Row>, batch: int, t: Tariff)
    requires forall i :: 0 <= i < |rows| && Unsent(rows[i], batch) ==> rows[i].refunded.None?
    ensures RefundedDiff(rows, batch, t) == 0
  {
    if rows != [] {
      NoDriftWithoutRefunds(rows[..|rows| - 1], batch, t);
    }
  }

  /** Some run of these events from the opening balance ends in the book. */
  ghost predicate Reaches(events: seq<Event>, opening: int, b: Book) {
    exists states :: IsRun(events, states, opening) && states[|events|] == b
  }

  lemma OneMore(events: seq<Event>, opening: int, b: Book, e: Event)
    requires Reaches(events, opening, b)
    ensures Reaches(events + [e], opening, Apply(b, e))
  {
    var states :| IsRun(events, states, opening) && states[|events|] == b;
    var more, later := events + [e], states + [Apply(b, e)];
    forall i | 0 <= i < |more|
      ensures StepAt(more, later, i)
    {
      if i < |events| {
        assert StepAt(events, states, i);
      }
    }
    assert IsRun(more, later, opening) && later[|more|] == Apply(b, e);
  }

  /** Two rows charged, the first of them given back while it is still queued. */
  function Refunding(queued: Row): seq<Event> {
    [BatchProgress(9, BProcessing)] + [ChargeSms(2, queued, false)] + [ChargeSms(2, queued, false)] + [RefundSms(0, Automatic)]
  }

  lemma RefundingReaches(queued: Row, opening: Book)
    requires opening == Book(10, false, [], 0, [], map[]) && queued.sell == 2 && queued.refunded.None?
    ensures Reaches(Refunding(queued), 10, Book(8, false, [Charge(-2), Charge(-2), Refund(2, 0)], 0,
                                                [queued.(refunded := Some(2)), queued], map[9 := BProcessing]))
  {
    var e := [BatchProgress(9, BProcessing)];
    assert IsRun([], [opening], 10) && [opening][0] == opening && [] + e == e;
    OneMore([], 10, opening, e[0]);
    var b := opening.(batches := map[9 := BProcessing]);
    OneMore(e, 10, b, ChargeSms(2, queued, false));
    var once := Book(8, false, [Charge(-2)], 0, [queued], b.batches);
    OneMore(e + [ChargeSms(2, queued, false)], 10, once, ChargeSms(2, queued, false));
    var twice := Book(6, false, [Charge(-2), Charge(-2)], 0, [queued, queued], b.batches);
    OneMore(e + [ChargeSms(2, queued, false)] + [ChargeSms(2, queued, false)], 10, twice, RefundSms(0, Automatic));
    assert twice.rows[0 := queued.(refunded := Some(2))] == [queued.(refunded := Some(2)), queued];
  }

  /** A row refunded automatically while still queued, as the bulk sender does when the queue rejects it, breaks the
      law at the next switch: the customer pays the difference for a message whose price was given back. */
  lemma DriftHappens()
    ensures var queued := Row(9, 1, "TH", Queued, 1, 1, 2, false, None);
            var switch := Switch(9, Tariff(2, (c: string) => Some(3), (c: string) => 1), true);
            exists b :: && Reaches(Refunding(queued), 10, b) && Worth(b) == 10
                        && Reaches(Refunding(queued) + [switch], 10, Apply(b, switch)) && Worth(Apply(b, switch)) == 9
  {
    var t := Tariff(2, (c: string) => Some(3), (c: string) => 1);
    var queued := Row(9, 1, "TH", Queued, 1, 1, 2, false, None);
    RefundingReaches(queued, Book(10, false, [], 0, [], map[]));
    var b := Book(8, false, [Charge(-2), Charge(-2), Refund(2, 0)], 0, [queued.(refunded := Some(2)), queued],
                  map[9 := BProcessing]);
    OneMore(Refunding(queued), 10, b, Switch(9, t, true));
    RefundedRows(b, queued, t);
    SwitchWorth(b, 9, t, true);
  }

  /** The switch of two queued rows, the first of them refunded. */
  lemma RefundedRows(b: Book, queued: Row, t: Tariff)
    requires queued.batch == 9 && queued.status == Queued && queued.channel == 1 && queued.messageCount == 1
    requires queued.sell == 2 && queued.refunded == None && t.channel == 2 && forall c: string :: t.price(c) == Some(3)
    requires b.rows == [queued.(refunded := Some(2)), queued] && 9 in b.batches && b.balance >= 2
    ensures SwitchOutcome(b, 9, t, true) == Switched(2) && RefundedDiff(b.rows, 9, t) == 1 && Outstanding(b.rows) == 2
  {
    var rows := b.rows;
    assert Unsent(rows[0], 9) && rows[0].channel == 1;
    assert rows[..1] == [rows[0]] && rows[..1][..0] == [];
    assert TotalDiff(rows[..1], 9, t) == 1 && TotalDiff(rows, 9, t) == 2;
    assert RefundedDiff(rows[..1], 9, t) == 1 && RefundedDiff(rows, 9, t) == 1;
    assert Outstanding(rows[..1]) == 0;
    assert !SameChannel(rows, 9, 2);
  }

  // ---- prepaid accounts ----

  lemma {:induction false} RefundAllSolvent(b: Book, ids: seq<nat>, kind: RefundKind)
    requires b.balance >= 0
    ensures RefundedAll(b, ids, kind).balance >= 0 && RefundedAll(b, ids, kind).postpaid == b.postpaid
    decreases |ids|
  {
    if ids != [] {
      RefundAllSolvent(b, ids[..|ids| - 1], kind);
    }
  }

  lemma StepSolvent(b: Book, e: Event)
    requires b.balance >= 0 && !b.postpaid
    ensures Apply(b, e).balance >= 0 && !Apply(b, e).postpaid
  {
    if e.RefundBatch? {
      RefundAllSolvent(b, e.ids, e.kind);
    }
  }

  /** A prepaid balance never goes negative. */
  lemma {:induction false} PrepaidStaysSolvent(events: seq<Event>, states: seq<Book>, opening: int, n: nat)
    requires IsRun(events, states, opening) && n < |states| && opening >= 0 && !states[0].postpaid
    ensures states[n].balance >= 0 && !states[n].postpaid
  {
    if n > 0 {
      PrepaidStaysSolvent(events, states, opening, n - 1);
      assert StepAt(events, states, n - 1);
      StepSolvent(states[n - 1], events[n - 1]);
    }
  }

  // ---- one refund per message ----

  ghost predicate RefundsAgree(b: Book) {
    && (forall i :: 0 <= i < |b.rows| ==> RefundsOf(b.log, i) == if b.rows[i].refunded.Some? then 1 else 0)
    && forall i: nat :: i >= |b.rows| ==> RefundsOf(b.log, i) == 0
  }

  lemma RefundKeepsAgree(b: Book, i: nat, kind: RefundKind)
    requires RefundsAgree(b)
    ensures RefundsAgree(Refunded(b, i, kind))
  {
    if Refundable(b, i, kind) {
      LogNext(b.log, Refund(b.rows[i].sell, i));
    }
  }

  lemma {:induction false} RefundAllKeepsAgree(b: Book, ids: seq<nat>, kind: RefundKind)
    requires RefundsAgree(b)
    ensures RefundsAgree(RefundedAll(b, ids, kind))
    decreases |ids|
  {
    if ids != [] {
      RefundAllKeepsAgree(b, ids[..|ids| - 1], kind);
      RefundKeepsAgree(RefundedAll(b, ids[..|ids| - 1], kind), ids[|ids| - 1], kind);
    }
  }

  lemma OtherEntryKeepsAgree(b: Book, r: Book, e: Entry)
    requires RefundsAgree(b) && !e.Refund? && (r.log == b.log || r.log == b.log + [e]) && |r.rows| >= |b.rows|
    requires forall i :: 0 <= i < |b.rows| ==> r.rows[i].refunded == b.rows[i].refunded
    requires forall i :: |b.rows| <= i < |r.rows| ==> r.rows[i].refunded.None?
    ensures RefundsAgree(r)
  {
    LogNext(b.log, e);
  }

  lemma StepKeepsAgree(b: Book, e: Event)
    requires RefundsAgree(b)
    ensures RefundsAgree(Apply(b, e))
  {
    match e
    case ChargeSms(total, row, skipLog) => OtherEntryKeepsAgree(b, Apply(b, e), Charge(-total));
    case WriteSummary => OtherEntryKeepsAgree(b, Apply(b, e), Charge(-b.unlogged));
    case RefundSms(i, kind) => RefundKeepsAgree(b, i, kind);
    case RefundBatch(ids, kind) => RefundAllKeepsAgree(b, ids, kind);
    case Switch(batch, t, valid) => OtherEntryKeepsAgree(b, Apply(b, e), Adjustment(-TotalDiff(b.rows, batch, t)));
    case Resume(batch, target) =>
      var diff := if target.NewChannel? then TotalDiff(b.rows, batch, target.tariff) else 0;
      OtherEntryKeepsAgree(b, Apply(b, e), Adjustment(-diff));
    case _ => OtherEntryKeepsAgree(b, Apply(b, e), Adjustment(0));
  }

  /** Every message is refunded at most once, and exactly when its row says so. */
  lemma {:induction false} RefundedOnce(events: seq<Event>, states: seq<Book>, opening: int, n: nat)
    requires IsRun(events, states, opening) && n < |states|
    ensures RefundsAgree(states[n])
  {
    if n > 0 {
      RefundedOnce(events, states, opening, n - 1);
      assert StepAt(events, states, n - 1);
      StepKeepsAgree(states[n - 1], events[n - 1]);
    }
  }

  lemma {:induction false} RefundAllExhausts(b: Book, ids: seq<nat>, kind: RefundKind, i: nat)
    ensures var r := RefundedAll(b, ids, kind);
            && (Refundable(r, i, kind) ==> Refundable(b, i, kind))
            && (i in ids ==> !Refundable(r, i, kind))
    decreases |ids|
  {
    if ids != [] {
      var front := ids[..|ids| - 1];
      RefundAllExhausts(b, front, kind, i);
      assert i in ids ==> i in front || i == ids[|ids| - 1];
    }
  }

  lemma {:induction false} NothingLeft(b: Book, ids: seq<nat>, kind: RefundKind)
    requires forall i :: 0 <= i < |ids| ==> !Refundable(b, ids[i], kind)
    ensures RefundedAll(b, ids, kind) == b
    decreases |ids|
  {
    if ids != [] {
      NothingLeft(b, ids[..|ids| - 1], kind);
    }
  }

  /** Sending the same batch of refunds again changes nothing. */
  lemma RefundBatchIdempotent(b: Book, ids: seq<nat>, kind: RefundKind)
    ensures RefundedAll(RefundedAll(b, ids, kind), ids, kind) == RefundedAll(b, ids, kind)
  {
    forall k | 0 <= k < |ids|
      ensures !Refundable(RefundedAll(b, ids, kind), ids[k], kind)
    {
      RefundAllExhausts(b, ids, kind, ids[k]);
    }
    NothingLeft(RefundedAll(b, ids, kind), ids, kind);
  }

  // ---- the batch state machine ----

  predicate OnBatch(e: Event, batch: int) {
    match e
    case Switch(x, _, _) => x == batch
    case Pause(x) => x == batch
    case Resume(x, _) => x == batch
    case Clear(x) => x == batch
    case _ => false
  }

  /** Clearing a paused batch cancels exactly its unsent rows, and no later operation on the batch does anything. */
  lemma ClearIsFinal(b: Book, batch: int, e: Event)
    requires IsStatus(b, batch, {BPaused}) && OnBatch(e, batch)
    ensures var r := Cleared(b, batch);
            && IsStatus(r, batch, {BCancelled}) && !HasUnsent(r.rows, batch) && |r.rows| == |b.rows|
            && (forall i :: 0 <= i < |b.rows| ==>
                  r.rows[i] == if Unsent(b.rows[i], batch) then b.rows[i].(status := Cancelled) else b.rows[i])
            && Apply(r, e) == r
  {
    var r := Cleared(b, batch);
    assert !HasUnsent(r.rows, batch);
  }

  /** Pausing and resuming gives back the batch unless it was pending or already paused: then it is processing. */
  lemma PauseThenResume(b: Book, batch: int)
    ensures Resumed(Paused(b, batch), batch, Unchanged)
            == if IsStatus(b, batch, {BPending, BPaused}) then b.(batches := b.batches[batch := BProcessing]) else b
  {
    if IsStatus(b, batch, {BProcessing}) {
      assert b.batches[batch := BPaused][batch := BProcessing] == b.batches;
    } else if IsStatus(b, batch, {BPending}) {
      assert b.batches[batch := BPaused][batch := BProcessing] == b.batches[batch := BProcessing];
    }
  }
}
