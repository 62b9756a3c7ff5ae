/** One account's money: charges, refunds and channel switches on its balance, its log and its message rows
    (backend/app/core/pricing.py, services/sms_refund.py, services/batch_admin.py). Amounts are whole numbers of
    the smallest unit the tables hold. */
module Ledger {
  import Billing
  import Unicode
  import opened Wrappers

  datatype Status = Pending | Queued | Sent | Delivered | Failed | Expired | Cancelled

  /** refunded is the amount given back; looksSubmitted says that the upstream may have taken the message. */
  datatype Row = Row(batch: int, channel: int, country: string, status: Status, messageCount: int, cost: int, sell: int,
                     looksSubmitted: bool, refunded: Option<int>)

  datatype BatchStatus = BPending | BProcessing | BPaused | BCompleted | BFailed | BCancelled

  datatype Entry = Charge(amount: int) | Refund(amount: int, row: nat) | Adjustment(amount: int)

  /** unlogged: charges taken in bulk mode whose summary entry is not yet written. */
  datatype Book = Book(balance: int, postpaid: bool, log: seq<Entry>, unlogged: int, rows: seq<Row>,
                       batches: map<int, BatchStatus>)

  // ---- sums ----

  function LogSum(log: seq<Entry>): int {
    if log == [] then 0 else LogSum(log[..|log| - 1]) + log[|log| - 1].amount
  }

  function Owed(r: Row): int {
    if r.refunded.None? then r.sell else 0
  }

  /** Selling prices of the rows not refunded. */
  function Outstanding(rows: seq<Row>): int {
    if rows == [] then 0 else Outstanding(rows[..|rows| - 1]) + Owed(rows[|rows| - 1])
  }

  function RefundsOf(log: seq<Entry>, i: nat): nat {
    if log == [] then 0
    else
      var last := log[|log| - 1];
      RefundsOf(log[..|log| - 1], i) + if last.Refund? && last.row == i then 1 else 0
  }

  lemma LogNext(log: seq<Entry>, e: Entry)
    ensures LogSum(log + [e]) == LogSum(log) + e.amount
    ensures forall i :: RefundsOf(log + [e], i) == RefundsOf(log, i) + if e.Refund? && e.row == i then 1 else 0
  {
    assert (log + [e])[..|log|] == log;
  }

  lemma {:induction false} OutstandingUpdate(rows: seq<Row>, i: nat, r: Row)
    requires i < |rows|
    ensures Outstanding(rows[i := r]) == Outstanding(rows) - Owed(rows[i]) + Owed(r)
  {
    var n := |rows| - 1;
    if i < n {
      OutstandingUpdate(rows[..n], i, r);
      assert rows[i := r][..n] == rows[..n][i := r];
    } else {
      assert rows[i := r][..n] == rows[..n];
    }
  }

  // ---- charging ----

  /** calculate_and_charge and the row the sender then records: a prepaid balance must cover the total. */
  function Charged(b: Book, total: int, row: Row, skipLog: bool): Book {
    if !b.postpaid && b.balance < total then b
    else
      b.(balance := b.balance - total,
         log := if skipLog then b.log else b.log + [Charge(-total)],
         unlogged := if skipLog then b.unlogged + total else b.unlogged,
         rows := b.rows + [row.(sell := total, refunded := None)])
  }

  datatype ChargeResult = NotPriced | NotCovered | Paid(units: int, total: int)

  /** billable_units. */
  function Units(message: seq<Unicode.Rune>, a: Billing.Alphabet, isRcs: bool): int {
    if isRcs then 1 else Billing.PartsOf(Billing.Normalized(message), a)
  }

  function ChargeOutcome(b: Book, units: int, price: Option<int>): ChargeResult {
    if price.None? then NotPriced
    else if !b.postpaid && b.balance < price.value * units then NotCovered
    else Paid(units, price.value * units)
  }

  function Billed(row: Row, units: int, baseCost: int): Row {
    row.(messageCount := units, cost := baseCost * units)
  }

  /** The summary entry of a bulk run. */
  function Summarized(b: Book): Book {
    if b.unlogged > 0 then b.(log := b.log + [Charge(-b.unlogged)], unlogged := 0) else b
  }

  // ---- refunds ----

  datatype RefundKind = Reviewed | Automatic | Forced

  predicate Eligible(r: Row, kind: RefundKind) {
    match kind
    case Reviewed => r.status == Failed && r.refunded.None? && r.cost > 0 && !r.looksSubmitted
    case Automatic => r.refunded.None?
    case Forced => r.status == Failed && r.refunded.None? && r.sell > 0
  }

  /** A refund succeeds on an eligible row with a positive price. */
  predicate Refundable(b: Book, i: nat, kind: RefundKind) {
    i < |b.rows| && Eligible(b.rows[i], kind) && b.rows[i].sell > 0
  }

  function Refunded(b: Book, i: nat, kind: RefundKind): Book {
    if !Refundable(b, i, kind) then b
    else
      var amount := b.rows[i].sell;
      b.(balance := b.balance + amount, log := b.log + [Refund(amount, i)],
         rows := b.rows[i := b.rows[i].(refunded := Some(amount))])
  }

  function RefundedAll(b: Book, ids: seq<nat>, kind: RefundKind): Book
    decreases |ids|
  {
    if ids == [] then b else Refunded(RefundedAll(b, ids[..|ids| - 1], kind), ids[|ids| - 1], kind)
  }

  // ---- switching the channel of a batch ----

  predicate Unsent(r: Row, batch: int) {
    r.batch == batch && (r.status == Pending || r.status == Queued)
  }

  function Count(r: Row): int {
    if r.messageCount == 0 then 1 else r.messageCount
  }

  /** Unit selling price (absent when none is configured) and unit cost per country on the new channel. */
  datatype Tariff = Tariff(channel: int, price: string -> Option<int>, cost: string -> int)

  predicate Priced(r: Row, t: Tariff) {
    t.price(r.country).Some?
  }

  function NewSell(r: Row, t: Tariff): int {
    if Priced(r, t) then t.price(r.country).value * Count(r) else 0
  }

  function Moved(r: Row, t: Tariff): Row {
    r.(channel := t.channel, cost := t.cost(r.country) * Count(r), sell := NewSell(r, t))
  }

  function MovedAll(rows: seq<Row>, batch: int, t: Tariff): seq<Row> {
    seq(|rows|, i requires 0 <= i < |rows| => if Unsent(rows[i], batch) then Moved(rows[i], t) else rows[i])
  }

  function TotalDiff(rows: seq<Row>, batch: int, t: Tariff): int {
    if rows == [] then 0
    else
      var r := rows[|rows| - 1];
      TotalDiff(rows[..|rows| - 1], batch, t) + if Unsent(r, batch) then NewSell(r, t) - r.sell else 0
  }

  /** The part of the difference that falls on rows already refunded. */
  function RefundedDiff(rows: seq<Row>, batch: int, t: Tariff): int {
    if rows == [] then 0
    else
      var r := rows[|rows| - 1];
      RefundedDiff(rows[..|rows| - 1], batch, t)
      + if Unsent(r, batch) && r.refunded.Some? then NewSell(r, t) - r.sell else 0
  }

  predicate HasUnsent(rows: seq<Row>, batch: int) {
    exists i :: 0 <= i < |rows| && Unsent(rows[i], batch)
  }

  /** The unsent rows of a batch in order. */
  function UnsentIds(rows: seq<Row>, batch: int): seq<nat> {
    if rows == [] then []
    else UnsentIds(rows[..|rows| - 1], batch) + if Unsent(rows[|rows| - 1], batch) then [|rows| - 1] else []
  }

  /** They are exactly the rows still to be sent, each once. */
  lemma {:induction false} UnsentIdsExact(rows: seq<Row>, batch: int)
    ensures forall i: nat :: i in UnsentIds(rows, batch) <==> i < |rows| && Unsent(rows[i], batch)
    ensures forall j, k :: 0 <= j < k < |UnsentIds(rows, batch)| ==> UnsentIds(rows, batch)[j] < UnsentIds(rows, batch)[k]
  {
    if rows != [] {
      var front := rows[..|rows| - 1];
      UnsentIdsExact(front, batch);
      assert forall j :: 0 <= j < |UnsentIds(front, batch)| ==> UnsentIds(front, batch)[j] in UnsentIds(front, batch);
    }
  }

  predicate AllPriced(rows: seq<Row>, batch: int, t: Tariff) {
    forall i :: 0 <= i < |rows| && Unsent(rows[i], batch) ==> Priced(rows[i], t)
  }

  /** All unsent rows that name a channel name the new one, and at least one does. */
  predicate SameChannel(rows: seq<Row>, batch: int, channel: int) {
    && channel != 0
    && (forall i :: 0 <= i < |rows| && Unsent(rows[i], batch) ==> rows[i].channel in {0, channel})
    && exists i :: 0 <= i < |rows| && Unsent(rows[i], batch) && rows[i].channel == channel
  }

  datatype SwitchResult = NoBatch | ChannelInvalid | NothingUnsent | ChannelUnchanged | PriceMissing | Insufficient
                        | Switched(diff: int)

  /** The checks of switch_channel_for_unsent, in their order; a dearer channel must be covered by the balance,
      postpaid or not. */
  function SwitchOutcome(b: Book, batch: int, t: Tariff, valid: bool): SwitchResult {
    if batch !in b.batches then NoBatch
    else if !valid then ChannelInvalid
    else if !HasUnsent(b.rows, batch) then NothingUnsent
    else if SameChannel(b.rows, batch, t.channel) then ChannelUnchanged
    else if !AllPriced(b.rows, batch, t) then PriceMissing
    else
      var diff := TotalDiff(b.rows, batch, t);
      if diff > 0 && b.balance < diff then Insufficient else Switched(diff)
  }

  function AfterSwitch(b: Book, batch: int, t: Tariff, valid: bool): Book {
    match SwitchOutcome(b, batch, t, valid)
    case Switched(diff) =>
      b.(balance := b.balance - diff, rows := MovedAll(b.rows, batch, t),
         log := if diff == 0 then b.log else b.log + [Adjustment(-diff)])
    case _ => b
  }

  // ---- pausing, resuming, clearing ----

  predicate IsStatus(b: Book, batch: int, s: set<BatchStatus>) {
    batch in b.batches && b.batches[batch] in s
  }

  function Paused(b: Book, batch: int): Book {
    if IsStatus(b, batch, {BPending, BProcessing}) then b.(batches := b.batches[batch := BPaused]) else b
  }

  function Cleared(b: Book, batch: int): Book {
    if IsStatus(b, batch, {BPaused}) then
      b.(batches := b.batches[batch := BCancelled],
         rows := seq(|b.rows|, i requires 0 <= i < |b.rows| =>
                   if Unsent(b.rows[i], batch) then b.rows[i].(status := Cancelled) else b.rows[i]))
    else b
  }

  datatype Target = Unchanged | NewChannel(tariff: Tariff, valid: bool)

  function Resumed(b: Book, batch: int, target: Target): Book {
    if !IsStatus(b, batch, {BPaused}) then b
    else match target
      case Unchanged => b.(batches := b.batches[batch := BProcessing])
      case NewChannel(t, valid) =>
        if SwitchOutcome(b, batch, t, valid).Switched?
        then AfterSwitch(b, batch, t, valid).(batches := b.batches[batch := BProcessing])
        else b
  }

  // ---- the operations ----

  datatype PricedRow = PricedRow(id: nat, cost: int, sell: int, diff: int)

  function PricedRows(rows: seq<Row>, batch: int, t: Tariff): seq<PricedRow> {
    if rows == [] then []
    else
      var n := |rows| - 1;
      PricedRows(rows[..n], batch, t)
      + if Unsent(rows[n], batch)
        then [PricedRow(n, t.cost(rows[n].country) * Count(rows[n]), NewSell(rows[n], t), NewSell(rows[n], t) - rows[n].sell)]
        else []
  }

  predicate InRange(ps: seq<PricedRow>, n: nat) {
    forall k :: 0 <= k < |ps| ==> ps[k].id < n
  }

  /** The row updates of a switch, one after the other. */
  function Applied(rows: seq<Row>, ps: seq<PricedRow>, channel: int): (r: seq<Row>)
    requires InRange(ps, |rows|)
    ensures |r| == |rows|
    decreases |ps|
  {
    if ps == [] then rows
    else
      var p := ps[|ps| - 1];
      var before := Applied(rows, ps[..|ps| - 1], channel);
      before[p.id := before[p.id].(channel := channel, cost := p.cost, sell := p.sell)]
  }

  function WithPrice(r: Row, channel: int, p: PricedRow): Row {
    r.(channel := channel, cost := p.cost, sell := p.sell)
  }

  function PricedRowOf(rows: seq<Row>, i: nat, t: Tariff): PricedRow
    requires i < |rows|
  {
    PricedRow(i, t.cost(rows[i].country) * Count(rows[i]), NewSell(rows[i], t), NewSell(rows[i], t) - rows[i].sell)
  }

  lemma AppliedNext(rows: seq<Row>, ps: seq<PricedRow>, p: PricedRow, channel: int)
    requires InRange(ps, |rows|) && p.id < |rows|
    ensures Applied(rows, ps + [p], channel)
            == Applied(rows, ps, channel)[p.id := WithPrice(Applied(rows, ps, channel)[p.id], channel, p)]
  {
    assert (ps + [p])[..|ps|] == ps;
  }

  /** The first n rows as the switch leaves them, the others as they were. */
  function MovedUpTo(rows: seq<Row>, n: nat, batch: int, t: Tariff): seq<Row> {
    seq(|rows|, i requires 0 <= i < |rows| => if i < n && Unsent(rows[i], batch) then Moved(rows[i], t) else rows[i])
  }

  lemma MovedUpToNext(rows: seq<Row>, n: nat, batch: int, t: Tariff)
    requires n < |rows|
    ensures MovedUpTo(rows, n + 1, batch, t)
            == if Unsent(rows[n], batch) then MovedUpTo(rows, n, batch, t)[n := Moved(rows[n], t)]
               else MovedUpTo(rows, n, batch, t)
  {
  }

  lemma {:induction false} PricedInRange(rows: seq<Row>, n: nat, batch: int, t: Tariff)
    requires n <= |rows|
    ensures InRange(PricedRows(rows[..n], batch, t), n)
  {
    if n > 0 {
      PricedInRange(rows, n - 1, batch, t);
      DiffNext(rows, n - 1, batch, t);
    }
  }

  lemma {:induction false} AppliedIsMoved(rows: seq<Row>, n: nat, batch: int, t: Tariff)
    requires n <= |rows| && InRange(PricedRows(rows[..n], batch, t), n)
    ensures Applied(rows, PricedRows(rows[..n], batch, t), t.channel) == MovedUpTo(rows, n, batch, t)
  {
    if n == 0 {
      assert MovedUpTo(rows, 0, batch, t) == rows;
    } else {
      PricedInRange(rows, n - 1, batch, t);
      AppliedIsMoved(rows, n - 1, batch, t);
      DiffNext(rows, n - 1, batch, t);
      MovedUpToNext(rows, n - 1, batch, t);
      if Unsent(rows[n - 1], batch) {
        AppliedNext(rows, PricedRows(rows[..n - 1], batch, t), PricedRowOf(rows, n - 1, t), t.channel);
      } else {
        assert PricedRows(rows[..n], batch, t) == PricedRows(rows[..n - 1], batch, t);
      }
    }
  }

  /** Applying the computed prices row by row moves the batch. */
  lemma AllMoved(rows: seq<Row>, batch: int, t: Tariff)
    ensures InRange(PricedRows(rows, batch, t), |rows|)
    ensures Applied(rows, PricedRows(rows, batch, t), t.channel) == MovedAll(rows, batch, t)
  {
    assert rows[..|rows|] == rows && MovedUpTo(rows, |rows|, batch, t) == MovedAll(rows, batch, t);
    PricedInRange(rows, |rows|, batch, t);
    AppliedIsMoved(rows, |rows|, batch, t);
  }

  lemma DiffNext(rows: seq<Row>, i: nat, batch: int, t: Tariff)
    requires i < |rows|
    ensures TotalDiff(rows[..i + 1], batch, t)
            == TotalDiff(rows[..i], batch, t) + if Unsent(rows[i], batch) then NewSell(rows[i], t) - rows[i].sell else 0
    ensures PricedRows(rows[..i + 1], batch, t)
            == PricedRows(rows[..i], batch, t)
               + if Unsent(rows[i], batch)
                 then [PricedRowOf(rows, i, t)] else []
  {
    assert rows[..i + 1][..i] == rows[..i];
  }

  /** _compute_repricing: prices and costs are looked up once per country. */
  method ComputeRepricing(rows: seq<Row>, batch: int, t: Tariff) returns (ok: bool, priced: seq<PricedRow>, totalDiff: int)
    ensures ok == AllPriced(rows, batch, t)
    ensures ok ==> priced == PricedRows(rows, batch, t) && totalDiff == TotalDiff(rows, batch, t)
  {
    priced, totalDiff := [], 0;
    var priceCache: map<string, int> := map[];
    var costCache: map<string, int> := map[];
    for i := 0 to |rows|
      invariant forall j :: 0 <= j < i && Unsent(rows[j], batch) ==> Priced(rows[j], t)
      invariant priced == PricedRows(rows[..i], batch, t) && totalDiff == TotalDiff(rows[..i], batch, t)
      invariant forall c :: c in priceCache ==> t.price(c) == Some(priceCache[c])
      invariant forall c :: c in costCache ==> costCache[c] == t.cost(c)
    {
      DiffNext(rows, i, batch, t);
      if Unsent(rows[i], batch) {
        var country := rows[i].country;
        if country !in priceCache {
          var info := t.price(country);
          if info.None? {
            return false, [], 0;
          }
          priceCache := priceCache[country := info.value];
        }
        if country !in costCache {
          costCache := costCache[country := t.cost(country)];
        }
        var count := Count(rows[i]);
        var sell, cost := priceCache[country] * count, costCache[country] * count;
        totalDiff := totalDiff + (sell - rows[i].sell);
        priced := priced + [PricedRow(i, cost, sell, sell - rows[i].sell)];
      }
    }
    assert rows[..|rows|] == rows;
    ok := true;
  }

  class Account {
    const postpaid: bool
    var balance: int
    var log: seq<Entry>
    var unlogged: int
    var rows: seq<Row>
    var batches: map<int, BatchStatus>

    constructor (opening: int, postpaid: bool)
      ensures Contents() == Book(opening, postpaid, [], 0, [], map[])
    {
      balance, this.postpaid, log, unlogged, rows, batches := opening, postpaid, [], 0, [], map[];
    }

    function Contents(): Book
      reads this
    {
      Book(balance, postpaid, log, unlogged, rows, batches)
    }

    /** calculate_and_charge, with the row recorded on success. An RCS message is one unit, any other its billed
        parts; price and baseCost are what the look-ups yield per unit. */
    method CalculateAndCharge(message: seq<Unicode.Rune>, a: Billing.Alphabet, isRcs: bool, price: Option<int>, baseCost: int,
                              row: Row, skipLog: bool)
      returns (r: ChargeResult)
      modifies this
      ensures r == ChargeOutcome(old(Contents()), Units(message, a, isRcs), price)
      ensures Contents() == if r.Paid? then Charged(old(Contents()), r.total, Billed(row, r.units, baseCost), skipLog)
                            else old(Contents())
    {
      var units := 1;
      if !isRcs {
        units := Billing.CountSmsParts(message, a);
      }
      if price.None? {
        return NotPriced;
      }
      var total := price.value * units;
      if !postpaid && balance < total {
        return NotCovered;
      }
      balance := balance - total;
      if skipLog {
        unlogged := unlogged + total;
      } else {
        log := log + [Charge(-total)];
      }
      rows := rows + [Billed(row, units, baseCost).(sell := total, refunded := None)];
      r := Paid(units, total);
    }

    /** _do_refund: the row is claimed first, and only the winner credits the balance. */
    method DoRefund(i: nat, amount: int) returns (ok: bool)
      requires i < |rows|
      modifies this
      ensures ok == (amount > 0 && old(rows[i].refunded).None?)
      ensures Contents() == if !ok then old(Contents())
                            else old(Contents()).(balance := old(balance) + amount, log := old(log) + [Refund(amount, i)],
                                                  rows := old(rows)[i := old(rows)[i].(refunded := Some(amount))])
    {
      if amount <= 0 {
        return false;
      }
      if rows[i].refunded.Some? {
        return false;
      }
      rows := rows[i := rows[i].(refunded := Some(amount))];
      balance := balance + amount;
      log := log + [Refund(amount, i)];
      ok := true;
    }

    /** execute_refund, execute_auto_refund and execute_admin_force_refund. */
    method ExecuteRefund(i: nat, kind: RefundKind) returns (ok: bool)
      modifies this
      ensures Contents() == Refunded(old(Contents()), i, kind)
      ensures ok == Refundable(old(Contents()), i, kind)
      ensures balance == old(balance) + if ok then old(rows)[i].sell else 0
    {
      if i >= |rows| || !Eligible(rows[i], kind) {
        return false;
      }
      ok := DoRefund(i, rows[i].sell);
    }

    /** The batch loops: each id on its own, a repeated id fails. */
    method ExecuteRefundBatch(ids: seq<nat>, kind: RefundKind) returns (succeeded: nat, failed: nat, total: int)
      modifies this
      ensures Contents() == RefundedAll(old(Contents()), ids, kind)
      ensures succeeded + failed == |ids| && total == balance - old(balance)
    {
      succeeded, failed, total := 0, 0, 0;
      for k := 0 to |ids|
        invariant Contents() == RefundedAll(old(Contents()), ids[..k], kind)
        invariant succeeded + failed == k && total == balance - old(balance)
      {
        assert ids[..k + 1][..k] == ids[..k];
        var before := balance;
        var ok := ExecuteRefund(ids[k], kind);
        if ok {
          succeeded, total := succeeded + 1, total + (balance - before);
        } else {
          failed := failed + 1;
        }
      }
      assert ids[..|ids|] == ids;
    }

    /** switch_channel_for_unsent. */
    method SwitchChannelForUnsent(batch: int, t: Tariff, valid: bool) returns (r: SwitchResult)
      modifies this
      ensures r == SwitchOutcome(old(Contents()), batch, t, valid)
      ensures Contents() == AfterSwitch(old(Contents()), batch, t, valid)
    {
      if batch !in batches {
        return NoBatch;
      }
      if !valid {
        return ChannelInvalid;
      }
      if !HasUnsent(rows, batch) {
        return NothingUnsent;
      }
      if SameChannel(rows, batch, t.channel) {
        return ChannelUnchanged;
      }
      var ok, priced, diff := ComputeRepricing(rows, batch, t);
      if !ok {
        return PriceMissing;
      }
      if diff > 0 && balance < diff {
        return Insufficient;
      }
      MoveUnsent(batch, t, priced, diff);
      r := Switched(diff);
    }

    /** Balance, rows and log entry of a switch that has passed the checks. */
    method MoveUnsent(batch: int, t: Tariff, priced: seq<PricedRow>, diff: int)
      requires priced == PricedRows(rows, batch, t)
      modifies this
      ensures Contents() == old(Contents()).(balance := old(balance) - diff, rows := MovedAll(old(rows), batch, t),
                                             log := if diff == 0 then old(log) else old(log) + [Adjustment(-diff)])
    {
      if diff > 0 {
        balance := balance - diff;
      } else if diff < 0 {
        balance := balance + (-diff);
      }
      AllMoved(rows, batch, t);
      ApplyPrices(priced, t.channel);
      if diff != 0 {
        log := log + [Adjustment(-diff)];
      }
    }

    method ApplyPrices(priced: seq<PricedRow>, channel: int)
      requires InRange(priced, |rows|)
      modifies this`rows
      ensures rows == Applied(old(rows), priced, channel)
    {
      ghost var was := rows;
      for k := 0 to |priced|
        invariant |rows| == |was| && rows == Applied(was, priced[..k], channel)
      {
        assert priced[..k + 1] == priced[..k] + [priced[k]];
        AppliedNext(was, priced[..k], priced[k], channel);
        rows := rows[priced[k].id := WithPrice(rows[priced[k].id], channel, priced[k])];
      }
      assert priced[..|priced|] == priced;
    }

    method PauseBatch(batch: int) returns (ok: bool)
      modifies this
      ensures Contents() == Paused(old(Contents()), batch) && ok == IsStatus(old(Contents()), batch, {BPending, BProcessing})
    {
      if batch !in batches || batches[batch] !in {BProcessing, BPending} {
        return false;
      }
      batches := batches[batch := BPaused];
      ok := true;
    }

    method ClearBatchQueue(batch: int) returns (ok: bool)
      modifies this
      ensures Contents() == Cleared(old(Contents()), batch) && ok == IsStatus(old(Contents()), batch, {BPaused})
    {
      if batch !in batches || batches[batch] != BPaused {
        return false;
      }
      rows := seq(|rows|, i requires 0 <= i < |rows| reads this =>
                    if Unsent(rows[i], batch) then rows[i].(status := Cancelled) else rows[i]);
      batches := batches[batch := BCancelled];
      ok := true;
    }

    /** resume_batch; the unsent rows are offered to the queue again, in order. */
    method ResumeBatch(batch: int, target: Target) returns (ok: bool, requeued: seq<nat>)
      modifies this
      ensures Contents() == Resumed(old(Contents()), batch, target)
      ensures ok == (IsStatus(old(Contents()), batch, {BPaused})
                     && (target.NewChannel? ==>
                           SwitchOutcome(old(Contents()), batch, target.tariff, target.valid).Switched?))
      ensures requeued == if ok then UnsentIds(rows, batch) else []
    {
      ok, requeued := false, [];
      if batch !in batches || batches[batch] != BPaused {
        return;
      }
      if target.NewChannel? {
        var r := SwitchChannelForUnsent(batch, target.tariff, target.valid);
        if !r.Switched? {
          return;
        }
      }
      batches := batches[batch := BProcessing];
      ok := true;
      requeued := SelectUnsent(batch);
    }

    /** _select_unsent_logs. */
    method SelectUnsent(batch: int) returns (ids: seq<nat>)
      ensures ids == UnsentIds(rows, batch)
    {
      ids := [];
      for i := 0 to |rows|
        invariant ids == UnsentIds(rows[..i], batch)
      {
        assert rows[..i + 1][..i] == rows[..i];
        if Unsent(rows[i], batch) {
          ids := ids + [i];
        }
      }
      assert rows[..|rows|] == rows;
    }
  }
}
