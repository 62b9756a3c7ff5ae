/** How one queue delivery is settled: what is acknowledged, what goes back on a queue, and what can be lost or
    doubled (go-smpp-gateway/consumer.go). The outcome of each submission, the order in which the goroutines
    finish and the broker's answers are parameters. */
module Settlement {
  import opened Envelope
  import opened Grouping
  import opened Keys

  const LEGACY_QUEUE := "sms_send_smpp"

  function PerChannelQueueName(channel: I64): string {
    "sms_send_smpp." + Decimal(channel)
  }

  /** Where a group goes: without per-channel queues there is one group, under key 0. */
  function QueueFor(key: I64): string {
    if key <= 0 then LEGACY_QUEUE else PerChannelQueueName(key)
  }

  lemma QueuesApart(a: I64, b: I64)
    requires QueueFor(a) == QueueFor(b)
    ensures a == b || (a <= 0 && b <= 0)
  {
    DecimalFacts(a, b);
    DecimalFacts(b, a);
    var n := |"sms_send_smpp."|;
    if a > 0 && b > 0 {
      assert PerChannelQueueName(a)[n..] == Decimal(a) && PerChannelQueueName(b)[n..] == Decimal(b);
    }
  }

  // ---- republishing ----

  function ByChannel(perChannel: bool): Sms -> I64 {
    if perChannel then (p: Sms) => p.channelId else (p: Sms) => 0
  }

  type Publication = Bundle<string, Sms>

  function Published(perChannel: bool, ps: seq<Sms>, order: seq<I64>, accepts: set<I64>): seq<Publication> {
    Taken(ps, ByChannel(perChannel), QueueFor, order, accepts)
  }

  function Groups(perChannel: bool, ps: seq<Sms>): set<I64> {
    KeysOf(ps, ByChannel(perChannel))
  }

  method GroupByChannel(perChannel: bool, payloads: seq<Sms>) returns (groups: map<I64, seq<Sms>>)
    ensures groups.Keys == Groups(perChannel, payloads)
    ensures forall k :: k in groups ==> groups[k] == Chosen(payloads, ByChannel(perChannel), {k})
  {
    ghost var channel := ByChannel(perChannel);
    groups := map[];
    for i := 0 to |payloads|
      invariant groups.Keys == KeysOf(payloads[..i], channel)
      invariant forall k :: k in groups ==> groups[k] == Chosen(payloads[..i], channel, {k})
    {
      var key := if perChannel then payloads[i].channelId else 0;
      ChosenNext(payloads, channel, i);
      groups := groups[key := (if key in groups then groups[key] else []) + [payloads[i]]];
    }
    assert payloads[..|payloads|] == payloads;
  }

  class Broker {
    var published: seq<Publication>

    constructor ()
      ensures published == []
    {
      published := [];
    }

    /** republishSmppPayloads: order is the order in which the runtime visits the groups and accepts the groups
        the broker takes; a missing publish channel is one that takes none. */
    method Republish(perChannel: bool, payloads: seq<Sms>, order: seq<I64>, accepts: set<I64>) returns (failed: bool)
      requires Ids(order) == Groups(perChannel, payloads)
      modifies this
      ensures published == old(published) + Published(perChannel, payloads, order, accepts)
      ensures failed == !(Groups(perChannel, payloads) <= accepts)
    {
      var groups := GroupByChannel(perChannel, payloads);
      failed := false;
      for i := 0 to |order|
        invariant published == old(published) + Published(perChannel, payloads, order[..i], accepts)
        invariant failed == exists j :: 0 <= j < i && order[j] !in accepts
      {
        var key := order[i];
        assert key in Ids(order);
        assert order[..i + 1][..i] == order[..i];
        if key in accepts {
          published := published + [Bundle(QueueFor(key), groups[key])];
        } else {
          failed := true;
        }
      }
      assert order[..|order|] == order;
      assert failed ==> exists k :: k in Ids(order) && k !in accepts;
    }
  }

  /** Every republished payload sits on the queue of its own channel. */
  lemma OnOwnQueue(perChannel: bool, ps: seq<Sms>, order: seq<I64>, accepts: set<I64>, b: Publication)
    requires b in Published(perChannel, ps, order, accepts)
    ensures forall p :: p in b.items ==> p in ps && b.queue == QueueFor(if perChannel then p.channelId else 0)
  {
    var key := ByChannel(perChannel);
    TakenQueues(ps, key, QueueFor, order, accepts);
    assert b in Taken(ps, key, QueueFor, order, accepts);
    forall p | p in b.items
      ensures key(p) == if perChannel then p.channelId else 0
    {
    }
  }

  // ---- one delivery ----

  datatype Kind = SentOk | Permanent | Transient | Panicked

  datatype AckOp = Ack | Nack(requeue: bool)

  /** What becomes of one payload of a delivery. */
  datatype Attempt = Attempt(sms: Sms, kind: Kind)

  function Filtered(attempts: seq<Attempt>, kind: Kind): seq<Sms> {
    if attempts == [] then []
    else
      var last := attempts[|attempts| - 1];
      Filtered(attempts[..|attempts| - 1], kind) + if last.kind == kind then [last.sms] else []
  }

  function SmsOfAll(attempts: seq<Attempt>): seq<Sms> {
    seq(|attempts|, i requires 0 <= i < |attempts| => attempts[i].sms)
  }

  /** The acknowledgement of a batch of several payloads. */
  function BatchOp(perChannel: bool, attempts: seq<Attempt>, accepts: set<I64>): AckOp {
    var transient := Filtered(attempts, Transient);
    if transient != [] && |transient| == |attempts| && !(Groups(perChannel, transient) <= accepts)
    then Nack(true) else Ack
  }

  /** The one acknowledgement of a delivery whose submissions ended as in run. */
  function DeliveryOp(body: Body, perChannel: bool, run: seq<Attempt>, accepts: set<I64>): AckOp {
    if Extract(body).Poison? then Nack(false)
    else if run == [] || (|run| == 1 && run[0].kind == SentOk) then Ack
    else if |run| == 1 then Nack(run[0].kind != Permanent)
    else BatchOp(perChannel, run, accepts)
  }

  class Worker {
    var ackCh: seq<AckOp>
    const broker: Broker

    constructor (broker: Broker)
      ensures ackCh == [] && this.broker == broker
    {
      ackCh, this.broker := [], broker;
    }

    /** workerProcessDelivery up to the submissions: a poisoned body is dropped and an empty list acknowledged. */
    method Receive(body: Body) returns (payloads: seq<Sms>)
      modifies this
      ensures match Extract(body)
              case Poison => payloads == [] && ackCh == old(ackCh) + [Nack(false)]
              case Payloads(ps) => payloads == ps && ackCh == old(ackCh) + if ps == [] then [Ack] else []
    {
      payloads := [];
      var root := Strip(body);
      if root.None? {
        ackCh := ackCh + [Nack(false)];
        return;
      }
      var extracted := SmsPayloadsFromFirstTaskArg(root.value);
      if extracted.Poison? {
        ackCh := ackCh + [Nack(false)];
      } else {
        payloads := extracted.ps;
        if payloads == [] {
          ackCh := ackCh + [Ack];
        }
      }
    }

    /** workerProcessDelivery: run holds the payloads with their outcomes, in the order in which they finish.
        Every delivery is settled by exactly one operation. */
    method ProcessDelivery(body: Body, perChannel: bool, run: seq<Attempt>, order: seq<I64>, accepts: set<I64>)
      requires Extract(body).Payloads? ==> multiset(SmsOfAll(run)) == multiset(Extract(body).ps)
      requires Ids(order) == Groups(perChannel, Filtered(run, Transient))
      modifies this, broker
      ensures ackCh == old(ackCh) + [DeliveryOp(body, perChannel, run, accepts)]
      ensures broker.published == old(broker.published) +
                if Extract(body).Payloads? && |run| > 1 then Published(perChannel, Filtered(run, Transient), order, accepts)
                else []
    {
      var payloads := Receive(body);
      assert Extract(body).Payloads? ==> |run| == |multiset(SmsOfAll(run))| == |multiset(payloads)| == |payloads|;
      if |payloads| == 1 {
        SettleSingle(run[0]);
      } else if |payloads| > 1 {
        SettleBatch(perChannel, run, order, accepts);
      }
    }

    method SettleSingle(a: Attempt)
      modifies this
      ensures ackCh == old(ackCh) + [if a.kind == SentOk then Ack else Nack(a.kind != Permanent)]
    {
      match a.kind
      case SentOk => ackCh := ackCh + [Ack];
      case Permanent => ackCh := ackCh + [Nack(false)];
      case Transient => ackCh := ackCh + [Nack(true)];
      case Panicked => ackCh := ackCh + [Nack(true)];
    }

    /** The batch path; attempts are in the order in which the goroutines finish. */
    method SettleBatch(perChannel: bool, attempts: seq<Attempt>, order: seq<I64>, accepts: set<I64>)
      requires |attempts| > 1 && Ids(order) == Groups(perChannel, Filtered(attempts, Transient))
      modifies this, broker
      ensures broker.published == old(broker.published) + Published(perChannel, Filtered(attempts, Transient), order, accepts)
      ensures ackCh == old(ackCh) + [BatchOp(perChannel, attempts, accepts)]
    {
      var successCount, permanentFailed, transient := Count(attempts);
      if |transient| > 0 {
        var failed := broker.Republish(perChannel, transient, order, accepts);
        if failed && successCount == 0 && permanentFailed == 0 {
          ackCh := ackCh + [Nack(true)];
          return;
        }
      }
      assert order != [] ==> order[0] in Ids(order);
      ackCh := ackCh + [Ack];
    }
  }

  /** The tallies of a batch: every payload is counted exactly once. */
  method Count(attempts: seq<Attempt>) returns (successCount: nat, permanentFailed: nat, transient: seq<Sms>)
    ensures transient == Filtered(attempts, Transient) && successCount == |Filtered(attempts, SentOk)|
    ensures permanentFailed == |Filtered(attempts, Permanent)| + |Filtered(attempts, Panicked)|
    ensures successCount + permanentFailed + |transient| == |attempts|
  {
    successCount, permanentFailed, transient := 0, 0, [];
    for i := 0 to |attempts|
      invariant transient == Filtered(attempts[..i], Transient) && successCount == |Filtered(attempts[..i], SentOk)|
      invariant permanentFailed == |Filtered(attempts[..i], Permanent)| + |Filtered(attempts[..i], Panicked)|
      invariant successCount + permanentFailed + |transient| == i
    {
      assert attempts[..i + 1][..i] == attempts[..i];
      match attempts[i].kind
      case Transient => transient := transient + [attempts[i].sms];
      case Permanent => permanentFailed := permanentFailed + 1;
      case Panicked => permanentFailed := permanentFailed + 1;
      case SentOk => successCount := successCount + 1;
    }
    assert attempts[..|attempts|] == attempts;
  }

  /** Everything a batch delivery leaves on the queues: the whole delivery if it is requeued, and what was
      republished. */
  ghost function BackOnQueue(perChannel: bool, attempts: seq<Attempt>, order: seq<I64>, accepts: set<I64>): multiset<Sms> {
    ItemsIn(Published(perChannel, Filtered(attempts, Transient), order, accepts))
    + if BatchOp(perChannel, attempts, accepts) == Nack(true) then multiset(SmsOfAll(attempts)) else multiset{}
  }

  lemma {:induction false} AllFiltered(attempts: seq<Attempt>, kind: Kind)
    ensures |Filtered(attempts, kind)| <= |attempts|
    ensures |Filtered(attempts, kind)| == |attempts| ==> Filtered(attempts, kind) == SmsOfAll(attempts)
  {
    if attempts != [] {
      var front := attempts[..|attempts| - 1];
      AllFiltered(front, kind);
      assert SmsOfAll(attempts) == SmsOfAll(front) + [attempts[|attempts| - 1].sms];
    } else {
      assert SmsOfAll(attempts) == [];
    }
  }

  lemma BackSize(perChannel: bool, attempts: seq<Attempt>, order: seq<I64>, accepts: set<I64>)
    requires Distinct(order) && Ids(order) == Groups(perChannel, Filtered(attempts, Transient))
    ensures |BackOnQueue(perChannel, attempts, order, accepts)|
            == |Chosen(Filtered(attempts, Transient), ByChannel(perChannel), accepts)|
               + if BatchOp(perChannel, attempts, accepts) == Nack(true) then |attempts| else 0
  {
    TakenAll(Filtered(attempts, Transient), ByChannel(perChannel), QueueFor, order, accepts);
  }

  /** Exactly the transient payloads are back on a queue, each once, if and only if no group was refused, or
      all payloads were transient and every group was refused. Otherwise payloads of refused groups are lost
      (some payload was not transient) or those of taken groups are doubled (all were). */
  lemma SettledOnceIff(perChannel: bool, attempts: seq<Attempt>, order: seq<I64>, accepts: set<I64>)
    requires Distinct(order) && Ids(order) == Groups(perChannel, Filtered(attempts, Transient))
    ensures var transient := Filtered(attempts, Transient);
            var keys := Groups(perChannel, transient);
            BackOnQueue(perChannel, attempts, order, accepts) == multiset(transient)
            <==> keys <= accepts || (|transient| == |attempts| && keys !! accepts)
  {
    var transient, key := Filtered(attempts, Transient), ByChannel(perChannel);
    var keys := KeysOf(transient, key);
    ChosenSize(transient, key, accepts);
    KeysInOrOut(transient, key, accepts);
    BackSize(perChannel, attempts, order, accepts);
    if keys <= accepts || (|transient| == |attempts| && keys !! accepts) {
      TakenAll(transient, key, QueueFor, order, accepts);
      AllFiltered(attempts, Transient);
      if keys <= accepts {
        ChosenAll(transient, key, accepts);
      }
    } else {
      assert |multiset(transient)| == |transient|;
    }
  }

  /** A batch goes back whole only if every payload was transient. */
  lemma RequeuedWholeOnlyIfAllTransient(perChannel: bool, attempts: seq<Attempt>, accepts: set<I64>)
    requires BatchOp(perChannel, attempts, accepts) == Nack(true)
    ensures forall i :: 0 <= i < |attempts| ==> attempts[i].kind == Transient
  {
    FilteredFull(attempts, Transient);
  }

  lemma {:induction false} FilteredFull(attempts: seq<Attempt>, kind: Kind)
    requires |Filtered(attempts, kind)| == |attempts|
    ensures forall i :: 0 <= i < |attempts| ==> attempts[i].kind == kind
  {
    if attempts != [] {
      var front := attempts[..|attempts| - 1];
      AllFiltered(front, kind);
      FilteredFull(front, kind);
      assert forall i :: 0 <= i < |front| ==> attempts[i] == front[i];
    }
  }
}
