/** Queue payloads on the wire: what the producers publish and what the consumer recovers from it
    (go-smpp-gateway/consumer.go, types.go). */
module Envelope {
  import opened Wrappers

  // ---- numbers: a JSON numeral is read as a float64 and then converted to a 64-bit integer ----

  const TWO_53: int := 0x20_0000_0000_0000
  const TWO_63: int := 0x8000_0000_0000_0000

  type I64 = n: int | -TWO_63 <= n < TWO_63

  /** The distance between neighbouring float64 values around n. */
  function Spacing(n: nat): (s: nat)
    ensures s > 0
  {
    if n < TWO_53 then 1 else 2 * Spacing(n / 2)
  }

  /** To the nearest multiple of s; halfway cases to the even multiple. */
  function RoundTo(n: nat, s: nat): int
    requires s > 0
  {
    var q, r := n / s, n % s;
    if 2 * r < s || (2 * r == s && q % 2 == 0) then q * s else (q + 1) * s
  }

  function Abs(n: int): nat {
    if n >= 0 then n else 0 - n
  }

  function Float64(n: int): int {
    var m := RoundTo(Abs(n), Spacing(Abs(n)));
    if n >= 0 then m else 0 - m
  }

  /** The conversion back, out of range as on amd64. */
  function ToInt64(x: int): I64 {
    if -TWO_63 <= x < TWO_63 then x else -TWO_63
  }

  /** A number the wire does not change. */
  predicate Exact(n: I64) {
    Abs(n) % Spacing(Abs(n)) == 0
  }

  lemma RoundExactIff(n: nat, s: nat)
    requires s > 0
    ensures RoundTo(n, s) == n <==> n % s == 0
  {
    var q, r := n / s, n % s;
    assert n == q * s + r;
    assert (q + 1) * s == q * s + s;
  }

  /** A number survives the wire exactly when it is a multiple of the float64 spacing at its size. */
  lemma WireNumber(n: I64)
    ensures ToInt64(Float64(n)) == n <==> Exact(n)
  {
    RoundExactIff(Abs(n), Spacing(Abs(n)));
  }

  /** ... so every number up to 2^53 does, and 2^53 + 1 does not. */
  lemma SmallIsExact(n: I64)
    requires -TWO_53 <= n <= TWO_53
    ensures Exact(n) && !Exact(TWO_53 + 1) && ToInt64(Float64(TWO_53 + 1)) == TWO_53
  {
    assert Spacing(TWO_53 / 2) == 1;
    assert Spacing(TWO_53) == 2;
    assert Spacing(TWO_53 + 1) == 2;
  }

  // ---- values ----

  datatype Json = Null | Bool(b: bool) | Num(n: I64) | Str(s: string) | Arr(items: seq<Json>) | Obj(fields: map<string, Json>)

  datatype Sms = Sms(logId: I64, messageId: string, phoneNumber: string, message: string, channelId: I64,
                     batchStatus: string, recordStatus: string, batchId: I64, senderId: string, throttleRetry: I64)

  /** The encoder leaves out an empty sender and a zero counter. */
  function Encoded(p: Sms): Json {
    var m := map["log_id" := Num(p.logId), "message_id" := Str(p.messageId), "phone_number" := Str(p.phoneNumber),
                 "message" := Str(p.message), "channel_id" := Num(p.channelId), "batch_status" := Str(p.batchStatus),
                 "record_status" := Str(p.recordStatus), "batch_id" := Num(p.batchId)];
    var m1 := if p.senderId == "" then m else m["sender_id" := Str(p.senderId)];
    Obj(if p.throttleRetry == 0 then m1 else m1["throttle_retry" := Num(p.throttleRetry)])
  }

  function StrAt(m: map<string, Json>, key: string): string {
    if key in m && m[key].Str? then m[key].s else ""
  }

  function NumAt(m: map<string, Json>, key: string): I64 {
    if key in m && m[key].Num? then ToInt64(Float64(m[key].n)) else 0
  }

  /** A payload needs a numeric log_id and a textual message_id; every other field defaults. */
  function SmsOf(m: map<string, Json>): Option<Sms> {
    if "log_id" in m && m["log_id"].Num? && "message_id" in m && m["message_id"].Str? then
      Some(Sms(NumAt(m, "log_id"), StrAt(m, "message_id"), StrAt(m, "phone_number"), StrAt(m, "message"),
               NumAt(m, "channel_id"), StrAt(m, "batch_status"), StrAt(m, "record_status"), NumAt(m, "batch_id"),
               StrAt(m, "sender_id"), NumAt(m, "throttle_retry")))
    else None
  }

  /** parseSMSLogData. */
  method ParseSmsLogData(m: map<string, Json>) returns (r: Option<Sms>)
    ensures r == SmsOf(m)
  {
    var d := Sms(0, "", "", "", 0, "", "", 0, "", 0);
    if "log_id" !in m || !m["log_id"].Num? {
      return None;
    }
    d := d.(logId := ToInt64(Float64(m["log_id"].n)));
    if "message_id" !in m || !m["message_id"].Str? {
      return None;
    }
    d := d.(messageId := m["message_id"].s);
    if "phone_number" in m && m["phone_number"].Str? { d := d.(phoneNumber := m["phone_number"].s); }
    if "message" in m && m["message"].Str? { d := d.(message := m["message"].s); }
    if "channel_id" in m && m["channel_id"].Num? { d := d.(channelId := ToInt64(Float64(m["channel_id"].n))); }
    if "batch_status" in m && m["batch_status"].Str? { d := d.(batchStatus := m["batch_status"].s); }
    if "record_status" in m && m["record_status"].Str? { d := d.(recordStatus := m["record_status"].s); }
    if "batch_id" in m && m["batch_id"].Num? { d := d.(batchId := ToInt64(Float64(m["batch_id"].n))); }
    if "sender_id" in m && m["sender_id"].Str? { d := d.(senderId := m["sender_id"].s); }
    if "throttle_retry" in m && m["throttle_retry"].Num? { d := d.(throttleRetry := ToInt64(Float64(m["throttle_retry"].n))); }
    r := Some(d);
  }

  /** What a payload looks like after one trip over the wire. */
  function Carried(p: Sms): Sms {
    p.(logId := ToInt64(Float64(p.logId)), channelId := ToInt64(Float64(p.channelId)),
       batchId := ToInt64(Float64(p.batchId)), throttleRetry := ToInt64(Float64(p.throttleRetry)))
  }

  predicate AllExact(p: Sms) {
    Exact(p.logId) && Exact(p.channelId) && Exact(p.batchId) && Exact(p.throttleRetry)
  }

  lemma EncodedNumbers(p: Sms)
    ensures var m := Encoded(p).fields;
            && NumAt(m, "log_id") == ToInt64(Float64(p.logId)) && NumAt(m, "channel_id") == ToInt64(Float64(p.channelId))
            && NumAt(m, "batch_id") == ToInt64(Float64(p.batchId))
            && NumAt(m, "throttle_retry") == ToInt64(Float64(p.throttleRetry))
            && "log_id" in m && m["log_id"].Num?
  {
    ZeroOnTheWire();
  }

  lemma ZeroOnTheWire()
    ensures ToInt64(Float64(0)) == 0
  {
    assert Spacing(0) == 1;
  }

  lemma EncodedTexts(p: Sms)
    ensures var m := Encoded(p).fields;
            && StrAt(m, "message_id") == p.messageId && StrAt(m, "phone_number") == p.phoneNumber
            && StrAt(m, "message") == p.message && StrAt(m, "batch_status") == p.batchStatus
            && StrAt(m, "record_status") == p.recordStatus && StrAt(m, "sender_id") == p.senderId
            && "message_id" in m && m["message_id"].Str?
  {
  }

  lemma SmsOfEncoded(p: Sms)
    ensures SmsOf(Encoded(p).fields) == Some(Carried(p))
  {
    EncodedNumbers(p);
    EncodedTexts(p);
  }

  lemma CarriedIff(p: Sms)
    ensures Carried(p) == p <==> AllExact(p)
  {
    WireNumber(p.logId);
    WireNumber(p.channelId);
    WireNumber(p.batchId);
    WireNumber(p.throttleRetry);
  }

  // ---- envelopes ----

  /** Unreadable: an empty body, one that is not JSON, or trailing text after the value. */
  datatype Body = Unreadable | Value(v: Json)

  /** stripCeleryEnvelope. */
  function Strip(body: Body): Option<Json> {
    match body
    case Value(Arr(top)) =>
      if top == [] then None
      else if top[0].Obj? then Some(Arr(top))
      else if !top[0].Arr? || top[0].items == [] || top[0].items[0].Null? then None
      else Some(top[0].items[0])
    case Value(Obj(m)) =>
      if "args" in m then
        if m["args"].Arr? && m["args"].items != [] && !m["args"].items[0].Null? then Some(m["args"].items[0]) else None
      else if "log_id" in m && "message_id" in m then Some(Obj(m))
      else None
    case _ => None
  }

  datatype Extracted = Poison | Payloads(ps: seq<Sms>)

  /** One bad element spoils the whole batch. */
  function AllOf(items: seq<Json>): Extracted {
    if items == [] then Payloads([])
    else
      var last, front := items[|items| - 1], AllOf(items[..|items| - 1]);
      if front.Poison? || !last.Obj? || SmsOf(last.fields).None? then Poison
      else Payloads(front.ps + [SmsOf(last.fields).value])
  }

  function PayloadsOf(first: Json): Extracted {
    match first
    case Obj(m) => if SmsOf(m).None? then Poison else Payloads([SmsOf(m).value])
    case Arr(items) => AllOf(items)
    case _ => Poison
  }

  function Extract(body: Body): Extracted {
    if Strip(body).None? then Poison else PayloadsOf(Strip(body).value)
  }

  lemma {:induction false} PoisonAt(items: seq<Json>, i: nat)
    requires i < |items| && (!items[i].Obj? || SmsOf(items[i].fields).None?)
    ensures AllOf(items).Poison?
  {
    var front := items[..|items| - 1];
    if i < |front| {
      assert front[i] == items[i];
      PoisonAt(front, i);
    }
  }

  lemma AllOfNext(items: seq<Json>, i: nat)
    requires i < |items| && items[i].Obj? && SmsOf(items[i].fields).Some? && AllOf(items[..i]).Payloads?
    ensures AllOf(items[..i + 1]) == Payloads(AllOf(items[..i]).ps + [SmsOf(items[i].fields).value])
  {
    assert items[..i + 1][..i] == items[..i];
  }

  /** smsPayloadsFromFirstTaskArg. */
  method SmsPayloadsFromFirstTaskArg(first: Json) returns (r: Extracted)
    ensures r == PayloadsOf(first)
  {
    match first
    case Obj(m) =>
      var d := ParseSmsLogData(m);
      r := if d.Some? then Payloads([d.value]) else Poison;
    case Arr(items) =>
      r := BatchPayloads(items);
    case _ =>
      r := Poison;
  }

  method BatchPayloads(items: seq<Json>) returns (r: Extracted)
    ensures r == AllOf(items)
  {
    var out: seq<Sms> := [];
    for i := 0 to |items|
      invariant AllOf(items[..i]) == Payloads(out)
    {
      if !items[i].Obj? {
        PoisonAt(items, i);
        return Poison;
      }
      var d := ParseSmsLogData(items[i].fields);
      if d.None? {
        PoisonAt(items, i);
        return Poison;
      }
      AllOfNext(items, i);
      out := out + [d.value];
    }
    assert items[..|items|] == items;
    r := Payloads(out);
  }

  // ---- round trips ----

  /** The forms in which a list of payloads is published: the array of the gateway's own republishing, the
      positional-argument array and the "args" object of the task queue (each carrying a batch or one payload,
      with whatever further arguments and members), and a bare object. */
  datatype Shape =
    | Native
    | ArgsArray(more: seq<Json>, rest: seq<Json>)
    | ArgsArrayOne(more: seq<Json>, rest: seq<Json>)
    | ArgsObject(more: seq<Json>, others: map<string, Json>)
    | ArgsObjectOne(more: seq<Json>, others: map<string, Json>)
    | Bare

  predicate Fits(shape: Shape, ps: seq<Sms>) {
    ps != [] && (shape.ArgsArrayOne? || shape.ArgsObjectOne? || shape.Bare? ==> |ps| == 1)
  }

  function EncodedAll(ps: seq<Sms>): seq<Json> {
    seq(|ps|, i requires 0 <= i < |ps| => Encoded(ps[i]))
  }

  function Wrapped(shape: Shape, ps: seq<Sms>): Json
    requires Fits(shape, ps)
  {
    var batch := Arr(EncodedAll(ps));
    match shape
    case Native => batch
    case ArgsArray(more, rest) => Arr([Arr([batch] + more)] + rest)
    case ArgsArrayOne(more, rest) => Arr([Arr([Encoded(ps[0])] + more)] + rest)
    case ArgsObject(more, others) => Obj(others["args" := Arr([batch] + more)])
    case ArgsObjectOne(more, others) => Obj(others["args" := Arr([Encoded(ps[0])] + more)])
    case Bare => Encoded(ps[0])
  }

  function CarriedAll(ps: seq<Sms>): seq<Sms> {
    seq(|ps|, i requires 0 <= i < |ps| => Carried(ps[i]))
  }

  lemma {:induction false} AllOfEach(items: seq<Json>, ps: seq<Sms>)
    requires |items| == |ps|
    requires forall i :: 0 <= i < |ps| ==> items[i].Obj? && SmsOf(items[i].fields) == Some(ps[i])
    ensures AllOf(items) == Payloads(ps)
  {
    if ps != [] {
      AllOfEach(items[..|ps| - 1], ps[..|ps| - 1]);
      assert ps == ps[..|ps| - 1] + [ps[|ps| - 1]];
    }
  }

  lemma AllOfEncoded(ps: seq<Sms>)
    ensures AllOf(EncodedAll(ps)) == Payloads(CarriedAll(ps))
  {
    forall i | 0 <= i < |ps|
      ensures var e := EncodedAll(ps)[i]; e.Obj? && SmsOf(e.fields) == Some(CarriedAll(ps)[i])
    {
      SmsOfEncoded(ps[i]);
    }
    AllOfEach(EncodedAll(ps), CarriedAll(ps));
  }

  predicate One(shape: Shape) {
    shape.ArgsArrayOne? || shape.ArgsObjectOne?
  }

  lemma StripBare(p: Sms)
    ensures "args" !in Encoded(p).fields && Strip(Value(Encoded(p))) == Some(Encoded(p))
  {
  }

  lemma StripWrapped(shape: Shape, ps: seq<Sms>)
    requires Fits(shape, ps) && !shape.Bare?
    ensures Strip(Value(Wrapped(shape, ps))) == Some(if One(shape) then Encoded(ps[0]) else Arr(EncodedAll(ps)))
  {
    assert EncodedAll(ps)[0].Obj? && Encoded(ps[0]).Obj?;
  }

  lemma ExtractWrapped(shape: Shape, ps: seq<Sms>)
    requires Fits(shape, ps)
    ensures Extract(Value(Wrapped(shape, ps))) == Payloads(CarriedAll(ps))
  {
    if shape.Bare? {
      StripBare(ps[0]);
    } else {
      StripWrapped(shape, ps);
    }
    if One(shape) || shape.Bare? {
      SmsOfEncoded(ps[0]);
      assert CarriedAll(ps) == [Carried(ps[0])];
    } else {
      AllOfEncoded(ps);
    }
  }

  /** Every shape gives back the very list that was published, exactly when all its numbers survive the wire. */
  lemma EnvelopeRoundTrip(shape: Shape, ps: seq<Sms>)
    requires Fits(shape, ps)
    ensures Extract(Value(Wrapped(shape, ps))) == Payloads(ps) <==> forall p :: p in ps ==> AllExact(p)
  {
    ExtractWrapped(shape, ps);
    forall i | 0 <= i < |ps|
      ensures CarriedAll(ps)[i] == ps[i] <==> AllExact(ps[i])
    {
      CarriedIff(ps[i]);
    }
    if forall p :: p in ps ==> AllExact(p) {
      assert CarriedAll(ps) == ps;
    }
  }

  /** No body is an envelope of two kinds, or of two lists that the wire keeps apart. */
  lemma ShapesNeverConfused(shape: Shape, ps: seq<Sms>, shape': Shape, ps': seq<Sms>)
    requires Fits(shape, ps) && Fits(shape', ps') && Wrapped(shape, ps) == Wrapped(shape', ps')
    ensures CarriedAll(ps) == CarriedAll(ps')
    ensures shape.Native? == shape'.Native? && shape.Bare? == shape'.Bare?
    ensures (shape.ArgsArray? || shape.ArgsArrayOne?) == (shape'.ArgsArray? || shape'.ArgsArrayOne?)
  {
    ExtractWrapped(shape, ps);
    ExtractWrapped(shape', ps');
    StripBare(ps[0]);
    StripBare(ps'[0]);
    assert EncodedAll(ps)[0].Obj? && EncodedAll(ps')[0].Obj?;
  }
}
