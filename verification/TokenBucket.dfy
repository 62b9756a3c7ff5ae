/** The token bucket shared by all sessions of an account (go-smpp-gateway/inbound_session.go). Time and tokens
    are reals. */
module TokenBucket {

  datatype Bucket = Bucket(tokens: real, maxTok: real, rate: real, lastTime: real)

  datatype Call = Allow(now: real) | UpdateRate(rps: real)

  /** What accrues at a rate over a time. */
  function Accrued(rate: real, elapsed: real): real {
    elapsed * rate
  }

  function Refilled(b: Bucket, now: real): real {
    var full := b.tokens + Accrued(b.rate, now - b.lastTime);
    if full > b.maxTok then b.maxTok else full
  }

  predicate Grants(b: Bucket, c: Call) {
    c.Allow? && Refilled(b, c.now) >= 1.0
  }

  function Next(b: Bucket, c: Call): Bucket {
    match c
    case Allow(now) =>
      b.(tokens := Refilled(b, now) - if Grants(b, c) then 1.0 else 0.0, lastTime := now)
    case UpdateRate(rps) =>
      b.(rate := rps, maxTok := rps, tokens := if b.tokens > rps then rps else b.tokens)
  }

  class TpsLimiter {
    var tokens: real
    var maxTok: real
    var rate: real
    var lastTime: real

    /** newTPSLimiterBurst; newTPSLimiter gives rate and burst the same value. */
    constructor (rate: real, burst: real, now: real)
      ensures State() == Bucket(burst, burst, rate, now)
    {
      tokens, maxTok, this.rate, lastTime := burst, burst, rate, now;
    }

    function State(): Bucket
      reads this
    {
      Bucket(tokens, maxTok, rate, lastTime)
    }

    method Allow(now: real) returns (ok: bool)
      modifies this
      ensures State() == Next(old(State()), Call.Allow(now)) && ok == Grants(old(State()), Call.Allow(now))
    {
      var add := Accrued(rate, now - lastTime);
      lastTime := now;
      if tokens + add > maxTok {
        tokens := maxTok;
      } else {
        tokens := tokens + add;
      }
      if tokens >= 1.0 {
        tokens := tokens - 1.0;
        return true;
      }
      ok := false;
    }

    method UpdateRate(rps: real)
      modifies this
      ensures State() == Next(old(State()), Call.UpdateRate(rps))
    {
      rate := rps;
      maxTok := rps;
      if tokens > maxTok {
        tokens := maxTok;
      }
    }
  }

  class AccountLimiters {
    var buckets: map<int, TpsLimiter>

    constructor ()
      ensures buckets == map[]
    {
      buckets := map[];
    }

    /** getAccountTPSLimiter: every session of an account gets the one bucket of that account. */
    method GetAccountTpsLimiter(account: int, rps: real, now: real) returns (l: TpsLimiter)
      modifies this, buckets.Values
      ensures if account in old(buckets)
              then l == old(buckets)[account] && buckets == old(buckets)
                   && l.State() == Next(old(buckets[account].State()), Call.UpdateRate(rps))
              else fresh(l) && buckets == old(buckets)[account := l] && l.State() == Bucket(rps, rps, rps, now)
      ensures forall a :: a in old(buckets) && old(buckets)[a] != l ==> old(buckets)[a].State() == old(buckets[a].State())
    {
      if account in buckets {
        l := buckets[account];
        assert l in buckets.Values;
        l.UpdateRate(rps);
      } else {
        l := new TpsLimiter(rps, rps, now);
        buckets := buckets[account := l];
      }
    }
  }

  // ---- the bound ----

  /** The calls come at non-decreasing times and set no negative rate. */
  ghost predicate Ordered(b: Bucket, calls: seq<Call>)
    decreases |calls|
  {
    calls == [] ||
    (Ordered(b, calls[..|calls| - 1]) && InOrder(After(b, calls[..|calls| - 1]), calls[|calls| - 1]))
  }

  function After(b: Bucket, calls: seq<Call>): Bucket
    decreases |calls|
  {
    if calls == [] then b else Next(After(b, calls[..|calls| - 1]), calls[|calls| - 1])
  }

  function GrantCount(b: Bucket, calls: seq<Call>): nat
    decreases |calls|
  {
    if calls == [] then 0
    else
      var front := calls[..|calls| - 1];
      GrantCount(b, front) + if Grants(After(b, front), calls[|calls| - 1]) then 1 else 0
  }

  predicate Valid(b: Bucket) {
    0.0 <= b.tokens <= b.maxTok && b.rate >= 0.0
  }

  /** Every capacity and every rate in force stays within the given ones. */
  ghost predicate Within(b: Bucket, calls: seq<Call>, cap: real, rate: real) {
    && b.maxTok <= cap && b.rate <= rate
    && forall i :: 0 <= i < |calls| && calls[i].UpdateRate? ==> calls[i].rps <= cap && calls[i].rps <= rate
  }

  lemma NonNegative(x: real, y: real)
    requires x >= 0.0 && y >= 0.0
    ensures x * y >= 0.0
  {
  }

  lemma AccruedMonotone(a: real, b: real, d: real)
    requires 0.0 <= a <= b && d >= 0.0
    ensures 0.0 <= Accrued(a, d) <= Accrued(b, d)
  {
    NonNegative(d, b - a);
    NonNegative(d, a);
    assert d * (b - a) == d * b - d * a;
  }

  lemma AccruedSum(rate: real, a: real, b: real)
    ensures Accrued(rate, a) + Accrued(rate, b) == Accrued(rate, a + b)
  {
  }

  predicate InOrder(b: Bucket, c: Call) {
    match c
    case Allow(now) => now >= b.lastTime
    case UpdateRate(rps) => rps >= 0.0
  }

  lemma StepKeepsValid(b: Bucket, c: Call)
    requires Valid(b) && InOrder(b, c)
    ensures Valid(Next(b, c)) && Next(b, c).lastTime >= b.lastTime
  {
    if c.Allow? {
      AccruedMonotone(0.0, b.rate, c.now - b.lastTime);
    }
  }

  /** Tokens stay between zero and the capacity. */
  lemma {:induction false} TokensInRange(b: Bucket, calls: seq<Call>)
    requires Valid(b) && Ordered(b, calls)
    ensures Valid(After(b, calls)) && After(b, calls).lastTime >= b.lastTime
    decreases |calls|
  {
    if calls != [] {
      TokensInRange(b, calls[..|calls| - 1]);
      StepKeepsValid(After(b, calls[..|calls| - 1]), calls[|calls| - 1]);
    }
  }

  function One(granted: bool): real {
    if granted then 1.0 else 0.0
  }

  /** A step grants and keeps no more than it had and what accrues meanwhile. */
  lemma StepPaid(b: Bucket, c: Call, rate: real)
    requires Valid(b) && b.rate <= rate && InOrder(b, c)
    ensures var n := Next(b, c);
            One(Grants(b, c)) + n.tokens <= b.tokens + Accrued(rate, n.lastTime - b.lastTime)
  {
    if c.Allow? {
      AccruedMonotone(b.rate, rate, c.now - b.lastTime);
    } else {
      AccruedMonotone(0.0, rate, 0.0);
    }
  }

  predicate UpTo(b: Bucket, cap: real, rate: real) {
    b.maxTok <= cap && b.rate <= rate
  }

  lemma StepWithin(b: Bucket, c: Call, cap: real, rate: real)
    requires UpTo(b, cap, rate) && (c.UpdateRate? ==> c.rps <= cap && c.rps <= rate)
    ensures UpTo(Next(b, c), cap, rate)
  {
  }

  lemma {:induction false} Bounded(b: Bucket, calls: seq<Call>, cap: real, rate: real)
    requires Valid(b) && Ordered(b, calls) && Within(b, calls, cap, rate)
    ensures Valid(After(b, calls)) && UpTo(After(b, calls), cap, rate)
    ensures GrantCount(b, calls) as real + After(b, calls).tokens
            <= b.tokens + Accrued(rate, After(b, calls).lastTime - b.lastTime)
    decreases |calls|
  {
    if calls == [] {
      AccruedSum(rate, 0.0, 0.0);
    } else {
      var front, c := calls[..|calls| - 1], calls[|calls| - 1];
      assert forall i :: 0 <= i < |front| ==> front[i] == calls[i];
      Bounded(b, front, cap, rate);
      var s := After(b, front);
      BoundedNext(s, c, cap, rate, b.lastTime);
    }
  }

  lemma BoundedNext(s: Bucket, c: Call, cap: real, rate: real, start: real)
    requires Valid(s) && UpTo(s, cap, rate) && InOrder(s, c) && (c.UpdateRate? ==> c.rps <= cap && c.rps <= rate)
    ensures var n := Next(s, c);
            && Valid(n) && UpTo(n, cap, rate)
            && One(Grants(s, c)) + n.tokens + Accrued(rate, s.lastTime - start) <= s.tokens + Accrued(rate, n.lastTime - start)
  {
    StepKeepsValid(s, c);
    StepWithin(s, c, cap, rate);
    StepPaid(s, c, rate);
    AccruedSum(rate, s.lastTime - start, Next(s, c).lastTime - s.lastTime);
  }

  /** Whatever came before, the calls of any window that opens with a grant request grant at most the largest
      capacity plus what accrues at the largest rate over the window. */
  lemma WindowBound(b: Bucket, calls: seq<Call>, cap: real, rate: real)
    requires Valid(b) && calls != [] && calls[0].Allow? && InOrder(b, calls[0])
    requires Within(b, calls, cap, rate) && Ordered(Next(b, calls[0]), calls[1..])
    ensures var first := Next(b, calls[0]);
            One(Grants(b, calls[0])) + GrantCount(first, calls[1..]) as real
            <= cap + Accrued(rate, After(first, calls[1..]).lastTime - calls[0].now)
  {
    StepKeepsValid(b, calls[0]);
    StepWithin(b, calls[0], cap, rate);
    var first := Next(b, calls[0]);
    assert forall i :: 0 <= i < |calls[1..]| ==> calls[1..][i] == calls[i + 1];
    Bounded(first, calls[1..], cap, rate);
    FirstGrant(b, calls[0]);
  }

  lemma FirstGrant(b: Bucket, c: Call)
    requires c.Allow?
    ensures One(Grants(b, c)) + Next(b, c).tokens <= b.maxTok && Next(b, c).lastTime == c.now
  {
  }

  lemma {:induction false} NoneBelowOne(b: Bucket, calls: seq<Call>)
    requires Valid(b) && b.maxTok < 1.0 && Ordered(b, calls)
    requires forall i :: 0 <= i < |calls| ==> calls[i].Allow?
    ensures GrantCount(b, calls) == 0 && After(b, calls).maxTok == b.maxTok
    decreases |calls|
  {
    if calls != [] {
      NoneBelowOne(b, calls[..|calls| - 1]);
    }
  }

  ghost predicate EverGrants(b: Bucket, calls: seq<Call>) {
    Ordered(b, calls) && (forall i :: 0 <= i < |calls| ==> calls[i].Allow?) && GrantCount(b, calls) > 0
  }

  /** A new account bucket ever grants anything exactly when its rate is at least one message a second. */
  lemma EverGrantsIff(rps: real, now: real)
    requires rps >= 0.0
    ensures (exists calls :: EverGrants(Bucket(rps, rps, rps, now), calls)) <==> rps >= 1.0
  {
    var b := Bucket(rps, rps, rps, now);
    if rps >= 1.0 {
      var calls := [Allow(now)];
      AccruedMonotone(0.0, rps, 0.0);
      assert calls[..0] == [] && Refilled(b, now) == rps && Grants(b, calls[0]);
      assert Ordered(b, calls[..0]) && InOrder(b, calls[0]) && After(b, calls[..0]) == b;
      assert EverGrants(b, calls);
    } else {
      forall calls: seq<Call> | Ordered(b, calls) && forall i :: 0 <= i < |calls| ==> calls[i].Allow?
        ensures !EverGrants(b, calls)
      {
        NoneBelowOne(b, calls);
      }
    }
  }
}
