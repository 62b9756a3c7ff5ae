/** The fixed-window send limiter: a script that counts under one key per channel and second
    (backend/app/utils/rate_limiter.py). Times are milliseconds; one channel. */
module FixedWindow {

  const EXPIRY := 1100

  datatype Counter = Counter(count: nat, expiresAt: int)

  /** The keys by second. */
  type Store = map<int, Counter>

  /** A key still answers at the very millisecond of its expiry. */
  predicate Alive(s: Store, second: int, now: int) {
    second in s && now <= s[second].expiresAt
  }

  function CountAt(s: Store, second: int, now: int): nat {
    if Alive(s, second, now) then s[second].count else 0
  }

  /** The script: the count and the wait it answers, and the store it leaves. */
  function Script(s: Store, second: int, now: int, max: int): (Store, int, int) {
    var current := CountAt(s, second, now);
    if current >= max then
      var ttl := if second in s then s[second].expiresAt - now else -1;
      (s, current, if ttl < 0 then 1000 else ttl)
    else
      (s[second := Counter(current + 1, if current == 0 then now + EXPIRY else s[second].expiresAt)], current + 1, 0)
  }

  /** acquire_send_slot allows exactly when the wait is not positive. */
  predicate Allows(s: Store, second: int, now: int, max: int) {
    max <= 0 || Script(s, second, now, max).2 <= 0
  }

  function Next(s: Store, second: int, now: int, max: int): Store {
    if max <= 0 then s else Script(s, second, now, max).0
  }

  class RateLimiter {
    var keys: Store

    constructor ()
      ensures keys == map[]
    {
      keys := map[];
    }

    method RunScript(second: int, now: int, max: int) returns (count: int, wait: int)
      modifies this
      ensures (keys, count, wait) == Script(old(keys), second, now, max)
    {
      var current := 0;
      if second in keys && now <= keys[second].expiresAt {
        current := keys[second].count;
      }
      if current >= max {
        var ttl := if second in keys then keys[second].expiresAt - now else -1;
        if ttl < 0 {
          ttl := 1000;
        }
        return current, ttl;
      }
      keys := keys[second := Counter(current + 1, if current == 0 then now + EXPIRY else keys[second].expiresAt)];
      return current + 1, 0;
    }

    /** The caller's clock gives the second, the server's clock the execution time. */
    method AcquireSendSlot(callerTime: int, now: int, max: int) returns (allowed: bool, wait: int)
      modifies this
      ensures allowed == Allows(old(keys), callerTime / 1000, now, max)
      ensures keys == Next(old(keys), callerTime / 1000, now, max)
      ensures if allowed then wait == 0 else 50 <= wait <= 1100
    {
      if max <= 0 {
        return true, 0;
      }
      var count;
      count, wait := RunScript(callerTime / 1000, now, max);
      if wait > 0 {
        var capped := if wait < 1100 then wait else 1100;
        return false, if capped > 50 then capped else 50;
      }
      return true, 0;
    }
  }

  // ---- the bound ----

  /** The caller's clock and the server's at execution. */
  datatype Call = Call(callerTime: int, now: int)

  function SecondOf(c: Call): int {
    c.callerTime / 1000
  }

  function After(s: Store, calls: seq<Call>, max: int): Store
    decreases |calls|
  {
    if calls == [] then s
    else
      var c := calls[|calls| - 1];
      Next(After(s, calls[..|calls| - 1], max), SecondOf(c), c.now, max)
  }

  /** The last call of a list is allowed. */
  predicate LastAllowed(calls: seq<Call>, max: int)
    requires calls != []
  {
    var c := calls[|calls| - 1];
    Allows(After(map[], calls[..|calls| - 1], max), SecondOf(c), c.now, max)
  }

  /** Grants under the key of a second. */
  function Granted(calls: seq<Call>, second: int, max: int): nat {
    if calls == [] then 0
    else
      Granted(calls[..|calls| - 1], second, max)
      + if SecondOf(calls[|calls| - 1]) == second && LastAllowed(calls, max) then 1 else 0
  }

  /** Grants to callers in a stretch of their time. */
  function GrantedWithin(calls: seq<Call>, start: int, end: int, max: int): nat {
    if calls == [] then 0
    else
      GrantedWithin(calls[..|calls| - 1], start, end, max)
      + if start <= calls[|calls| - 1].callerTime < end && LastAllowed(calls, max) then 1 else 0
  }

  /** Every call runs after its second began and less than 100 ms after it ended. */
  predicate Punctual(calls: seq<Call>) {
    forall i :: 0 <= i < |calls| ==> 1000 * SecondOf(calls[i]) <= calls[i].now < 1000 * SecondOf(calls[i]) + EXPIRY
  }

  lemma {:induction false} CountsGrants(calls: seq<Call>, second: int, max: int)
    requires max > 0 && Punctual(calls)
    ensures var s := After(map[], calls, max);
            && Granted(calls, second, max) == (if second in s then s[second].count else 0) <= max
            && (second in s ==> s[second].count > 0 && s[second].expiresAt >= 1000 * second + EXPIRY)
  {
    if calls != [] {
      var front := calls[..|calls| - 1];
      assert forall i :: 0 <= i < |front| ==> front[i] == calls[i];
      CountsGrants(front, second, max);
      CountsGrants(front, SecondOf(calls[|calls| - 1]), max);
    }
  }

  /** Punctual calls are granted at most max times per second key. */
  lemma PerSecond(calls: seq<Call>, second: int, max: int)
    requires max > 0 && Punctual(calls)
    ensures Granted(calls, second, max) <= max
  {
    CountsGrants(calls, second, max);
  }

  /** Calls of one second, in the order of execution, all run from its start up to a deadline. */
  predicate ByDeadline(calls: seq<Call>, second: int, deadline: int) {
    forall i :: 0 <= i < |calls| ==>
      SecondOf(calls[i]) == second && 1000 * second <= calls[i].now <= deadline && (i > 0 ==> calls[i - 1].now <= calls[i].now)
  }

  ghost predicate HoldsUntil(second: int, deadline: int, max: int) {
    forall calls :: ByDeadline(calls, second, deadline) ==> Granted(calls, second, max) <= max
  }

  function Repeated(c: Call, n: nat): (r: seq<Call>)
    ensures |r| == n && forall i :: 0 <= i < n ==> r[i] == c
  {
    seq(n, i => c)
  }

  lemma {:induction false} FirstGrants(second: int, n: nat, max: int)
    requires max > 0 && n <= max
    ensures var calls := Repeated(Call(1000 * second, 1000 * second), n);
            && Granted(calls, second, max) == n
            && After(map[], calls, max) == if n == 0 then map[] else map[second := Counter(n, 1000 * second + EXPIRY)]
  {
    if n > 0 {
      FirstGrants(second, n - 1, max);
      var c := Call(1000 * second, 1000 * second);
      assert Repeated(c, n)[..n - 1] == Repeated(c, n - 1);
    }
  }

  /** The bound for a second holds for every schedule up to a deadline exactly when the deadline is less than
      100 ms past the end of the second: from then on the key may be at, or past, its expiry. */
  lemma PerSecondIff(second: int, deadline: int, max: int)
    requires max > 0 && deadline >= 1000 * second
    ensures HoldsUntil(second, deadline, max) <==> deadline < 1000 * second + EXPIRY
  {
    if deadline < 1000 * second + EXPIRY {
      forall calls | ByDeadline(calls, second, deadline)
        ensures Granted(calls, second, max) <= max
      {
        PerSecond(calls, second, max);
      }
    } else {
      var front, late := Repeated(Call(1000 * second, 1000 * second), max), Call(1000 * second, deadline);
      FirstGrants(second, max, max);
      var calls := front + [late];
      assert calls[..max] == front && calls[max] == late;
      assert ByDeadline(calls, second, deadline) && Granted(calls, second, max) == max + 1;
    }
  }

  function GrantedBetween(calls: seq<Call>, from: int, seconds: nat, max: int): nat {
    if seconds == 0 then 0
    else GrantedBetween(calls, from, seconds - 1, max) + Granted(calls, from + seconds - 1, max)
  }

  lemma {:induction false} BetweenBound(calls: seq<Call>, from: int, seconds: nat, max: int)
    requires max > 0 && Punctual(calls)
    ensures GrantedBetween(calls, from, seconds, max) <= seconds * max
  {
    if seconds > 0 {
      BetweenBound(calls, from, seconds - 1, max);
      PerSecond(calls, from + seconds - 1, max);
      assert (seconds - 1) * max + max == seconds * max;
    }
  }

  lemma {:induction false} BetweenNext(calls: seq<Call>, from: int, seconds: nat, max: int)
    requires calls != []
    ensures GrantedBetween(calls, from, seconds, max)
            == GrantedBetween(calls[..|calls| - 1], from, seconds, max)
               + if from <= SecondOf(calls[|calls| - 1]) < from + seconds && LastAllowed(calls, max) then 1 else 0
  {
    if seconds > 0 {
      BetweenNext(calls, from, seconds - 1, max);
    }
  }

  lemma {:induction false} NothingBetween(from: int, seconds: nat, max: int)
    ensures GrantedBetween([], from, seconds, max) == 0
  {
    if seconds > 0 {
      NothingBetween(from, seconds - 1, max);
    }
  }

  /** Grants in a stretch of caller time are grants under the keys it touches. */
  lemma {:induction false} WithinKeys(calls: seq<Call>, start: int, end: int, max: int)
    requires start < end
    ensures GrantedWithin(calls, start, end, max)
            <= GrantedBetween(calls, start / 1000, (end - 1) / 1000 - start / 1000 + 1, max)
  {
    var from, seconds := start / 1000, (end - 1) / 1000 - start / 1000 + 1;
    if calls == [] {
      NothingBetween(from, seconds, max);
    } else {
      WithinKeys(calls[..|calls| - 1], start, end, max);
      BetweenNext(calls, from, seconds, max);
    }
  }

  /** In any n seconds of caller time, from any millisecond on, punctual calls are granted at most
      (n + 1) * max times. */
  lemma WindowBound(calls: seq<Call>, start: int, n: nat, max: int)
    requires max > 0 && Punctual(calls) && n > 0
    ensures GrantedWithin(calls, start, start + 1000 * n, max) <= (n + 1) * max
  {
    var end := start + 1000 * n;
    var seconds := (end - 1) / 1000 - start / 1000 + 1;
    WithinKeys(calls, start, end, max);
    BetweenBound(calls, start / 1000, seconds, max);
    assert seconds <= n + 1;
    assert seconds * max <= (n + 1) * max;
  }
}
