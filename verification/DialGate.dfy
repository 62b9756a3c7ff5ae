/** The dial gate of a channel (go-smpp-gateway/tls_dialer.go) and the bind gate, which works the same way
    (go-smpp-gateway/connector.go). Times are milliseconds of one monotonic clock. */
module DialGate {

  const MIN_INTERVAL := 500

  /** Each slot is taken at least the minimum interval after the one before. */
  predicate Spaced(slots: seq<int>) {
    forall i :: 0 < i < |slots| ==> slots[i] - slots[i - 1] >= MIN_INTERVAL
  }

  class Gate {
    var lastAt: map<int, int>
    ghost var slots: map<int, seq<int>>

    /** The recorded slots of every channel are spaced, and the last one is what the gate remembers. */
    ghost predicate Valid()
      reads this
    {
      && lastAt.Keys == slots.Keys
      && forall c :: c in slots ==> slots[c] != [] && Spaced(slots[c]) && lastAt[c] == slots[c][|slots[c]| - 1]
    }

    constructor ()
      ensures Valid() && slots == map[]
    {
      lastAt, slots := map[], map[];
    }

    /** waitDialSlot and acquireBindSlot: now is the time of the check; the sleep, if one is needed, lasts at
        least as long as asked, and the slot is recorded at the time read afterwards. */
    method WaitSlot(channel: int, now: int, overslept: nat) returns (at: int)
      requires Valid()
      modifies this
      ensures Valid() && at >= now
      ensures slots == old(slots)[channel := (if channel in old(slots) then old(slots)[channel] else []) + [at]]
    {
      at := now + overslept;
      if channel in lastAt {
        var since := now - lastAt[channel];
        if since < MIN_INTERVAL {
          at := now + (MIN_INTERVAL - since) + overslept;
        }
      }
      lastAt := lastAt[channel := at];
      slots := slots[channel := (if channel in slots then slots[channel] else []) + [at]];
    }
  }

  /** Slots taken in a window. */
  function InWindow(slots: seq<int>, from: int, to: int): nat {
    if slots == [] then 0
    else InWindow(slots[..|slots| - 1], from, to) + if from <= slots[|slots| - 1] <= to then 1 else 0
  }

  lemma {:induction false} NoneBefore(slots: seq<int>, from: int, to: int)
    requires Spaced(slots) && (slots != [] ==> slots[|slots| - 1] < from)
    ensures InWindow(slots, from, to) == 0
  {
    if slots != [] {
      NoneBefore(slots[..|slots| - 1], from, to);
    }
  }

  lemma {:induction false} WindowCount(slots: seq<int>, from: int, to: int)
    requires Spaced(slots) && from <= to
    ensures InWindow(slots, from, to) <= (to - from) / MIN_INTERVAL + 1
    ensures slots != [] && from <= slots[|slots| - 1] <= to ==>
              InWindow(slots, from, to) <= (slots[|slots| - 1] - from) / MIN_INTERVAL + 1
  {
    if slots != [] {
      var front := slots[..|slots| - 1];
      WindowCount(front, from, to);
      if front == [] || front[|front| - 1] < from {
        NoneBefore(front, from, to);
      }
    }
  }

  /** Whatever the callers do, a channel takes at most W / 500 + 1 slots in any W milliseconds. */
  lemma AnyWindow(g: Gate, channel: int, from: int, w: nat)
    requires g.Valid() && channel in g.slots
    ensures InWindow(g.slots[channel], from, from + w) <= w / MIN_INTERVAL + 1
  {
    WindowCount(g.slots[channel], from, from + w);
  }
}
