/** Greedy packing of characters into segments of bounded width: the specification of both splitters. */
module Packing {
  import opened Unicode

  function Width(s: seq<Rune>, w: Rune -> nat): nat {
    if s == [] then 0 else w(s[0]) + Width(s[1..], w)
  }

  predicate Positive(s: seq<Rune>, w: Rune -> nat) {
    forall r :: r in s ==> 1 <= w(r)
  }

  predicate AtMost(s: seq<Rune>, w: Rune -> nat, limit: int) {
    forall r :: r in s ==> w(r) <= limit
  }

  /** The segments still to come when `cur` is open and `rest` is unread. */
  function PackFrom(cur: seq<Rune>, rest: seq<Rune>, w: Rune -> nat, limit: int): seq<seq<Rune>>
    decreases |rest|
  {
    if rest == [] then
      if cur == [] then [] else [cur]
    else if cur != [] && Width(cur, w) + w(rest[0]) > limit then
      [cur] + PackFrom([rest[0]], rest[1..], w, limit)
    else
      PackFrom(cur + [rest[0]], rest[1..], w, limit)
  }

  function Pack(text: seq<Rune>, w: Rune -> nat, limit: int): seq<seq<Rune>> {
    PackFrom([], text, w, limit)
  }

  function Flatten(segs: seq<seq<Rune>>): seq<Rune> {
    if segs == [] then [] else segs[0] + Flatten(segs[1..])
  }

  function CeilDiv(n: nat, d: nat): nat
    requires d > 0
  {
    (n + d - 1) / d
  }

  lemma {:induction false} WidthConcat(a: seq<Rune>, b: seq<Rune>, w: Rune -> nat)
    ensures Width(a + b, w) == Width(a, w) + Width(b, w)
  {
    if a == [] {
      assert a + b == b;
    } else {
      WidthConcat(a[1..], b, w);
      assert (a + b)[1..] == a[1..] + b;
    }
  }

  lemma WidthSnoc(a: seq<Rune>, r: Rune, w: Rune -> nat)
    ensures Width(a + [r], w) == Width(a, w) + w(r)
  {
    WidthConcat(a, [r], w);
  }

  /** Reading one more character, as both splitters do. */
  lemma PackStep(done: seq<seq<Rune>>, cur: seq<Rune>, rest: seq<Rune>, w: Rune -> nat, limit: int)
    requires rest != []
    ensures done + PackFrom(cur, rest, w, limit) ==
            if cur != [] && Width(cur, w) + w(rest[0]) > limit
            then (done + [cur]) + PackFrom([] + [rest[0]], rest[1..], w, limit)
            else done + PackFrom(cur + [rest[0]], rest[1..], w, limit)
  {
    assert [] + [rest[0]] == [rest[0]];
  }

  /** Nothing is lost, repeated or reordered, and no segment is empty. */
  lemma {:induction false} PackFromFlatten(cur: seq<Rune>, rest: seq<Rune>, w: Rune -> nat, limit: int)
    ensures Flatten(PackFrom(cur, rest, w, limit)) == cur + rest
    ensures forall i :: 0 <= i < |PackFrom(cur, rest, w, limit)| ==> PackFrom(cur, rest, w, limit)[i] != []
    decreases |rest|
  {
    if rest == [] {
      assert cur != [] ==> Flatten([cur]) == cur + Flatten([]);
    } else {
      assert rest == [rest[0]] + rest[1..];
      if cur != [] && Width(cur, w) + w(rest[0]) > limit {
        PackFromFlatten([rest[0]], rest[1..], w, limit);
      } else {
        PackFromFlatten(cur + [rest[0]], rest[1..], w, limit);
        assert (cur + [rest[0]]) + rest[1..] == cur + rest;
      }
    }
  }

  /** Every segment fits exactly when every single character does: the splitters never check that. */
  lemma PackFitsIff(text: seq<Rune>, w: Rune -> nat, limit: int)
    ensures (forall i :: 0 <= i < |Pack(text, w, limit)| ==> Width(Pack(text, w, limit)[i], w) <= limit)
            <==> AtMost(text, w, limit)
  {
    var segs := Pack(text, w, limit);
    PackFromFlatten([], text, w, limit);
    if AtMost(text, w, limit) {
      PackFromFits([], text, w, limit);
    }
    if forall i :: 0 <= i < |segs| ==> Width(segs[i], w) <= limit {
      forall r | r in text ensures w(r) <= limit {
        var i := InSomeSegment(segs, r);
        WidthAtLeastOf(segs[i], r, w);
      }
    }
  }

  lemma {:induction false} PackFromFits(cur: seq<Rune>, rest: seq<Rune>, w: Rune -> nat, limit: int)
    requires AtMost(rest, w, limit)
    requires cur == [] || Width(cur, w) <= limit
    ensures forall i :: 0 <= i < |PackFrom(cur, rest, w, limit)| ==> Width(PackFrom(cur, rest, w, limit)[i], w) <= limit
    decreases |rest|
  {
    if rest != [] {
      WidthSnoc(cur, rest[0], w);
      WidthSnoc([], rest[0], w);
      assert [] + [rest[0]] == [rest[0]];
      if cur != [] && Width(cur, w) + w(rest[0]) > limit {
        PackFromFits([rest[0]], rest[1..], w, limit);
      } else {
        PackFromFits(cur + [rest[0]], rest[1..], w, limit);
      }
    }
  }

  lemma {:induction false} InSomeSegment(segs: seq<seq<Rune>>, r: Rune) returns (i: nat)
    requires r in Flatten(segs)
    ensures i < |segs| && r in segs[i]
  {
    if r in segs[0] {
      i := 0;
    } else {
      var j := InSomeSegment(segs[1..], r);
      i := j + 1;
    }
  }

  lemma {:induction false} WidthAtLeastOf(s: seq<Rune>, r: Rune, w: Rune -> nat)
    requires r in s
    ensures w(r) <= Width(s, w)
  {
    if s[0] != r {
      WidthAtLeastOf(s[1..], r, w);
    }
  }

  // ---- optimality ----

  /** A narrower open segment never costs more segments, and any open segment costs at most one more. */
  lemma {:induction false} StaysAhead(c1: seq<Rune>, c2: seq<Rune>, rest: seq<Rune>, w: Rune -> nat, limit: int)
    requires c2 != []
    ensures |PackFrom(c1, rest, w, limit)| <= 1 + |PackFrom(c2, rest, w, limit)|
    ensures Width(c1, w) <= Width(c2, w) ==> |PackFrom(c1, rest, w, limit)| <= |PackFrom(c2, rest, w, limit)|
    decreases |rest|
  {
    if rest != [] {
      var x, tail := rest[0], rest[1..];
      WidthSnoc(c1, x, w);
      WidthSnoc(c2, x, w);
      WidthSnoc([], x, w);
      assert [] + [x] == [x];
      StaysAhead(c1 + [x], c2 + [x], tail, w, limit);
      StaysAhead(c1 + [x], [x], tail, w, limit);
      StaysAhead([x], c2 + [x], tail, w, limit);
    }
  }

  lemma OneMoreAtMost(cur: seq<Rune>, rest: seq<Rune>, w: Rune -> nat, limit: int)
    ensures |PackFrom(cur, rest, w, limit)| <= 1 + |Pack(rest, w, limit)|
  {
    if rest != [] && cur != [] {
      var x, tail := rest[0], rest[1..];
      assert [] + [x] == [x];
      StaysAhead(cur + [x], [x], tail, w, limit);
    }
  }

  /** A run of characters that fits goes into the open segment whole. */
  lemma {:induction false} Absorb(cur: seq<Rune>, more: seq<Rune>, rest: seq<Rune>, w: Rune -> nat, limit: int)
    requires Width(cur, w) + Width(more, w) <= limit
    ensures PackFrom(cur, more + rest, w, limit) == PackFrom(cur + more, rest, w, limit)
    decreases |more|
  {
    if more == [] {
      assert more + rest == rest && cur + more == cur;
    } else {
      WidthSnoc(cur, more[0], w);
      Absorb(cur + [more[0]], more[1..], rest, w, limit);
      assert (more + rest)[1..] == more[1..] + rest;
      assert (cur + [more[0]]) + more[1..] == cur + more;
    }
  }

  /** No way of cutting the text at character boundaries into fitting segments uses fewer segments. */
  lemma {:induction false} PackOptimal(text: seq<Rune>, w: Rune -> nat, limit: int, other: seq<seq<Rune>>)
    requires Flatten(other) == text
    requires forall i :: 0 <= i < |other| ==> Width(other[i], w) <= limit
    ensures |Pack(text, w, limit)| <= |other|
    decreases |other|
  {
    if other != [] {
      var first, rest := other[0], Flatten(other[1..]);
      PackOptimal(rest, w, limit, other[1..]);
      Absorb([], first, rest, w, limit);
      assert [] + first == first;
      OneMoreAtMost(first, rest, w, limit);
    }
  }

  // ---- how many segments ----

  /** Each closed segment is fuller than limit minus the widest character. */
  lemma {:induction false} WidthBounds(cur: seq<Rune>, rest: seq<Rune>, w: Rune -> nat, least: nat, limit: nat)
    requires AtMost(rest, w, limit) && Positive(cur, w) && Positive(rest, w)
    requires forall r :: r in rest ==> least + w(r) <= limit + 1
    requires cur == [] || Width(cur, w) <= limit
    ensures Width(cur + rest, w) <= Times(|PackFrom(cur, rest, w, limit)|, limit)
    ensures cur + rest != [] ==> Times(|PackFrom(cur, rest, w, limit)|, least) < Width(cur + rest, w) + least
    decreases |rest|
  {
    if rest == [] {
      assert cur + rest == cur;
      if cur != [] {
        WidthAtLeastOf(cur, cur[0], w);
        assert Times(1, limit) == limit && Times(1, least) == least;
      }
    } else {
      var x, tail := rest[0], rest[1..];
      assert rest == [x] + tail;
      WidthSnoc(cur, x, w);
      WidthSnoc([], x, w);
      assert [] + [x] == [x];
      WidthConcat(cur, rest, w);
      if cur != [] && Width(cur, w) + w(x) > limit {
        WidthBounds([x], tail, w, least, limit);
        assert |PackFrom(cur, rest, w, limit)| == 1 + |PackFrom([x], tail, w, limit)|;
        assert [x] + tail != [];
      } else {
        assert (cur + [x]) + tail == cur + rest;
        WidthBounds(cur + [x], tail, w, least, limit);
      }
    }
  }

  /** k * d, unfolded one step at a time. */
  function Times(k: nat, d: nat): (p: nat)
    ensures p == k * d
  {
    if k == 0 then 0 else d + Times(k - 1, d)
  }

  lemma ProductMonotone(a: nat, b: nat, d: nat)
    requires a <= b
    ensures a * d <= b * d
  {
  }

  lemma CeilDivBounds(n: nat, d: nat)
    requires d > 0
    ensures CeilDiv(n, d) * d <= n + d - 1 < CeilDiv(n, d) * d + d
  {
    var m := n + d - 1;
    assert m == m / d * d + m % d;
  }

  lemma CeilDivLeast(n: nat, d: nat, k: nat)
    requires d > 0
    ensures n <= Times(k, d) ==> CeilDiv(n, d) <= k
    ensures Times(k, d) < n + d ==> k <= CeilDiv(n, d)
  {
    var c := CeilDiv(n, d);
    CeilDivBounds(n, d);
    if c > k {
      ProductMonotone(k + 1, c, d);
      assert (k + 1) * d == Times(k + 1, d);
    }
    if k > c {
      ProductMonotone(c + 1, k, d);
      assert (c + 1) * d == Times(c + 1, d) && c * d == Times(c, d);
    }
  }

  /** The number of segments lies between two quotients, and is the lower one when every character
      has width one. */
  lemma PackCount(text: seq<Rune>, w: Rune -> nat, widest: nat, limit: nat)
    requires 1 <= widest <= limit && Positive(text, w) && AtMost(text, w, widest)
    ensures CeilDiv(Width(text, w), limit) <= |Pack(text, w, limit)| <= CeilDiv(Width(text, w), limit - widest + 1)
  {
    var k := |Pack(text, w, limit)|;
    var least := limit - widest + 1;
    assert [] + text == text;
    WidthBounds([], text, w, least, limit);
    CeilDivLeast(Width(text, w), limit, k);
    if text != [] {
      PackFromFlatten([], text, w, limit);
      CeilDivLeast(Width(text, w), least, k);
    }
  }
}
