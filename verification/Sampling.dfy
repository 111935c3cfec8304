/** Covering a long candidate list with a fixed number of evenly spread samples. */
module Sampling {
  import opened Ordering

  function Quotient(a: nat, d: nat): nat
    requires d > 0
  {
    a / d
  }

  /** floor((j + 1/2) * m / s). */
  function SampleIndex(j: nat, m: nat, s: nat): nat
    requires s > 0
  {
    Monotone(0, 2 * j + 1, m);
    Quotient((2 * j + 1) * m, 2 * s)
  }

  lemma DivisionGap(a: nat, b: nat, d: nat)
    requires d > 0 && a + d <= b
    ensures a / d < b / d
  {
    var q, r := a / d, a % d;
    assert a == q * d + r;
    assert b >= (q + 1) * d;
    DivisionBound(b, q + 1, d);
  }

  lemma DivisionBound(b: nat, q: nat, d: nat)
    requires d > 0 && b >= q * d
    ensures b / d >= q
  {
    if b / d < q {
      var k := b / d;
      assert b == k * d + b % d;
      assert (k + 1) * d <= q * d by {
        Monotone(k + 1, q, d);
      }
      assert false;
    }
  }

  lemma Monotone(x: nat, y: nat, d: nat)
    requires x <= y
    ensures x * d <= y * d
  {
    assert (y - x) * d >= 0;
  }

  lemma DivisionBelow(a: nat, q: nat, d: nat)
    requires d > 0 && a < q * d
    ensures a / d < q
  {
    assert a == (a / d) * d + a % d;
    if a / d >= q {
      Monotone(q, a / d, d);
      assert false;
    }
  }

  lemma SampleGap(j: nat, k: nat, m: nat, s: nat)
    requires j < k < s <= m
    ensures (2 * j + 1) * m + 2 * s <= (2 * k + 1) * m
  {
    Monotone(2 * j + 3, 2 * k + 1, m);
    Distribute(2 * j + 1, 2, m);
  }

  lemma Distribute(x: nat, y: nat, d: nat)
    ensures (x + y) * d == x * d + y * d
  {
  }

  /** Samples stay in range, and with at least as many candidates as slots no two coincide. */
  lemma {:induction false} SamplesAreDistinct(j: nat, k: nat, m: nat, s: nat)
    requires j < k < s <= m
    ensures SampleIndex(j, m, s) < SampleIndex(k, m, s) < m
  {
    SampleInRange(k, m, s);
    SampleGap(j, k, m, s);
    Monotone(0, 2 * j + 1, m);
    DivisionGap((2 * j + 1) * m, (2 * k + 1) * m, 2 * s);
  }

  lemma SampleInRange(k: nat, m: nat, s: nat)
    requires k < s <= m
    ensures SampleIndex(k, m, s) < m
  {
    Monotone(2 * k + 1, 2 * s - 1, m);
    assert (2 * s - 1) * m == (2 * s) * m - m;
    assert (2 * s) * m == m * (2 * s);
    DivisionBelow((2 * k + 1) * m, m, 2 * s);
  }

  function Distance(p: nat, q: nat): nat {
    if p < q then q - p else p - q
  }

  /** p and q are no further apart than half a slot's share of the m candidates, and one more for the rounding. */
  ghost predicate Near(p: nat, q: nat, m: nat, s: nat) {
    2 * s * Distance(p, q) <= m + 2 * s
  }

  lemma DivisionMeans(a: nat, d: nat)
    requires d > 0
    ensures Quotient(a, d) * d <= a < Quotient(a, d) * d + d
  {
  }

  /** No candidate is far from a sample. */
  lemma {:induction false} SampleIsNear(p: nat, m: nat, s: nat) returns (j: nat)
    requires p < m && 0 < s
    ensures j < s && Near(p, SampleIndex(j, m, s), m, s)
  {
    Monotone(0, p, s);
    j := Quotient(p * s, m);
    DivisionMeans(p * s, m);
    Monotone(0, 2 * j + 1, m);
    DivisionMeans((2 * j + 1) * m, 2 * s);
    if j >= s {
      Monotone(s, j, m);
      Monotone(p + 1, m, s);
      Distribute(p, 1, s);
      assert false;
    }
    Share(j, p, SampleIndex(j, m, s), m, s);
  }

  lemma Share(j: nat, p: nat, q: nat, m: nat, s: nat)
    requires j * m <= p * s < j * m + m && q * (2 * s) <= (2 * j + 1) * m < q * (2 * s) + 2 * s
    ensures Near(p, q, m, s)
  {
    assert (2 * j + 1) * m == 2 * (j * m) + m;
    assert q * (2 * s) == 2 * s * q && 2 * (p * s) == 2 * s * p;
    assert 2 * s * (p - q) == 2 * s * p - 2 * s * q;
    assert 2 * s * (q - p) == 2 * s * q - 2 * s * p;
  }

  function Step(k: nat, stride: nat): nat {
    Monotone(0, k, stride);
    k * stride
  }

  /** x is an inner position of the regular grid. */
  ghost predicate OnGrid(n: nat, stride: nat, x: int) {
    0 < x && x + 1 < n && exists k :: k >= 1 && Step(k, stride) == x
  }

  lemma StepNext(k: nat, stride: nat)
    ensures Step(0, stride) == 0 && Step(k + 1, stride) == Step(k, stride) + stride
  {
    assert (k + 1) * stride == k * stride + stride;
  }

  lemma StepOrder(k: nat, m: nat, stride: nat)
    requires k <= m
    ensures Step(k, stride) <= Step(m, stride)
  {
    Monotone(k, m, stride);
  }

  /** Every candidate is near one that was taken. */
  ghost predicate EvenlySpread(optional: seq<nat>, slots: nat, out: set<nat>) {
    forall p: nat :: p < |optional| ==> TakenNear(optional, slots, out, p)
  }

  ghost predicate TakenNear(optional: seq<nat>, slots: nat, out: set<nat>, p: nat) {
    exists q: nat :: q < |optional| && optional[q] in out && Near(p, q, |optional|, slots)
  }

  /** Add all candidates if they fit, else exactly slots of them, spread evenly. */
  method AddSpread(keep: set<nat>, optional: seq<nat>, slots: nat) returns (out: set<nat>)
    requires Increasing(optional) && forall x :: x in optional ==> x !in keep
    ensures keep <= out && forall x :: x in out ==> x in keep || x in optional
    ensures |optional| <= slots ==> out == keep + (set x | x in optional)
    ensures |out| == |keep| + if |optional| <= slots then |optional| else slots
    ensures 0 < slots < |optional| ==> EvenlySpread(optional, slots, out)
  {
    hide Increasing, SampleIndex, Front, EvenlySpread;
    if |optional| <= slots {
      FrontIsAll(optional, set x | x in optional);
      FrontSize(optional, |optional|);
      out := keep + set x | x in optional;
      assert keep !! (set x | x in optional);
    } else if slots > 0 {
      out := Spread(keep, optional, slots);
    } else {
      out := keep;
    }
  }

  method Spread(keep: set<nat>, optional: seq<nat>, slots: nat) returns (out: set<nat>)
    requires Increasing(optional) && forall x :: x in optional ==> x !in keep
    requires 0 < slots < |optional|
    ensures keep <= out && forall x :: x in out ==> x in keep || x in optional
    ensures |out| == |keep| + slots && EvenlySpread(optional, slots, out)
  {
    hide Increasing, SampleIndex, EvenlySpread;
    out := keep;
    for j := 0 to slots
      invariant keep <= out && |out| == |keep| + j
      invariant forall x :: SampledBefore(optional, slots, j, x) ==> x in out
      invariant forall x :: x in out ==> x in keep || SampledBefore(optional, slots, j, x)
    {
      var pos := SampleIndex(j, |optional|, slots);
      SampleInRange(j, |optional|, slots);
      var at := if pos < |optional| then pos else |optional| - 1;
      FreshSample(optional, slots, j);
      assert optional[at] in optional;
      out := out + {optional[at]};
      assert SampledBefore(optional, slots, j + 1, optional[at]);
    }
    SampledAreOptional(optional, slots);
    SamplesSpread(optional, slots, out);
  }

  lemma SamplesSpread(optional: seq<nat>, slots: nat, out: set<nat>)
    requires 0 < slots < |optional| && forall x :: SampledBefore(optional, slots, slots, x) ==> x in out
    ensures EvenlySpread(optional, slots, out)
  {
    hide SampleIndex, Near;
    forall p: nat | p < |optional|
      ensures TakenNear(optional, slots, out, p)
    {
      var j := SampleIsNear(p, |optional|, slots);
      SampleInRange(j, |optional|, slots);
      var q := SampleIndex(j, |optional|, slots);
      assert SampledBefore(optional, slots, slots, optional[q]);
    }
  }

  /** x is one of the first j samples. */
  ghost predicate SampledBefore(optional: seq<nat>, slots: nat, j: nat, x: nat)
    requires slots > 0
  {
    exists i :: && 0 <= i < j && SampleIndex(i, |optional|, slots) < |optional|
                && optional[SampleIndex(i, |optional|, slots)] == x
  }

  lemma FreshSample(optional: seq<nat>, slots: nat, j: nat)
    requires Increasing(optional) && 0 < slots < |optional| && j < slots
    ensures SampleIndex(j, |optional|, slots) < |optional|
    ensures !SampledBefore(optional, slots, j, optional[SampleIndex(j, |optional|, slots)])
  {
    hide SampleIndex;
    SampleInRange(j, |optional|, slots);
    forall i: nat | i < j
      ensures SampleIndex(i, |optional|, slots) < SampleIndex(j, |optional|, slots)
    {
      SamplesAreDistinct(i, j, |optional|, slots);
    }
  }

  lemma SampledAreOptional(optional: seq<nat>, slots: nat)
    requires slots > 0
    ensures forall x :: SampledBefore(optional, slots, slots, x) ==> x in optional
  {
  }
}
