/** The time points of the simulation: start, start + delta, start + 2*delta,
    ... as long as the point does not pass the end. Times are whole seconds. */
module Ticks {

  /** The number of time points; the generating loop only ends when the step
      is positive or the window is already empty. */
  function TickCount(start: int, end: int, delta: int): (n: nat)
    requires delta > 0 || start > end
    ensures start > end ==> n == 0
    ensures start <= end ==> n >= 1 && start + (n - 1) * delta <= end < start + n * delta
  {
    if start > end then 0
    else
      var q := (end - start) / delta;
      assert end - start == q * delta + (end - start) % delta;
      assert (q + 1) * delta == q * delta + delta;
      q + 1
  }

  /** If the n-th point is the last one not past the end, there are
      exactly floor((end - start) / delta) + 1 points. */
  lemma LastPointCount(start: int, end: int, delta: int, n: nat)
    requires delta > 0 && n >= 1
    requires start + (n - 1) * delta <= end < start + n * delta
    ensures n == (end - start) / delta + 1
  {
    var d := end - start;
    var q := d / delta;
    assert d == q * delta + d % delta;
    MulCancel(n - 1, q + 1, delta);
    MulCancel(q, n, delta);
  }

  /** Multiplying by a positive factor preserves strict order, so it can be cancelled. */
  lemma MulCancel(a: int, b: int, d: int)
    requires d > 0 && a * d < b * d
    ensures a < b
  {
  }

  /** Time point k of the sequence lies inside the window. */
  lemma TickInWindow(start: int, end: int, delta: int, k: nat)
    requires delta > 0 || start > end
    requires k < TickCount(start, end, delta)
    ensures start <= start + k * delta <= end
  {
    var q := (end - start) / delta;
    assert end - start == q * delta + (end - start) % delta;
    MulMonotone(k, q, delta);
  }

  lemma MulMonotone(a: nat, b: nat, d: nat)
    requires a <= b
    ensures a * d <= b * d
  {
  }

  /** Without a positive step a non-empty window never ends: every point the
      loop would reach still satisfies its guard. */
  lemma NeverEnds(start: int, end: int, delta: int, j: nat)
    requires delta <= 0 && start <= end
    ensures start + j * delta <= end
  {
  }

  /** Point k of the sequence, reached by adding delta k times. */
  function Point(start: int, delta: int, k: nat): (p: int)
    decreases k
  {
    if k == 0 then start else Point(start, delta, k - 1) + delta
  }

  lemma {:induction false} PointIsLinear(start: int, delta: int, k: nat)
    ensures Point(start, delta, k) == start + k * delta
    decreases k
  {
    if k > 0 {
      PointIsLinear(start, delta, k - 1);
      assert (k - 1) * delta + delta == k * delta;
    }
  }

  /** The generating loop: starts at start and adds delta while the point is
      not past the end. */
  method TimePoints(start: int, end: int, delta: int) returns (ts: seq<int>)
    requires delta > 0 || start > end
    ensures |ts| == TickCount(start, end, delta)
    ensures forall k :: 0 <= k < |ts| ==> ts[k] == start + k * delta
    ensures forall k :: 0 <= k < |ts| ==> ts[k] <= end
    ensures start + |ts| * delta > end
  {
    ts := [];
    var t := start;
    while t <= end
      invariant t == Point(start, delta, |ts|)
      invariant forall k :: 0 <= k < |ts| ==> ts[k] == Point(start, delta, k) && ts[k] <= end
      invariant delta <= 0 ==> ts == [] && t == start
      decreases end - t
    {
      ts := ts + [t];
      t := t + delta;
    }
    forall k | 0 <= k < |ts|
      ensures ts[k] == start + k * delta
    {
      PointIsLinear(start, delta, k);
    }
    PointIsLinear(start, delta, |ts|);
    if ts != [] {
      LastPointCount(start, end, delta, |ts|);
    }
  }
}
