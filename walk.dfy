/** The per-axis random walk of one asset: perturb, clip to the bounds, and
    reflect the step with damping (halve and negate) when the clip fires. */
module Walk {

  /** One coordinate axis of the region, the closed interval [lo, hi]. */
  datatype Range = Range(lo: real, hi: real) {
    predicate Valid() { lo <= hi }
    predicate Contains(x: real) { lo <= x <= hi }
  }

  /** The latitude and longitude bounds of the simulated area. */
  datatype Region = Region(lat: Range, lon: Range) {
    predicate Valid() { lat.Valid() && lon.Valid() }
  }

  /** The walking state of one axis: the coordinate and its step scale. */
  datatype Axis = Axis(pos: real, step: real)

  function Abs(x: real): (r: real)
    ensures r >= 0.0 && (r == x || r == -x)
  {
    if x < 0.0 then -x else x
  }

  /** numpy.clip(x, lo, hi), that is min(max(x, lo), hi); when lo > hi every
      value clips to hi. */
  function Clip(x: real, r: Range): (c: real)
    ensures r.Valid() ==> r.Contains(c)
    ensures r.Contains(x) ==> c == x
    ensures !r.Valid() ==> c == r.hi
  {
    var m := if x < r.lo then r.lo else x;
    if m > r.hi then r.hi else m
  }

  /** On valid bounds the clip is the point of the interval nearest to x. */
  lemma ClipIsNearest(x: real, r: Range, y: real)
    requires r.Valid() && r.Contains(y)
    ensures Abs(Clip(x, r) - x) <= Abs(y - x)
  {
  }

  /** The coordinate after the Gaussian perturbation: a normal draw with mean 0
      and spread |step| is |step| * z for a standard normal sample z. */
  function Perturbed(a: Axis, z: real): (p: real)
    ensures a.step == 0.0 ==> p == a.pos
    ensures z >= 0.0 ==> p >= a.pos
    ensures z <= 0.0 ==> p <= a.pos
  {
    a.pos + Abs(a.step) * z
  }

  /** The step leaves the bounds, so the clip and the damped reflection run. */
  predicate Reflects(a: Axis, z: real, r: Range)
  {
    !r.Contains(Perturbed(a, z))
  }

  /** One tick on one axis. */
  function AxisStep(a: Axis, z: real, r: Range): (n: Axis)
    ensures r.Valid() ==> r.Contains(n.pos)
    ensures Abs(n.step) <= Abs(a.step)
    ensures Abs(n.step) == if Reflects(a, z, r) then Abs(a.step) / 2.0 else Abs(a.step)
    ensures r.Valid() && Perturbed(a, z) < r.lo ==> n.pos == r.lo
    ensures r.Valid() && Perturbed(a, z) > r.hi ==> n.pos == r.hi
  {
    var p := Perturbed(a, z);
    if r.Contains(p) then Axis(p, a.step) else Axis(Clip(p, r), a.step * -0.5)
  }

  /** A perturbed value inside the bounds is kept exactly, with the step
      unchanged; only a value outside is clipped, and only then does the step
      become -0.5 times the old one. */
  lemma ClipOnlyOutOfBounds(a: Axis, z: real, r: Range)
    requires r.Valid()
    ensures r.Contains(Perturbed(a, z)) <==> AxisStep(a, z, r).pos == Perturbed(a, z)
    ensures r.Contains(Perturbed(a, z)) ==> AxisStep(a, z, r).step == a.step
    ensures !r.Contains(Perturbed(a, z)) ==> AxisStep(a, z, r).step == -0.5 * a.step
    ensures Perturbed(a, z) < r.lo ==> AxisStep(a, z, r).pos == r.lo
    ensures Perturbed(a, z) > r.hi ==> AxisStep(a, z, r).pos == r.hi
  {
  }

  /** The sign of the step does not change where the asset goes: negating the
      step gives the same position and the negated new step. */
  lemma SignIrrelevant(a: Axis, z: real, r: Range)
    ensures AxisStep(Axis(a.pos, -a.step), z, r)
         == Axis(AxisStep(a, z, r).pos, -AxisStep(a, z, r).step)
  {
    assert Abs(-a.step) == Abs(a.step);
    assert Perturbed(Axis(a.pos, -a.step), z) == Perturbed(a, z);
  }

  /** The state of axis `a0` of asset `i` after `k` ticks, where z(t, i) is
      the standard normal sample that asset `i` draws for this axis at tick t. */
  function AxisAfter(a0: Axis, r: Range, z: (nat, nat) -> real, i: nat, k: nat): (a: Axis)
    ensures r.Valid() && (k > 0 || r.Contains(a0.pos)) ==> r.Contains(a.pos)
    ensures Abs(a.step) <= Abs(a0.step)
    decreases k
  {
    if k == 0 then a0 else AxisStep(AxisAfter(a0, r, z, i, k - 1), z(k - 1, i), r)
  }

  /** How many of the first `k` ticks clipped this axis. */
  function Reflections(a0: Axis, r: Range, z: (nat, nat) -> real, i: nat, k: nat): (n: nat)
    ensures n <= k
    decreases k
  {
    if k == 0 then 0
    else Reflections(a0, r, z, i, k - 1)
         + (if Reflects(AxisAfter(a0, r, z, i, k - 1), z(k - 1, i), r) then 1 else 0)
  }

  /** x halved n times, that is x * 0.5^n. */
  function Halved(x: real, n: nat): (h: real)
    ensures 0.0 <= x ==> 0.0 <= h <= x
  {
    if n == 0 then x else Halved(x, n - 1) / 2.0
  }

  /** Every position after at least one tick lies inside valid bounds, whatever
      the samples; the starting position counts only when it is inside. */
  lemma AxisInBounds(a0: Axis, r: Range, z: (nat, nat) -> real, i: nat, k: nat)
    requires r.Valid()
    requires k > 0 || r.Contains(a0.pos)
    ensures r.Contains(AxisAfter(a0, r, z, i, k).pos)
  {
  }

  /** The step magnitude is the initial one halved once per reflection. */
  lemma {:induction false} StepMagnitude(a0: Axis, r: Range, z: (nat, nat) -> real, i: nat, k: nat)
    ensures Abs(AxisAfter(a0, r, z, i, k).step) == Halved(Abs(a0.step), Reflections(a0, r, z, i, k))
    decreases k
  {
    if k > 0 {
      StepMagnitude(a0, r, z, i, k - 1);
    }
  }

  /** The step magnitude never grows over a run. */
  lemma {:induction false} StepNeverGrows(a0: Axis, r: Range, z: (nat, nat) -> real, i: nat, j: nat, k: nat)
    requires j <= k
    ensures Abs(AxisAfter(a0, r, z, i, k).step) <= Abs(AxisAfter(a0, r, z, i, j).step)
    decreases k
  {
    if j < k {
      StepNeverGrows(a0, r, z, i, j, k - 1);
    }
  }

  /** Over a whole run the sign of the initial step is irrelevant: the track is
      the same and every later step is negated. */
  lemma {:induction false} SignIrrelevantAfter(a0: Axis, r: Range, z: (nat, nat) -> real, i: nat, k: nat)
    ensures AxisAfter(Axis(a0.pos, -a0.step), r, z, i, k)
         == Axis(AxisAfter(a0, r, z, i, k).pos, -AxisAfter(a0, r, z, i, k).step)
    decreases k
  {
    if k > 0 {
      var b := AxisAfter(a0, r, z, i, k - 1);
      SignIrrelevantAfter(a0, r, z, i, k - 1);
      SignIrrelevant(b, z(k - 1, i), r);
      assert AxisAfter(Axis(a0.pos, -a0.step), r, z, i, k)
          == AxisStep(Axis(b.pos, -b.step), z(k - 1, i), r);
    }
  }
}
