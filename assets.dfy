/** The mutable per-asset record of the simulator and its creation. */
module Assets {
  import opened Walk
  import opened Identity

  /** Every asset's initial step is this fraction of the span of each axis. */
  const StepFraction: real := 0.005

  /** The random outcomes that create one asset: the two random.choice picks
      and, for each axis, the value u of random.random() in [0, 1) that
      random.uniform(lo, hi) turns into lo + (hi - lo) * u. */
  datatype InitDraw = InitDraw(kind: AssetType, affiliation: Affiliation, latU: real, lonU: real) {
    predicate Valid() { 0.0 <= latU < 1.0 && 0.0 <= lonU < 1.0 }
  }

  predicate ValidDraws(draws: seq<InitDraw>) { forall i :: 0 <= i < |draws| ==> draws[i].Valid() }

  /** random.uniform(lo, hi) for the sample u. */
  function Uniform(r: Range, u: real): (x: real)
    requires 0.0 <= u < 1.0
    ensures r.Valid() ==> r.Contains(x)
    ensures !r.Valid() ==> r.hi < x <= r.lo
  {
    var d := r.hi - r.lo;
    ScaledFraction(d, u);
    var e := d * u;
    r.lo + e
  }

  /** A fraction u in [0, 1) of d lies between 0 and d. */
  lemma ScaledFraction(d: real, u: real)
    requires 0.0 <= u < 1.0
    ensures d >= 0.0 ==> 0.0 <= d * u <= d
    ensures d < 0.0 ==> d < d * u <= 0.0
  {
  }

  /** The starting state of one axis: a uniform position, and a step that
      depends on the bounds alone. */
  function InitialAxis(r: Range, u: real): (a: Axis)
    requires 0.0 <= u < 1.0
    ensures r.Valid() ==> r.Contains(a.pos)
    ensures r.Valid() ==> a.step >= 0.0
  {
    Axis(Uniform(r, u), (r.hi - r.lo) * StepFraction)
  }

  /** All assets share the initial step of each axis, 0.005 times its span. */
  lemma InitialStepShared(r: Range, u: real, v: real)
    requires 0.0 <= u < 1.0 && 0.0 <= v < 1.0
    ensures InitialAxis(r, u).step == InitialAxis(r, v).step == StepFraction * (r.hi - r.lo)
  {
  }

  /** One asset: its identity is fixed at creation; its position and step
      scales change in place on every tick. */
  class Asset {
    const id: string
    const kind: AssetType
    const affiliation: Affiliation
    var lat: real
    var lon: real
    var latStep: real
    var lonStep: real

    function LatAxis(): (a: Axis) reads this { Axis(lat, latStep) }
    function LonAxis(): (a: Axis) reads this { Axis(lon, lonStep) }

    /** The asset at 0-based position `index`, created from its draws. */
    constructor (index: nat, region: Region, draw: InitDraw)
      requires draw.Valid()
      ensures id == AssetId(index) && kind == draw.kind && affiliation == draw.affiliation
      ensures LatAxis() == InitialAxis(region.lat, draw.latU)
      ensures LonAxis() == InitialAxis(region.lon, draw.lonU)
    {
      id := AssetId(index);
      kind := draw.kind;
      affiliation := draw.affiliation;
      lat := Uniform(region.lat, draw.latU);
      lon := Uniform(region.lon, draw.lonU);
      latStep := (region.lat.hi - region.lat.lo) * StepFraction;
      lonStep := (region.lon.hi - region.lon.lo) * StepFraction;
    }

    /** One tick: perturb both axes, then clip and reflect each axis that left
        the bounds. Each axis moves by its own draw and its own step only. */
    method Step(zLat: real, zLon: real, region: Region)
      modifies this
      ensures LatAxis() == AxisStep(old(LatAxis()), zLat, region.lat)
      ensures LonAxis() == AxisStep(old(LonAxis()), zLon, region.lon)
    {
      ghost var latBefore, lonBefore := LatAxis(), LonAxis();
      lat := lat + Abs(latStep) * zLat;
      lon := lon + Abs(lonStep) * zLon;
      assert lat == Perturbed(latBefore, zLat) && lon == Perturbed(lonBefore, zLon);
      if !region.lat.Contains(lat) {
        lat := Clip(lat, region.lat);
        latStep := latStep * -0.5;
      }
      if !region.lon.Contains(lon) {
        lon := Clip(lon, region.lon);
        lonStep := lonStep * -0.5;
      }
    }
  }

  /** The asset `a` is the one created at position `i` from `draw`, in its
      initial state. */
  ghost predicate Created(a: Asset, i: nat, region: Region, draw: InitDraw)
    reads a
  {
    draw.Valid() &&
    a.id == AssetId(i) && a.kind == draw.kind && a.affiliation == draw.affiliation &&
    a.LatAxis() == InitialAxis(region.lat, draw.latU) &&
    a.LonAxis() == InitialAxis(region.lon, draw.lonU)
  }

  /** Creates one asset per draw, in order, as distinct new objects. */
  method CreateAssets(region: Region, draws: seq<InitDraw>) returns (assets: seq<Asset>)
    requires ValidDraws(draws)
    ensures |assets| == |draws|
    ensures forall i :: 0 <= i < |assets| ==> fresh(assets[i])
    ensures forall i, j :: 0 <= i < j < |assets| ==> assets[i] != assets[j]
    ensures forall i :: 0 <= i < |assets| ==> Created(assets[i], i, region, draws[i])
  {
    assets := [];
    for i := 0 to |draws|
      invariant |assets| == i
      invariant forall j :: 0 <= j < i ==> fresh(assets[j])
      invariant forall j, l :: 0 <= j < l < i ==> assets[j] != assets[l]
      invariant forall j :: 0 <= j < i ==> Created(assets[j], j, region, draws[j])
    {
      var a := new Asset(i, region, draws[i]);
      assets := assets + [a];
    }
  }
}
