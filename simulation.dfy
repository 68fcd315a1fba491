/** The simulation driver: create the assets, generate the time points, and
    for every time point move every asset, in creation order, and record it. */
module Simulation {
  import opened Walk
  import opened Identity
  import opened Ticks
  import opened Assets
  import opened Layout

  /** One row of the output table. The timestamp is in seconds from the start
      of the window. */
  datatype Record = Record(
    timestamp: int,
    assetId: string,
    latitude: real,
    longitude: real,
    assetType: AssetType,
    affiliation: Affiliation)

  /** The latitude axis of asset `i` after `k` ticks; latNoise(t, i) is the
      standard normal sample it draws for latitude at tick t. */
  function LatAfter(region: Region, draws: seq<InitDraw>, latNoise: (nat, nat) -> real, i: nat, k: nat): (a: Axis)
    requires i < |draws| && draws[i].Valid()
  {
    AxisAfter(InitialAxis(region.lat, draws[i].latU), region.lat, latNoise, i, k)
  }

  function LonAfter(region: Region, draws: seq<InitDraw>, lonNoise: (nat, nat) -> real, i: nat, k: nat): (a: Axis)
    requires i < |draws| && draws[i].Valid()
  {
    AxisAfter(InitialAxis(region.lon, draws[i].lonU), region.lon, lonNoise, i, k)
  }

  /** The row written for asset `i` at tick `k`: the position after that
      tick's update, so the initial position itself is never written. */
  function RowFor(region: Region, draws: seq<InitDraw>, latNoise: (nat, nat) -> real,
                  lonNoise: (nat, nat) -> real, tickSeconds: int, k: nat, i: nat): (row: Record)
    requires i < |draws| && draws[i].Valid()
    ensures region.Valid() ==> region.lat.Contains(row.latitude) && region.lon.Contains(row.longitude)
  {
    Record(k * tickSeconds, AssetId(i),
           LatAfter(region, draws, latNoise, i, k + 1).pos,
           LonAfter(region, draws, lonNoise, i, k + 1).pos,
           draws[i].kind, draws[i].affiliation)
  }

  /** The table's cell for tick k and asset i. */
  function TableCell(region: Region, draws: seq<InitDraw>, latNoise: (nat, nat) -> real,
                     lonNoise: (nat, nat) -> real, tickSeconds: int): (cell: (nat, nat) --> Record)
  {
    (k: nat, i: nat) requires i < |draws| && draws[i].Valid() =>
      RowFor(region, draws, latNoise, lonNoise, tickSeconds, k, i)
  }

  /** The first m rows simulate_data writes. */
  function Table(region: Region, draws: seq<InitDraw>, latNoise: (nat, nat) -> real,
                 lonNoise: (nat, nat) -> real, tickSeconds: int, m: nat): (t: seq<Record>)
    requires ValidDraws(draws) && (m == 0 || |draws| > 0)
    ensures |t| == m
  {
    Rows(|draws|, m, TableCell(region, draws, latNoise, lonNoise, tickSeconds))
  }

  /** Row j of the table is the row of asset AssetOf(j, n) at tick TickOf(j, n). */
  lemma TableAt(region: Region, draws: seq<InitDraw>, latNoise: (nat, nat) -> real,
                lonNoise: (nat, nat) -> real, tickSeconds: int, m: nat, j: nat)
    requires ValidDraws(draws) && |draws| > 0 && j < m
    ensures Table(region, draws, latNoise, lonNoise, tickSeconds, m)[j]
         == RowFor(region, draws, latNoise, lonNoise, tickSeconds, TickOf(j, |draws|), AssetOf(j, |draws|))
  {
    RowsAt(|draws|, m, TableCell(region, draws, latNoise, lonNoise, tickSeconds), j);
  }

  /** With n assets, row k * n + i is the row of asset i at tick k: the
      table is ordered by tick, and within a tick by creation order. */
  lemma TableOrder(region: Region, draws: seq<InitDraw>, latNoise: (nat, nat) -> real,
                   lonNoise: (nat, nat) -> real, tickSeconds: int, m: nat, k: nat, i: nat)
    requires ValidDraws(draws) && i < |draws| && k * |draws| + i < m
    ensures Table(region, draws, latNoise, lonNoise, tickSeconds, m)[k * |draws| + i]
         == RowFor(region, draws, latNoise, lonNoise, tickSeconds, k, i)
  {
    var j := k * |draws| + i;
    RowPosition(k, |draws|, i);
    TableAt(region, draws, latNoise, lonNoise, tickSeconds, m, j);
  }

  /** Inside valid bounds, every latitude and longitude written lies within
      them, whatever the random samples. */
  lemma TableInBounds(region: Region, draws: seq<InitDraw>, latNoise: (nat, nat) -> real,
                      lonNoise: (nat, nat) -> real, tickSeconds: int, m: nat, j: nat)
    requires ValidDraws(draws) && |draws| > 0 && j < m
    requires region.Valid()
    ensures region.lat.Contains(Table(region, draws, latNoise, lonNoise, tickSeconds, m)[j].latitude)
    ensures region.lon.Contains(Table(region, draws, latNoise, lonNoise, tickSeconds, m)[j].longitude)
  {
    TableAt(region, draws, latNoise, lonNoise, tickSeconds, m, j);
  }

  /** Two rows carry the same id exactly when they belong to the same asset,
      and every row of an asset repeats the type and affiliation drawn when it
      was created. */
  lemma TableIdentity(region: Region, draws: seq<InitDraw>, latNoise: (nat, nat) -> real,
                      lonNoise: (nat, nat) -> real, tickSeconds: int, m: nat, j1: nat, j2: nat)
    requires ValidDraws(draws) && |draws| > 0 && j1 < m && j2 < m
    ensures var t := Table(region, draws, latNoise, lonNoise, tickSeconds, m);
      (t[j1].assetId == t[j2].assetId <==> AssetOf(j1, |draws|) == AssetOf(j2, |draws|)) &&
      t[j1].assetType == draws[AssetOf(j1, |draws|)].kind &&
      t[j1].affiliation == draws[AssetOf(j1, |draws|)].affiliation
  {
    TableAt(region, draws, latNoise, lonNoise, tickSeconds, m, j1);
    TableAt(region, draws, latNoise, lonNoise, tickSeconds, m, j2);
    AssetIdInjective(AssetOf(j1, |draws|), AssetOf(j2, |draws|));
  }

  /** Every row of a whole run carries the time of its tick, and that time
      lies inside the window. */
  lemma TableTimes(region: Region, draws: seq<InitDraw>, latNoise: (nat, nat) -> real,
                   lonNoise: (nat, nat) -> real, durationSeconds: int, tickSeconds: int, k: nat, i: nat)
    requires ValidDraws(draws) && i < |draws|
    requires tickSeconds > 0 || durationSeconds < 0
    requires k < TickCount(0, durationSeconds, tickSeconds)
    ensures var t := Table(region, draws, latNoise, lonNoise, tickSeconds,
                           |draws| * TickCount(0, durationSeconds, tickSeconds));
      k * |draws| + i < |t| &&
      t[k * |draws| + i].timestamp == k * tickSeconds &&
      0 <= t[k * |draws| + i].timestamp <= durationSeconds
  {
    var n, count := |draws|, TickCount(0, durationSeconds, tickSeconds);
    MulMonotone(k + 1, count, n);
    assert k * n + i < n * count;
    TableOrder(region, draws, latNoise, lonNoise, tickSeconds, n * count, k, i);
    TickInWindow(0, durationSeconds, tickSeconds, k);
  }

  /** The rows one tick yields, asset by asset, extend the table by that tick. */
  lemma TickRows(region: Region, draws: seq<InitDraw>, latNoise: (nat, nat) -> real,
                 lonNoise: (nat, nat) -> real, tickSeconds: int, k: nat, rows: seq<Record>)
    requires ValidDraws(draws)
    requires |rows| == |draws|
    requires forall i :: 0 <= i < |draws| ==>
      rows[i] == Record(k * tickSeconds, AssetId(i),
                        AxisStep(LatAfter(region, draws, latNoise, i, k), latNoise(k, i), region.lat).pos,
                        AxisStep(LonAfter(region, draws, lonNoise, i, k), lonNoise(k, i), region.lon).pos,
                        draws[i].kind, draws[i].affiliation)
    ensures Table(region, draws, latNoise, lonNoise, tickSeconds, (k + 1) * |draws|)
         == Table(region, draws, latNoise, lonNoise, tickSeconds, k * |draws|) + rows
  {
    if |draws| > 0 {
      var cell := TableCell(region, draws, latNoise, lonNoise, tickSeconds);
      forall i | 0 <= i < |draws|
        ensures rows[i] == cell(k, i)
      {
        assert AxisStep(LatAfter(region, draws, latNoise, i, k), latNoise(k, i), region.lat)
            == LatAfter(region, draws, latNoise, i, k + 1);
        assert AxisStep(LonAfter(region, draws, lonNoise, i, k), lonNoise(k, i), region.lon)
            == LonAfter(region, draws, lonNoise, i, k + 1);
      }
      RowsAppendTick(|draws|, k, cell, rows);
    } else {
      assert rows == [];
    }
  }

  /** The inner loop of one tick at time t: every asset, in creation order,
      takes its step and then yields its row. */
  method AdvanceTick(assets: seq<Asset>, t: int, k: nat, region: Region,
                     latNoise: (nat, nat) -> real, lonNoise: (nat, nat) -> real)
    returns (rows: seq<Record>)
    requires forall i, j :: 0 <= i < j < |assets| ==> assets[i] != assets[j]
    modifies set i | 0 <= i < |assets| :: assets[i]
    ensures |rows| == |assets|
    ensures forall i :: 0 <= i < |assets| ==>
      assets[i].LatAxis() == AxisStep(old(assets[i].LatAxis()), latNoise(k, i), region.lat) &&
      assets[i].LonAxis() == AxisStep(old(assets[i].LonAxis()), lonNoise(k, i), region.lon)
    ensures forall i :: 0 <= i < |assets| ==>
      rows[i] == Record(t, assets[i].id, assets[i].lat, assets[i].lon, assets[i].kind, assets[i].affiliation)
  {
    rows := [];
    for a := 0 to |assets|
      invariant |rows| == a
      invariant forall i :: 0 <= i < a ==>
        assets[i].LatAxis() == AxisStep(old(assets[i].LatAxis()), latNoise(k, i), region.lat) &&
        assets[i].LonAxis() == AxisStep(old(assets[i].LonAxis()), lonNoise(k, i), region.lon)
      invariant forall i :: a <= i < |assets| ==>
        assets[i].LatAxis() == old(assets[i].LatAxis()) && assets[i].LonAxis() == old(assets[i].LonAxis())
      invariant forall i :: 0 <= i < a ==>
        rows[i] == Record(t, assets[i].id, assets[i].lat, assets[i].lon, assets[i].kind, assets[i].affiliation)
    {
      var asset := assets[a];
      asset.Step(latNoise(k, a), lonNoise(k, a), region);
      rows := rows + [Record(t, asset.id, asset.lat, asset.lon, asset.kind, asset.affiliation)];
    }
  }

  /** simulate_data: `draws` holds one entry per asset, in creation order;
      the window runs from second 0 to second durationSeconds. */
  method Simulate(numAssets: nat, durationSeconds: int, tickSeconds: int, region: Region,
                  draws: seq<InitDraw>, latNoise: (nat, nat) -> real, lonNoise: (nat, nat) -> real)
    returns (records: seq<Record>)
    requires tickSeconds > 0 || durationSeconds < 0
    requires |draws| == numAssets && ValidDraws(draws)
    ensures |records| == numAssets * TickCount(0, durationSeconds, tickSeconds)
    ensures records == Table(region, draws, latNoise, lonNoise, tickSeconds, |records|)
    ensures region.Valid() ==> forall j :: 0 <= j < |records| ==>
      region.lat.Contains(records[j].latitude) && region.lon.Contains(records[j].longitude)
  {
    var assets := CreateAssets(region, draws);
    var ticks := TimePoints(0, durationSeconds, tickSeconds);
    records := [];
    for k := 0 to |ticks|
      invariant |records| == numAssets * k
      invariant records == Table(region, draws, latNoise, lonNoise, tickSeconds, |records|)
      invariant forall i :: 0 <= i < numAssets ==> fresh(assets[i])
      invariant forall i :: 0 <= i < numAssets ==>
        assets[i].id == AssetId(i) && assets[i].kind == draws[i].kind &&
        assets[i].affiliation == draws[i].affiliation
      invariant forall i :: 0 <= i < numAssets ==>
        assets[i].LatAxis() == LatAfter(region, draws, latNoise, i, k) &&
        assets[i].LonAxis() == LonAfter(region, draws, lonNoise, i, k)
    {
      var rows := AdvanceTick(assets, ticks[k], k, region, latNoise, lonNoise);
      TickRows(region, draws, latNoise, lonNoise, tickSeconds, k, rows);
      assert numAssets * k == k * numAssets && numAssets * (k + 1) == (k + 1) * numAssets;
      records := records + rows;
    }
    forall j | 0 <= j < |records| && region.Valid()
      ensures region.lat.Contains(records[j].latitude) && region.lon.Contains(records[j].longitude)
    {
      TableInBounds(region, draws, latNoise, lonNoise, tickSeconds, |records|, j);
    }
  }

  /** Two assets in the unit square, a 60-second window and 30-second ticks:
      the time points are 0, 30 and 60, so six rows are written. */
  method TwoAssetsOneMinute() returns (records: seq<Record>)
    ensures |records| == 6
    ensures forall j :: 0 <= j < 6 ==> 0.0 <= records[j].latitude <= 1.0 && 0.0 <= records[j].longitude <= 1.0
  {
    var unit := Range(0.0, 1.0);
    var draws := [InitDraw(Vessel, Friend, 0.5, 0.5), InitDraw(Aircraft, Neutral, 0.25, 0.75)];
    var region := Region(unit, unit);
    assert region.Valid() && TickCount(0, 60, 30) == 3;
    records := Simulate(2, 60, 30, region, draws, (t: nat, i: nat) => 3.0, (t: nat, i: nat) => -1.0);
  }
}
