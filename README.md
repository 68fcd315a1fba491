# Random-walk track simulator

A model of `simulate_data` in `HW3/visualization.py`. This function generates
synthetic GPS tracks of the assets of a disaster-response exercise.

## What it does

- **Assets.** It creates `num_assets` assets. Each one gets:
  - the id `Asset_001`, `Asset_002`, …;
  - a random type (Vessel, Personnel, Vehicle, Aircraft);
  - a random affiliation (Friend, Unknown, Neutral);
  - a uniform starting point inside the latitude and longitude bounds;
  - a step scale per axis of 0.005 times that axis's span.
- **Time points.** It lists the time points from the start of the window to
  its end, one every `time_step_seconds`.
- **Movement.** At every time point it moves every asset in creation order.
  On each axis:
  - it adds a normal perturbation with spread `|step|`;
  - a coordinate that leaves the bounds is clipped back, and that axis's
    step is multiplied by -0.5 (a damped reflection).
- **Records.** After moving an asset it appends one record: timestamp, id,
  latitude, longitude, type and affiliation.

## How the model is organised

| module | file | contents |
|---|---|---|
| `Walk` | `walk.dfy` | arithmetic of one axis: the clip, one tick (`AxisStep`), the state after k ticks (`AxisAfter`), and their lemmas |
| `Identity` | `identity.dfy` | asset types, affiliations, and the zero-padded ids |
| `Ticks` | `ticks.dfy` | the time-point loop as a method, with its closed-form count |
| `Assets` | `assets.dfy` | the mutable asset as a class, with a `Step` method that updates its fields in place, and the creation loop |
| `Layout` | `layout.dfy` | the tick-major, asset-minor row order of the output table |
| `Simulation` | `simulation.dfy` | the nested driver loops, as methods, proved equal to a table defined row by row (`Table`/`RowFor`) |

### Randomness and time are inputs

- **`random.choice`.** Each pick is an enum value in `InitDraw`.
- **`random.uniform(lo, hi)`.** It is `lo + (hi - lo) * u` for the sample
  `u` of `random.random()` in [0, 1).
- **`np.random.normal(0, |s|)`.** It is `|s| * z` for a standard normal
  sample `z`. The caller supplies the samples as `latNoise(t, i)` and
  `lonNoise(t, i)`, where t is the tick index and i the asset index.
- **Time.** It is in whole seconds from the start of the window, which
  runs from 0 to `durationSeconds`.

## Model

| member | source | states |
|---|---|---|
| Walk.Clip | HW3/visualization.py:65 | numpy.clip keeps a value that is already inside; inside valid bounds the result always lies within them; with inverted bounds everything clips to the upper bound |
| Walk.Perturbed | HW3/visualization.py:60-61 | adding the normal draw of spread abs(step) to the coordinate: a zero step leaves it where it is, and a non-negative (non-positive) sample never moves it down (up) |
| Walk.ClipIsNearest | HW3/visualization.py:65 | on valid bounds the clipped value is the point of the interval nearest to the input |
| Walk.AxisStep | HW3/visualization.py:60-69 | after one tick the coordinate lies within valid bounds, and on valid bounds a coordinate that fell below lo is clipped to lo and one that rose above hi is clipped to hi; the step magnitude is halved when the clip fired and unchanged otherwise, so it never grows |
| Walk.ClipOnlyOutOfBounds | HW3/visualization.py:64-69 | on valid bounds, the perturbed coordinate is kept exactly if and only if it is inside the bounds; inside, the step is unchanged; outside, it becomes -0.5 times the old step, and the coordinate lands on the bound it crossed: lo when it fell below, hi when it rose above |
| Walk.SignIrrelevant | HW3/visualization.py:60-69 | negating the step gives the same new position and the negated new step, because the spread uses only abs(step) |
| Walk.AxisAfter | HW3/visualization.py:57-69 | the state of one axis of one asset after k passes of the loops: inside valid bounds once at least one tick has run (or from the start if the start is inside), with a step magnitude no larger than the initial one |
| Walk.Reflections | HW3/visualization.py:64-69 | the number of reflections in k ticks is at most k |
| Walk.Halved | HW3/visualization.py:64-69 | halving a non-negative magnitude n times keeps it between 0 and its start |
| Walk.AxisInBounds | HW3/visualization.py:36-69 | after any number of ticks the coordinate lies within valid bounds, whatever the samples |
| Walk.StepMagnitude | HW3/visualization.py:64-69 | the step magnitude after k ticks is the initial one halved once per reflection, that is initial * 0.5^reflections |
| Walk.StepNeverGrows | HW3/visualization.py:64-69 | the step magnitude at a later tick is never larger than at an earlier one |
| Walk.SignIrrelevantAfter | HW3/visualization.py:60-69 | over a whole run, flipping the sign of the initial step leaves the track unchanged and negates every later step |
| Identity.DecimalRoundTrip | HW3/visualization.py:32 | reading back the decimal digits of n gives n |
| Identity.AssetId | HW3/visualization.py:32 | the id starts with "Asset_" and has length 6 + max(3, number of digits of i+1), the minimum width of the zero padding |
| Identity.AssetIdShape | HW3/visualization.py:32 | an id is "Asset_" followed by decimal digits, exactly three when i+1 has at most three digits and otherwise exactly the digits of i+1, so, since the decimal form of a positive number has no leading zero, there are no extra leading zeros |
| Identity.AssetIdNumber | HW3/visualization.py:32 | the digits of the id of the asset at position i read back as i+1 |
| Identity.AssetIdInjective | HW3/visualization.py:31-41 | two positions get the same id if and only if they are the same position, so no dictionary entry is overwritten |
| Identity.AssetIdExamples | HW3/visualization.py:32 | positions 0, 41 and 999 get "Asset_001", "Asset_042" and "Asset_1000" (the width is a minimum) |
| Ticks.LastPointCount | HW3/visualization.py:51-55 | if the n-th point is the last one not past the end, then n = floor((end - start) / delta) + 1 |
| Ticks.TickCount | HW3/visualization.py:51-55 | the length of the time-point list: zero for an empty window; otherwise at least one, with its last point not past the end and the next one past it |
| Ticks.TickInWindow | HW3/visualization.py:51-55 | every time point lies between the start and the end of the window |
| Ticks.NeverEnds | HW3/visualization.py:53-55 | in unbounded integer time, with a step of zero or less and a non-empty window, every point the loop reaches still passes its guard, so the loop does not end; in the source only a zero step truly never ends, since a negative one hits datetime's lower limit |
| Ticks.PointIsLinear | HW3/visualization.py:52-55 | adding the step k times to the start gives start + k * step |
| Ticks.TimePoints | HW3/visualization.py:51-55 | the list holds floor((end - start) / delta) + 1 points (none for an empty window); point k is start + k * delta and not past the end; the next point would be past the end |
| Assets.Uniform | HW3/visualization.py:36-37 | random.uniform lands inside valid bounds, and strictly inside (hi, lo] when the bounds are inverted |
| Assets.InitialAxis | HW3/visualization.py:36-40 | each starting coordinate lies within valid bounds, and its step is non-negative |
| Assets.InitialStepShared | HW3/visualization.py:39-40 | every asset starts with step 0.005 times the span of the axis, whatever its own draws |
| Assets.Asset.constructor | HW3/visualization.py:32-48 | a new asset has the id of its position, its drawn type and affiliation, and the initial axes |
| Assets.Asset.Step | HW3/visualization.py:60-69 | the new latitude state is one axis step from the old latitude state alone, and the same holds for longitude, so the axes are independent |
| Assets.CreateAssets | HW3/visualization.py:30-48 | one new, distinct asset per draw, in order, each created from its own draw at its own position |
| Layout.AssetOf | HW3/visualization.py:57-58 | the asset of a row is below the number of assets |
| Layout.RowPosition | HW3/visualization.py:57-58 | asset a of tick k is at row k * n + a |
| Layout.RowIsDivMod | HW3/visualization.py:57-58 | the tick and asset of row j are j / n and j % n |
| Layout.Rows | HW3/visualization.py:57-71 | the table of the first m rows has m rows |
| Layout.RowsAt | HW3/visualization.py:57-71 | row j of the table is the cell of its tick and asset |
| Layout.RowsAppendTick | HW3/visualization.py:57-71 | appending the n rows of tick k to the first k * n rows gives the first (k + 1) * n rows |
| Simulation.Table | HW3/visualization.py:57-78 | the table of the first m records has m rows |
| Simulation.TableAt | HW3/visualization.py:57-78 | record j is the row of asset AssetOf(j, n) at tick TickOf(j, n), which are j % n and j / n by Layout.RowIsDivMod |
| Simulation.RowFor | HW3/visualization.py:71-78 | the record of asset i at tick k: inside valid bounds its latitude and longitude lie within them |
| Simulation.TableOrder | HW3/visualization.py:57-78 | record k * n + i belongs to asset i at tick k and holds its position after that tick's move, never the initial position |
| Simulation.TableInBounds | HW3/visualization.py:64-75 | inside valid bounds every latitude and longitude written lies within them, whatever the samples |
| Simulation.TableIdentity | HW3/visualization.py:71-77 | two records have the same id if and only if they belong to the same asset; every record repeats its asset's type and affiliation |
| Simulation.TableTimes | HW3/visualization.py:57-72 | every record of a run carries the time of its tick, and that time lies inside the window |
| Simulation.TickRows | HW3/visualization.py:57-78 | the rows of one tick, asset by asset, extend the table by exactly that tick |
| Simulation.AdvanceTick | HW3/visualization.py:58-78 | every asset takes one step with its own samples, and the rows are the assets' new states, stamped with the tick's time, in creation order |
| Simulation.Simulate | HW3/visualization.py:22-82 | the output has num_assets * len(time_points) records, equal to the table defined row by row; inside valid bounds every position written is within them |
| Simulation.TwoAssetsOneMinute | HW3/visualization.py:51-78 | two assets, a 60-second window and 30-second ticks give 3 time points and six records, all inside the unit square |

## Left out

- `create_improved_map` (HW3/visualization.py:84-216) is not modelled. It is map rendering with folium and pandas.
- The `__main__` block (HW3/visualization.py:219-247) is not modelled. It does CSV export, HTML output and opens a browser.
- `print` calls are not modelled. They are console output only.
- `datetime.now()` is not modelled. Time is in seconds from the start of the window. The window has length `durationSeconds`, so the small gap between the two `now()` calls is not captured.
- `isoformat()` is not modelled. A timestamp is its offset in seconds.
- The distributions of `random.choice`, `random.uniform` and `np.random.normal` are not modelled. The model takes their outcomes as inputs, as described above, and says nothing about statistics.
- IEEE floating point is not modelled. Coordinates are exact reals, so rounding in `lo + (hi - lo) * u` and in the perturbation is not captured.
- The pandas DataFrame is modelled as a `seq<Record>`. Its column names and dtypes are not modelled.
- Simulate: `num_assets` is a `nat`. A negative count in Python gives an empty `range`, which gives the same empty output.
- Simulate: the window length is given in seconds, `durationSeconds` = 3600 × `duration_hours`, and the step in `tickSeconds`. Both must be whole numbers of seconds. A window or step with a fractional second is not modelled.
- Simulate: over a non-empty window, a step of zero never ends the time-point loop. A negative step ends it with OverflowError once the time falls below `datetime.min`, or with MemoryError first. The model requires `tickSeconds > 0` or an empty window, so it excludes both cases. `Ticks.NeverEnds` states that in unbounded integer time the guard stays true for a step of zero or less.
- The bounded range of `datetime` (years 1 to 9999) is not modelled. Times are unbounded integers. So the OverflowError that `datetime ± timedelta` raises outside that range (HW3/visualization.py:26, 55) is not modelled. For example, a step of 3·10^11 seconds raises it in the source on the first increment, while the model yields one time point.
- Asset state is held in a sequence of `Asset` objects in creation order, not in a dictionary keyed by id. `Identity.AssetIdInjective` shows that the ids never collide, so the two agree.

## Notes on the code

- The initial step fraction is 0.005 of the span (HW3/visualization.py:39-40).
- The tick loop includes the end point (HW3/visualization.py:53-55). A 60-second window with 30-second ticks therefore has three time points (0, 30, 60) and writes three records per asset.
