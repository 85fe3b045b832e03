# Grid partitioner of the rainfall dataset generator

This project models the grid partitioner of the rainfall dataset generator.
`calc_coordinates` takes a geographic bounding box (north, east, south and
west edges) and a target cell area in square kilometres. It lays two
lattices over the box:

- the *border* lattice of (V + 1) x (H + 1) vertices;
- the *inner* lattice of V x H cell centres, the points whose rainfall is
  later fetched.

`calc_lon_point` wraps each generated longitude once. For box edges in [-180, 180] that one wrap brings every generated longitude into [-180, 180] (`Grid.LongitudesInRange`). The command line accepts any edges, and for edges outside that range the bound does not hold.

The model is written over exact reals and has five modules:

- `LonWrap` (`longitude.dfy`): `calc_lon_point`, as a pure function.
  - It is proved to keep each value on its meridian.
  - It is proved to return the canonical representative in (-180, 180] for raw values in (-540, 540].
- `PointNames` (`names.dfy`): the names `LatLon{i}-{j}` as strings built from the decimal text of the indices. Distinct index pairs are proved to get distinct names.
- `Partitioner` (`partitioner.dfy`): the straight-line part of `calc_coordinates`:
  - the cell's side lengths;
  - the division counts;
  - the antimeridian heuristic;
  - the two increments.

  Python's exceptions become the `Err` cases of a `Result`. The predicate `Frames(box, g)` collects what the code makes of a box: the origin, both counts and both increments. Every lattice `Partition` computes frames its box, and the lemmas about edges and longitudes hold for every lattice that frames its box.
- `Grid` (`grid.dfy`): the two lattices as specification functions (`PointAt`, `BorderTable`, `InnerTable`), with lemmas on:
  - shape and row-major order;
  - unique names;
  - cell centres;
  - edges;
  - longitude range.
- `Coordinates` (`coordinates.dfy`): `calc_coordinates` itself. It is a method whose nested loops append to the two point lists, proved to produce exactly `BorderTable` and `InnerTable`.

Two inputs come from libraries and are taken as parameters:

- **The haversine distances.** They are non-negative reals.
- **`math.sqrt`.** It is a function `sqrt` constrained by `IsSqrt`: for a non-negative argument it returns the non-negative root.

The failure modes follow the code. These are the division by zero (`ZeroDivisionError`) and the square root of a negative number (`ValueError`), in the order the code meets them.

Some facts hold only in exact arithmetic:

- **H equals V.** Both quotients on lines 41 and 44 equal the square root of (box area / cell area), so `horizontal_divisions == vertical_divisions`. The count n is the largest with n * n cells fitting in the box's area (`Partitioner.DivisionsOf`).
- **The index swap is harmless.** The loops pair the latitude step with the column index j, which runs to H, while the step is a V-th of the span. Because H == V, the last column lands on the south edge (`Grid.LastColumnOnSouthEdge`).

The antimeridian heuristic (lines 49-54) is modelled as written. It changes only the longitude increment, and both loops still start from the raw west edge. `Partitioner.FarEdgeLongitude` shows where the last row then starts before wrapping:

- at the east edge when the heuristic does not fire, or when both edges are within 90 degrees of the prime meridian;
- a full turn west of the east edge when both edges were moved;
- half a turn away from the east edge when only one edge was moved.

In that last case the lattice misses the box. For the box from west -100 to east 50, the code moves only the west edge, to 80. The longitude increment becomes (80 - 50) / H > 0, so the rows run westwards from -100 to -130 instead of eastwards towards 50. `Grid.OneMovedEdgeLeavesBox` proves that every row after the first lies in [-130, -100), outside the box. The model keeps this behaviour, because it is what the code does.

## Model

| member | source | states |
|---|---|---|
| LonWrap.Wrap | src/generate_datasets.py:86-94 | the wrapped value is on the same meridian as the raw one; it is in (-180, 180] exactly when the raw value is in (-540, 540]; raw values in [-540, 540] land in [-180, 180]; -180 is returned only for raw -540 |
| LonWrap.CalcLonPoint | src/generate_datasets.py:86-87 | calc_lon_point with op.sub returns a longitude on the meridian of lon - increment * iteration |
| LonWrap.WrapIsCanonical | src/generate_datasets.py:86-94 | on (-540, 540] the wrap returns the unique value in (-180, 180] on the argument's meridian |
| LonWrap.WrapFixedPoint | src/generate_datasets.py:86-94 | every longitude in (-180, 180] comes back unchanged at iteration 0 or with a zero increment |
| LonWrap.WrapIdempotent | src/generate_datasets.py:86-94 | wrapping a wrapped value of (-540, 540] again changes nothing |
| PointNames.NatToString | src/generate_datasets.py:69 | the decimal text of an index is non-empty, all digits, and one character long exactly for indices below 10 |
| PointNames.NatToStringInjective | src/generate_datasets.py:69 | distinct indices have distinct decimal texts |
| PointNames.NatToStringValue | src/generate_datasets.py:69 | the text spells the index in base 10, most significant digit first, with no leading zero unless the index is 0 |
| PointNames.PointNameInjective | src/generate_datasets.py:69 | LatLon{i}-{j} names two index pairs alike if and only if they are the same pair |
| Partitioner.CellSidesOf | src/generate_datasets.py:32-38 | the cell sides exist exactly when both distances and the area are positive; otherwise the fault is the first division by zero or negative root the code meets; the sides are positive, multiply to the target area and keep the box's aspect ratio |
| Partitioner.DivisionsOf | src/generate_datasets.py:40-44 | the counts exist exactly when the sides do, with the same fault otherwise; they are equal, and the count n satisfies n*n*area <= box area < (n+1)*(n+1)*area |
| Partitioner.CountBounds | src/generate_datasets.py:41-44 | the floors of the two quotients agree and bound the box area between n*n and (n+1)*(n+1) cells |
| Partitioner.NormalizedLongitudes | src/generate_datasets.py:49-54 | edges are kept unless the box straddles (east > 0 and west < 0); an edge within [-90, 90] is always kept; for a straddling box with edges in [-180, 180] the new east edge lies in (-90, 90] and the new west edge in [-90, 90) |
| Partitioner.Partition | src/generate_datasets.py:32-60 | it fails exactly when the counts fail or the vertical count is zero; on failure the fault is the count's fault, or a zero vertical count at line 57; on success V and H are exactly the floor counts of lines 41 and 44, and the lattice frames the box: V == H > 0, origin at the north-west corner, V latitude steps reach the south edge, H longitude steps span the normalised west-minus-east difference |
| Partitioner.PartitionOutcome | src/generate_datasets.py:32-60 | a lattice is produced if and only if both distances are positive and 0 < area <= box area, and each failing input gets the fault of the first failing operation |
| Partitioner.FarEdgeLongitude | src/generate_datasets.py:49-60 | for any lattice framing the box, the unwrapped start of row V is the east edge, east - 360 or east - 180, according to which edges the heuristic moved |
| Grid.OneMovedEdgeLeavesBox | src/generate_datasets.py:49-69 | for the box from west -100 to east 50, every border row after the first lies in [-130, -100), outside the box |
| Grid.AxesSeparate | src/generate_datasets.py:66-79 | latitude depends on j only and longitude on i only; a centre's latitude is offset from its vertex's by half a latitude step |
| Grid.RowShape | src/generate_datasets.py:67-69 | the inner loop appends points (i, 0) to (i, n - 1), in order |
| Grid.TableLength | src/generate_datasets.py:66-69 | m rows of cols points hold m * cols points |
| Grid.TableAt | src/generate_datasets.py:66-69 | point (i, j) sits at position i * cols + j |
| Grid.TableShape | src/generate_datasets.py:66-81 | the tables have m * cols points in row-major order, point (i, j) at position i * cols + j |
| Grid.TableMembers | src/generate_datasets.py:66-69 | every entry is point (i, j) for some i < m and j < cols |
| Grid.NamesUnique | src/generate_datasets.py:66-79 | no two entries of one table share a name |
| Grid.TableNames | src/generate_datasets.py:66-79 | the names of a table are exactly LatLon{i}-{j} for i < m and j < cols |
| Grid.InnerNamesAreBorderNames | src/generate_datasets.py:66-79 | the inner names are the border names with i < V and j < H, and all of them are border names |
| Grid.CellCentre | src/generate_datasets.py:69-79 | centre (i, j) has the mean latitude of the four corners of cell (i, j), and a longitude on the meridian of the mean of the two unwrapped corner longitudes |
| Grid.CentreLatitude | src/generate_datasets.py:69-79 | a centre's latitude is the mean of the latitudes of vertices (i, j) and (i, j + 1) |
| Grid.LastColumnOnSouthEdge | src/generate_datasets.py:57-69 | the last border column lies on the south edge if and only if H == V |
| Grid.BorderEdges | src/generate_datasets.py:57-69 | for any lattice framing the box, the first column is on the north edge, column H on the south edge, and row 0 at the wrapped west edge |
| Grid.PointLongitudeInRange | src/generate_datasets.py:69-94 | with a west edge in [-180, 180] and H longitude steps spanning at most a turn, vertex rows up to H and centre rows below H get a longitude in [-180, 180] |
| Grid.TableLongitudesInRange | src/generate_datasets.py:66-79 | with a west edge in [-180, 180], V == H and H longitude steps spanning at most a turn, every entry of either table has a longitude in [-180, 180] |
| Grid.LongitudesInRange | src/generate_datasets.py:49-94 | for edges in [-180, 180] and any lattice framing the box, every generated longitude is in [-180, 180], so one wrap always suffices |
| Coordinates.CalcCoordinates | src/generate_datasets.py:11-83 | fails exactly on a degenerate input, with Partition's fault; otherwise returns the border and inner tables of the partition, of (V+1)*(H+1) and V*H points |

## Left out

- `calc_lon_point` takes the operator as its fourth argument (line 86). Both call sites (lines 69 and 79) pass `op.sub`, so `LonWrap.CalcLonPoint` fixes it to subtraction and has no operator parameter.
- Haversine distances (lines 23 and 26) are parameters, not spherical trigonometry. They come from a third-party library.
- `math.sqrt` (line 35) is a parameter constrained to be the exact non-negative root.
- Floating point is not modelled; all coordinates are exact reals.
  - Rounding could make the two quotients at lines 41 and 44 differ.
  - That could leave H one apart from V, so the last border column would miss the south edge.
  - Only the exact-arithmetic behaviour is proved.
  - NaN and infinities are not modelled.
- The divisions by zero at line 41 (by `required_horizontal_side`) and line 60 (by `horizontal_divisions`) are not separate faults.
  - The cell side is positive whenever the code gets that far.
  - H equals V, which is checked at line 57 first.
  - So in exact arithmetic neither can occur.
- The code does not reject a box of negative extent or a cell larger than the box before partitioning. The model follows the code: a cell larger than the box fails only through the zero count at line 57, and a negative extent is not rejected at all.
- pandas DataFrame construction (lines 14, 17, 69, 71, 79, 81) becomes plain sequences of (name, lat, lon) records.
- `print` logging (lines 28-31, 46-47, 63-64) is not modelled.
- The weather API functions `set_rainfall_data`, `fetch_rainfall_data_by_visual_crossing` and `fetch_rainfall_data_by_world_weather_online` (lines 97-158) are network I/O and JSON parsing.
- The command-line block (lines 161-194) and src/app.py (map rendering) are not modelled.
- CalcCoordinates: the distances are taken as given rather than computed from the box, so the model does not tie them to the box's edges.
