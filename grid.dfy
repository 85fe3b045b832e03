/** The two point sets calc_coordinates emits (src/generate_datasets.py):
    the border lattice of grid vertices and the inner lattice of cell
    centres, each a table of (name, lat, lon) rows in row-major order with
    the outer index i and the inner index j. The tables are specified here
    as functions of the lattice parameters; the loops that build them are
    in module Coordinates. */
module Grid {
  import opened LonWrap
  import opened PointNames
  import opened Partitioner

  /** One row of the `grid_points` or `actual_points` table. */
  datatype GridPoint = GridPoint(name: string, lat: real, lon: real)

  datatype PointKind = Border | Inner

  /** inner_north_lat: the latitude of the first row of cell centres. */
  function InnerNorthLat(g: Lattice): real
  {
    g.northLat + g.latIncrement / 2.0
  }

  /** inner_west_lon: the longitude origin of the cell centres. */
  function InnerWestLon(g: Lattice): real
  {
    g.westLon - g.lonIncrement / 2.0
  }

  /** Point (i, j) of either lattice. Latitude moves with the inner index j
      and longitude with the outer index i, as the source writes it. */
  function PointAt(g: Lattice, kind: PointKind, i: nat, j: nat): GridPoint
  {
    match kind
    case Border =>
      GridPoint(PointName(i, j), g.northLat + g.latIncrement * j as real,
                CalcLonPoint(g.westLon, g.lonIncrement, i))
    case Inner =>
      GridPoint(PointName(i, j), InnerNorthLat(g) + g.latIncrement * j as real,
                CalcLonPoint(InnerWestLon(g), g.lonIncrement, i))
  }

  /** In both lattices latitude is a function of the column index j alone
      and longitude a function of the row index i alone; the centre of
      (i, j) is offset from vertex (i, j) by half an increment in latitude. */
  lemma AxesSeparate(g: Lattice, kind: PointKind, i: nat, j: nat, i': nat, j': nat)
    ensures PointAt(g, kind, i, j).lat == PointAt(g, kind, i', j).lat
    ensures PointAt(g, kind, i, j).lon == PointAt(g, kind, i, j').lon
    ensures PointAt(g, Inner, i, j).lat == PointAt(g, Border, i, j).lat + g.latIncrement / 2.0
  {
  }

  /** The points (i, 0), ..., (i, n - 1). */
  function Row(g: Lattice, kind: PointKind, i: nat, n: nat): seq<GridPoint>
  {
    if n == 0 then [] else Row(g, kind, i, n - 1) + [PointAt(g, kind, i, n - 1)]
  }

  /** Rows 0, ..., m - 1, each of `cols` points. */
  function Table(g: Lattice, kind: PointKind, m: nat, cols: nat): seq<GridPoint>
  {
    if m == 0 then [] else Table(g, kind, m - 1, cols) + Row(g, kind, m - 1, cols)
  }

  /** border_df: (V + 1) x (H + 1) vertices. */
  function BorderTable(g: Lattice): seq<GridPoint>
  {
    Table(g, Border, g.vertical + 1, g.horizontal + 1)
  }

  /** inner_df: V x H cell centres. */
  function InnerTable(g: Lattice): seq<GridPoint>
  {
    Table(g, Inner, g.vertical, g.horizontal)
  }

  /** A row holds exactly its n points, in column order. */
  lemma {:induction false} RowShape(g: Lattice, kind: PointKind, i: nat, n: nat)
    ensures |Row(g, kind, i, n)| == n
    ensures forall j :: 0 <= j < n ==> Row(g, kind, i, n)[j] == PointAt(g, kind, i, j)
  {
    if n > 0 {
      RowShape(g, kind, i, n - 1);
    }
  }

  /** The row-major position of point (i, j) in a table of `cols` columns. */
  function Position(i: nat, j: nat, cols: nat): nat
  {
    i * cols + j
  }

  /** Row-major positions of a table with m rows fit inside it. */
  lemma RowMajorBound(i: nat, j: nat, m: nat, cols: nat)
    requires i < m && j < cols
    ensures Position(i, j, cols) < m * cols
  {
    var d := m - i - 1;
    assert d * cols >= 0;
    assert m * cols == (i + 1 + d) * cols == i * cols + cols + d * cols;
  }

  lemma MulSucc(a: nat, c: nat)
    ensures (a + 1) * c == a * c + c
  {
  }

  /** A table of m rows holds m * cols points. */
  lemma {:induction false} TableLength(g: Lattice, kind: PointKind, m: nat, cols: nat)
    ensures |Table(g, kind, m, cols)| == m * cols
  {
    if m > 0 {
      TableLength(g, kind, m - 1, cols);
      RowShape(g, kind, m - 1, cols);
      MulSucc(m - 1, cols);
    }
  }

  /** Point (i, j) sits at row-major position i * cols + j. */
  lemma {:induction false} TableAt(g: Lattice, kind: PointKind, m: nat, cols: nat, i: nat, j: nat)
    requires i < m && j < cols
    ensures Position(i, j, cols) < |Table(g, kind, m, cols)|
    ensures Table(g, kind, m, cols)[Position(i, j, cols)] == PointAt(g, kind, i, j)
  {
    TableLength(g, kind, m, cols);
    TableLength(g, kind, m - 1, cols);
    RowMajorBound(i, j, m, cols);
    RowShape(g, kind, m - 1, cols);
    var head := Table(g, kind, m - 1, cols);
    if i < m - 1 {
      TableAt(g, kind, m - 1, cols, i, j);
      assert Table(g, kind, m, cols)[Position(i, j, cols)] == head[Position(i, j, cols)];
    } else {
      assert Position(i, j, cols) == |head| + j;
    }
  }

  /** A table holds m * cols points in row-major order: point (i, j) sits
      at position i * cols + j. */
  lemma TableShape(g: Lattice, kind: PointKind, m: nat, cols: nat)
    ensures |Table(g, kind, m, cols)| == m * cols
    ensures forall i: nat, j: nat :: i < m && j < cols ==>
              Position(i, j, cols) < |Table(g, kind, m, cols)| &&
              Table(g, kind, m, cols)[Position(i, j, cols)] == PointAt(g, kind, i, j)
  {
    TableLength(g, kind, m, cols);
    forall i: nat, j: nat | i < m && j < cols
      ensures Position(i, j, cols) < |Table(g, kind, m, cols)|
      ensures Table(g, kind, m, cols)[Position(i, j, cols)] == PointAt(g, kind, i, j)
    {
      TableAt(g, kind, m, cols, i, j);
    }
  }

  /** Every entry of a table is point (i, j) for some i < m and j < cols. */
  lemma {:induction false} TableMembers(g: Lattice, kind: PointKind, m: nat, cols: nat)
    ensures forall p :: p in Table(g, kind, m, cols) ==>
              exists i: nat, j: nat :: i < m && j < cols && p == PointAt(g, kind, i, j)
  {
    if m > 0 {
      TableMembers(g, kind, m - 1, cols);
      RowShape(g, kind, m - 1, cols);
      forall p | p in Table(g, kind, m, cols)
        ensures exists i: nat, j: nat :: i < m && j < cols && p == PointAt(g, kind, i, j)
      {
        if p !in Table(g, kind, m - 1, cols) {
          assert p in Row(g, kind, m - 1, cols);
          var j :| 0 <= j < cols && Row(g, kind, m - 1, cols)[j] == p;
          assert p == PointAt(g, kind, m - 1, j);
        }
      }
    }
  }

  /** No two entries of a table share a name. */
  lemma {:induction false} NamesUnique(g: Lattice, kind: PointKind, m: nat, cols: nat)
    ensures forall k1, k2 :: 0 <= k1 < k2 < |Table(g, kind, m, cols)| ==>
              Table(g, kind, m, cols)[k1].name != Table(g, kind, m, cols)[k2].name
  {
    if m > 0 {
      NamesUnique(g, kind, m - 1, cols);
      TableMembers(g, kind, m - 1, cols);
      RowShape(g, kind, m - 1, cols);
      var head := Table(g, kind, m - 1, cols);
      var t := Table(g, kind, m, cols);
      forall k1, k2 | 0 <= k1 < k2 < |t|
        ensures t[k1].name != t[k2].name
      {
        if k2 >= |head| {
          assert t[k2] == PointAt(g, kind, m - 1, k2 - |head|);
          if k1 >= |head| {
            assert t[k1] == PointAt(g, kind, m - 1, k1 - |head|);
            PointNameInjective(m - 1, k1 - |head|, m - 1, k2 - |head|);
          } else {
            assert head[k1] in head;
            var i: nat, j: nat :| i < m - 1 && j < cols && head[k1] == PointAt(g, kind, i, j);
            PointNameInjective(i, j, m - 1, k2 - |head|);
          }
        }
      }
    }
  }

  /** The names of a table are exactly LatLon{i}-{j} for i < m and j < cols. */
  lemma TableNames(g: Lattice, kind: PointKind, m: nat, cols: nat)
    ensures (set p | p in Table(g, kind, m, cols) :: p.name)
            == (set i: nat, j: nat | i < m && j < cols :: PointName(i, j))
  {
    var t := Table(g, kind, m, cols);
    TableMembers(g, kind, m, cols);
    var lhs := set p | p in t :: p.name;
    var rhs := set i: nat, j: nat | i < m && j < cols :: PointName(i, j);
    forall s | s in lhs ensures s in rhs {
      var p :| p in t && p.name == s;
      var i: nat, j: nat :| i < m && j < cols && p == PointAt(g, kind, i, j);
    }
    forall i: nat, j: nat | i < m && j < cols ensures PointName(i, j) in lhs {
      TableAt(g, kind, m, cols, i, j);
      assert t[Position(i, j, cols)] in t;
    }
  }

  /** Every cell centre carries the name of a grid vertex: the inner names
      are the border names with i < V and j < H. */
  lemma InnerNamesAreBorderNames(g: Lattice)
    ensures (set p | p in InnerTable(g) :: p.name)
            == (set i: nat, j: nat | i < g.vertical && j < g.horizontal :: PointName(i, j))
    ensures (set p | p in BorderTable(g) :: p.name)
            == (set i: nat, j: nat | i < g.vertical + 1 && j < g.horizontal + 1 :: PointName(i, j))
    ensures (set p | p in InnerTable(g) :: p.name) <= (set p | p in BorderTable(g) :: p.name)
  {
    TableNames(g, Inner, g.vertical, g.horizontal);
    TableNames(g, Border, g.vertical + 1, g.horizontal + 1);
  }

  /** Inner point (i, j) is the centre of the cell whose corners are border
      points (i, j), (i, j + 1), (i + 1, j), (i + 1, j + 1): its latitude is
      the mean of the corner latitudes, and its longitude is on the meridian
      of the mean of the unwrapped corner longitudes. */
  lemma CellCentre(g: Lattice, i: nat, j: nat)
    ensures var c := PointAt(g, Inner, i, j);
            c.lat == (PointAt(g, Border, i, j).lat + PointAt(g, Border, i, j + 1).lat) / 2.0 &&
            c.lat == (PointAt(g, Border, i + 1, j).lat + PointAt(g, Border, i + 1, j + 1).lat) / 2.0 &&
            SameMeridian(c.lon, (Offset(g.westLon, g.lonIncrement, i) + Offset(g.westLon, g.lonIncrement, i + 1)) / 2.0)
  {
    CentreLatitude(g, i, j);
    CentreLatitude(g, i + 1, j);
    InnerOffsetIsMean(g.westLon, g.lonIncrement, i);
    assert PointAt(g, Inner, i, j).lon == CalcLonPoint(InnerWestLon(g), g.lonIncrement, i);
  }

  /** The latitude of centre (i', j) is the mean of the latitudes of
      vertices (i, j) and (i, j + 1), whatever the rows i and i'. */
  lemma CentreLatitude(g: Lattice, i: nat, j: nat)
    ensures PointAt(g, Inner, 0, j).lat == (PointAt(g, Border, i, j).lat + PointAt(g, Border, i, j + 1).lat) / 2.0
  {
    MidLatitude(g.northLat, g.latIncrement, j as real);
  }

  /** Half a step past the j-th step is the mean of the j-th and (j + 1)-th. */
  lemma MidLatitude(north: real, inc: real, y: real)
    ensures north + inc / 2.0 + inc * y == ((north + inc * y) + (north + inc * (y + 1.0))) / 2.0
  {
    Distribute(inc, y);
  }

  /** The unwrapped centre longitude is the mean of its two row longitudes. */
  lemma InnerOffsetIsMean(west: real, inc: real, i: nat)
    ensures Offset(west - inc / 2.0, inc, i) == (Offset(west, inc, i) + Offset(west, inc, i + 1)) / 2.0
  {
    Distribute(inc, i as real);
  }

  lemma Distribute(a: real, x: real)
    ensures a * (x + 1.0) == a * x + a
  {
  }

  /** With latitude increment (south - north) / V, the last column of the
      border lattice lies on the south edge exactly when H == V: latitude
      runs over the column index j, which stops at H, while the increment is
      a V-th of the span. */
  lemma LastColumnOnSouthEdge(g: Lattice, southLat: real, i: nat)
    requires g.vertical > 0 && southLat != g.northLat
    requires g.latIncrement == (southLat - g.northLat) / g.vertical as real
    ensures PointAt(g, Border, i, g.horizontal).lat == southLat <==> g.horizontal == g.vertical
  {
    assert PointAt(g, Border, i, g.horizontal).lat == g.northLat + g.latIncrement * g.horizontal as real;
    ReachesSouth(g.northLat, southLat, g.latIncrement, g.vertical as real, g.horizontal as real);
  }

  /** From north, h steps of a v-th of the span reach south exactly when h == v. */
  lemma ReachesSouth(north: real, south: real, inc: real, v: real, h: real)
    requires v > 0.0 && south != north && inc == (south - north) / v
    ensures north + inc * h == south <==> h == v
  {
    var span := south - north;
    assert inc * v == span;
    if north + inc * h == south {
      CancelFactor(inc, h, v, span);
    }
  }

  /** Two multiples of a by x and y that equal the same non-zero value have x == y. */
  lemma CancelFactor(a: real, x: real, y: real, s: real)
    requires s != 0.0 && a * x == s && a * y == s
    ensures x == y
  {
    assert a != 0.0;
    assert a * (x - y) == 0.0;
  }

  /** A lattice that frames the box, as every lattice Partition computes
      does, runs from the north edge
      (first column) to the south edge (last column), and its first row
      starts on the west edge. */
  lemma BorderEdges(box: BoundingBox, g: Lattice, i: nat, j: nat)
    requires Frames(box, g)
    ensures PointAt(g, Border, i, 0).lat == box.northLat
    ensures PointAt(g, Border, i, g.horizontal).lat == box.southLat
    ensures PointAt(g, Border, 0, j).lon == Wrap(box.westLon)
  {
    assert PointAt(g, Border, i, 0).lat == g.northLat + g.latIncrement * 0.0;
    assert PointAt(g, Border, i, g.horizontal).lat == g.northLat + g.latIncrement * g.horizontal as real;
    EqualFactors(g.latIncrement, g.horizontal as real, g.vertical as real);
    assert PointAt(g, Border, 0, j).lon == Wrap(g.westLon - g.lonIncrement * 0.0);
  }

  lemma EqualFactors(a: real, x: real, y: real)
    requires x == y
    ensures a * x == a * y
  {
  }

  /** The heuristic can send the lattice away from the box. For the box
      from west -100 to east 50 only the west edge is moved (to 80), so the
      longitude increment is (80 - 50) / H > 0 and every row after the first
      lies between -130 and -100: west of the box's west edge, outside the
      box, instead of running east towards 50. */
  lemma OneMovedEdgeLeavesBox(box: BoundingBox, g: Lattice, i: nat, j: nat)
    requires box.westLon == -100.0 && box.eastLon == 50.0
    requires Frames(box, g) && 0 < i <= g.vertical
    ensures -130.0 <= PointAt(g, Border, i, j).lon < -100.0
  {
    var inc, h, x := g.lonIncrement, g.horizontal as real, i as real;
    assert NormalizedLongitudes(box.eastLon, box.westLon) == (50.0, 80.0);
    assert inc * h == 30.0 && 0.0 < x <= h;
    StepsWithinSpan(inc, x, h, 30.0);
    var raw := -100.0 - inc * x;
    assert raw == Offset(g.westLon, inc, i);
    assert PointAt(g, Border, i, j).lon == Wrap(raw);
  }

  /** x of h steps covering a positive span cover a positive part of it, at most all. */
  lemma StepsWithinSpan(inc: real, x: real, h: real, span: real)
    requires inc * h == span && 0.0 < span && 0.0 < x <= h
    ensures 0.0 < inc * x <= span
  {
    if inc <= 0.0 {
      ScaleMonotone(inc, 0.0, h);
      assert false;
    }
    ScaleMonotone(x, h, inc);
    ScaleStrictlyMonotone(0.0, x, inc);
  }

  /** |d * t| <= bound when |d| <= bound and 0 <= t <= 1. */
  lemma ScaledWithin(d: real, t: real, bound: real)
    requires -bound <= d <= bound && 0.0 <= t <= 1.0
    ensures -bound <= d * t <= bound
  {
    if d >= 0.0 {
      assert d * t <= d * 1.0;
    } else {
      assert d * t >= d * 1.0;
    }
  }

  /** x increments of size span / h stay within 360 degrees when
      0 <= x <= h and the whole span does. */
  lemma OffsetWithin(inc: real, h: nat, span: real, x: real)
    requires h > 0 && inc * h as real == span && -360.0 <= span <= 360.0
    requires 0.0 <= x <= h as real
    ensures -360.0 <= inc * x <= 360.0
  {
    var t := x / h as real;
    assert x == t * h as real;
    assert inc * x == (inc * h as real) * t == span * t;
    ScaledWithin(span, t, 360.0);
  }

  /** One point of a lattice whose rows 0..H together move at most 360
      degrees away from a west edge in [-180, 180]: vertex rows up to H and
      centre rows below H get a longitude in [-180, 180]. */
  lemma PointLongitudeInRange(g: Lattice, kind: PointKind, i: nat, j: nat, span: real)
    requires g.horizontal > 0 && g.lonIncrement * g.horizontal as real == span && -360.0 <= span <= 360.0
    requires -180.0 <= g.westLon <= 180.0
    requires kind.Border? ==> i <= g.horizontal
    requires kind.Inner? ==> i < g.horizontal
    ensures -180.0 <= PointAt(g, kind, i, j).lon <= 180.0
  {
    var inc := g.lonIncrement;
    var raw;
    if kind.Border? {
      var d := inc * i as real;
      OffsetWithin(inc, g.horizontal, span, i as real);
      assert -360.0 <= d <= 360.0;
      raw := g.westLon - d;
      assert raw == Offset(g.westLon, inc, i);
    } else {
      var x := i as real + 0.5;
      OffsetWithin(inc, g.horizontal, span, x);
      assert inc * x == inc * i as real + inc / 2.0;
      raw := Offset(InnerWestLon(g), inc, i);
      assert raw == g.westLon - inc * x;
    }
    assert -540.0 <= raw <= 540.0;
    assert PointAt(g, kind, i, j).lon == Wrap(raw);
  }

  /** All longitudes of a table of a lattice as in PointLongitudeInRange. */
  lemma TableLongitudesInRange(g: Lattice, kind: PointKind, span: real)
    requires g.horizontal > 0 && g.lonIncrement * g.horizontal as real == span && -360.0 <= span <= 360.0
    requires -180.0 <= g.westLon <= 180.0 && g.vertical == g.horizontal
    ensures var t := if kind.Border? then BorderTable(g) else InnerTable(g);
            forall p :: p in t ==> -180.0 <= p.lon <= 180.0
  {
    var m := if kind.Border? then g.vertical + 1 else g.vertical;
    var cols := if kind.Border? then g.horizontal + 1 else g.horizontal;
    TableMembers(g, kind, m, cols);
    forall p | p in Table(g, kind, m, cols) ensures -180.0 <= p.lon <= 180.0 {
      var i: nat, j: nat :| i < m && j < cols && p == PointAt(g, kind, i, j);
      PointLongitudeInRange(g, kind, i, j, span);
    }
  }

  /** For a box whose edges are given in [-180, 180], one wrap is enough:
      every generated longitude, vertex or centre, lies in [-180, 180]. */
  lemma LongitudesInRange(box: BoundingBox, g: Lattice)
    requires -180.0 <= box.eastLon <= 180.0 && -180.0 <= box.westLon <= 180.0
    requires Frames(box, g)
    ensures forall p :: p in BorderTable(g) ==> -180.0 <= p.lon <= 180.0
    ensures forall p :: p in InnerTable(g) ==> -180.0 <= p.lon <= 180.0
  {
    var normalized := NormalizedLongitudes(box.eastLon, box.westLon);
    var span := normalized.1 - normalized.0;
    assert -360.0 <= span <= 360.0;
    TableLongitudesInRange(g, Border, span);
    TableLongitudesInRange(g, Inner, span);
  }
}
