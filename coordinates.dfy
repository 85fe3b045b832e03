/** calc_coordinates (src/generate_datasets.py): compute the lattice
    parameters, then build the border and inner point lists by appending
    inside two nested loops each, outer index i over rows and inner index j
    over columns. */
module Coordinates {
  import opened LonWrap
  import opened PointNames
  import opened Partitioner
  import opened Grid

  /** The two tables calc_coordinates returns: border_df and inner_df. */
  datatype Tables = Tables(border: seq<GridPoint>, inner: seq<GridPoint>)

  /** Appending point (i, j) to a table whose last row holds columns
      0, ..., j - 1 extends that row by one column. */
  lemma AppendToRow(g: Lattice, kind: PointKind, i: nat, j: nat, done: seq<GridPoint>, data: seq<GridPoint>)
    requires |data| >= 1 && data[..|data| - 1] == done + Row(g, kind, i, j)
    requires data[|data| - 1] == PointAt(g, kind, i, j)
    ensures data == done + Row(g, kind, i, j + 1)
  {
    assert data == data[..|data| - 1] + [data[|data| - 1]];
  }

  /** The point the loop bodies append, written out as the source writes it,
      is point (i, j) of the lattice. */
  lemma PointFormula(g: Lattice, kind: PointKind, i: nat, j: nat, originLat: real, originLon: real,
                     latIncrement: real, lonIncrement: real)
    requires originLat == (if kind == Border then g.northLat else InnerNorthLat(g))
    requires originLon == (if kind == Border then g.westLon else InnerWestLon(g))
    requires latIncrement == g.latIncrement && lonIncrement == g.lonIncrement
    ensures GridPoint(PointName(i, j), originLat + latIncrement * j as real,
                      CalcLonPoint(originLon, lonIncrement, i)) == PointAt(g, kind, i, j)
  {
  }

  method CalcCoordinates(box: BoundingBox, horizontalDistance: real, verticalDistance: real, sqKm: real,
                         sqrt: real -> real)
    returns (result: Result<Tables>)
    requires 0.0 <= horizontalDistance && 0.0 <= verticalDistance && IsSqrt(sqrt)
    // It fails exactly on a degenerate box or cell, at the first division by zero.
    ensures result.Ok? <==>
              0.0 < horizontalDistance && 0.0 < verticalDistance && 0.0 < sqKm <= horizontalDistance * verticalDistance
    ensures result.Err? ==>
              var partition := Partition(box, horizontalDistance, verticalDistance, sqKm, sqrt);
              partition.Err? && result.fault == partition.fault
    // On success the tables are the two lattices of the computed partition ...
    ensures result.Ok? ==>
              var partition := Partition(box, horizontalDistance, verticalDistance, sqKm, sqrt);
              partition.Ok? &&
              result.value.border == BorderTable(partition.value) && result.value.inner == InnerTable(partition.value)
    // ... of (V + 1) * (H + 1) vertices and V * H centres.
    ensures result.Ok? ==>
              var partition := Partition(box, horizontalDistance, verticalDistance, sqKm, sqrt);
              partition.Ok? &&
              |result.value.border| == (partition.value.vertical + 1) * (partition.value.horizontal + 1) &&
              |result.value.inner| == partition.value.vertical * partition.value.horizontal
  {
    var partition := Partition(box, horizontalDistance, verticalDistance, sqKm, sqrt);
    assert partition.Ok? <==>
             0.0 < horizontalDistance && 0.0 < verticalDistance && 0.0 < sqKm <= horizontalDistance * verticalDistance by {
      PartitionOutcome(box, horizontalDistance, verticalDistance, sqKm, sqrt);
    }
    if partition.Err? {
      return Err(partition.fault);
    }
    var g := partition.value;
    assert g.northLat == box.northLat && g.westLon == box.westLon;
    var verticalDivisions, horizontalDivisions := g.vertical, g.horizontal;
    var northLat, westLon := box.northLat, box.westLon;
    var latIncrements, lonIncrements := g.latIncrement, g.lonIncrement;

    var data: seq<GridPoint> := [];
    for i := 0 to verticalDivisions + 1
      invariant data == Table(g, Border, i, horizontalDivisions + 1)
    {
      for j := 0 to horizontalDivisions + 1
        invariant data == Table(g, Border, i, horizontalDivisions + 1) + Row(g, Border, i, j)
      {
        data := data + [GridPoint(PointName(i, j), northLat + latIncrements * j as real,
                                  CalcLonPoint(westLon, lonIncrements, i))];
        PointFormula(g, Border, i, j, northLat, westLon, latIncrements, lonIncrements);
        AppendToRow(g, Border, i, j, Table(g, Border, i, horizontalDivisions + 1), data);
      }
    }

    var innerNorthLat := northLat + latIncrements / 2.0;
    var innerWestLon := westLon - lonIncrements / 2.0;
    var innerDataPoints: seq<GridPoint> := [];
    for i := 0 to verticalDivisions
      invariant innerDataPoints == Table(g, Inner, i, horizontalDivisions)
    {
      for j := 0 to horizontalDivisions
        invariant innerDataPoints == Table(g, Inner, i, horizontalDivisions) + Row(g, Inner, i, j)
      {
        innerDataPoints := innerDataPoints + [GridPoint(PointName(i, j), innerNorthLat + latIncrements * j as real,
                                                        CalcLonPoint(innerWestLon, lonIncrements, i))];
        PointFormula(g, Inner, i, j, innerNorthLat, innerWestLon, latIncrements, lonIncrements);
        AppendToRow(g, Inner, i, j, Table(g, Inner, i, horizontalDivisions), innerDataPoints);
      }
    }

    TableLength(g, Border, verticalDivisions + 1, horizontalDivisions + 1);
    TableLength(g, Inner, verticalDivisions, horizontalDivisions);
    result := Ok(Tables(data, innerDataPoints));
  }
}
