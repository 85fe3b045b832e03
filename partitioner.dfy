/** The straight-line part of calc_coordinates (src/generate_datasets.py):
    from the two haversine distances of the bounding box and the target
    cell area to the cell's side lengths, the division counts, the
    antimeridian normalisation and the two lattice increments.

    The haversine distances come in as parameters (they are non-negative)
    and `math.sqrt` as a function-valued parameter that returns the
    non-negative root of a non-negative argument. Python raises on a
    division by zero and on the square root of a negative number; these
    are the faults below, in the order the source meets them. */
module Partitioner {
  import opened LonWrap

  datatype BoundingBox = BoundingBox(northLat: real, eastLon: real, southLat: real, westLon: real)

  datatype Fault =
    | ZeroVerticalDistance    // side_ratio = horizontal_distance / vertical_distance
    | ZeroSideRatio           // sq_km / side_ratio
    | NegativeSqrtArgument    // math.sqrt(sq_km / side_ratio) of a negative number
    | ZeroVerticalSide        // sq_km / required_vertical_side
    | ZeroVerticalDivisions   // (south_lat - north_lat) / vertical_divisions

  datatype Result<T> = Ok(value: T) | Err(fault: Fault)

  /** `sqrt` behaves as math.sqrt on the non-negative reals. */
  ghost predicate IsSqrt(sqrt: real -> real)
  {
    forall x: real :: 0.0 <= x ==> 0.0 <= sqrt(x) && sqrt(x) * sqrt(x) == x
  }

  /** required_vertical_side and required_horizontal_side. */
  datatype CellSides = CellSides(vertical: real, horizontal: real)

  /** The side lengths of one grid cell. When they exist, the cell has the
      target area and the same aspect ratio as the whole box. */
  function CellSidesOf(horizontalDistance: real, verticalDistance: real, sqKm: real, sqrt: real -> real)
    : (r: Result<CellSides>)
    requires 0.0 <= horizontalDistance && 0.0 <= verticalDistance && IsSqrt(sqrt)
    ensures r.Ok? <==> 0.0 < horizontalDistance && 0.0 < verticalDistance && 0.0 < sqKm
    ensures r.Err? ==> r.fault == (if verticalDistance == 0.0 then ZeroVerticalDistance
                                   else if horizontalDistance == 0.0 then ZeroSideRatio
                                   else if sqKm < 0.0 then NegativeSqrtArgument
                                   else ZeroVerticalSide)
    ensures r.Ok? ==> 0.0 < r.value.vertical && 0.0 < r.value.horizontal
    ensures r.Ok? ==> r.value.vertical * r.value.horizontal == sqKm
    ensures r.Ok? ==> r.value.horizontal * verticalDistance == r.value.vertical * horizontalDistance
  {
    if verticalDistance == 0.0 then Err(ZeroVerticalDistance)
    else
      var sideRatio := horizontalDistance / verticalDistance;
      if sideRatio == 0.0 then Err(ZeroSideRatio)
      else
        var area := sqKm / sideRatio;
        if area < 0.0 then Err(NegativeSqrtArgument)
        else
          var v := sqrt(area);
          if v == 0.0 then Err(ZeroVerticalSide)
          else
            var h := sqKm / v;
            AspectOfRoot(horizontalDistance, verticalDistance, sqKm, v);
            Ok(CellSides(v, h))
  }

  /** The arithmetic behind the aspect ratio of CellSidesOf. */
  lemma AspectOfRoot(hd: real, vd: real, sqKm: real, v: real)
    requires 0.0 < hd && 0.0 < vd && 0.0 < v
    requires v * v == sqKm / (hd / vd)
    ensures (sqKm / v) * vd == v * hd
  {
    assert v * v * hd == sqKm * vd;
    var h := sqKm / v;
    assert h * v == sqKm;
    assert (h * vd) * v == (v * hd) * v;
  }

  /** horizontal_divisions and vertical_divisions. */
  datatype Divisions = Divisions(vertical: nat, horizontal: nat)

  /** The division counts: `int(...)` of non-negative quotients, which is
      their floor. With exact arithmetic both quotients are the same number,
      the square root of (box area / cell area), so the two counts agree,
      and the count n is the largest whose n-by-n cells of the target area
      fit inside the box's area. */
  function DivisionsOf(horizontalDistance: real, verticalDistance: real, sqKm: real, sqrt: real -> real)
    : (r: Result<Divisions>)
    requires 0.0 <= horizontalDistance && 0.0 <= verticalDistance && IsSqrt(sqrt)
    ensures r.Ok? <==> CellSidesOf(horizontalDistance, verticalDistance, sqKm, sqrt).Ok?
    ensures r.Err? ==> r.fault == CellSidesOf(horizontalDistance, verticalDistance, sqKm, sqrt).fault
    ensures r.Ok? ==> r.value.vertical == r.value.horizontal
    ensures r.Ok? ==> var n := r.value.vertical;
              (n as real) * (n as real) * sqKm <= horizontalDistance * verticalDistance
              < ((n + 1) as real) * ((n + 1) as real) * sqKm
  {
    match CellSidesOf(horizontalDistance, verticalDistance, sqKm, sqrt)
    case Err(f) => Err(f)
    case Ok(sides) =>
      var horizontalQuotient := horizontalDistance / sides.horizontal;
      var verticalQuotient := verticalDistance / sides.vertical;
      CountBounds(horizontalDistance, verticalDistance, sqKm, sides.vertical, sides.horizontal);
      Ok(Divisions(verticalQuotient.Floor, horizontalQuotient.Floor))
  }

  /** What DivisionsOf needs about the floors of the two quotients. */
  lemma CountBounds(hd: real, vd: real, sqKm: real, v: real, h: real)
    requires 0.0 < hd && 0.0 < vd && 0.0 < v && 0.0 < h
    requires v * h == sqKm && h * vd == v * hd
    ensures (hd / h).Floor == (vd / v).Floor >= 0
    ensures var n := (vd / v).Floor;
            (n as real) * (n as real) * sqKm <= hd * vd < ((n + 1) as real) * ((n + 1) as real) * sqKm
  {
    QuotientsAgree(hd, vd, sqKm, v, h);
    FloorSquareBounds(vd / v, sqKm);
  }

  /** Both quotients equal q with q * q * sqKm == hd * vd. */
  lemma QuotientsAgree(hd: real, vd: real, sqKm: real, v: real, h: real)
    requires 0.0 < hd && 0.0 < vd && 0.0 < v && 0.0 < h
    requires v * h == sqKm && h * vd == v * hd
    ensures hd / h == vd / v
    ensures (vd / v) * (vd / v) * sqKm == hd * vd
  {
    var q := vd / v;
    assert q * v == vd;
    assert hd * v == h * vd;
    assert (hd / h) * h == hd;
    assert (hd / h) * h * v == q * v * h;
    assert v * v * hd == sqKm * vd by {
      calc {
        v * v * hd;
        == v * (v * hd);
        == v * (h * vd);
        == (v * h) * vd;
        == sqKm * vd;
      }
    }
    assert q * q * (v * v) == vd * vd;
    assert q * q * sqKm * vd == hd * vd * vd by {
      calc {
        q * q * sqKm * vd;
        == q * q * (v * v * hd);
        == (q * q * (v * v)) * hd;
        == vd * vd * hd;
      }
    }
  }

  /** For q >= 0 with floor n: n * n <= q * q < (n + 1) * (n + 1), also
      after scaling by a positive factor. */
  lemma FloorSquareBounds(q: real, scale: real)
    requires 0.0 <= q && 0.0 < scale
    ensures var n := q.Floor;
            0 <= n &&
            (n as real) * (n as real) * scale <= q * q * scale < ((n + 1) as real) * ((n + 1) as real) * scale
  {
    var n := q.Floor as real;
    var m := (q.Floor + 1) as real;
    assert 0.0 <= n <= q < m;
    SquareMonotone(n, q);
    SquareStrictlyMonotone(q, m);
    ScaleMonotone(n * n, q * q, scale);
    ScaleStrictlyMonotone(q * q, m * m, scale);
  }

  lemma PositiveProduct(x: real, y: real)
    requires 0.0 < x && 0.0 < y
    ensures 0.0 < x * y
  {
  }

  lemma SquareStrictlyMonotone(a: real, b: real)
    requires 0.0 <= a < b
    ensures a * a < b * b
  {
    PositiveProduct(b - a, b + a);
    assert (b - a) * (b + a) == b * b - a * a;
  }

  lemma SquareMonotone(a: real, b: real)
    requires 0.0 <= a <= b
    ensures a * a <= b * b
  {
    if a < b {
      SquareStrictlyMonotone(a, b);
    }
  }

  lemma ScaleStrictlyMonotone(x: real, y: real, scale: real)
    requires x < y && 0.0 < scale
    ensures x * scale < y * scale
  {
    PositiveProduct(y - x, scale);
    assert (y - x) * scale == y * scale - x * scale;
  }

  lemma ScaleMonotone(x: real, y: real, scale: real)
    requires x <= y && 0.0 < scale
    ensures x * scale <= y * scale
  {
    if x < y {
      ScaleStrictlyMonotone(x, y, scale);
    }
  }

  /** The heuristic antimeridian test: east positive, west negative. */
  predicate Straddles(eastLon: real, westLon: real)
  {
    eastLon > 0.0 && westLon < 0.0
  }

  /** (_east_lon, _west_lon): a straddling box has each edge further than
      90 degrees from the prime meridian moved by half a turn towards it;
      anything else is kept. */
  function NormalizedLongitudes(eastLon: real, westLon: real): (r: (real, real))
    ensures !Straddles(eastLon, westLon) ==> r == (eastLon, westLon)
    ensures -90.0 <= eastLon <= 90.0 ==> r.0 == eastLon
    ensures -90.0 <= westLon <= 90.0 ==> r.1 == westLon
    ensures Straddles(eastLon, westLon) && eastLon <= 180.0 && -180.0 <= westLon ==>
              -90.0 < r.0 <= 90.0 && -90.0 <= r.1 < 90.0
  {
    if Straddles(eastLon, westLon) then
      (if eastLon <= 90.0 then eastLon else eastLon - 180.0,
       if westLon >= -90.0 then westLon else 180.0 + westLon)
    else
      (eastLon, westLon)
  }

  /** What the two lattices are built from: the origin, the two increments
      and the two division counts. */
  datatype Lattice = Lattice(northLat: real, westLon: real, latIncrement: real, lonIncrement: real,
                             vertical: nat, horizontal: nat)

  /** What the code makes of a box: V == H > 0 rows and columns, the origin
      at the box's north-west corner, V latitude steps from the north edge to
      the south edge, and H longitude steps spanning the normalised
      west-minus-east difference. */
  predicate Frames(box: BoundingBox, g: Lattice)
  {
    g.vertical == g.horizontal > 0 &&
    g.northLat == box.northLat && g.westLon == box.westLon &&
    g.northLat + g.latIncrement * g.vertical as real == box.southLat &&
    var (e, w) := NormalizedLongitudes(box.eastLon, box.westLon);
    g.lonIncrement * g.horizontal as real == w - e
  }

  /** calc_coordinates up to the loops (lines 23-60). */
  function Partition(box: BoundingBox, horizontalDistance: real, verticalDistance: real, sqKm: real,
                     sqrt: real -> real): (r: Result<Lattice>)
    requires 0.0 <= horizontalDistance && 0.0 <= verticalDistance && IsSqrt(sqrt)
    ensures r.Err? <==> DivisionsOf(horizontalDistance, verticalDistance, sqKm, sqrt).Err? ||
                        DivisionsOf(horizontalDistance, verticalDistance, sqKm, sqrt).value.vertical == 0
    ensures r.Err? ==> r.fault == (match DivisionsOf(horizontalDistance, verticalDistance, sqKm, sqrt)
                                   case Err(f) => f
                                   case Ok(_) => ZeroVerticalDivisions)
    ensures r.Ok? ==> DivisionsOf(horizontalDistance, verticalDistance, sqKm, sqrt)
                        == Ok(Divisions(r.value.vertical, r.value.horizontal))
    ensures r.Ok? ==> Frames(box, r.value)
  {
    match DivisionsOf(horizontalDistance, verticalDistance, sqKm, sqrt)
    case Err(f) => Err(f)
    case Ok(d) =>
      var (e, w) := NormalizedLongitudes(box.eastLon, box.westLon);
      if d.vertical == 0 then Err(ZeroVerticalDivisions)
      else
        var latIncrement := (box.southLat - box.northLat) / d.vertical as real;
        var lonIncrement := (w - e) / d.horizontal as real;
        Ok(Lattice(box.northLat, box.westLon, latIncrement, lonIncrement, d.vertical, d.horizontal))
  }

  /** calc_coordinates produces a grid exactly when both distances and the
      cell area are positive and the cell is no larger than the box;
      otherwise it fails at the first division that meets a zero (or at the
      square root of a negative number). */
  lemma {:induction false} PartitionOutcome(box: BoundingBox, hd: real, vd: real, sqKm: real, sqrt: real -> real)
    requires 0.0 <= hd && 0.0 <= vd && IsSqrt(sqrt)
    ensures Partition(box, hd, vd, sqKm, sqrt).Ok? <==> 0.0 < hd && 0.0 < vd && 0.0 < sqKm <= hd * vd
    ensures Partition(box, hd, vd, sqKm, sqrt).Err? ==>
              Partition(box, hd, vd, sqKm, sqrt).fault ==
                (if vd == 0.0 then ZeroVerticalDistance
                 else if hd == 0.0 then ZeroSideRatio
                 else if sqKm < 0.0 then NegativeSqrtArgument
                 else if sqKm == 0.0 then ZeroVerticalSide
                 else ZeroVerticalDivisions)
  {
    var d := DivisionsOf(hd, vd, sqKm, sqrt);
    if d.Ok? {
      var n := d.value.vertical as real;
      if d.value.vertical == 0 {
        assert hd * vd < sqKm;
      } else {
        assert 1.0 <= n * n;
        assert sqKm <= n * n * sqKm;
      }
    }
  }

  /** The longitude the last lattice row starts from before wrapping. It is
      the east edge for a box the heuristic leaves alone or whose edges are
      both near the prime meridian, a full turn west of it when both edges
      were moved, and half a turn away from it when only one edge was. */
  lemma FarEdgeLongitude(box: BoundingBox, g: Lattice)
    requires Frames(box, g)
    ensures var far := Offset(box.westLon, g.lonIncrement, g.vertical);
            var east, west := box.eastLon, box.westLon;
            (!Straddles(east, west) || (east <= 90.0 && west >= -90.0) ==> far == east) &&
            (Straddles(east, west) && east > 90.0 && west < -90.0 ==> far == east - 360.0) &&
            (Straddles(east, west) && (east > 90.0) != (west < -90.0) ==> far == east - 180.0)
  {
  }
}
