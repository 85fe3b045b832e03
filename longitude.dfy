/** Longitude wrapping for generated grid points: calc_lon_point in
    src/generate_datasets.py. Both call sites pass `op.sub`, so the value
    that gets wrapped is always `lon - increment * iteration`; the wrap is
    applied once, never repeatedly. */
module LonWrap {

  /** `a` and `b` name the same meridian: they differ by a whole number of turns. */
  predicate SameMeridian(a: real, b: real)
  {
    var turns := (a - b) / 360.0;
    turns.Floor as real == turns
  }

  /** The raw value calc_lon_point wraps: `op.sub(lon, increment * iteration)`. */
  function Offset(lon: real, increment: real, iteration: int): real
  {
    lon - increment * iteration as real
  }

  /** One wrapping step. It never moves a value off its meridian, and it lands
      in (-180, 180] exactly for raw values in (-540, 540]; -540 itself lands
      on -180, and anything further out stays out of range. */
  function Wrap(val: real): (r: real)
    ensures SameMeridian(r, val)
    ensures -180.0 < r <= 180.0 <==> -540.0 < val <= 540.0
    ensures -540.0 <= val <= 540.0 ==> -180.0 <= r <= 180.0
    ensures r == -180.0 <==> val == -540.0
  {
    if val > 180.0 then (val - 180.0) - 180.0
    else if val < -180.0 then 180.0 - (-180.0 - val)
    else if val == -180.0 then 180.0
    else val
  }

  /** calc_lon_point(lon, increment, iteration, op.sub). */
  function CalcLonPoint(lon: real, increment: real, iteration: int): (r: real)
    ensures SameMeridian(r, Offset(lon, increment, iteration))
  {
    Wrap(Offset(lon, increment, iteration))
  }

  /** Wrap agrees with the reference definition of a canonical longitude:
      on (-540, 540] it returns the one value in (-180, 180] that lies on
      the same meridian as its argument. "The one value" is meaningful
      because SameMeridian is an equivalence (SameMeridianSymmetric,
      SameMeridianTransitive below), so each meridian class meets
      (-180, 180] exactly once. */
  lemma {:induction false} WrapIsCanonical(val: real, r: real)
    requires -540.0 < val <= 540.0
    requires -180.0 < r <= 180.0 && SameMeridian(r, val)
    ensures Wrap(val) == r
  {
    var w := Wrap(val);
    var k := ((r - val) / 360.0).Floor;
    var m := ((w - val) / 360.0).Floor;
    assert r - val == 360.0 * k as real;
    assert w - val == 360.0 * m as real;
    assert r - w == 360.0 * (k - m) as real;
  }

  /** Every longitude in (-180, 180] is a fixed point of calc_lon_point at
      iteration 0 (or with a zero increment). */
  lemma WrapFixedPoint(lon: real, increment: real, iteration: int)
    requires -180.0 < lon <= 180.0
    requires iteration == 0 || increment == 0.0
    ensures CalcLonPoint(lon, increment, iteration) == lon
  {
  }

  /** Re-wrapping an already wrapped value changes nothing, as long as the
      first wrap was enough to bring it into range. */
  lemma WrapIdempotent(val: real)
    requires -540.0 < val <= 540.0
    ensures Wrap(Wrap(val)) == Wrap(val)
  {
  }

  /** SameMeridian is an equivalence: symmetric and transitive. */
  lemma {:induction false} SameMeridianSymmetric(a: real, b: real)
    requires SameMeridian(a, b)
    ensures SameMeridian(b, a)
  {
    var k := ((a - b) / 360.0).Floor;
    assert (b - a) / 360.0 == (-k) as real;
  }

  lemma {:induction false} SameMeridianTransitive(a: real, b: real, c: real)
    requires SameMeridian(a, b) && SameMeridian(b, c)
    ensures SameMeridian(a, c)
  {
    var k := ((a - b) / 360.0).Floor;
    var m := ((b - c) / 360.0).Floor;
    assert (a - c) / 360.0 == (k + m) as real;
  }
}
