/** Point names: the f-string `LatLon{i}-{j}` in calc_coordinates, built from
    the decimal text of the two loop indices. */
module PointNames {

  predicate IsDigit(c: char)
  {
    '0' <= c <= '9'
  }

  function DigitChar(d: nat): (c: char)
    requires d < 10
    ensures IsDigit(c) && c as int - '0' as int == d
  {
    ('0' as int + d) as char
  }

  /** The number a string of decimal digits spells, most significant digit first. */
  function DecimalValue(s: string): int
  {
    if |s| == 0 then 0 else DecimalValue(s[..|s| - 1]) * 10 + (s[|s| - 1] as int - '0' as int)
  }

  /** Python's `str(n)` for a non-negative int: the decimal digits of n, with
      no leading zero. */
  function NatToString(n: nat): (s: string)
    ensures |s| >= 1
    ensures forall k :: 0 <= k < |s| ==> IsDigit(s[k])
    ensures |s| == 1 <==> n < 10
    decreases n
  {
    if n < 10 then [DigitChar(n)] else NatToString(n / 10) + [DigitChar(n % 10)]
  }

  /** NatToString(n) spells n in base 10, and has no leading zero unless n
      is zero itself. */
  lemma {:induction false} NatToStringValue(n: nat)
    ensures DecimalValue(NatToString(n)) == n
    ensures n > 0 ==> NatToString(n)[0] != '0'
    decreases n
  {
    if n >= 10 {
      NatToStringValue(n / 10);
      var s := NatToString(n);
      assert s[..|s| - 1] == NatToString(n / 10);
      assert s[0] == NatToString(n / 10)[0];
    }
  }

  /** The name given to grid point (i, j). */
  function PointName(i: nat, j: nat): string
  {
    "LatLon" + NatToString(i) + "-" + NatToString(j)
  }

  /** Distinct numbers have distinct decimal texts. */
  lemma {:induction false} NatToStringInjective(m: nat, n: nat)
    requires NatToString(m) == NatToString(n)
    ensures m == n
    decreases m
  {
    if m >= 10 && n >= 10 {
      var s := NatToString(m);
      assert s[..|s| - 1] == NatToString(m / 10);
      assert NatToString(n)[..|s| - 1] == NatToString(n / 10);
      NatToStringInjective(m / 10, n / 10);
      assert s[|s| - 1] == DigitChar(m % 10) && s[|s| - 1] == DigitChar(n % 10);
    } else {
      assert NatToString(m)[0] == NatToString(n)[0];
    }
  }

  /** Splitting `a + "-" + b` at its dash recovers `a` and `b` when `a`
      and `c` hold no dash. */
  lemma {:induction false} SplitAtDash(a: string, b: string, c: string, d: string)
    requires forall k :: 0 <= k < |a| ==> IsDigit(a[k])
    requires forall k :: 0 <= k < |c| ==> IsDigit(c[k])
    requires a + "-" + b == c + "-" + d
    ensures a == c && b == d
  {
    var s := a + "-" + b;
    assert s[|a|] == '-' && s[|c|] == '-';
    assert a == s[..|a|];
    assert c == s[..|a|];
    assert b == s[|a| + 1..];
    assert d == s[|a| + 1..];
  }

  /** Grid point names are unique: two index pairs share a name exactly when
      they are the same pair. */
  lemma {:induction false} PointNameInjective(i1: nat, j1: nat, i2: nat, j2: nat)
    ensures PointName(i1, j1) == PointName(i2, j2) <==> i1 == i2 && j1 == j2
  {
    if PointName(i1, j1) == PointName(i2, j2) {
      var s := PointName(i1, j1);
      var rest1 := NatToString(i1) + "-" + NatToString(j1);
      var rest2 := NatToString(i2) + "-" + NatToString(j2);
      assert s == "LatLon" + rest1;
      assert s == "LatLon" + rest2;
      assert rest1 == s[6..] == rest2;
      SplitAtDash(NatToString(i1), NatToString(j1), NatToString(i2), NatToString(j2));
      NatToStringInjective(i1, i2);
      NatToStringInjective(j1, j2);
    }
  }
}
