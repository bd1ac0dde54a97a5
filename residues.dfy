/**
  Facts about integer division and remainder by a positive modulus, on which
  the calendar and the sixty-day cycle rest. Division here is Euclidean, which
  for a positive modulus agrees with the floor division of the host language.
 */
module Residues {

  /** Quotient and remainder are unique: any decomposition x == m * q + r with 0 <= r < m is the one division gives. */
  lemma ModUnique(x: int, q: int, r: int, m: int)
    requires 0 < m && 0 <= r < m && x == m * q + r
    ensures x / m == q && x % m == r
  {
    var k := q - x / m;
    assert m * k == x % m - r;
  }

  /** One step forward moves the remainder one step forward, wrapping round to 0 at the modulus. */
  lemma ModSucc(x: int, m: int)
    requires 0 < m
    ensures (x + 1) % m == (x % m + 1) % m
    ensures (x + 1) / m - x / m == if (x + 1) % m == 0 then 1 else 0
  {
    var q, r := x / m, x % m;
    if r + 1 < m {
      ModUnique(x + 1, q, r + 1, m);
      ModUnique(r + 1, 0, r + 1, m);
    } else {
      assert x + 1 == m * (q + 1);
      ModUnique(x + 1, q + 1, 0, m);
      ModUnique(m, 1, 0, m);
    }
  }

  /** Two integers leave the same remainder exactly when their difference is a multiple of the modulus. */
  lemma SameResidue(x: int, y: int, m: int)
    requires 0 < m
    ensures x % m == y % m <==> (x - y) % m == 0
  {
    var qx, rx := x / m, x % m;
    var qy, ry := y / m, y % m;
    assert x - y == m * (qx - qy) + (rx - ry);
    if rx >= ry {
      ModUnique(x - y, qx - qy, rx - ry, m);
    } else {
      assert x - y == m * (qx - qy - 1) + (m + rx - ry);
      ModUnique(x - y, qx - qy - 1, m + rx - ry, m);
    }
  }

  /** A multiple of k * m is a multiple of m. */
  lemma MultipleOfMultiple(x: int, k: int, m: int)
    requires 0 < m && 0 < k && x % (k * m) == 0
    ensures x % m == 0
  {
    var q := x / (k * m);
    assert x == (k * m) * q;
    assert x == m * (k * q);
    ModUnique(x, k * q, 0, m);
  }

  /** Reducing modulo an even number keeps the parity. */
  lemma EvenModulusParity(x: int, m: int)
    requires 0 < m && m % 2 == 0
    ensures (x % m) % 2 == x % 2
  {
    var q, r, h := x / m, x % m, m / 2;
    assert x == 2 * (h * q) + r;
    assert x == 2 * (h * q + r / 2) + r % 2;
    ModUnique(x, h * q + r / 2, r % 2, 2);
  }
}
