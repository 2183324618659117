/** Remainders: Dafny's `%` never is negative, the `%` of C++ truncates towards zero. */
module Modular {

  lemma MulBounds(d: int, m: int)
    requires 0 < m
    ensures d >= 1 ==> d * m >= m
    ensures d <= 0 ==> d * m <= 0
    ensures d <= -1 ==> d * m <= -m
  {
    if d >= 1 {
      assert d * m == (d - 1) * m + m;
    } else if d <= -1 {
      assert d * m == (d + 1) * m - m;
    }
  }

  /** Quotient and remainder are determined by their defining equation. */
  lemma DivModUnique(x: int, q: int, r: int, m: int)
    requires 0 <= r < m && x == q * m + r
    ensures x % m == r && x / m == q
  {
    var d := q - x / m;
    assert x == x / m * m + x % m;
    assert d * m == x % m - r;
    MulBounds(d, m);
  }

  lemma ModSmall(x: int, m: int)
    requires 0 <= x < m
    ensures x % m == x
  {
    DivModUnique(x, 0, x, m);
  }

  /** Adding a multiple of the modulus changes nothing. */
  lemma ModShift(x: int, k: int, m: int)
    requires 0 < m
    ensures (x + k * m) % m == x % m
  {
    assert x + k * m == (x / m + k) * m + x % m;
    DivModUnique(x + k * m, x / m + k, x % m, m);
  }

  /** A summand may be reduced first. */
  lemma ModAdd(x: int, y: int, m: int)
    requires 0 < m
    ensures (x % m + y) % m == (x + y) % m
  {
    assert x % m + y == (x + y) + (-(x / m)) * m;
    ModShift(x + y, -(x / m), m);
  }

  /** Reducing by a multiple of w first does not change the remainder by w. */
  lemma ModMod(x: int, m: int, w: int)
    requires 0 < w && 0 < m && m % w == 0
    ensures (x % m) % w == x % w
  {
    var c := m / w;
    assert m == c * w;
    assert x % m == x + (-(x / m)) * m;
    assert (-(x / m)) * m == (-(x / m) * c) * w;
    ModShift(x, -(x / m) * c, w);
  }

  /** Numbers closer together than the modulus have different remainders. */
  lemma ModDistinct(x: int, y: int, m: int)
    requires 0 < m && 0 < y - x < m
    ensures x % m != y % m
  {
    var d := y / m - x / m;
    assert x == x / m * m + x % m && y == y / m * m + y % m;
    assert d * m == (y - y % m) - (x - x % m);
    MulBounds(d, m);
  }

  /** The remainder of C++: it has the sign of the dividend. */
  function TruncMod(x: int, m: int): (r: int)
    requires 0 < m
    ensures -m < r < m
  {
    if x >= 0 then x % m else -((-x) % m)
  }

  /** The quotient of C++ for a positive divisor. */
  function TruncDiv(x: int, m: int): int
    requires 0 < m
  {
    if x >= 0 then x / m else -((-x) / m)
  }

  /** A non-negative truncated remainder is the true one. */
  lemma TruncModNonNegative(x: int, m: int)
    requires 0 < m && TruncMod(x, m) >= 0
    ensures TruncMod(x, m) == x % m
  {
    if x < 0 {
      assert (-x) % m == 0;
      assert -x == (-x) / m * m;
      assert x == (-((-x) / m)) * m + 0;
      DivModUnique(x, -((-x) / m), 0, m);
    }
  }
}
