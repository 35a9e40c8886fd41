/**
 * The `pagesCount` getter: the post count divided by the page size, rounded
 * to the nearest integer with halves rounding up (the rounding of
 * `Math.round`). It is computed exactly over the integers; the lemmas relate
 * it to rounding over the reals and to the number of pages the posts fill.
 */
module Pagination {
  /** Page sizes are positive. */
  type Pos = n: int | n > 0 witness 1

  /** The store's fixed page size. */
  const PageSize: Pos := 15

  /**
   * count / limit rounded half up: the integer r with
   * r - 1/2 <= count / limit < r + 1/2. The count may be negative (it is
   * decremented without a floor), and the division rounds toward minus
   * infinity, as the rounding does.
   */
  function PagesCount(count: int, limit: Pos): (r: int)
    ensures 2 * limit * r - limit <= 2 * count < 2 * limit * r + limit
  {
    (2 * count + limit) / (2 * limit)
  }

  /** A positive multiple of a non-negative number is non-negative. */
  lemma MulNonNegative(m: Pos, a: int)
    ensures a >= 0 ==> m * a >= 0
  {
  }

  /** The bounds in PagesCount's contract determine its result. */
  lemma PagesCountUnique(count: int, limit: Pos, r: int)
    requires 2 * limit * r - limit <= 2 * count < 2 * limit * r + limit
    ensures r == PagesCount(count, limit)
  {
    var q := PagesCount(count, limit);
    MulNonNegative(2 * limit, r - q - 1);
    MulNonNegative(2 * limit, q - r - 1);
    assert 2 * limit * (r - q - 1) == 2 * limit * r - 2 * limit * q - 2 * limit;
    assert 2 * limit * (q - r - 1) == 2 * limit * q - 2 * limit * r - 2 * limit;
  }

  /** Rounding over the reals: the floor of count / limit + 1/2. */
  function RoundHalfUp(x: real): int
  {
    (x + 0.5).Floor
  }

  /** An integer quotient is the floor of the real quotient. */
  lemma QuotientIsFloor(n: int, d: Pos)
    ensures (n / d) as real <= n as real / d as real < (n / d + 1) as real
  {
    var q, m := n / d, n % d;
    assert n == d * q + m;
    var dr := d as real;
    assert n as real == dr * q as real + m as real;
    assert n as real / dr == q as real + m as real / dr;
    assert 0.0 <= m as real / dr < 1.0;
  }

  /** Two reals with the same product by a positive real are equal. */
  lemma CancelPositive(a: real, b: real, k: real)
    requires k > 0.0 && a * k == b * k
    ensures a == b
  {
  }

  /** Dividing by a positive real, then multiplying back, gives the dividend. */
  lemma DivMul(a: real, k: real)
    requires k > 0.0
    ensures (a / k) * k == a
  {
  }

  /** PagesCount agrees with rounding the exact quotient over the reals. */
  lemma PagesCountIsRounding(count: int, limit: Pos)
    ensures PagesCount(count, limit) == RoundHalfUp(count as real / limit as real)
  {
    var n, d := 2 * count + limit, 2 * limit;
    QuotientIsFloor(n, d);
    var c, l := count as real, limit as real;
    var x, y := c / l, n as real / d as real;
    DivMul(c, l);
    DivMul(n as real, d as real);
    assert y * (2.0 * l) == 2.0 * c + l;
    assert (x + 0.5) * (2.0 * l) == 2.0 * (x * l) + l;
    CancelPositive(y, x + 0.5, 2.0 * l);
  }

  /** The number of pages the posts fill: count / limit rounded up. */
  function PagesNeeded(count: nat, limit: Pos): (n: nat)
    ensures limit * (n - 1) < count <= limit * n
  {
    (count + limit - 1) / limit
  }

  /** The bounds in PagesNeeded's contract determine its result. */
  lemma PagesNeededUnique(count: nat, limit: Pos, n: int)
    requires limit * (n - 1) < count <= limit * n
    ensures n == PagesNeeded(count, limit)
  {
    var p := PagesNeeded(count, limit);
    MulNonNegative(limit, n - 1 - p);
    MulNonNegative(limit, p - 1 - n);
    assert limit * (n - 1 - p) == limit * (n - 1) - limit * p;
    assert limit * (p - 1 - n) == limit * (p - 1) - limit * n;
  }

  /**
   * PagesCount equals the number of filled pages exactly when the last page
   * is full or at least half full; otherwise it is one less, and the last
   * page is not counted.
   */
  lemma PagesCountAgainstPagesNeeded(count: nat, limit: Pos)
    ensures var rest := count % limit;
            if rest == 0 || 2 * rest >= limit then PagesCount(count, limit) == PagesNeeded(count, limit)
            else PagesCount(count, limit) == PagesNeeded(count, limit) - 1
  {
    var k, rest := count / limit, count % limit;
    var full := limit * k;
    assert count == full + rest;
    assert 2 * limit * k == 2 * full;
    assert 2 * limit * (k + 1) == 2 * full + 2 * limit;
    if rest == 0 {
      PagesCountUnique(count, limit, k);
      assert limit * (k - 1) == full - limit;
      PagesNeededUnique(count, limit, k);
    } else {
      assert limit * (k + 1 - 1) == full;
      assert limit * (k + 1) == full + limit;
      PagesNeededUnique(count, limit, k + 1);
      if 2 * rest >= limit {
        PagesCountUnique(count, limit, k + 1);
      } else {
        PagesCountUnique(count, limit, k);
      }
    }
  }
}
