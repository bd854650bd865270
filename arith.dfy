/** Small facts about multiplication and integer division that the
    grid indexing and the line rasteriser rely on. */
module Arith {

  /** Multiplying by a non-negative factor preserves `<=`. */
  lemma MulMonoLe(a: int, b: int, c: int)
    requires a >= 0 && b <= c
    ensures a * b <= a * c
  {
    assert a * c - a * b == a * (c - b);
  }

  /** A quotient is determined by the bounds it sits between. */
  lemma DivFromBounds(a: int, d: int, q: int)
    requires d > 0
    requires d * q <= a < d * q + d
    ensures a / d == q
  {
    var q', r := a / d, a % d;
    assert a == d * q' + r && 0 <= r < d;
    if q' < q {
      MulMonoLe(d, q', q - 1);
      assert false;
    } else if q' > q {
      MulMonoLe(d, q + 1, q');
      assert false;
    }
  }

  /** A row-major index `y * w + x` with `x < w` and `y < h` lies below `w * h`. */
  lemma RowMajorBound(w: int, h: int, x: int, y: int)
    requires 0 <= x < w && 0 <= y < h
    ensures 0 <= y * w + x < w * h
  {
    MulMonoLe(w, y, h - 1);
    assert w * (h - 1) == w * h - w;
    assert 0 <= y * w;
  }

  /** `y * w + x` with `x < w` decodes back to `x` and `y`. */
  lemma RowMajorDecode(w: int, x: int, y: int)
    requires 0 <= x < w && 0 <= y
    ensures (y * w + x) / w == y && (y * w + x) % w == x
  {
    DivFromBounds(y * w + x, w, y);
  }

  /** The product of two non-negative reals is non-negative. */
  lemma RealMulNonNeg(x: real, y: real)
    requires x >= 0.0 && y >= 0.0
    ensures x * y >= 0.0
  {
  }

  /** A subset is no larger than its superset. */
  lemma SubsetSize<T>(a: set<T>, b: set<T>)
    requires a <= b
    ensures |a| <= |b|
  {
    assert b == a + (b - a);
  }
}
