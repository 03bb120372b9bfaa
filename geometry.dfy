/**
 * Geometry shared by the three grid components: the bounding box a browser
 * reports for an element, and floor division of a measured length by a cell
 * length (`Math.floor(a / b)` on the source's numbers, over `real` here).
 */
module Geometry {

  /** The result of `getBoundingClientRect()`: viewport offset and size. */
  datatype Rect = Rect(left: real, top: real, width: real, height: real)

  function Max(a: int, b: int): (m: int)
    ensures m >= a && m >= b && (m == a || m == b)
  {
    if a >= b then a else b
  }

  function Min(a: int, b: int): (m: int)
    ensures m <= a && m <= b && (m == a || m == b)
  {
    if a <= b then a else b
  }

  /** `Math.floor(x / s)`: the number of whole cells of length `s` that fit before `x`. */
  function FloorDiv(x: real, s: real): (q: int)
    requires s > 0.0
    ensures q as real * s <= x < (q + 1) as real * s
  {
    var f := x / s;
    var q := f.Floor;
    QuotientTimesDivisor(x, s);
    ScaledFloor(x, s, f, q);
    q
  }

  lemma QuotientTimesDivisor(x: real, s: real)
    requires s > 0.0
    ensures (x / s) * s == x
  {}

  /** Scaling `q <= f < q + 1` by `s`, where `f * s == x`, brackets `x` between cells `q` and `q + 1`. */
  lemma ScaledFloor(x: real, s: real, f: real, q: int)
    requires s > 0.0 && f * s == x && q as real <= f < (q + 1) as real
    ensures q as real * s <= x < (q + 1) as real * s
  {
    MulMono(q as real, f, s);
    MulStrict(f, (q + 1) as real, s);
  }

  lemma MulMono(a: real, b: real, s: real)
    requires a <= b && s > 0.0
    ensures a * s <= b * s
  {}

  lemma MulStrict(a: real, b: real, s: real)
    requires a < b && s > 0.0
    ensures a * s < b * s
  {}

  /** Floor division is 0 or more exactly when the point is not left of the origin. */
  lemma FloorDivNonNegative(x: real, s: real)
    requires s > 0.0
    ensures FloorDiv(x, s) >= 0 <==> x >= 0.0
  {
    CellCountBelow(x, s, FloorDiv(x, s), 0);
  }

  /**
   * A length of at least `k` cells (k >= 1) gives a floor division of at
   * least `k`; a length of less than `k` cells gives one below `k`.
   */
  lemma FloorDivBelow(x: real, s: real, k: int)
    requires s > 0.0
    ensures x < k as real * s <==> FloorDiv(x, s) < k
  {
    CellCountBelow(x, s, FloorDiv(x, s), k);
  }

  /** For the cell `q` holding `x`, `x` lies before cell `k` exactly when `q` does. */
  lemma CellCountBelow(x: real, s: real, q: int, k: int)
    requires s > 0.0 && q as real * s <= x < (q + 1) as real * s
    ensures x < k as real * s <==> q < k
  {
    if q < k {
      MulMono((q + 1) as real, k as real, s);
    } else {
      MulMono(k as real, q as real, s);
    }
  }

  /** Offset `x` lies in cell `c` of length `size`. */
  predicate InCell(x: real, size: real, c: int)
  {
    c as real * size <= x < (c + 1) as real * size
  }

  /** On an axis tiled by `n` cells, an offset inside the axis lies in cell `floor(x / size)`, one of the `n`. */
  lemma AxisCell(x: real, len: real, n: int, size: real)
    requires n >= 1 && n as real * size == len && 0.0 <= x < len
    ensures size > 0.0
    ensures 0 <= FloorDiv(x, size) < n && InCell(x, size, FloorDiv(x, size))
  {
    PositiveFactor(n as real, size, len);
    FloorDivNonNegative(x, size);
    FloorDivBelow(x, size, n);
  }

  /** `n` equal parts of `w` make up `w`. */
  lemma DivideEvenly(w: real, n: int)
    requires n >= 1
    ensures n as real * (w / n as real) == w
  {}

  /** Equal parts of a non-negative length are non-negative. */
  lemma PartNonNegative(w: real, n: int)
    requires n >= 1
    ensures w >= 0.0 ==> w / n as real >= 0.0
  {}

  lemma PositiveFactor(n: real, size: real, len: real)
    requires n >= 1.0 && n * size == len && len > 0.0
    ensures size > 0.0
  {}

  lemma CellIndexInRange(col: int, row: int, columns: int, rows: int)
    requires 0 <= col < columns && 0 <= row < rows
    ensures 0 <= row * columns + col < columns * rows
  {
    assert row * columns <= (rows - 1) * columns;
  }

  lemma RowMajorSplit(col: int, row: int, columns: int)
    requires 0 <= col < columns && row >= 0
    ensures (row * columns + col) % columns == col
    ensures (row * columns + col) / columns == row
  {
    DivModUnique(row * columns + col, columns, row, col);
  }

  /** Euclidean division has one quotient and one remainder: any `q`, `r` with `a == n q + r`, `0 <= r < n` are they. */
  lemma DivModUnique(a: int, n: int, q: int, r: int)
    requires n > 0 && a == n * q + r && 0 <= r < n
    ensures a / n == q && a % n == r
  {
    var q', r' := a / n, a % n;
    assert a == n * q' + r' && 0 <= r' < n;
    assert n * (q' - q) == r - r';
    if q' > q {
      MulAtLeast(n, q' - q);
    } else if q' < q {
      MulAtLeast(n, q - q');
    }
  }

  lemma MulAtLeast(a: int, k: int)
    requires a > 0 && k >= 1
    ensures a * k >= a
  {}

  lemma MulCancel(a: real, b: real, n: real)
    requires n > 0.0 && n * a <= n * b
    ensures a <= b
  {}

  lemma MulCancelStrict(a: real, b: real, n: real)
    requires n > 0.0 && n * a < n * b
    ensures a < b
  {}
}
