/** Four-by-four matrices over the reals, the adjugate inverse, and planes
    transformed by it. */
module Matrix {
  import opened ClipGeometry

  /** Row-major; `mRC` is the element in row R and column C. */
  datatype Matrix = Matrix(
    m11: real, m12: real, m13: real, m14: real,
    m21: real, m22: real, m23: real, m24: real,
    m31: real, m32: real, m33: real, m34: real,
    m41: real, m42: real, m43: real, m44: real)

  function Identity(): Matrix {
    Matrix(1.0, 0.0, 0.0, 0.0,
           0.0, 1.0, 0.0, 0.0,
           0.0, 0.0, 1.0, 0.0,
           0.0, 0.0, 0.0, 1.0)
  }

  function Mul(a: real, s: real): real { a * s }

  function Scale(m: Matrix, s: real): Matrix {
    Matrix(Mul(m.m11, s), Mul(m.m12, s), Mul(m.m13, s), Mul(m.m14, s),
           Mul(m.m21, s), Mul(m.m22, s), Mul(m.m23, s), Mul(m.m24, s),
           Mul(m.m31, s), Mul(m.m32, s), Mul(m.m33, s), Mul(m.m34, s),
           Mul(m.m41, s), Mul(m.m42, s), Mul(m.m43, s), Mul(m.m44, s))
  }

  function Dot(a: real, b: real, c: real, d: real, x: real, y: real, z: real, w: real): real {
    a * x + b * y + c * z + d * w
  }

  function Product(m: Matrix, n: Matrix): Matrix {
    Matrix(
      Dot(m.m11, m.m12, m.m13, m.m14, n.m11, n.m21, n.m31, n.m41),
      Dot(m.m11, m.m12, m.m13, m.m14, n.m12, n.m22, n.m32, n.m42),
      Dot(m.m11, m.m12, m.m13, m.m14, n.m13, n.m23, n.m33, n.m43),
      Dot(m.m11, m.m12, m.m13, m.m14, n.m14, n.m24, n.m34, n.m44),
      Dot(m.m21, m.m22, m.m23, m.m24, n.m11, n.m21, n.m31, n.m41),
      Dot(m.m21, m.m22, m.m23, m.m24, n.m12, n.m22, n.m32, n.m42),
      Dot(m.m21, m.m22, m.m23, m.m24, n.m13, n.m23, n.m33, n.m43),
      Dot(m.m21, m.m22, m.m23, m.m24, n.m14, n.m24, n.m34, n.m44),
      Dot(m.m31, m.m32, m.m33, m.m34, n.m11, n.m21, n.m31, n.m41),
      Dot(m.m31, m.m32, m.m33, m.m34, n.m12, n.m22, n.m32, n.m42),
      Dot(m.m31, m.m32, m.m33, m.m34, n.m13, n.m23, n.m33, n.m43),
      Dot(m.m31, m.m32, m.m33, m.m34, n.m14, n.m24, n.m34, n.m44),
      Dot(m.m41, m.m42, m.m43, m.m44, n.m11, n.m21, n.m31, n.m41),
      Dot(m.m41, m.m42, m.m43, m.m44, n.m12, n.m22, n.m32, n.m42),
      Dot(m.m41, m.m42, m.m43, m.m44, n.m13, n.m23, n.m33, n.m43),
      Dot(m.m41, m.m42, m.m43, m.m44, n.m14, n.m24, n.m34, n.m44))
  }

  /** The column vector `m v`. */
  function Apply(m: Matrix, v: Point): Point {
    Point(Dot(m.m11, m.m12, m.m13, m.m14, v.x, v.y, v.z, v.w),
          Dot(m.m21, m.m22, m.m23, m.m24, v.x, v.y, v.z, v.w),
          Dot(m.m31, m.m32, m.m33, m.m34, v.x, v.y, v.z, v.w),
          Dot(m.m41, m.m42, m.m43, m.m44, v.x, v.y, v.z, v.w))
  }

  function Det2(a: real, b: real, c: real, d: real): real { a * d - c * b }

  /** The adjoint, built from the eighteen two-by-two minors. */
  function Adjugate(m: Matrix): Matrix {
    var m3344 := Det2(m.m33, m.m34, m.m43, m.m44);
    var m2344 := Det2(m.m23, m.m24, m.m43, m.m44);
    var m2334 := Det2(m.m23, m.m24, m.m33, m.m34);
    var m3244 := Det2(m.m32, m.m34, m.m42, m.m44);
    var m2244 := Det2(m.m22, m.m24, m.m42, m.m44);
    var m2234 := Det2(m.m22, m.m24, m.m32, m.m34);
    var m3243 := Det2(m.m32, m.m33, m.m42, m.m43);
    var m2243 := Det2(m.m22, m.m23, m.m42, m.m43);
    var m2233 := Det2(m.m22, m.m23, m.m32, m.m33);
    var m1344 := Det2(m.m13, m.m14, m.m43, m.m44);
    var m1334 := Det2(m.m13, m.m14, m.m33, m.m34);
    var m1244 := Det2(m.m12, m.m14, m.m42, m.m44);
    var m1234 := Det2(m.m12, m.m14, m.m32, m.m34);
    var m1243 := Det2(m.m12, m.m13, m.m42, m.m43);
    var m1233 := Det2(m.m12, m.m13, m.m32, m.m33);
    var m1324 := Det2(m.m13, m.m14, m.m23, m.m24);
    var m1224 := Det2(m.m12, m.m14, m.m22, m.m24);
    var m1223 := Det2(m.m12, m.m13, m.m22, m.m23);
    Matrix(
      m.m22 * m3344 - m.m32 * m2344 + m.m42 * m2334,
      -m.m12 * m3344 + m.m32 * m1344 - m.m42 * m1334,
      m.m12 * m2344 - m.m22 * m1344 + m.m42 * m1324,
      -m.m12 * m2334 + m.m22 * m1334 - m.m32 * m1324,

      -m.m21 * m3344 + m.m31 * m2344 - m.m41 * m2334,
      m.m11 * m3344 - m.m31 * m1344 + m.m41 * m1334,
      -m.m11 * m2344 + m.m21 * m1344 - m.m41 * m1324,
      m.m11 * m2334 - m.m21 * m1334 + m.m31 * m1324,

      m.m21 * m3244 - m.m31 * m2244 + m.m41 * m2234,
      -m.m11 * m3244 + m.m31 * m1244 - m.m41 * m1234,
      m.m11 * m2244 - m.m21 * m1244 + m.m41 * m1224,
      -m.m11 * m2234 + m.m21 * m1234 - m.m31 * m1224,

      -m.m21 * m3243 + m.m31 * m2243 - m.m41 * m2233,
      m.m11 * m3243 - m.m31 * m1243 + m.m41 * m1233,
      -m.m11 * m2243 + m.m21 * m1243 - m.m41 * m1223,
      m.m11 * m2233 - m.m21 * m1233 + m.m31 * m1223)
  }

  /** The determinant as the inverse computes it, from the adjoint's first row. */
  function Pivot(m: Matrix): real {
    var a := Adjugate(m);
    Dot(m.m11, m.m21, m.m31, m.m41, a.m11, a.m12, a.m13, a.m14)
  }

  /** The source divides by the pivot by multiplying with its reciprocal. */
  function Inverse(m: Matrix): Matrix
    requires Pivot(m) != 0.0
  {
    Scale(Adjugate(m), 1.0 / Pivot(m))
  }

  // ------------------------------------------------ cofactors, row by row

  function Row1(m: Matrix): Point { Point(m.m11, m.m12, m.m13, m.m14) }
  function Row2(m: Matrix): Point { Point(m.m21, m.m22, m.m23, m.m24) }
  function Row3(m: Matrix): Point { Point(m.m31, m.m32, m.m33, m.m34) }
  function Row4(m: Matrix): Point { Point(m.m41, m.m42, m.m43, m.m44) }

  function Det3(a: real, b: real, c: real, d: real, e: real, f: real, g: real, h: real, i: real): real {
    a * Det2(e, f, h, i) - d * Det2(b, c, h, i) + g * Det2(b, c, e, f)
  }

  /** The signed minors of three rows, one for each column left out. */
  function Minors(a: Point, b: Point, c: Point): Point {
    Point(Det3(a.y, a.z, a.w, b.y, b.z, b.w, c.y, c.z, c.w),
          -Det3(a.x, a.z, a.w, b.x, b.z, b.w, c.x, c.z, c.w),
          Det3(a.x, a.y, a.w, b.x, b.y, b.w, c.x, c.y, c.w),
          -Det3(a.x, a.y, a.z, b.x, b.y, b.z, c.x, c.y, c.z))
  }

  /** Minors of the first and of the last two columns. */
  function P(a: Point, b: Point): real { Det2(a.x, a.y, b.x, b.y) }
  function Q(a: Point, b: Point): real { Det2(a.z, a.w, b.z, b.w) }

  /** The determinant of four rows by complementary two-by-two minors. */
  function Laplace(u: Point, a: Point, b: Point, c: Point): real {
    P(u, a) * Q(b, c) - P(u, b) * Q(a, c) + P(u, c) * Q(a, b) +
    P(a, b) * Q(u, c) - P(a, c) * Q(u, b) + P(b, c) * Q(u, a)
  }

  lemma Collect(s: real, t: real, a: real, b: real, c: real, a': real, b': real, c': real,
                q: real, r: real, v: real, m: real, m': real)
    requires m == a * q - b * r + c * v && m' == a' * q - b' * r + c' * v
    ensures s * m + t * -m' == Det2(s, t, a', a) * q - Det2(s, t, b', b) * r + Det2(s, t, c', c) * v
  {
  }

  /** Expansion along the last column instead of the first. */
  lemma Det3ByLastColumn(a: real, b: real, c: real, d: real, e: real, f: real, g: real, h: real, i: real)
    ensures Det3(a, b, c, d, e, f, g, h, i)
         == c * Det2(d, e, g, h) - f * Det2(a, b, g, h) + i * Det2(a, b, d, e)
  {
  }

  lemma Det3Transpose(a: real, b: real, c: real, d: real, e: real, f: real, g: real, h: real, i: real)
    ensures Det3(a, b, c, d, e, f, g, h, i) == Det3(a, d, g, b, e, h, c, f, i)
  {
  }

  function RowDot(u: Point, v: Point): real { Dot(u.x, u.y, u.z, u.w, v.x, v.y, v.z, v.w) }

  lemma RowExpansion(u: Point, a: Point, b: Point, c: Point)
    ensures RowDot(u, Minors(a, b, c)) == Laplace(u, a, b, c)
  {
    var m := Minors(a, b, c);
    Collect(u.x, u.y, a.y, b.y, c.y, a.x, b.x, c.x, Q(b, c), Q(a, c), Q(a, b), m.x, -m.y);
    Det3ByLastColumn(a.x, a.y, a.w, b.x, b.y, b.w, c.x, c.y, c.w);
    Det3ByLastColumn(a.x, a.y, a.z, b.x, b.y, b.z, c.x, c.y, c.z);
    Collect(u.z, u.w, a.w, b.w, c.w, a.z, b.z, c.z, P(b, c), P(a, c), P(a, b), m.z, -m.w);
  }

  /** A repeated row makes the determinant vanish, a swap of the first row
      with another flips its sign. */
  lemma LaplaceAlternates(u: Point, a: Point, b: Point, c: Point)
    ensures Laplace(a, a, b, c) == Laplace(b, a, b, c) == Laplace(c, a, b, c) == 0.0
    ensures Laplace(a, u, b, c) == -Laplace(u, a, b, c)
    ensures Laplace(b, u, a, c) == Laplace(u, a, b, c)
    ensures Laplace(c, u, a, b) == -Laplace(u, a, b, c)
  {
  }

  // ------------------------------------------------------------ the inverse

  function Negated(v: Point): Point { Point(-v.x, -v.y, -v.z, -v.w) }

  function Column1(m: Matrix): Point { Point(m.m11, m.m21, m.m31, m.m41) }
  function Column2(m: Matrix): Point { Point(m.m12, m.m22, m.m32, m.m42) }
  function Column3(m: Matrix): Point { Point(m.m13, m.m23, m.m33, m.m43) }
  function Column4(m: Matrix): Point { Point(m.m14, m.m24, m.m34, m.m44) }

  lemma FlipSign(a: real, b: real, c: real, p: real, q: real, r: real)
    ensures -a * p + b * q - c * r == -(a * p - b * q + c * r)
  {
  }

  lemma AdjugateColumn1(m: Matrix)
    ensures Column1(Adjugate(m)) == Minors(Row2(m), Row3(m), Row4(m))
  {
    FlipSign(m.m21, m.m31, m.m41, Det2(m.m33, m.m34, m.m43, m.m44),
             Det2(m.m23, m.m24, m.m43, m.m44), Det2(m.m23, m.m24, m.m33, m.m34));
    FlipSign(m.m21, m.m31, m.m41, Det2(m.m32, m.m33, m.m42, m.m43),
             Det2(m.m22, m.m23, m.m42, m.m43), Det2(m.m22, m.m23, m.m32, m.m33));
  }

  lemma AdjugateColumn2(m: Matrix)
    ensures Column2(Adjugate(m)) == Negated(Minors(Row1(m), Row3(m), Row4(m)))
  {
    FlipSign(m.m12, m.m32, m.m42, Det2(m.m33, m.m34, m.m43, m.m44),
             Det2(m.m13, m.m14, m.m43, m.m44), Det2(m.m13, m.m14, m.m33, m.m34));
    FlipSign(m.m11, m.m31, m.m41, Det2(m.m32, m.m34, m.m42, m.m44),
             Det2(m.m12, m.m14, m.m42, m.m44), Det2(m.m12, m.m14, m.m32, m.m34));
  }

  lemma AdjugateColumn3(m: Matrix)
    ensures Column3(Adjugate(m)) == Minors(Row1(m), Row2(m), Row4(m))
  {
    FlipSign(m.m11, m.m21, m.m41, Det2(m.m23, m.m24, m.m43, m.m44),
             Det2(m.m13, m.m14, m.m43, m.m44), Det2(m.m13, m.m14, m.m23, m.m24));
    FlipSign(m.m11, m.m21, m.m41, Det2(m.m22, m.m23, m.m42, m.m43),
             Det2(m.m12, m.m13, m.m42, m.m43), Det2(m.m12, m.m13, m.m22, m.m23));
  }

  lemma AdjugateColumn4(m: Matrix)
    ensures Column4(Adjugate(m)) == Negated(Minors(Row1(m), Row2(m), Row3(m)))
  {
    FlipSign(m.m12, m.m22, m.m32, Det2(m.m23, m.m24, m.m33, m.m34),
             Det2(m.m13, m.m14, m.m33, m.m34), Det2(m.m13, m.m14, m.m23, m.m24));
    FlipSign(m.m11, m.m21, m.m31, Det2(m.m22, m.m24, m.m32, m.m34),
             Det2(m.m12, m.m14, m.m32, m.m34), Det2(m.m12, m.m14, m.m22, m.m24));
  }

  lemma NegatedDot(u: Point, v: Point)
    ensures RowDot(u, Negated(v)) == -RowDot(u, v)
  {
  }

  /** The determinant of the whole matrix, rows in order. */
  function Determinant(m: Matrix): real {
    Laplace(Row1(m), Row2(m), Row3(m), Row4(m))
  }

  /** One row against the four columns of the adjoint. */
  lemma RowTimesAdjugate(m: Matrix, u: Point)
    ensures var a := Adjugate(m);
            && RowDot(u, Column1(a)) == Laplace(u, Row2(m), Row3(m), Row4(m))
            && RowDot(u, Column2(a)) == -Laplace(u, Row1(m), Row3(m), Row4(m))
            && RowDot(u, Column3(a)) == Laplace(u, Row1(m), Row2(m), Row4(m))
            && RowDot(u, Column4(a)) == -Laplace(u, Row1(m), Row2(m), Row3(m))
  {
    AdjugateColumn1(m);
    AdjugateColumn2(m);
    AdjugateColumn3(m);
    AdjugateColumn4(m);
    RowExpansion(u, Row2(m), Row3(m), Row4(m));
    RowExpansion(u, Row1(m), Row3(m), Row4(m));
    RowExpansion(u, Row1(m), Row2(m), Row4(m));
    RowExpansion(u, Row1(m), Row2(m), Row3(m));
    NegatedDot(u, Minors(Row1(m), Row3(m), Row4(m)));
    NegatedDot(u, Minors(Row1(m), Row2(m), Row3(m)));
  }

  function RowProduct(u: Point, n: Matrix): Point {
    Point(RowDot(u, Column1(n)), RowDot(u, Column2(n)), RowDot(u, Column3(n)), RowDot(u, Column4(n)))
  }

  /** Each row of the matrix meets its own column of the adjoint only. */
  lemma RowsTimesAdjugate(m: Matrix)
    ensures var a, d := Adjugate(m), Determinant(m);
            && RowProduct(Row1(m), a) == Point(d, 0.0, 0.0, 0.0)
            && RowProduct(Row2(m), a) == Point(0.0, d, 0.0, 0.0)
            && RowProduct(Row3(m), a) == Point(0.0, 0.0, d, 0.0)
            && RowProduct(Row4(m), a) == Point(0.0, 0.0, 0.0, d)
  {
    var r1, r2, r3, r4 := Row1(m), Row2(m), Row3(m), Row4(m);
    RowTimesAdjugate(m, r1);
    RowTimesAdjugate(m, r2);
    RowTimesAdjugate(m, r3);
    RowTimesAdjugate(m, r4);
    LaplaceAlternates(r1, r2, r3, r4);
    LaplaceAlternates(r2, r1, r3, r4);
    LaplaceAlternates(r3, r1, r2, r4);
    LaplaceAlternates(r4, r1, r2, r3);
  }

  // --------------------------------------------------- the two determinants

  /** The determinant the source computes on its own, along the first column. */
  function Det(m: Matrix): real {
    m.m11 * Minors(Row2(m), Row3(m), Row4(m)).x - m.m21 * Minors(Row1(m), Row3(m), Row4(m)).x +
    m.m31 * Minors(Row1(m), Row2(m), Row4(m)).x - m.m41 * Minors(Row1(m), Row2(m), Row3(m)).x
  }

  lemma ColumnExpansion(u: Point, a: Point, b: Point, c: Point, k: real, l: real, m: real, n: real,
                        qab: real, qac: real, qbc: real, qua: real, qub: real, quc: real)
    requires k == a.y * qbc - b.y * qac + c.y * qab
    requires l == u.y * qbc - b.y * quc + c.y * qub
    requires m == u.y * qac - a.y * quc + c.y * qua
    requires n == u.y * qab - a.y * qub + b.y * qua
    ensures u.x * k - a.x * l + b.x * m - c.x * n
         == P(u, a) * qbc - P(u, b) * qac + P(u, c) * qab + P(a, b) * quc - P(a, c) * qub + P(b, c) * qua
  {
  }

  lemma DetIsDeterminant(m: Matrix)
    ensures Det(m) == Determinant(m)
  {
    var u, a, b, c := Row1(m), Row2(m), Row3(m), Row4(m);
    ColumnExpansion(u, a, b, c,
      Minors(a, b, c).x, Minors(u, b, c).x, Minors(u, a, c).x, Minors(u, a, b).x,
      Q(a, b), Q(a, c), Q(b, c), Q(u, a), Q(u, b), Q(u, c));
  }

  lemma PivotIsDet(m: Matrix)
    ensures Pivot(m) == Det(m)
  {
    AdjugateColumn1(m);
    AdjugateColumn2(m);
    AdjugateColumn3(m);
    AdjugateColumn4(m);
    assert m.m21 * -Minors(Row1(m), Row3(m), Row4(m)).x == -(m.m21 * Minors(Row1(m), Row3(m), Row4(m)).x);
    assert m.m41 * -Minors(Row1(m), Row2(m), Row3(m)).x == -(m.m41 * Minors(Row1(m), Row2(m), Row3(m)).x);
  }

  // ----------------------------------------------------------- transposition

  function Transpose(m: Matrix): Matrix {
    Matrix(m.m11, m.m21, m.m31, m.m41,
           m.m12, m.m22, m.m32, m.m42,
           m.m13, m.m23, m.m33, m.m43,
           m.m14, m.m24, m.m34, m.m44)
  }

  /** The minors of three columns are the minors of those rows of the transpose. */
  lemma MinorsTranspose(a: Point, b: Point, c: Point)
    ensures Minors(a, b, c).x == Det3(a.y, b.y, c.y, a.z, b.z, c.z, a.w, b.w, c.w)
    ensures Minors(a, b, c).y == -Det3(a.x, b.x, c.x, a.z, b.z, c.z, a.w, b.w, c.w)
    ensures Minors(a, b, c).z == Det3(a.x, b.x, c.x, a.y, b.y, c.y, a.w, b.w, c.w)
    ensures Minors(a, b, c).w == -Det3(a.x, b.x, c.x, a.y, b.y, c.y, a.z, b.z, c.z)
  {
    Det3Transpose(a.y, a.z, a.w, b.y, b.z, b.w, c.y, c.z, c.w);
    Det3Transpose(a.x, a.z, a.w, b.x, b.z, b.w, c.x, c.z, c.w);
    Det3Transpose(a.x, a.y, a.w, b.x, b.y, b.w, c.x, c.y, c.w);
    Det3Transpose(a.x, a.y, a.z, b.x, b.y, b.z, c.x, c.y, c.z);
  }

  lemma AdjugateTranspose(m: Matrix)
    ensures Adjugate(Transpose(m)) == Transpose(Adjugate(m))
  {
    var t := Transpose(m);
    AdjugateColumn1(m);
    AdjugateColumn2(m);
    AdjugateColumn3(m);
    AdjugateColumn4(m);
    AdjugateColumn1(t);
    AdjugateColumn2(t);
    AdjugateColumn3(t);
    AdjugateColumn4(t);
    MinorsTranspose(Column2(m), Column3(m), Column4(m));
    MinorsTranspose(Column1(m), Column3(m), Column4(m));
    MinorsTranspose(Column1(m), Column2(m), Column4(m));
    MinorsTranspose(Column1(m), Column2(m), Column3(m));
  }

  // ----------------------------------------------------- inverse, both sides

  function Times(v: Point, s: real): Point { Point(Mul(v.x, s), Mul(v.y, s), Mul(v.z, s), Mul(v.w, s)) }

  lemma DotScale(u: Point, v: Point, s: real)
    ensures RowDot(u, Times(v, s)) == Mul(RowDot(u, v), s)
  {
  }

  lemma RowProductScale(u: Point, n: Matrix, s: real)
    ensures RowProduct(u, Scale(n, s)) == Times(RowProduct(u, n), s)
  {
    DotScale(u, Column1(n), s);
    DotScale(u, Column2(n), s);
    DotScale(u, Column3(n), s);
    DotScale(u, Column4(n), s);
  }

  lemma ScaleByRows(p: Matrix, q: Matrix, s: real)
    requires Row1(q) == Times(Row1(p), s) && Row2(q) == Times(Row2(p), s)
    requires Row3(q) == Times(Row3(p), s) && Row4(q) == Times(Row4(p), s)
    ensures q == Scale(p, s)
  {
  }

  lemma ProductScale(m: Matrix, n: Matrix, s: real)
    ensures Product(m, Scale(n, s)) == Scale(Product(m, n), s)
  {
    RowProductScale(Row1(m), n, s);
    RowProductScale(Row2(m), n, s);
    RowProductScale(Row3(m), n, s);
    RowProductScale(Row4(m), n, s);
    ProductRows(m, n);
    ProductRows(m, Scale(n, s));
    ScaleByRows(Product(m, n), Product(m, Scale(n, s)), s);
  }

  lemma ProductRows(m: Matrix, n: Matrix)
    ensures Row1(Product(m, n)) == RowProduct(Row1(m), n)
    ensures Row2(Product(m, n)) == RowProduct(Row2(m), n)
    ensures Row3(Product(m, n)) == RowProduct(Row3(m), n)
    ensures Row4(Product(m, n)) == RowProduct(Row4(m), n)
  {
  }

  lemma DotSymmetric(u: Point, v: Point)
    ensures RowDot(u, v) == RowDot(v, u)
  {
  }

  /** A row of a product is a column of the transposed product. */
  lemma RowIsColumn(u: Point, n: Matrix)
    ensures RowProduct(u, n) == Apply(Transpose(n), u)
  {
    DotSymmetric(u, Column1(n));
    DotSymmetric(u, Column2(n));
    DotSymmetric(u, Column3(n));
    DotSymmetric(u, Column4(n));
  }

  lemma ProductTranspose(m: Matrix, n: Matrix)
    ensures Transpose(Product(m, n)) == Product(Transpose(n), Transpose(m))
  {
    ProductRows(m, n);
    RowIsColumn(Row1(m), n);
    RowIsColumn(Row2(m), n);
    RowIsColumn(Row3(m), n);
    RowIsColumn(Row4(m), n);
    ProductColumns(Transpose(n), Transpose(m));
  }

  lemma ProductColumns(m: Matrix, n: Matrix)
    ensures Column1(Product(m, n)) == Apply(m, Column1(n))
    ensures Column2(Product(m, n)) == Apply(m, Column2(n))
    ensures Column3(Product(m, n)) == Apply(m, Column3(n))
    ensures Column4(Product(m, n)) == Apply(m, Column4(n))
  {
  }

  lemma ScaleReciprocal(d: real)
    requires d != 0.0
    ensures Scale(Scale(Identity(), d), 1.0 / d) == Identity()
  {
  }

  lemma ProductAdjugate(m: Matrix)
    ensures Product(m, Adjugate(m)) == Scale(Identity(), Det(m))
  {
    RowsTimesAdjugate(m);
    DetIsDeterminant(m);
    ProductRows(m, Adjugate(m));
  }

  /** The inverse is a right inverse for every matrix with a determinant. */
  lemma InverseRight(m: Matrix)
    requires Det(m) != 0.0
    ensures Pivot(m) != 0.0 && Product(m, Inverse(m)) == Identity()
  {
    PivotIsDet(m);
    ProductAdjugate(m);
    ProductScale(m, Adjugate(m), 1.0 / Det(m));
    ScaleReciprocal(Det(m));
  }

  /** A matrix and its transpose have the same determinant. */
  lemma DetTranspose(m: Matrix)
    ensures Det(Transpose(m)) == Det(m)
  {
    var t := Transpose(m);
    AdjugateTranspose(m);
    RowsTimesAdjugate(t);
    DetIsDeterminant(t);
    PivotIsDet(m);
  }

  lemma ScaleTranspose(a: Matrix, b: Matrix, s: real, t: real)
    requires b == Transpose(a) && s == t
    ensures Scale(b, t) == Transpose(Scale(a, s))
  {
  }

  lemma InverseTranspose(m: Matrix)
    requires Det(m) != 0.0
    ensures Pivot(m) != 0.0 && Pivot(Transpose(m)) != 0.0
    ensures Inverse(Transpose(m)) == Transpose(Inverse(m))
  {
    PivotIsDet(m);
    PivotIsDet(Transpose(m));
    DetTranspose(m);
    AdjugateTranspose(m);
    ScaleTranspose(Adjugate(m), Adjugate(Transpose(m)), 1.0 / Pivot(m), 1.0 / Pivot(Transpose(m)));
  }

  /** And the inverse is a left inverse too. */
  lemma InverseLeft(m: Matrix)
    requires Det(m) != 0.0
    ensures Pivot(m) != 0.0 && Product(Inverse(m), m) == Identity()
  {
    DetTranspose(m);
    InverseTranspose(m);
    InverseRight(Transpose(m));
    ProductTranspose(Inverse(m), m);
    var p := Product(Inverse(m), m);
    assert p == Transpose(Transpose(p));
  }

  // ---------------------------------------------------------------- planes

  function AsRow(p: Plane): Point { Point(p.A, p.B, p.C, p.D) }

  function AsPlane(v: Point): Plane { Plane(v.x, v.y, v.z, v.w) }

  /** Plane by matrix, the plane on the right. */
  function TransformPre(t: Matrix, p: Plane): Plane
    requires Pivot(t) != 0.0
  {
    var m, r := Inverse(t), AsRow(p);
    Plane(RowDot(Column1(m), r), RowDot(Column2(m), r), RowDot(Column3(m), r), RowDot(Column4(m), r))
  }

  /** Plane by matrix, the plane on the left. */
  function TransformPost(p: Plane, t: Matrix): Plane
    requires Pivot(t) != 0.0
  {
    var m, r := Inverse(t), AsRow(p);
    Plane(RowDot(r, Row1(m)), RowDot(r, Row2(m)), RowDot(r, Row3(m)), RowDot(r, Row4(m)))
  }

  lemma EvalIsDot(p: Plane, v: Point)
    ensures Eval(p, v) == RowDot(AsRow(p), v)
  {
  }

  /** A row times a matrix is a combination of the matrix's rows. */
  lemma RowCombination(u: Point, m: Matrix)
    ensures RowProduct(u, m) == Blend(1.0, Blend(u.x, Row1(m), u.y, Row2(m)),
                                      1.0, Blend(u.z, Row3(m), u.w, Row4(m)))
  {
  }

  /** A row, a matrix and a column may be multiplied in either order. */
  lemma Associate(u: Point, m: Matrix, v: Point)
    ensures RowDot(RowProduct(u, m), v) == RowDot(u, Apply(m, v))
  {
    var q := AsPlane(v);
    var a, b := Blend(u.x, Row1(m), u.y, Row2(m)), Blend(u.z, Row3(m), u.w, Row4(m));
    RowCombination(u, m);
    BlendEval(q, 1.0, a, 1.0, b);
    BlendEval(q, u.x, Row1(m), u.y, Row2(m));
    BlendEval(q, u.z, Row3(m), u.w, Row4(m));
    EvalRows(q, m, v);
    EvalIsDot(q, RowProduct(u, m));
    DotSymmetric(v, RowProduct(u, m));
    SumUp(u, Apply(m, v), Eval(q, a), Eval(q, b));
  }

  lemma EvalRows(q: Plane, m: Matrix, v: Point)
    requires q == AsPlane(v)
    ensures Apply(m, v) == Point(Eval(q, Row1(m)), Eval(q, Row2(m)), Eval(q, Row3(m)), Eval(q, Row4(m)))
  {
    DotSymmetric(v, Row1(m));
    DotSymmetric(v, Row2(m));
    DotSymmetric(v, Row3(m));
    DotSymmetric(v, Row4(m));
  }

  lemma SumUp(u: Point, c: Point, front: real, back: real)
    requires front == u.x * c.x + u.y * c.y && back == u.z * c.z + u.w * c.w
    ensures RowDot(u, c) == 1.0 * front + 1.0 * back
  {
  }

  lemma UnitDot(u: Point)
    ensures RowDot(u, Point(1.0, 0.0, 0.0, 0.0)) == u.x
    ensures RowDot(u, Point(0.0, 1.0, 0.0, 0.0)) == u.y
    ensures RowDot(u, Point(0.0, 0.0, 1.0, 0.0)) == u.z
    ensures RowDot(u, Point(0.0, 0.0, 0.0, 1.0)) == u.w
  {
  }

  /** A row taken through a matrix and then through its inverse is itself. */
  lemma RowRoundTrip(u: Point, m: Matrix, n: Matrix)
    requires Product(m, n) == Identity()
    ensures RowProduct(RowProduct(u, m), n) == u
  {
    Associate(u, m, Column1(n));
    Associate(u, m, Column2(n));
    Associate(u, m, Column3(n));
    Associate(u, m, Column4(n));
    ProductColumns(m, n);
    UnitDot(u);
  }

  lemma PreIsRowProduct(t: Matrix, p: Plane)
    requires Pivot(t) != 0.0
    ensures AsRow(TransformPre(t, p)) == RowProduct(AsRow(p), Inverse(t))
  {
    var m, r := Inverse(t), AsRow(p);
    DotSymmetric(Column1(m), r);
    DotSymmetric(Column2(m), r);
    DotSymmetric(Column3(m), r);
    DotSymmetric(Column4(m), r);
  }

  lemma PostIsColumn(p: Plane, t: Matrix)
    requires Pivot(t) != 0.0
    ensures AsRow(TransformPost(p, t)) == Apply(Inverse(t), AsRow(p))
  {
    var m, r := Inverse(t), AsRow(p);
    DotSymmetric(r, Row1(m));
    DotSymmetric(r, Row2(m));
    DotSymmetric(r, Row3(m));
    DotSymmetric(r, Row4(m));
  }

  /** A matrix and its inverse cancel between a row and a column. */
  lemma Cancel(u: Point, m: Matrix, n: Matrix, v: Point)
    requires Product(m, n) == Identity()
    ensures RowDot(RowProduct(u, m), Apply(n, v)) == RowDot(u, v)
  {
    Associate(RowProduct(u, m), n, v);
    RowRoundTrip(u, m, n);
  }

  /** Moving the points by a matrix and the plane with them changes no
      distance: column vectors, the plane on the right. */
  lemma PreCovariance(t: Matrix, p: Plane, v: Point)
    requires Det(t) != 0.0
    ensures Pivot(t) != 0.0 && Eval(TransformPre(t, p), Apply(t, v)) == Eval(p, v)
  {
    InverseLeft(t);
    PreIsRowProduct(t, p);
    Cancel(AsRow(p), Inverse(t), t, v);
    EvalIsDot(p, v);
    EvalIsDot(TransformPre(t, p), Apply(t, v));
  }

  /** The same for row vectors and the plane on the left. */
  lemma PostCovariance(p: Plane, t: Matrix, v: Point)
    requires Det(t) != 0.0
    ensures Pivot(t) != 0.0 && Eval(TransformPost(p, t), RowProduct(v, t)) == Eval(p, v)
  {
    InverseRight(t);
    PostIsColumn(p, t);
    Cancel(v, t, Inverse(t), AsRow(p));
    EvalIsDot(p, v);
    EvalIsDot(TransformPost(p, t), RowProduct(v, t));
    DotSymmetric(AsRow(TransformPost(p, t)), RowProduct(v, t));
    DotSymmetric(AsRow(p), v);
  }

  /** Taking a point through a product is taking it through one matrix after the other. */
  lemma ProductApplies(m: Matrix, n: Matrix, v: Point)
    ensures Apply(Product(m, n), v) == Apply(m, Apply(n, v))
  {
    ProductRows(m, n);
    Associate(Row1(m), n, v);
    Associate(Row2(m), n, v);
    Associate(Row3(m), n, v);
    Associate(Row4(m), n, v);
  }

  /** The transpose is what moves a matrix to the other side of a scalar product. */
  lemma TransposeMoves(u: Point, m: Matrix, v: Point)
    ensures RowDot(Apply(Transpose(m), u), v) == RowDot(u, Apply(m, v))
  {
    RowIsColumn(u, m);
    Associate(u, m, v);
  }

  /** The determinant of the identity is one, and of a scaled identity the fourth power. */
  lemma DetOfScaledIdentity(s: real)
    ensures Det(Scale(Identity(), s)) == s * s * s * s
    ensures Apply(Identity(), Point(s, s, s, s)) == Point(s, s, s, s)
  {
  }
}
