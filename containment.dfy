/**
 * The two geometric tests of the wrapper: whether a point lies inside a
 * fitted ellipsoid (insideEllipsoid), and whether a fitted ellipsoid, shrunk
 * by sqrt(3) along each axis, stays inside the foreground when probed along
 * its own axes and a set of sphere directions (whollyContainedInForeground).
 *
 * Both build the quadric x . (Q^T L Q) x with L = diag(1/a^2, 1/b^2, 1/c^2),
 * where Q is the orientation matrix. Since (Q x)_i is row i of Q dotted with
 * x, that quadric takes the ROWS of Q as principal axes, and the axis probes
 * are the rows too. The Ellipsoid class keeps the axes in the COLUMNS.
 * `Variant` selects the reading: AsWritten uses rows, as the source does;
 * Corrected uses columns, matching the class.
 */
module Containment {
  import opened Wrappers
  import opened Vectors
  import opened Grids
  import opened Ellipsoids

  datatype Variant = AsWritten | Corrected

  function Sq(r: real): real {
    r * r
  }

  /** The direction the quadric weights with radius i. */
  function Axis(e: EllipsoidRecord, variant: Variant, i: nat): Vec3
    requires i < 3
  {
    if variant == AsWritten then e.orientation.Row(i) else e.orientation.Column(i)
  }

  function Radius(e: EllipsoidRecord, i: nat): real
    requires i < 3
  {
    if i == 0 then e.a else if i == 1 then e.b else e.c
  }

  /** One weighted square of the quadric: (axis_i . d)^2 / r^2. */
  function Term(e: EllipsoidRecord, variant: Variant, i: nat, r: real, d: Vec3): real
    requires i < 3 && r != 0.0
  {
    SquarePositive(r);
    Sq(Dot(Axis(e, variant, i), d)) / Sq(r)
  }

  /** d . (Q^T L Q) d for the radii a, b, c themselves. */
  function Quadric(e: EllipsoidRecord, variant: Variant, d: Vec3): real
    requires e.Valid()
  {
    Term(e, variant, 0, e.a, d) + Term(e, variant, 1, e.b, d) + Term(e, variant, 2, e.c, d)
  }

  /**
   * insideEllipsoid: a point is rejected when one of its coordinates, or its
   * distance, from the centroid exceeds c (the distance test compares squared
   * lengths), and otherwise accepted when the quadric is below one. The
   * centroid is always accepted, and nothing farther than c from it is.
   */
  predicate InsideEllipsoid(x: Vec3, e: EllipsoidRecord, variant: Variant)
    requires e.Valid()
    ensures x == e.centroid ==> InsideEllipsoid(x, e, variant)
    ensures InsideEllipsoid(x, e, variant) ==> Dot(Sub(x, e.centroid), Sub(x, e.centroid)) <= e.c * e.c
  {
    var d := Sub(x, e.centroid);
    QuadricAtZero(e, variant);
    MulPositive(e.c, e.c);
    if Abs(d.x) > e.c || Abs(d.y) > e.c || Abs(d.z) > e.c then false
    else if Dot(d, d) > e.c * e.c then false
    else Quadric(e, variant, d) < 1.0
  }

  // ----- Scalar facts, kept apart from vector terms -----

  lemma SquareOfNegation(r: real)
    ensures Sq(-r) == Sq(r)
  {
  }

  lemma ProductsWithZero(a: real, b: real, c: real)
    ensures a * 0.0 + b * 0.0 + c * 0.0 == 0.0
  {
  }

  lemma SquaresOfNegations(a: real, b: real, c: real)
    ensures (-a) * (-a) + (-b) * (-b) + (-c) * (-c) == a * a + b * b + c * c
  {
  }

  /** Moves a positive product onto a term equal to it. */
  lemma ProductPositive(s: real, x: real, y: real)
    requires s == x * y && x * y > 0.0
    ensures s > 0.0
  {
  }

  lemma SquarePositive(r: real)
    requires r != 0.0
    ensures Sq(r) > 0.0
  {
    if r < 0.0 {
      MulPositive(-r, -r);
      ProductPositive(Sq(r), -r, -r);
    } else {
      MulPositive(r, r);
      ProductPositive(Sq(r), r, r);
    }
  }

  lemma MulLeftMono(t: real, x: real, y: real)
    requires t >= 0.0 && x <= y
    ensures t * x <= t * y
  {
    assert t * y - t * x == t * (y - x);
  }

  /** Products of non-negative factors grow with each factor. */
  lemma ProductsOrdered(x: real, y: real, z: real, w: real)
    requires 0.0 <= x <= z && 0.0 <= y <= w
    ensures x * y <= z * w
    ensures x < z && y < w ==> x * y < z * w
  {
    MulLeftMono(y, x, z);
    MulLeftMono(z, y, w);
    assert y * x == x * y && y * z == z * y;
    if x < z && y < w {
      MulPositive(z, w - y);
      assert z * (w - y) == z * w - z * y;
    }
  }

  /** For non-negative t and r, t^2 < r^2 exactly when t < r. */
  lemma SquaresOrdered(t: real, r: real)
    requires t >= 0.0 && r >= 0.0
    ensures t * t < r * r <==> t < r
  {
    if t < r {
      ProductsOrdered(t, t, r, r);
    } else {
      ProductsOrdered(r, r, t, t);
    }
  }

  lemma QuotientBelowOne(p: real, q: real)
    requires q > 0.0
    ensures p / q < 1.0 <==> p < q
  {
    var k := p / q;
    assert k * q == p;
    if k < 1.0 {
      MulPositive(q, 1.0 - k);
      assert q * (1.0 - k) == q - k * q;
    } else {
      MulLeftMono(q, 1.0, k);
      assert q * k == k * q;
    }
  }

  /** For a positive radius r, s^2 / r^2 < 1 exactly when |s| < r. */
  lemma RatioOfSquaresBelowOne(s: real, r: real)
    requires r > 0.0
    ensures Sq(r) > 0.0
    ensures Sq(s) / Sq(r) < 1.0 <==> Abs(s) < r
  {
    SquarePositive(r);
    QuotientBelowOne(Sq(s), Sq(r));
    assert Sq(s) == Abs(s) * Abs(s) by {
      if s < 0.0 {
        assert Sq(s) == (-s) * (-s);
      }
    }
    SquaresOrdered(Abs(s), r);
  }

  lemma SquareBelow(s: real, r: real)
    requires Abs(s) < r
    ensures s * s < r * r
  {
    assert s * s == Abs(s) * Abs(s) by {
      if s < 0.0 {
        assert s * s == (-s) * (-s);
      }
    }
    SquaresOrdered(Abs(s), r);
  }

  lemma ZeroTerm(r: real)
    requires r != 0.0
    ensures Sq(r) > 0.0
    ensures Sq(0.0) / Sq(r) == 0.0
  {
    SquarePositive(r);
  }

  /** Each weighted square, and so the quadric, is even in d. */
  lemma TermOfNegation(e: EllipsoidRecord, variant: Variant, i: nat, r: real, d: Vec3)
    requires i < 3 && r != 0.0
    ensures Term(e, variant, i, r, Neg(d)) == Term(e, variant, i, r, d)
  {
    var u := Axis(e, variant, i);
    assert Dot(u, Neg(d)) == Dot(Neg(d), u);
    DotNegLeft(d, u);
    assert Dot(d, u) == Dot(u, d);
    SquareOfNegation(Dot(u, d));
  }

  lemma QuadricOfNegation(e: EllipsoidRecord, variant: Variant, d: Vec3)
    requires e.Valid()
    ensures Quadric(e, variant, Neg(d)) == Quadric(e, variant, d)
  {
    TermOfNegation(e, variant, 0, e.a, d);
    TermOfNegation(e, variant, 1, e.b, d);
    TermOfNegation(e, variant, 2, e.c, d);
  }

  // ----- insideEllipsoid -----

  /** At the centroid the quadric vanishes. */
  lemma QuadricAtZero(e: EllipsoidRecord, variant: Variant)
    requires e.Valid()
    ensures Quadric(e, variant, Zero) == 0.0
  {
    forall i | 0 <= i < 3
      ensures Dot(Axis(e, variant, i), Zero) == 0.0
    {
      var u := Axis(e, variant, i);
      ProductsWithZero(u.x, u.y, u.z);
    }
    ZeroTerm(e.a);
    ZeroTerm(e.b);
    ZeroTerm(e.c);
  }

  /** The test is symmetric under reflection through the centroid. */
  lemma InsideIsPointSymmetric(e: EllipsoidRecord, variant: Variant, d: Vec3)
    requires e.Valid()
    ensures InsideEllipsoid(Add(e.centroid, d), e, variant) == InsideEllipsoid(Sub(e.centroid, d), e, variant)
  {
    assert Sub(Add(e.centroid, d), e.centroid) == d;
    assert Sub(Sub(e.centroid, d), e.centroid) == Neg(d);
    SquaresOfNegations(d.x, d.y, d.z);
    assert Dot(Neg(d), Neg(d)) == Dot(d, d);
    QuadricOfNegation(e, variant, d);
  }

  /**
   * With the identity orientation the radii measure the extent along the
   * coordinate axes: a point at offset s along x is inside exactly when
   * |s| < a (and likewise for y with b and z with c), in either reading.
   */
  lemma AxisAlignedExtentX(e: EllipsoidRecord, variant: Variant, s: real)
    requires e.Valid() && e.orientation == Identity
    ensures InsideEllipsoid(Add(e.centroid, Vec3(s, 0.0, 0.0)), e, variant) <==> Abs(s) < e.a
  {
    var d := Vec3(s, 0.0, 0.0);
    assert Sub(Add(e.centroid, d), e.centroid) == d;
    assert Dot(Axis(e, variant, 0), d) == s;
    assert Dot(Axis(e, variant, 1), d) == 0.0;
    assert Dot(Axis(e, variant, 2), d) == 0.0;
    ZeroTerm(e.b);
    ZeroTerm(e.c);
    RatioOfSquaresBelowOne(s, e.a);
    assert Dot(d, d) == s * s + 0.0 * 0.0 + 0.0 * 0.0;
    if Abs(s) < e.a {
      SquareBelow(s, e.c);
    }
  }

  lemma AxisAlignedExtentY(e: EllipsoidRecord, variant: Variant, s: real)
    requires e.Valid() && e.orientation == Identity
    ensures InsideEllipsoid(Add(e.centroid, Vec3(0.0, s, 0.0)), e, variant) <==> Abs(s) < e.b
  {
    var d := Vec3(0.0, s, 0.0);
    assert Sub(Add(e.centroid, d), e.centroid) == d;
    assert Dot(Axis(e, variant, 0), d) == 0.0;
    assert Dot(Axis(e, variant, 1), d) == s;
    assert Dot(Axis(e, variant, 2), d) == 0.0;
    ZeroTerm(e.a);
    ZeroTerm(e.c);
    RatioOfSquaresBelowOne(s, e.b);
    assert Dot(d, d) == 0.0 * 0.0 + s * s + 0.0 * 0.0;
    if Abs(s) < e.b {
      SquareBelow(s, e.c);
    }
  }

  lemma AxisAlignedExtentZ(e: EllipsoidRecord, variant: Variant, s: real)
    requires e.Valid() && e.orientation == Identity
    ensures InsideEllipsoid(Add(e.centroid, Vec3(0.0, 0.0, s)), e, variant) <==> Abs(s) < e.c
  {
    var d := Vec3(0.0, 0.0, s);
    assert Sub(Add(e.centroid, d), e.centroid) == d;
    assert Dot(Axis(e, variant, 0), d) == 0.0;
    assert Dot(Axis(e, variant, 1), d) == 0.0;
    assert Dot(Axis(e, variant, 2), d) == s;
    ZeroTerm(e.a);
    ZeroTerm(e.b);
    RatioOfSquaresBelowOne(s, e.c);
    assert Dot(d, d) == 0.0 * 0.0 + 0.0 * 0.0 + s * s;
    if Abs(s) < e.c {
      SquareBelow(s, e.c);
    }
  }

  // ----- Rows against columns -----

  /** The columns of m are unit length and pairwise perpendicular. */
  predicate OrthonormalColumns(m: Mat3) {
    && Dot(m.col0, m.col0) == 1.0 && Dot(m.col1, m.col1) == 1.0 && Dot(m.col2, m.col2) == 1.0
    && Dot(m.col0, m.col1) == 0.0 && Dot(m.col0, m.col2) == 0.0 && Dot(m.col1, m.col2) == 0.0
  }

  lemma DotCommutes(u: Vec3, v: Vec3)
    ensures Dot(u, v) == Dot(v, u)
  {
  }

  /** Column i dotted with column j is 1 when i = j and 0 otherwise. */
  lemma ColumnsDot(m: Mat3, i: nat, j: nat)
    requires OrthonormalColumns(m) && i < 3 && j < 3
    ensures Dot(m.Column(j), m.Column(i)) == if i == j then 1.0 else 0.0
  {
    DotCommutes(m.Column(i), m.Column(j));
  }

  /** A rotation by the angle with cosine 3/5 about z; its columns and rows differ. */
  const RotatedExample: EllipsoidRecord :=
    EllipsoidRecord(1.0, 2.0, 3.0, Zero,
      Mat3(Vec3(0.6, 0.8, 0.0), Vec3(-0.8, 0.6, 0.0), Vec3(0.0, 0.0, 1.0)))

  /**
   * The point 1.5 * column 0 lies half a unit beyond the end of semi-axis a
   * (a = 1) as the Ellipsoid class stores it, yet the quadric as written,
   * which weights the rows, accepts it (its value is 0.6948); the column
   * reading rejects it.
   */
  lemma RowQuadricAcceptsPointBeyondSemiAxis()
    ensures RotatedExample.Valid() && OrthonormalColumns(RotatedExample.orientation)
    ensures InsideEllipsoid(Scale(1.5, RotatedExample.orientation.col0), RotatedExample, AsWritten)
    ensures !InsideEllipsoid(Scale(1.5, RotatedExample.orientation.col0), RotatedExample, Corrected)
  {
    ExampleIsValid();
    ExampleAcceptedAsWritten();
    ExampleRejectedByColumns();
  }

  lemma ExampleAcceptedAsWritten()
    ensures RotatedExample.Valid()
    ensures InsideEllipsoid(Scale(1.5, RotatedExample.orientation.col0), RotatedExample, AsWritten)
  {
    var e := RotatedExample;
    var x := Vec3(0.9, 1.2, 0.0);
    assert Scale(1.5, e.orientation.col0) == x;
    ExampleRowQuadric(x);
    ExamplePrefilters(x);
    assert Sub(x, e.centroid) == x;
    assert Quadric(e, AsWritten, x) < 1.0;
  }

  lemma ExampleRejectedByColumns()
    ensures RotatedExample.Valid()
    ensures !InsideEllipsoid(Scale(1.5, RotatedExample.orientation.col0), RotatedExample, Corrected)
  {
    ExampleIsValid();
    BeyondFirstUnitAxisIsOutside(RotatedExample);
  }

  /**
   * Under the column reading, for a = 1 and the centroid at the origin, the
   * point 1.5 along the first column is outside.
   */
  lemma BeyondFirstUnitAxisIsOutside(e: EllipsoidRecord)
    requires e.Valid() && OrthonormalColumns(e.orientation) && e.a == 1.0 && e.centroid == Zero
    ensures !InsideEllipsoid(Scale(1.5, e.orientation.col0), e, Corrected)
  {
    var x := Scale(1.5, e.orientation.col0);
    assert Add(e.centroid, Scale(1.5, e.orientation.Column(0))) == x;
    if InsideEllipsoid(x, e, Corrected) {
      CorrectedRejectsBeyondSemiAxis(e, 0, 1.5);
    }
  }

  lemma ExampleIsValid()
    ensures RotatedExample.Valid() && OrthonormalColumns(RotatedExample.orientation)
  {
    var m := RotatedExample.orientation;
    assert m.col0 == Vec3(0.6, 0.8, 0.0) && m.col1 == Vec3(-0.8, 0.6, 0.0) && m.col2 == Vec3(0.0, 0.0, 1.0);
    assert Dot(m.col0, m.col0) == 0.6 * 0.6 + 0.8 * 0.8 + 0.0 * 0.0 == 1.0;
    assert Dot(m.col1, m.col1) == (-0.8) * (-0.8) + 0.6 * 0.6 + 0.0 * 0.0 == 1.0;
    assert Dot(m.col2, m.col2) == 0.0 * 0.0 + 0.0 * 0.0 + 1.0 * 1.0 == 1.0;
    assert Dot(m.col0, m.col1) == 0.6 * (-0.8) + 0.8 * 0.6 + 0.0 * 0.0 == 0.0;
    assert Dot(m.col0, m.col2) == 0.6 * 0.0 + 0.8 * 0.0 + 0.0 * 1.0 == 0.0;
    assert Dot(m.col1, m.col2) == (-0.8) * 0.0 + 0.6 * 0.0 + 0.0 * 1.0 == 0.0;
  }

  lemma ExamplePrefilters(x: Vec3)
    requires x == Vec3(0.9, 1.2, 0.0)
    ensures Sub(x, RotatedExample.centroid) == x
    ensures var c := RotatedExample.c;
      !(Abs(x.x) > c || Abs(x.y) > c || Abs(x.z) > c) && !(Dot(x, x) > c * c)
  {
    var c := RotatedExample.c;
    SquareOfEqual(c, 3.0);
    assert Dot(x, x) == 2.25;
  }

  lemma SquareOfEqual(r: real, v: real)
    requires r == v
    ensures r * r == v * v
  {
  }

  lemma ExampleRowTerm0(x: Vec3)
    requires x == Vec3(0.9, 1.2, 0.0)
    ensures Term(RotatedExample, AsWritten, 0, 1.0, x) == 0.1764
  {
    assert Axis(RotatedExample, AsWritten, 0) == Vec3(0.6, -0.8, 0.0);
    assert Dot(Vec3(0.6, -0.8, 0.0), x) == -0.42;
    QuotientIs(Sq(-0.42), Sq(1.0), 0.1764);
  }

  lemma ExampleRowTerm1(x: Vec3)
    requires x == Vec3(0.9, 1.2, 0.0)
    ensures Term(RotatedExample, AsWritten, 1, 2.0, x) == 0.5184
  {
    assert Axis(RotatedExample, AsWritten, 1) == Vec3(0.8, 0.6, 0.0);
    assert Dot(Vec3(0.8, 0.6, 0.0), x) == 1.44;
    QuotientIs(Sq(1.44), Sq(2.0), 0.5184);
  }

  lemma ExampleRowTerm2(x: Vec3)
    requires x == Vec3(0.9, 1.2, 0.0)
    ensures Term(RotatedExample, AsWritten, 2, 3.0, x) == 0.0
  {
    assert Axis(RotatedExample, AsWritten, 2) == Vec3(0.0, 0.0, 1.0);
    assert Dot(Vec3(0.0, 0.0, 1.0), x) == 0.0;
    QuotientIs(Sq(0.0), Sq(3.0), 0.0);
  }

  lemma ExampleRowQuadric(x: Vec3)
    requires x == Vec3(0.9, 1.2, 0.0)
    ensures RotatedExample.Valid() && Quadric(RotatedExample, AsWritten, x) == 0.6948
  {
    ExampleRowTerm0(x);
    ExampleRowTerm1(x);
    ExampleRowTerm2(x);
  }

  lemma TermNonNegative(e: EllipsoidRecord, variant: Variant, i: nat, r: real, d: Vec3)
    requires i < 3 && r != 0.0
    ensures Term(e, variant, i, r, d) >= 0.0
  {
    var t := Dot(Axis(e, variant, i), d);
    SquarePositive(r);
    if t != 0.0 {
      SquarePositive(t);
    }
    QuotientNonNegative(Sq(t), Sq(r));
  }

  lemma QuotientIs(p: real, q: real, v: real)
    requires q != 0.0 && p == v * q
    ensures p / q == v
  {
  }

  lemma QuotientNonNegative(p: real, q: real)
    requires p >= 0.0 && q > 0.0
    ensures p / q >= 0.0
  {
  }

  lemma DotScaleRight(u: Vec3, v: Vec3, s: real)
    ensures Dot(u, Scale(s, v)) == s * Dot(u, v)
  {
  }

  /** Along column i the column quadric keeps only its i-th weighted square. */
  lemma ColumnQuadricAlongAxis(e: EllipsoidRecord, i: nat, s: real)
    requires e.Valid() && OrthonormalColumns(e.orientation) && i < 3
    ensures Sq(Radius(e, i)) > 0.0
    ensures Quadric(e, Corrected, Scale(s, e.orientation.Column(i))) == Sq(s) / Sq(Radius(e, i))
  {
    SquarePositive(Radius(e, i));
    var d := Scale(s, e.orientation.Column(i));
    forall j | 0 <= j < 3
      ensures Dot(Axis(e, Corrected, j), d) == if j == i then s else 0.0
    {
      DotScaleRight(e.orientation.Column(j), e.orientation.Column(i), s);
      ColumnsDot(e.orientation, i, j);
    }
    ZeroTerm(e.a);
    ZeroTerm(e.b);
    ZeroTerm(e.c);
  }

  /**
   * With the column reading and an orthonormal orientation, no point on the
   * line of semi-axis i at or beyond its end is inside: a point inside at
   * offset s along column i has |s| below radius i.
   */
  lemma CorrectedRejectsBeyondSemiAxis(e: EllipsoidRecord, i: nat, s: real)
    requires e.Valid() && OrthonormalColumns(e.orientation) && i < 3
    requires InsideEllipsoid(Add(e.centroid, Scale(s, e.orientation.Column(i))), e, Corrected)
    ensures Abs(s) < Radius(e, i)
  {
    var d := Scale(s, e.orientation.Column(i));
    assert Sub(Add(e.centroid, d), e.centroid) == d;
    ColumnQuadricAlongAxis(e, i, s);
    RatioOfSquaresBelowOne(s, Radius(e, i));
  }

  /** Within the end of semi-axis i, the column quadric is below one. */
  lemma CorrectedQuadricWithinSemiAxis(e: EllipsoidRecord, i: nat, s: real)
    requires e.Valid() && OrthonormalColumns(e.orientation) && i < 3
    requires Abs(s) < Radius(e, i)
    ensures Quadric(e, Corrected, Scale(s, e.orientation.Column(i))) < 1.0
  {
    ColumnQuadricAlongAxis(e, i, s);
    RatioOfSquaresBelowOne(s, Radius(e, i));
  }

  // ----- whollyContainedInForeground -----

  /** Math.sqrt(3) as a double: the amount by which every radius is reduced. */
  const AxisReduction: real := 1.7320508075688772

  /** A radius reduced by sqrt(3). */
  function Reduced(r: real): real {
    r - AxisReduction
  }

  /** None of the reduced radii is zero, so every weight 1/r^2 is defined. */
  predicate ReducedNonZero(e: EllipsoidRecord) {
    Reduced(e.a) != 0.0 && Reduced(e.b) != 0.0 && Reduced(e.c) != 0.0
  }

  /** d . (Q^T L Q) d for the reduced radii. */
  function ReducedQuadric(e: EllipsoidRecord, variant: Variant, d: Vec3): real
    requires ReducedNonZero(e)
  {
    Term(e, variant, 0, Reduced(e.a), d) + Term(e, variant, 1, Reduced(e.b), d) + Term(e, variant, 2, Reduced(e.c), d)
  }

  /** `sqrt` is the square root on the non-negative reals. */
  ghost predicate IsSqrt(sqrt: real -> real) {
    forall r :: r >= 0.0 ==> sqrt(r) >= 0.0 && sqrt(r) * sqrt(r) == r
  }

  /**
   * Where the ray from the centroid along dir meets the ellipsoid with radii
   * reduced by sqrt(3): centroid + t dir with t = sqrt(1 / q), q the reduced
   * quadric of dir, and `sqrt` standing for Math.sqrt. Over the reals 1/0 is
   * not defined, so the model chooses what the two divisions by zero give: a
   * zero reduced radius gives the centroid, and a zero q (as for a zero dir)
   * gives no point (None), which the background test treats as background.
   * In IEEE arithmetic these cases produce infinities and NaN instead. When
   * the weights are defined and sqrt is the square root, the point lies on
   * the reduced ellipsoid.
   */
  function IntersectionPoint(e: EllipsoidRecord, variant: Variant, dir: Vec3, sqrt: real -> real): (p: Option<Vec3>)
    ensures IsSqrt(sqrt) && ReducedNonZero(e) && p.Some? ==>
      ReducedQuadric(e, variant, Sub(p.value, e.centroid)) == 1.0
  {
    if !ReducedNonZero(e) then Some(e.centroid)
    else
      var q := ReducedQuadric(e, variant, dir);
      if q == 0.0 then None
      else
        IntersectionOnReducedSurface(e, variant, dir, sqrt);
        Some(Add(e.centroid, Scale(sqrt(1.0 / q), dir)))
  }

  lemma SquareOfProduct(t: real, x: real)
    ensures Sq(t * x) == t * t * Sq(x)
  {
  }

  lemma ScaledQuotient(k: real, p: real, q: real)
    requires q != 0.0
    ensures (k * p) / q == k * (p / q)
  {
  }

  /** Scaling d by t scales each weighted square by t^2. */
  lemma ScaledTerm(e: EllipsoidRecord, variant: Variant, i: nat, r: real, t: real, d: Vec3)
    requires i < 3 && r != 0.0
    ensures Term(e, variant, i, r, Scale(t, d)) == t * t * Term(e, variant, i, r, d)
  {
    var u := Axis(e, variant, i);
    DotScaleRight(u, d, t);
    SquareOfProduct(t, Dot(u, d));
    SquarePositive(r);
    ScaledQuotient(t * t, Sq(Dot(u, d)), Sq(r));
  }

  lemma SumOfScaled(k: real, x: real, y: real, z: real, q: real)
    requires q == x + y + z && k * q == 1.0
    ensures k * x + k * y + k * z == 1.0
  {
  }

  lemma InverseTimes(q: real, k: real)
    requires q != 0.0 && k == 1.0 / q
    ensures k * q == 1.0
  {
  }

  lemma IntersectionOnReducedSurface(e: EllipsoidRecord, variant: Variant, dir: Vec3, sqrt: real -> real)
    requires ReducedNonZero(e) && ReducedQuadric(e, variant, dir) != 0.0
    ensures IsSqrt(sqrt) ==>
      var q := ReducedQuadric(e, variant, dir);
      ReducedQuadric(e, variant, Sub(Add(e.centroid, Scale(sqrt(1.0 / q), dir)), e.centroid)) == 1.0
  {
    if IsSqrt(sqrt) {
      var q := ReducedQuadric(e, variant, dir);
      var x, y, z := Term(e, variant, 0, Reduced(e.a), dir), Term(e, variant, 1, Reduced(e.b), dir),
                     Term(e, variant, 2, Reduced(e.c), dir);
      TermNonNegative(e, variant, 0, Reduced(e.a), dir);
      TermNonNegative(e, variant, 1, Reduced(e.b), dir);
      TermNonNegative(e, variant, 2, Reduced(e.c), dir);
      assert q > 0.0;
      var t := sqrt(1.0 / q);
      var k := t * t;
      assert k == 1.0 / q;
      InverseTimes(q, k);
      var d := Scale(t, dir);
      assert Sub(Add(e.centroid, d), e.centroid) == d;
      ScaledTerm(e, variant, 0, Reduced(e.a), t, dir);
      ScaledTerm(e, variant, 1, Reduced(e.b), t, dir);
      ScaledTerm(e, variant, 2, Reduced(e.c), t, dir);
      SumOfScaled(k, x, y, z, q);
    }
  }

  /**
   * ellipsoidIntersectionIsBackground: the intersection pixel holds zero, or
   * lies outside the image (which the source counts as background).
   */
  predicate IntersectionIsBackground(dims: Dims, image: seq<int>, e: EllipsoidRecord, variant: Variant,
                                     dir: Vec3, sqrt: real -> real)
    requires |image| == dims.Size()
    ensures IntersectionIsBackground(dims, image, e, variant, dir, sqrt)
        <==> !HitsForeground(dims, image, e, variant, dir, sqrt)
  {
    match IntersectionPoint(e, variant, dir, sqrt)
    case None => true
    case Some(p) =>
      var px := ToPixel(p);
      if InBounds(dims, px) then image[Index(dims, px)] == 0 else true
  }

  /** The six axis probes: each principal direction and its opposite. */
  function AxisProbes(e: EllipsoidRecord, variant: Variant): (probes: seq<Vec3>)
    ensures |probes| == 6
    ensures forall i :: 0 <= i < 3 ==>
      probes[2 * i] == Axis(e, variant, i) && probes[2 * i + 1] == Neg(Axis(e, variant, i))
  {
    [Axis(e, variant, 0), Neg(Axis(e, variant, 0)),
     Axis(e, variant, 1), Neg(Axis(e, variant, 1)),
     Axis(e, variant, 2), Neg(Axis(e, variant, 2))]
  }

  /** Stream.anyMatch of the background test over the directions, in order. */
  predicate AnyBackground(dims: Dims, image: seq<int>, e: EllipsoidRecord, variant: Variant,
                          dirs: seq<Vec3>, sqrt: real -> real)
    requires |image| == dims.Size()
    decreases |dirs|
  {
    if dirs == [] then false
    else (IntersectionIsBackground(dims, image, e, variant, dirs[0], sqrt)
          || AnyBackground(dims, image, e, variant, dirs[1..], sqrt))
  }

  /**
   * whollyContainedInForeground: the centroid pixel is in the image and no
   * probe meets background. So an ellipsoid is kept exactly when every probe,
   * the six axis directions first and then the sphere directions, ends on a
   * foreground voxel inside the image; a probe that leaves the image rejects it.
   */
  predicate WhollyContained(dims: Dims, image: seq<int>, e: EllipsoidRecord, variant: Variant,
                            sphereDirections: seq<Vec3>, sqrt: real -> real)
    requires |image| == dims.Size()
    ensures WhollyContained(dims, image, e, variant, sphereDirections, sqrt)
        <==> InBounds(dims, ToPixel(e.centroid))
             && (forall k :: 0 <= k < 6 ==> HitsForeground(dims, image, e, variant, AxisProbes(e, variant)[k], sqrt))
             && (forall k :: 0 <= k < |sphereDirections| ==> HitsForeground(dims, image, e, variant, sphereDirections[k], sqrt))
  {
    NoBackgroundIffAllHit(dims, image, e, variant, AxisProbes(e, variant), sphereDirections, sqrt);
    InBounds(dims, ToPixel(e.centroid))
    && !AnyBackground(dims, image, e, variant, AxisProbes(e, variant) + sphereDirections, sqrt)
  }

  /** The probe along dir ends on a foreground voxel inside the image. */
  predicate HitsForeground(dims: Dims, image: seq<int>, e: EllipsoidRecord, variant: Variant,
                           dir: Vec3, sqrt: real -> real)
    requires |image| == dims.Size()
  {
    && IntersectionPoint(e, variant, dir, sqrt).Some?
    && InBounds(dims, ToPixel(IntersectionPoint(e, variant, dir, sqrt).value))
    && image[Index(dims, ToPixel(IntersectionPoint(e, variant, dir, sqrt).value))] != 0
  }

  lemma {:induction false} AnyBackgroundIffSomeMiss(dims: Dims, image: seq<int>, e: EllipsoidRecord,
                                                    variant: Variant, dirs: seq<Vec3>, sqrt: real -> real)
    requires |image| == dims.Size()
    ensures AnyBackground(dims, image, e, variant, dirs, sqrt)
        <==> exists k :: 0 <= k < |dirs| && !HitsForeground(dims, image, e, variant, dirs[k], sqrt)
    decreases |dirs|
  {
    if dirs != [] {
      AnyBackgroundIffSomeMiss(dims, image, e, variant, dirs[1..], sqrt);
      if !HitsForeground(dims, image, e, variant, dirs[0], sqrt) {
        assert IntersectionIsBackground(dims, image, e, variant, dirs[0], sqrt);
      }
      forall k | 1 <= k < |dirs|
        ensures dirs[k] == dirs[1..][k - 1]
      {
      }
      if exists k :: 0 <= k < |dirs[1..]| && !HitsForeground(dims, image, e, variant, dirs[1..][k], sqrt) {
        var k :| 0 <= k < |dirs[1..]| && !HitsForeground(dims, image, e, variant, dirs[1..][k], sqrt);
        assert dirs[k + 1] == dirs[1..][k];
      }
    }
  }

  /** No probe of axes + sphere meets background exactly when every probe of each part hits foreground. */
  lemma NoBackgroundIffAllHit(dims: Dims, image: seq<int>, e: EllipsoidRecord, variant: Variant,
                              axes: seq<Vec3>, sphere: seq<Vec3>, sqrt: real -> real)
    requires |image| == dims.Size()
    ensures !AnyBackground(dims, image, e, variant, axes + sphere, sqrt)
        <==> (forall k :: 0 <= k < |axes| ==> HitsForeground(dims, image, e, variant, axes[k], sqrt))
             && (forall k :: 0 <= k < |sphere| ==> HitsForeground(dims, image, e, variant, sphere[k], sqrt))
  {
    var probes := axes + sphere;
    AnyBackgroundIffSomeMiss(dims, image, e, variant, probes, sqrt);
    if forall k :: 0 <= k < |probes| ==> HitsForeground(dims, image, e, variant, probes[k], sqrt) {
      forall k | 0 <= k < |axes|
        ensures HitsForeground(dims, image, e, variant, axes[k], sqrt)
      {
        assert probes[k] == axes[k];
      }
      forall k | 0 <= k < |sphere|
        ensures HitsForeground(dims, image, e, variant, sphere[k], sqrt)
      {
        assert probes[|axes| + k] == sphere[k];
      }
    }
    if && (forall k :: 0 <= k < |axes| ==> HitsForeground(dims, image, e, variant, axes[k], sqrt))
       && (forall k :: 0 <= k < |sphere| ==> HitsForeground(dims, image, e, variant, sphere[k], sqrt))
    {
      forall k | 0 <= k < |probes|
        ensures HitsForeground(dims, image, e, variant, probes[k], sqrt)
      {
        if k < |axes| {
          assert probes[k] == axes[k];
        } else {
          assert probes[k] == sphere[k - |axes|];
        }
      }
    }
  }

  /**
   * Adding foreground never rejects an ellipsoid that was kept: the test is
   * monotone in the foreground.
   */
  lemma MoreForegroundKeepsContainment(dims: Dims, image: seq<int>, larger: seq<int>, e: EllipsoidRecord,
                                       variant: Variant, sphereDirections: seq<Vec3>, sqrt: real -> real)
    requires |image| == |larger| == dims.Size()
    requires forall i :: 0 <= i < |image| && image[i] != 0 ==> larger[i] != 0
    requires WhollyContained(dims, image, e, variant, sphereDirections, sqrt)
    ensures WhollyContained(dims, larger, e, variant, sphereDirections, sqrt)
  {
  }
}
