/**
 * The Ellipsoid value class: three radii kept in the order 0 < a <= b <= c,
 * a centroid, an orientation whose columns are the directions of radii a, b
 * and c, and an optional isotropic point-sampling operator. Every setter
 * re-validates the ordering before it writes its field.
 */
module Ellipsoids {
  import opened Wrappers
  import opened Vectors
  import opened Sorting

  /** Math.PI */
  const PI: real := 3.141592653589793

  /** The tolerance of the orthogonality check, 1e-12. */
  const OrthogonalityTolerance: real := 0.000000000001

  /** The exceptions the class throws, one per message of the source. */
  datatype EllipsoidError =
    | InvalidRadius           // "Radius must be a finite positive number."
    | ANotSmallest            // "Radius 'a' must be the smallest."
    | BNotBetween             // "Radius 'b' must be between 'a' and 'c'."
    | CNotLargest             // "Radius 'c' must be the largest."
    | NotOrthogonal           // "Vectors must be orthogonal"
    | NullArgument            // a null centroid, matrix, vector or op environment
    | SamplingNotInitialized  // "Sampling has not been initialized"

  /** The result of a void method that may throw. */
  datatype Outcome = Ok | Fail(error: EllipsoidError)

  /** validRadius, over the reals, where every value is finite. */
  predicate ValidRadius(r: real) {
    r > 0.0
  }

  /**
   * What setC(z), setB(y) and setA(x), called in that order on radii a and b,
   * report: the first exception thrown, or Ok when all three pass.
   */
  function RadiiOutcome(x: real, y: real, z: real, a: real, b: real): Outcome {
    if !ValidRadius(z) then Fail(InvalidRadius)
    else if z < b then Fail(CNotLargest)
    else if !ValidRadius(y) then Fail(InvalidRadius)
    else if y < a || y > z then Fail(BNotBetween)
    else if !ValidRadius(x) then Fail(InvalidRadius)
    else if x > y then Fail(ANotSmallest)
    else Ok
  }

  /** (4/3) * pi * a * b * c */
  function EllipsoidVolume(a: real, b: real, c: real): real {
    (4.0 / 3.0) * PI * a * b * c
  }

  /** The volume of an ellipsoid with positive radii is positive. */
  lemma VolumePositive(a: real, b: real, c: real)
    requires a > 0.0 && b > 0.0 && c > 0.0
    ensures EllipsoidVolume(a, b, c) > 0.0
  {
    var k := (4.0 / 3.0) * PI;
    assert k > 0.0;
    assert k * a > 0.0;
    assert k * a * b > 0.0;
  }

  /** (p, q, r) is (x, y, z) in some order. */
  predicate IsRearrangement(p: real, q: real, r: real, x: real, y: real, z: real) {
    || (p == x && q == y && r == z) || (p == x && q == z && r == y)
    || (p == y && q == x && r == z) || (p == y && q == z && r == x)
    || (p == z && q == x && r == y) || (p == z && q == y && r == x)
  }

  /** Arrays.sort on three radii: ascending, and a rearrangement of its input. */
  function Sort3(x: real, y: real, z: real): (r: seq<real>)
    ensures |r| == 3 && r[0] <= r[1] <= r[2]
    ensures IsRearrangement(r[0], r[1], r[2], x, y, z)
  {
    if x <= y then
      if y <= z then [x, y, z] else if x <= z then [x, z, y] else [z, x, y]
    else
      if x <= z then [y, x, z] else if y <= z then [y, z, x] else [z, y, x]
  }

  /** Sorting the radii does not change the volume they span. */
  lemma Sort3KeepsVolume(x: real, y: real, z: real)
    ensures var r := Sort3(x, y, z); EllipsoidVolume(r[0], r[1], r[2]) == EllipsoidVolume(x, y, z)
  {
    var r := Sort3(x, y, z);
    var k := (4.0 / 3.0) * PI;
    assert EllipsoidVolume(r[0], r[1], r[2]) == k * (r[0] * r[1] * r[2]);
    assert EllipsoidVolume(x, y, z) == k * (x * y * z);
    assert r[0] * r[1] * r[2] == x * y * z by {
      if r[0] == x && r[1] == z {
        assert x * z * y == x * y * z;
      } else if r[0] == y && r[1] == x {
        assert y * x * z == x * y * z;
      } else if r[0] == y && r[1] == z {
        assert y * z * x == x * y * z;
      } else if r[0] == z && r[1] == x {
        assert z * x * y == x * y * z;
      } else if r[0] == z && r[1] == y {
        assert z * y * x == x * y * z;
      }
    }
  }

  /**
   * The one-sided test of the private setOrientation: it rejects only when a
   * pairwise dot product exceeds the tolerance, so negative products pass.
   */
  predicate PassesOrthogonalityCheck(u: Vec3, v: Vec3, w: Vec3) {
    !(Dot(u, v) > OrthogonalityTolerance || Dot(u, w) > OrthogonalityTolerance
      || Dot(v, w) > OrthogonalityTolerance)
  }

  /**
   * A vector and its opposite pass the check together with any third vector
   * orthogonal to them, although they are parallel: Dot(u, -u) is -|u|^2.
   */
  lemma OneSidedCheckAcceptsOpposite(u: Vec3, w: Vec3)
    requires Dot(u, w) == 0.0
    ensures PassesOrthogonalityCheck(u, Neg(u), w)
    ensures Dot(u, Neg(u)) == -Dot(u, u) <= 0.0
  {
    DotSelfNonNegative(u);
    DotNegLeft(u, u);
    DotNegLeft(u, w);
    assert Dot(u, Neg(u)) == Dot(Neg(u), u);
  }

  /** On a blank object, ascending radii fail only when the smallest is not positive. */
  lemma RadiiOnBlank(x: real, y: real, z: real)
    requires x <= y <= z
    ensures RadiiOutcome(x, y, z, 0.0, 0.0) == if ValidRadius(x) then Ok else Fail(InvalidRadius)
  {
  }

  /** The semi-axis vectors ordered by length, shortest first, ties in argument order. */
  function SortedSemiaxes(u: Vec3, v: Vec3, w: Vec3, length: Vec3 -> real): (s: seq<Vec3>)
    ensures |s| == 3 && multiset(s) == multiset([u, v, w])
    ensures length(s[0]) <= length(s[1]) <= length(s[2])
  {
    Sort3ByIsPermutation(u, v, w, length);
    Sort3By(u, v, w, length)
  }

  /** An ellipsoid frozen as a value: what the pipeline reads through the getters. */
  datatype EllipsoidRecord = EllipsoidRecord(a: real, b: real, c: real, centroid: Vec3, orientation: Mat3) {

    predicate Valid() {
      0.0 < a <= b <= c
    }

    function Volume(): real {
      EllipsoidVolume(a, b, c)
    }
  }

  /** The isotropic sampling operator: (radii, number of points) to points. */
  type Sampler = (seq<real>, int) -> seq<Vec3>

  /** The op environment from which initSampling obtains the sampling operator. */
  datatype OpEnvironment = OpEnvironment(ellipsoidPoints: Sampler)

  class Ellipsoid {
    var a: real
    var b: real
    var c: real
    var centroid: Vec3
    var orientation: Mat3
    var isotropicSampling: Option<Sampler>

    /** The class invariant the setters guard. */
    ghost predicate Valid()
      reads this
    {
      0.0 < a <= b <= c
    }

    /** The state before a constructor body runs: fields at their Java defaults. */
    constructor Blank()
      ensures a == 0.0 && b == 0.0 && c == 0.0
      ensures centroid == Zero && orientation == ZeroMatrix && isotropicSampling == None
    {
      a, b, c := 0.0, 0.0, 0.0;
      centroid, orientation := Zero, ZeroMatrix;
      isotropicSampling := None;
    }

    /**
     * Ellipsoid(double, double, double): sorts the radii, sets c, b and a in
     * that order, then sets the orientation to the identity.
     */
    static method FromRadii(x: real, y: real, z: real) returns (r: Result<Ellipsoid, EllipsoidError>)
      ensures r.Success? <==> x > 0.0 && y > 0.0 && z > 0.0
      ensures r.Failure? ==> r.error == InvalidRadius
      ensures r.Success? ==> fresh(r.value) && r.value.Valid()
      ensures r.Success? ==> IsRearrangement(r.value.a, r.value.b, r.value.c, x, y, z)
      ensures r.Success? ==> r.value.orientation == Identity && r.value.centroid == Zero
      ensures r.Success? ==> r.value.isotropicSampling == None
      ensures r.Success? ==> r.value.Volume() == EllipsoidVolume(x, y, z)
    {
      var radii := Sort3(x, y, z);
      var e := new Ellipsoid.Blank();
      var o := e.SetRadii(radii[0], radii[1], radii[2]);
      if o.Fail? {
        return Failure(o.error);
      }
      e.orientation := Identity;
      Sort3KeepsVolume(x, y, z);
      return Success(e);
    }

    /** Ellipsoid(Vector3d, Vector3d, Vector3d): a blank object given its semi-axes. */
    static method FromSemiaxes(u: Option<Vec3>, v: Option<Vec3>, w: Option<Vec3>,
                               length: Vec3 -> real, normalize: Vec3 -> Vec3)
      returns (r: Result<Ellipsoid, EllipsoidError>)
      ensures u.None? || v.None? || w.None? ==> r == Failure(NullArgument)
      ensures u.Some? && v.Some? && w.Some? ==>
        var s := SortedSemiaxes(u.value, v.value, w.value, length);
        && (r.Success? <==> length(s[0]) > 0.0 && PassesOrthogonalityCheck(s[0], s[1], s[2]))
        && (r.Failure? ==> r.error == (if length(s[0]) <= 0.0 then InvalidRadius else NotOrthogonal))
        && (r.Success? ==>
              && fresh(r.value) && r.value.Valid()
              && r.value.a == length(s[0]) && r.value.b == length(s[1]) && r.value.c == length(s[2])
              && r.value.orientation == Mat3(normalize(s[0]), normalize(s[1]), normalize(s[2]))
              && r.value.centroid == Zero && r.value.isotropicSampling == None)
    {
      var e := new Ellipsoid.Blank();
      if u.None? || v.None? || w.None? {
        var o := e.SetSemiaxes(u, v, w, length, normalize);
        return Failure(o.error);
      }
      ghost var s := SortedSemiaxes(u.value, v.value, w.value, length);
      RadiiOnBlank(length(s[0]), length(s[1]), length(s[2]));
      var o := e.SetSemiaxes(u, v, w, length, normalize);
      if o.Fail? {
        return Failure(o.error);
      }
      return Success(e);
    }

    /** setA: rejects a non-positive radius, or one greater than b. */
    method SetA(x: real) returns (o: Outcome)
      modifies this`a
      ensures o == (if !ValidRadius(x) then Fail(InvalidRadius)
                    else if x > b then Fail(ANotSmallest) else Ok)
      ensures a == (if o == Ok then x else old(a))
      ensures old(Valid()) ==> Valid()
    {
      if !ValidRadius(x) {
        return Fail(InvalidRadius);
      }
      if x > b {
        return Fail(ANotSmallest);
      }
      a := x;
      return Ok;
    }

    /** setB: rejects a non-positive radius, or one outside [a, c]. */
    method SetB(x: real) returns (o: Outcome)
      modifies this`b
      ensures o == (if !ValidRadius(x) then Fail(InvalidRadius)
                    else if x < a || x > c then Fail(BNotBetween) else Ok)
      ensures b == (if o == Ok then x else old(b))
      ensures old(Valid()) ==> Valid()
    {
      if !ValidRadius(x) {
        return Fail(InvalidRadius);
      }
      if x < a || x > c {
        return Fail(BNotBetween);
      }
      b := x;
      return Ok;
    }

    /** setC: rejects a non-positive radius, or one less than b. */
    method SetC(x: real) returns (o: Outcome)
      modifies this`c
      ensures o == (if !ValidRadius(x) then Fail(InvalidRadius)
                    else if x < b then Fail(CNotLargest) else Ok)
      ensures c == (if o == Ok then x else old(c))
      ensures old(Valid()) ==> Valid()
    {
      if !ValidRadius(x) {
        return Fail(InvalidRadius);
      }
      if x < b {
        return Fail(CNotLargest);
      }
      c := x;
      return Ok;
    }

    /**
     * setC(z), setB(y), setA(x), stopping at the first that throws: the
     * order both constructors and setSemiaxes use. Writes made before a
     * failing step stay in place.
     */
    method SetRadii(x: real, y: real, z: real) returns (o: Outcome)
      modifies this`a, this`b, this`c
      ensures o == RadiiOutcome(x, y, z, old(a), old(b))
      ensures var cSet := ValidRadius(z) && z >= old(b);
              var bSet := cSet && ValidRadius(y) && old(a) <= y <= z;
              && c == (if cSet then z else old(c))
              && b == (if bSet then y else old(b))
              && a == (if o == Ok then x else old(a))
      ensures o == Ok ==> Valid()
      ensures old(Valid()) ==> Valid()
    {
      o := SetC(z);
      if o.Fail? {
        return;
      }
      o := SetB(y);
      if o.Fail? {
        return;
      }
      o := SetA(x);
    }

    /** getCentroid: a Vec3 is a value, so the caller always receives a copy. */
    function GetCentroid(): Vec3
      reads this
    {
      centroid
    }

    /** setCentroid: a null argument throws; otherwise the coordinates are copied in. */
    method SetCentroid(v: Option<Vec3>) returns (o: Outcome)
      modifies this`centroid
      ensures o == (if v.None? then Fail(NullArgument) else Ok)
      ensures centroid == (if v.Some? then v.value else old(centroid))
    {
      if v.None? {
        return Fail(NullArgument);
      }
      centroid := v.value;
      return Ok;
    }

    /**
     * getOrientation: a new 4x4 matrix, row by row, in homogeneous
     * coordinates. Its upper-left 3x3 block holds the semi-axis directions as
     * columns; there is no translation and the corner is 1.
     */
    function GetOrientation(): (h: seq<seq<real>>)
      reads this
      ensures |h| == 4 && forall i :: 0 <= i < 4 ==> |h[i]| == 4
      ensures forall j :: 0 <= j < 3 ==> Vec3(h[0][j], h[1][j], h[2][j]) == orientation.Column(j)
      ensures h[0][3] == h[1][3] == h[2][3] == 0.0
      ensures h[3] == [0.0, 0.0, 0.0, 1.0]
    {
      var m := orientation;
      [[m.col0.x, m.col1.x, m.col2.x, 0.0],
       [m.col0.y, m.col1.y, m.col2.y, 0.0],
       [m.col0.z, m.col1.z, m.col2.z, 0.0],
       [0.0, 0.0, 0.0, 1.0]]
    }

    /**
     * The private setOrientation(u, v, w): the one-sided orthogonality check,
     * then the normalised vectors are written column by column.
     */
    method SetOrientation(u: Vec3, v: Vec3, w: Vec3, normalize: Vec3 -> Vec3) returns (o: Outcome)
      modifies this`orientation
      ensures o == (if PassesOrthogonalityCheck(u, v, w) then Ok else Fail(NotOrthogonal))
      ensures orientation == (if o == Ok then Mat3(normalize(u), normalize(v), normalize(w))
                              else old(orientation))
    {
      if !PassesOrthogonalityCheck(u, v, w) {
        return Fail(NotOrthogonal);
      }
      var columns := [normalize(u), normalize(v), normalize(w)];
      for i := 0 to 3
        invariant forall j :: 0 <= j < i ==> orientation.Column(j) == columns[j]
      {
        orientation := orientation.WithColumn(i, columns[i]);
      }
      assert orientation == Mat3(orientation.Column(0), orientation.Column(1), orientation.Column(2));
      return Ok;
    }

    /** setOrientation(Matrix3d): a null matrix throws; otherwise its columns are used. */
    method SetOrientationMatrix(m: Option<Mat3>, normalize: Vec3 -> Vec3) returns (o: Outcome)
      modifies this`orientation
      ensures m.None? ==> o == Fail(NullArgument) && orientation == old(orientation)
      ensures m.Some? ==>
        && o == (if PassesOrthogonalityCheck(m.value.col0, m.value.col1, m.value.col2) then Ok
                 else Fail(NotOrthogonal))
        && orientation == (if o == Ok then Mat3(normalize(m.value.col0), normalize(m.value.col1),
                                                normalize(m.value.col2))
                           else old(orientation))
    {
      if m.None? {
        return Fail(NullArgument);
      }
      o := SetOrientation(m.value.col0, m.value.col1, m.value.col2, normalize);
    }

    /**
     * setSemiaxes: sorts copies of the vectors by length, then calls setC,
     * setB and setA with the lengths and only then checks orthogonality. A
     * failing step leaves the writes of the earlier steps in place.
     */
    method SetSemiaxes(u: Option<Vec3>, v: Option<Vec3>, w: Option<Vec3>,
                       length: Vec3 -> real, normalize: Vec3 -> Vec3) returns (o: Outcome)
      modifies this`a, this`b, this`c, this`orientation
      ensures u.None? || v.None? || w.None? ==>
        o == Fail(NullArgument) && a == old(a) && b == old(b) && c == old(c)
        && orientation == old(orientation)
      ensures u.Some? && v.Some? && w.Some? ==>
        var s := SortedSemiaxes(u.value, v.value, w.value, length);
        var cSet := ValidRadius(length(s[2])) && length(s[2]) >= old(b);
        var bSet := cSet && ValidRadius(length(s[1])) && old(a) <= length(s[1]) <= length(s[2]);
        var aSet := bSet && ValidRadius(length(s[0])) && length(s[0]) <= length(s[1]);
        && c == (if cSet then length(s[2]) else old(c))
        && b == (if bSet then length(s[1]) else old(b))
        && a == (if aSet then length(s[0]) else old(a))
        && (var radii := RadiiOutcome(length(s[0]), length(s[1]), length(s[2]), old(a), old(b));
            o == (if radii != Ok then radii
                  else if PassesOrthogonalityCheck(s[0], s[1], s[2]) then Ok
                  else Fail(NotOrthogonal)))
        && orientation == (if o == Ok then Mat3(normalize(s[0]), normalize(s[1]), normalize(s[2]))
                           else old(orientation))
      ensures o == Ok ==> Valid()
      ensures old(Valid()) ==> Valid()
    {
      if u.None? || v.None? || w.None? {
        return Fail(NullArgument);
      }
      var s := SortedSemiaxes(u.value, v.value, w.value, length);
      o := SetRadii(length(s[0]), length(s[1]), length(s[2]));
      if o.Fail? {
        return;
      }
      o := SetOrientation(s[0], s[1], s[2], normalize);
    }

    /** getSemiAxes: column i of the orientation scaled by the i-th radius. */
    method GetSemiAxes() returns (axes: seq<Vec3>)
      ensures |axes| == 3
      ensures axes[0] == Scale(a, orientation.col0)
      ensures axes[1] == Scale(b, orientation.col1)
      ensures axes[2] == Scale(c, orientation.col2)
    {
      var radii := [a, b, c];
      axes := [Zero, Zero, Zero];
      for i := 0 to 3
        invariant |axes| == 3
        invariant forall j :: 0 <= j < i ==> axes[j] == Scale(radii[j], orientation.Column(j))
      {
        axes := axes[i := Scale(radii[i], orientation.Column(i))];
      }
    }

    /** getVolume: positive whenever the class invariant holds. */
    function Volume(): (vol: real)
      reads this
      ensures Valid() ==> vol > 0.0
    {
      if 0.0 < a <= b <= c then VolumePositive(a, b, c); EllipsoidVolume(a, b, c)
      else EllipsoidVolume(a, b, c)
    }

    /** initSampling: a null op environment throws; otherwise its sampler is stored. */
    method InitSampling(ops: Option<OpEnvironment>) returns (o: Outcome)
      modifies this`isotropicSampling
      ensures o == (if ops.None? then Fail(NullArgument) else Ok)
      ensures isotropicSampling == (if ops.Some? then Some(ops.value.ellipsoidPoints)
                                    else old(isotropicSampling))
    {
      if ops.None? {
        return Fail(NullArgument);
      }
      isotropicSampling := Some(ops.value.ellipsoidPoints);
      return Ok;
    }

    /**
     * samplePoints: throws unless sampling was initialised; otherwise each
     * point of the sampler is rotated by the orientation (mapToOrientation)
     * and then translated by the centroid.
     */
    method SamplePoints(n: int) returns (r: Result<seq<Vec3>, EllipsoidError>)
      ensures isotropicSampling.None? ==> r == Failure(SamplingNotInitialized)
      ensures isotropicSampling.Some? ==>
        var sampler: Sampler := isotropicSampling.value;
        var raw := sampler([a, b, c], n);
        && r.Success? && |r.value| == |raw|
        && forall i :: 0 <= i < |raw| ==> r.value[i] == Add(orientation.Times(raw[i]), centroid)
    {
      if isotropicSampling.None? {
        return Failure(SamplingNotInitialized);
      }
      var sampler: Sampler := isotropicSampling.value;
      var points := sampler([a, b, c], n);
      ghost var raw := points;
      for i := 0 to |points|
        invariant |points| == |raw|
        invariant forall j :: 0 <= j < i ==> points[j] == orientation.Times(raw[j])
        invariant forall j :: i <= j < |raw| ==> points[j] == raw[j]
      {
        points := points[i := orientation.Times(points[i])];
      }
      for i := 0 to |points|
        invariant |points| == |raw|
        invariant forall j :: 0 <= j < i ==> points[j] == Add(orientation.Times(raw[j]), centroid)
        invariant forall j :: i <= j < |raw| ==> points[j] == orientation.Times(raw[j])
      {
        points := points[i := Add(points[i], centroid)];
      }
      return Success(points);
    }

    /** The ellipsoid as the immutable record the pipeline works on. */
    function ToRecord(): (e: EllipsoidRecord)
      reads this
      ensures Valid() ==> e.Valid() && e.Volume() > 0.0
      ensures e.Volume() == Volume()
    {
      EllipsoidRecord(a, b, c, centroid, orientation)
    }
  }
}
