/**
 * findFirstPointInBGAlongRay: from a seed inside the foreground, step along a
 * ray by a fixed increment until the voxel under the current position is
 * background (value not greater than zero) or lies outside the image.
 */
module Rays {
  import opened Vectors
  import opened Grids

  /** The position after k increments: start + k * increment. */
  function Along(start: Vec3, increment: Vec3, k: nat): Vec3 {
    Add(start, Scale(k as real, increment))
  }

  /** The march stops at step k when that voxel is outside the image or background. */
  predicate Stops(dims: Dims, image: seq<int>, start: Vec3, increment: Vec3, k: nat)
    requires |image| == dims.Size()
  {
    var p := ToPixel(Along(start, increment, k));
    !InBounds(dims, p) || image[Index(dims, p)] <= 0
  }

  lemma AddOneStep(s: real, i: real, k: real)
    ensures (s + k * i) + i == s + (k + 1.0) * i
  {
  }

  lemma ZeroSteps(s: real, i: real)
    ensures s + 0.0 * i == s
  {
  }

  /** Adding the increment once more advances the march by one step. */
  lemma AlongNext(start: Vec3, increment: Vec3, k: nat)
    ensures Add(Along(start, increment, k), increment) == Along(start, increment, k + 1)
  {
    AddOneStep(start.x, increment.x, k as real);
    AddOneStep(start.y, increment.y, k as real);
    AddOneStep(start.z, increment.z, k as real);
  }

  lemma AlongZero(start: Vec3, increment: Vec3)
    ensures Along(start, increment, 0) == start
  {
    ZeroSteps(start.x, increment.x);
    ZeroSteps(start.y, increment.y);
    ZeroSteps(start.z, increment.z);
  }

  /** A number of steps large enough to carry coordinate s past [0, bound) along i != 0. */
  function EscapeSteps(s: real, i: real, bound: nat): nat
    requires i != 0.0
  {
    var m := Abs(s) + bound as real + 1.0;
    var q := m / Abs(i);
    if q < 0.0 then 1 else q.Floor + 1
  }

  lemma QuotientTimesDivisor(m: real, d: real)
    requires d > 0.0
    ensures (m / d) * d == m
  {
  }

  lemma AboveTimes(k: real, q: real, d: real)
    requires k > q && d > 0.0
    ensures k * d > q * d
  {
    MulPositive(k - q, d);
    assert (k - q) * d == k * d - q * d;
  }

  lemma EscapeStepsFar(s: real, i: real, bound: nat)
    requires i != 0.0
    ensures EscapeSteps(s, i, bound) as real * Abs(i) > Abs(s) + bound as real + 1.0
  {
    var d := Abs(i);
    var m := Abs(s) + bound as real + 1.0;
    var q := m / d;
    QuotientTimesDivisor(m, d);
    AboveTimes(EscapeSteps(s, i, bound) as real, q, d);
  }

  lemma NegatedFactor(k: real, i: real)
    ensures k * (-i) == -(k * i)
  {
  }

  /** The product k * i is k * |i| or its negation, following the sign of i. */
  lemma SignedProduct(k: real, i: real, p: real, q: real)
    requires p == k * i && q == k * Abs(i)
    ensures i >= 0.0 ==> p == q
    ensures i < 0.0 ==> p == -q
  {
    if i < 0.0 {
      NegatedFactor(k, i);
    }
  }

  /** A coordinate at least one unit outside [0, bound) truncates outside it. */
  lemma TruncOutside(x: real, bound: nat)
    requires x >= bound as real + 1.0 || x <= -1.0
    ensures Trunc(x) < 0 || Trunc(x) >= bound
  {
  }

  /** After EscapeSteps steps the truncated coordinate lies outside [0, bound). */
  lemma CoordinateEscapes(s: real, i: real, bound: nat, k: nat, x: real)
    requires i != 0.0 && k == EscapeSteps(s, i, bound) && x == s + k as real * i
    ensures Trunc(x) < 0 || Trunc(x) >= bound
  {
    EscapeStepsFar(s, i, bound);
    var p := k as real * i;
    var q := k as real * Abs(i);
    SignedProduct(k as real, i, p, q);
    assert x == s + p;
    TruncOutside(x, bound);
  }

  lemma EscapesAlongX(dims: Dims, start: Vec3, increment: Vec3)
    requires increment.x != 0.0
    ensures !InBounds(dims, ToPixel(Along(start, increment, EscapeSteps(start.x, increment.x, dims.w))))
  {
    var k := EscapeSteps(start.x, increment.x, dims.w);
    var v := Along(start, increment, k);
    CoordinateEscapes(start.x, increment.x, dims.w, k, v.x);
  }

  lemma EscapesAlongY(dims: Dims, start: Vec3, increment: Vec3)
    requires increment.y != 0.0
    ensures !InBounds(dims, ToPixel(Along(start, increment, EscapeSteps(start.y, increment.y, dims.h))))
  {
    var k := EscapeSteps(start.y, increment.y, dims.h);
    var v := Along(start, increment, k);
    CoordinateEscapes(start.y, increment.y, dims.h, k, v.y);
  }

  lemma EscapesAlongZ(dims: Dims, start: Vec3, increment: Vec3)
    requires increment.z != 0.0
    ensures !InBounds(dims, ToPixel(Along(start, increment, EscapeSteps(start.z, increment.z, dims.d))))
  {
    var k := EscapeSteps(start.z, increment.z, dims.d);
    var v := Along(start, increment, k);
    CoordinateEscapes(start.z, increment.z, dims.d, k, v.z);
  }

  /** A step count at which a ray with a non-zero increment has left the image. */
  function EscapeStep(dims: Dims, start: Vec3, increment: Vec3): (k: nat)
    requires increment != Zero
    ensures !InBounds(dims, ToPixel(Along(start, increment, k)))
  {
    if increment.x != 0.0 then
      EscapesAlongX(dims, start, increment);
      EscapeSteps(start.x, increment.x, dims.w)
    else if increment.y != 0.0 then
      EscapesAlongY(dims, start, increment);
      EscapeSteps(start.y, increment.y, dims.h)
    else
      assert increment.z != 0.0 by {
        assert increment == Vec3(increment.x, increment.y, increment.z);
      }
      EscapesAlongZ(dims, start, increment);
      EscapeSteps(start.z, increment.z, dims.d)
  }

  /** The least stopping step in [j, bound], given that the march stops at bound. */
  function FirstStopFrom(dims: Dims, image: seq<int>, start: Vec3, increment: Vec3, j: nat, bound: nat): (k: nat)
    requires |image| == dims.Size()
    requires j <= bound && Stops(dims, image, start, increment, bound)
    ensures j <= k <= bound && Stops(dims, image, start, increment, k)
    ensures forall m :: j <= m < k ==> !Stops(dims, image, start, increment, m)
    decreases bound - j
  {
    if Stops(dims, image, start, increment, j) then j
    else FirstStopFrom(dims, image, start, increment, j + 1, bound)
  }

  /** The number of increments the march takes: the first step at which it stops. */
  function StepsToBackground(dims: Dims, image: seq<int>, start: Vec3, increment: Vec3): (k: nat)
    requires |image| == dims.Size() && increment != Zero
    ensures Stops(dims, image, start, increment, k)
    ensures forall m :: 0 <= m < k ==> !Stops(dims, image, start, increment, m)
  {
    FirstStopFrom(dims, image, start, increment, 0, EscapeStep(dims, start, increment))
  }

  /**
   * The while loop of findFirstPointInBGAlongRay. The start voxel is read
   * without a bounds check, so it must lie in the image; a zero increment
   * would loop forever on a foreground voxel, so it is excluded.
   */
  method FindFirstPointInBgAlongRay(dims: Dims, image: seq<int>, increment: Vec3, start: Vec3)
    returns (position: Vec3)
    requires |image| == dims.Size()
    requires increment != Zero
    requires InBounds(dims, ToPixel(start))
    ensures position == Along(start, increment, StepsToBackground(dims, image, start, increment))
  {
    ghost var bound := EscapeStep(dims, start, increment);
    ghost var steps: nat := 0;
    position := start;
    AlongZero(start, increment);
    var pixel := ToPixel(start);
    while image[Index(dims, pixel)] > 0
      invariant steps <= bound
      invariant position == Along(start, increment, steps)
      invariant pixel == ToPixel(position) && InBounds(dims, pixel)
      invariant forall m :: 0 <= m < steps ==> !Stops(dims, image, start, increment, m)
      decreases bound - steps
    {
      AlongNext(start, increment, steps);
      position := Add(position, increment);
      steps := steps + 1;
      pixel := ToPixel(position);
      if !InBounds(dims, pixel) {
        break;
      }
    }
    LeastStopIsUnique(dims, image, start, increment, steps);
  }

  /** A stopping step preceded only by non-stopping steps is the one the march takes. */
  lemma LeastStopIsUnique(dims: Dims, image: seq<int>, start: Vec3, increment: Vec3, steps: nat)
    requires |image| == dims.Size() && increment != Zero
    requires Stops(dims, image, start, increment, steps)
    requires forall m :: 0 <= m < steps ==> !Stops(dims, image, start, increment, m)
    ensures StepsToBackground(dims, image, start, increment) == steps
  {
  }

  /** A march that starts on background returns its start unchanged. */
  lemma BackgroundStartStaysPut(dims: Dims, image: seq<int>, start: Vec3, increment: Vec3)
    requires |image| == dims.Size() && increment != Zero
    requires InBounds(dims, ToPixel(start)) && image[Index(dims, ToPixel(start))] <= 0
    ensures StepsToBackground(dims, image, start, increment) == 0
    ensures Along(start, increment, StepsToBackground(dims, image, start, increment)) == start
  {
    AlongZero(start, increment);
    LeastStopIsUnique(dims, image, start, increment, 0);
  }

  /**
   * A march that starts on foreground takes at least one step, every voxel it
   * passes over before the last is an in-image foreground voxel, and the last
   * is background or outside the image.
   */
  lemma ForegroundStartMarches(dims: Dims, image: seq<int>, start: Vec3, increment: Vec3)
    requires |image| == dims.Size() && increment != Zero
    requires InBounds(dims, ToPixel(start)) && image[Index(dims, ToPixel(start))] > 0
    ensures var k := StepsToBackground(dims, image, start, increment);
      && k >= 1
      && (forall m :: 0 <= m < k ==>
            var p := ToPixel(Along(start, increment, m)); InBounds(dims, p) && image[Index(dims, p)] > 0)
      && (var p := ToPixel(Along(start, increment, k)); !InBounds(dims, p) || image[Index(dims, p)] <= 0)
  {
    AlongZero(start, increment);
    var k := StepsToBackground(dims, image, start, increment);
    assert !Stops(dims, image, start, increment, 0);
    forall m | 0 <= m < k
      ensures var p := ToPixel(Along(start, increment, m)); InBounds(dims, p) && image[Index(dims, p)] > 0
    {
      assert !Stops(dims, image, start, increment, m);
    }
  }
}
