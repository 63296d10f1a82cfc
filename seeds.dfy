/**
 * getRidgePoints: the seeds of the ellipsoid search. The ridge image (the
 * morphological closing minus the opening of the distance transform) comes
 * from image operators outside this model and is a parameter here, as is
 * the maximum operator. Ridge values on background voxels are set to zero,
 * and every voxel whose value exceeds the fraction `percentage` of the
 * maximum contributes its centre, in scan order.
 */
module Seeds {
  import opened Vectors
  import opened Grids

  /** The ridge with background voxels zeroed. */
  function Masked(ridge: seq<real>, bits: seq<bool>): (m: seq<real>)
    requires |ridge| == |bits|
    ensures |m| == |ridge|
  {
    seq(|ridge|, i requires 0 <= i < |ridge| => if bits[i] then ridge[i] else 0.0)
  }

  /** The centres of the voxels among the first n whose value exceeds the cutoff, in scan order. */
  function SeedsBelow(dims: Dims, values: seq<real>, cutoff: real, n: nat): (seeds: seq<Vec3>)
    requires |values| == dims.Size() && n <= |values|
    ensures |seeds| <= n
  {
    if n == 0 then []
    else
      SeedsBelow(dims, values, cutoff, n - 1)
      + (if values[n - 1] > cutoff then [Centre(Coord(dims, n - 1))] else [])
  }

  function SeedPoints(dims: Dims, values: seq<real>, cutoff: real): seq<Vec3>
    requires |values| == dims.Size()
  {
    SeedsBelow(dims, values, cutoff, |values|)
  }

  /** The seed threshold: the given fraction of the maximum ridge value. */
  function Cutoff(percentage: real, maxValue: real): real {
    percentage * maxValue
  }

  method GetRidgePoints(dims: Dims, bits: seq<bool>, ridge: seq<real>, percentage: real, max: seq<real> -> real)
    returns (seeds: seq<Vec3>)
    requires |bits| == |ridge| == dims.Size()
    ensures seeds == SeedPoints(dims, Masked(ridge, bits), Cutoff(percentage, max(Masked(ridge, bits))))
  {
    var n := |ridge|;
    var values := new real[n](i requires 0 <= i < n => ridge[i]);
    var i := 0;
    while i < n
      invariant 0 <= i <= n
      invariant values[..i] == Masked(ridge, bits)[..i]
      invariant values[i..] == ridge[i..]
    {
      if !bits[i] {
        values[i] := 0.0;
      }
      assert values[i] == Masked(ridge, bits)[i];
      i := i + 1;
    }
    var masked := values[..];
    assert masked == Masked(ridge, bits) by {
      assert masked == values[..n];
    }
    var cutoff := Cutoff(percentage, max(masked));
    seeds := CollectSeeds(dims, masked, cutoff);
  }

  /** The scan over the masked values that collects the seeds. */
  method CollectSeeds(dims: Dims, values: seq<real>, cutoff: real) returns (seeds: seq<Vec3>)
    requires |values| == dims.Size()
    ensures seeds == SeedPoints(dims, values, cutoff)
  {
    seeds := [];
    var i := 0;
    while i < |values|
      invariant 0 <= i <= |values|
      invariant seeds == SeedsBelow(dims, values, cutoff, i)
    {
      if values[i] > cutoff {
        seeds := seeds + [Centre(Coord(dims, i))];
      }
      i := i + 1;
    }
  }

  /** A point is a seed exactly when it is the centre of a voxel whose value exceeds the cutoff. */
  lemma {:induction false} SeedsBelowMembership(dims: Dims, values: seq<real>, cutoff: real, n: nat, v: Vec3)
    requires |values| == dims.Size() && n <= |values|
    ensures v in SeedsBelow(dims, values, cutoff, n)
        <==> exists i :: 0 <= i < n && values[i] > cutoff && v == Centre(Coord(dims, i))
  {
    if n > 0 {
      SeedsBelowMembership(dims, values, cutoff, n - 1, v);
    }
  }

  lemma SeedMembership(dims: Dims, values: seq<real>, cutoff: real, v: Vec3)
    requires |values| == dims.Size()
    ensures v in SeedPoints(dims, values, cutoff)
        <==> exists i :: 0 <= i < |values| && values[i] > cutoff && v == Centre(Coord(dims, i))
  {
    SeedsBelowMembership(dims, values, cutoff, |values|, v);
  }

  /**
   * With a non-negative cutoff no seed lies in the background: every seed is
   * the centre of a foreground voxel, and it is cast back to that voxel.
   */
  lemma SeedsAreForeground(dims: Dims, bits: seq<bool>, ridge: seq<real>, cutoff: real, v: Vec3)
    requires |bits| == |ridge| == dims.Size() && cutoff >= 0.0
    requires v in SeedPoints(dims, Masked(ridge, bits), cutoff)
    ensures InBounds(dims, ToPixel(v)) && bits[Index(dims, ToPixel(v))]
  {
    SeedMembership(dims, Masked(ridge, bits), cutoff, v);
    var i :| 0 <= i < |ridge| && Masked(ridge, bits)[i] > cutoff && v == Centre(Coord(dims, i));
    var p := Coord(dims, i);
    PixelOfCentre(p);
  }

  /** Seeds come out in scan order: strictly increasing voxel indices. */
  lemma {:induction false} SeedsInScanOrder(dims: Dims, values: seq<real>, cutoff: real, n: nat)
    requires |values| == dims.Size() && n <= |values|
    ensures forall k :: 0 <= k < |SeedsBelow(dims, values, cutoff, n)| ==>
      var v := SeedsBelow(dims, values, cutoff, n)[k];
      InBounds(dims, ToPixel(v)) && Index(dims, ToPixel(v)) < n
    ensures forall k, l :: 0 <= k < l < |SeedsBelow(dims, values, cutoff, n)| ==>
      var u, v := SeedsBelow(dims, values, cutoff, n)[k], SeedsBelow(dims, values, cutoff, n)[l];
      InBounds(dims, ToPixel(u)) && InBounds(dims, ToPixel(v)) && Index(dims, ToPixel(u)) < Index(dims, ToPixel(v))
  {
    if n > 0 {
      SeedsInScanOrder(dims, values, cutoff, n - 1);
      var prefix := SeedsBelow(dims, values, cutoff, n - 1);
      var p := Coord(dims, n - 1);
      PixelOfCentre(p);
      assert Index(dims, ToPixel(Centre(p))) == n - 1;
    }
  }
}
