/**
 * assignEllipsoidID and findID: every foreground voxel is labelled with the
 * first ellipsoid, in largest-first order, that contains its centre; voxels
 * in no ellipsoid and background voxels keep -1. The work is done slice by
 * slice, each slice scanning only the ellipsoids a cheap test on the z
 * coordinate lets through.
 *
 * `Variant` selects the reading. AsWritten is the source: the slice test is
 * |centroid.z - z| < c, and the label written is the position of the
 * ellipsoid in the slice's own filtered list. Corrected compares against the
 * voxel centres of the slice, z + 1/2, so that it never drops an ellipsoid
 * that contains one of them, and writes the position in the full list, which
 * is what the output images index with.
 */
module Assignment {
  import opened Vectors
  import opened Grids
  import opened Ellipsoids
  import opened Containment
  import opened Candidates
  import opened Sorting

  /** The slice test of the stream filter in assignEllipsoidID. */
  predicate InSliceRange(variant: Variant, e: FittedEllipsoid, z: int) {
    if variant == AsWritten then Abs(e.centroid.z - z as real) < e.c
    else Abs(e.centroid.z - (z as real + 0.5)) <= e.c
  }

  /** The positions, among the first n ellipsoids, of those that pass the slice test, in increasing order. */
  function SliceIndices(variant: Variant, es: seq<FittedEllipsoid>, z: int, n: nat): (idx: seq<nat>)
    requires n <= |es|
    ensures |idx| <= n
    ensures forall k :: 0 <= k < |idx| ==> idx[k] < n && InSliceRange(variant, es[idx[k]], z)
    ensures forall k, l :: 0 <= k < l < |idx| ==> idx[k] < idx[l]
    ensures forall j :: 0 <= j < n && InSliceRange(variant, es[j], z) ==> j in idx
    decreases n
  {
    if n == 0 then []
    else
      SliceIndices(variant, es, z, n - 1) + (if InSliceRange(variant, es[n - 1], z) then [n - 1] else [])
  }

  /** localEllipsoids: the ellipsoids that pass the slice test, in their order. */
  function LocalEllipsoids(variant: Variant, es: seq<FittedEllipsoid>, z: int): (local: seq<FittedEllipsoid>)
    ensures |local| == |SliceIndices(variant, es, z, |es|)|
    ensures forall k :: 0 <= k < |local| ==> local[k] == es[SliceIndices(variant, es, z, |es|)[k]]
  {
    var idx := SliceIndices(variant, es, z, |es|);
    seq(|idx|, k requires 0 <= k < |idx| => es[idx[k]])
  }

  /**
   * The label written for position k of the local list: k itself as
   * written, the position in the full list when corrected.
   */
  function Labels(variant: Variant, es: seq<FittedEllipsoid>, z: int): (labels: seq<int>)
    ensures |labels| == |LocalEllipsoids(variant, es, z)|
  {
    var idx := SliceIndices(variant, es, z, |es|);
    if variant == AsWritten then seq(|idx|, k => k) else seq(|idx|, k requires 0 <= k < |idx| => idx[k])
  }

  /** The counter findID stops at: the least position holding an ellipsoid that contains x, or |list|. */
  function FirstContaining(list: seq<FittedEllipsoid>, variant: Variant, x: Vec3): (k: nat)
    ensures k <= |list|
    ensures k < |list| ==> InsideEllipsoid(x, list[k], variant)
    ensures forall j :: 0 <= j < k ==> !InsideEllipsoid(x, list[j], variant)
    decreases |list|
  {
    if list == [] then 0
    else if InsideEllipsoid(x, list[0], variant) then 0
    else 1 + FirstContaining(list[1..], variant, x)
  }

  /**
   * The label voxel p ends up with when it is foreground: -1 when no
   * ellipsoid of the slice list contains its centre, otherwise the label of
   * the first that does. Corrected, that label names a containing ellipsoid
   * of the full list; as written, it is a position in the slice list.
   */
  function VoxelId(variant: Variant, es: seq<FittedEllipsoid>, p: Pixel): (id: int)
    ensures -1 <= id < |es|
    ensures id == -1 <==> forall k :: 0 <= k < |LocalEllipsoids(variant, es, p.z)| ==>
                                   !InsideEllipsoid(Centre(p), LocalEllipsoids(variant, es, p.z)[k], variant)
    ensures variant == Corrected && id != -1 ==> InsideEllipsoid(Centre(p), es[id], Corrected)
    ensures variant == AsWritten && id != -1 ==>
      id < |LocalEllipsoids(AsWritten, es, p.z)| && InsideEllipsoid(Centre(p), LocalEllipsoids(AsWritten, es, p.z)[id], AsWritten)
  {
    var local := LocalEllipsoids(variant, es, p.z);
    var k := FirstContaining(local, variant, Centre(p));
    if k == |local| then -1 else Labels(variant, es, p.z)[k]
  }

  /** The identity image assignEllipsoidID returns, voxel by voxel in cursor order. */
  function ExpectedIds(variant: Variant, dims: Dims, bits: seq<bool>, es: seq<FittedEllipsoid>): (ids: seq<int>)
    requires |bits| == dims.Size()
    ensures |ids| == |bits|
    ensures forall i :: 0 <= i < |ids| && !bits[i] ==> ids[i] == -1
    ensures forall i :: 0 <= i < |ids| ==> -1 <= ids[i] < |es|
  {
    seq(|bits|, i requires 0 <= i < |bits| => if bits[i] then VoxelId(variant, es, Coord(dims, i)) else -1)
  }

  /**
   * findID: advance a counter past the ellipsoids that do not contain the
   * point; if one does, write its label at the point's voxel.
   */
  method FindId(list: seq<FittedEllipsoid>, labels: seq<int>, variant: Variant, ids: array<int>, dims: Dims,
                point: Vec3)
    requires |labels| == |list| && ids.Length == dims.Size() && InBounds(dims, ToPixel(point))
    modifies ids
    ensures var k := FirstContaining(list, variant, point);
      ids[..] == if k < |list| then old(ids[..])[Index(dims, ToPixel(point)) := labels[k]] else old(ids[..])
  {
    var counter := 0;
    while counter < |list| && !InsideEllipsoid(point, list[counter], variant)
      invariant 0 <= counter <= |list|
      invariant forall j :: 0 <= j < counter ==> !InsideEllipsoid(point, list[j], variant)
    {
      counter := counter + 1;
    }
    FirstContainingIsLeast(list, variant, point, counter);
    if counter < |list| {
      ids[Index(dims, ToPixel(point))] := labels[counter];
    }
  }

  /** A position before which nothing contains x, and at which something does or the list ends, is the first. */
  lemma {:induction false} FirstContainingIsLeast(list: seq<FittedEllipsoid>, variant: Variant, x: Vec3, k: nat)
    requires k <= |list|
    requires forall j :: 0 <= j < k ==> !InsideEllipsoid(x, list[j], variant)
    requires k < |list| ==> InsideEllipsoid(x, list[k], variant)
    ensures FirstContaining(list, variant, x) == k
  {
  }

  /** Voxel p has been visited once the cursor has passed slice z, row y, column x. */
  predicate Visited(p: Pixel, z: int, y: int, x: int) {
    p.z < z || (p.z == z && (p.y < y || (p.y == y && p.x < x)))
  }

  /** The identity image is final at the visited voxels and still -1 elsewhere. */
  predicate FilledUpTo(dims: Dims, ids: seq<int>, expected: seq<int>, z: int, y: int, x: int)
    requires |ids| == |expected| == dims.Size()
  {
    forall i :: 0 <= i < |ids| ==> ids[i] == if Visited(Coord(dims, i), z, y, x) then expected[i] else -1
  }

  /** Writing the final label of voxel (x, y, z) moves the cursor one voxel on. */
  lemma FillStep(dims: Dims, ids: seq<int>, expected: seq<int>, p: Pixel)
    requires |ids| == |expected| == dims.Size() && InBounds(dims, p)
    requires FilledUpTo(dims, ids, expected, p.z, p.y, p.x)
    ensures ids[Index(dims, p)] == -1
    ensures FilledUpTo(dims, ids[Index(dims, p) := expected[Index(dims, p)]], expected, p.z, p.y, p.x + 1)
  {
    CoordOfIndex(dims, p);
  }

  /** Finishing a row moves the cursor to the start of the next. */
  lemma FillRowDone(dims: Dims, ids: seq<int>, expected: seq<int>, z: int, y: int)
    requires |ids| == |expected| == dims.Size()
    requires FilledUpTo(dims, ids, expected, z, y, dims.w)
    ensures FilledUpTo(dims, ids, expected, z, y + 1, 0)
  {
  }

  /** Finishing a slice moves the cursor to the start of the next. */
  lemma FillSliceDone(dims: Dims, ids: seq<int>, expected: seq<int>, z: int)
    requires |ids| == |expected| == dims.Size()
    requires FilledUpTo(dims, ids, expected, z, dims.h, 0)
    ensures FilledUpTo(dims, ids, expected, z + 1, 0, 0)
  {
  }

  /**
   * The cursor loop over one row of slice z: findID for every foreground
   * voxel, with the slice's ellipsoid list and labels.
   */
  method AssignRow(variant: Variant, dims: Dims, bits: seq<bool>, es: seq<FittedEllipsoid>,
                   local: seq<FittedEllipsoid>, labels: seq<int>, ids: array<int>, y: nat, z: nat)
    requires |bits| == ids.Length == dims.Size() && y < dims.h && z < dims.d
    requires local == LocalEllipsoids(variant, es, z) && labels == Labels(variant, es, z)
    requires FilledUpTo(dims, ids[..], ExpectedIds(variant, dims, bits, es), z, y, 0)
    modifies ids
    ensures FilledUpTo(dims, ids[..], ExpectedIds(variant, dims, bits, es), z, y + 1, 0)
  {
    ghost var expected := ExpectedIds(variant, dims, bits, es);
    var x := 0;
    while x < dims.w
      invariant 0 <= x <= dims.w
      invariant FilledUpTo(dims, ids[..], expected, z, y, x)
    {
      var p := Pixel(x, y, z);
      var i := Index(dims, p);
      CoordOfIndex(dims, p);
      FillStep(dims, ids[..], expected, p);
      ghost var before := ids[..];
      if bits[i] {
        PixelOfCentre(p);
        FindId(local, labels, variant, ids, dims, Centre(p));
      }
      assert ids[..] == before[i := expected[i]];
      x := x + 1;
    }
    FillRowDone(dims, ids[..], expected, z, y);
  }

  /**
   * assignEllipsoidID, one slice after another (the source runs the slices in
   * parallel; every voxel writes only its own cell). Within a slice the
   * cursor visits the in-image voxels, x fastest.
   */
  method AssignEllipsoidId(variant: Variant, dims: Dims, bits: seq<bool>, es: seq<FittedEllipsoid>)
    returns (identity: seq<int>)
    requires |bits| == dims.Size()
    ensures identity == ExpectedIds(variant, dims, bits, es)
  {
    ghost var expected := ExpectedIds(variant, dims, bits, es);
    var ids := new int[dims.Size()](_ => -1);
    var z := 0;
    while z < dims.d
      invariant 0 <= z <= dims.d
      invariant FilledUpTo(dims, ids[..], expected, z, 0, 0)
    {
      var local := LocalEllipsoids(variant, es, z);
      var labels := Labels(variant, es, z);
      var y := 0;
      while y < dims.h
        invariant 0 <= y <= dims.h
        invariant FilledUpTo(dims, ids[..], expected, z, y, 0)
      {
        AssignRow(variant, dims, bits, es, local, labels, ids, y, z);
        y := y + 1;
      }
      FillSliceDone(dims, ids[..], expected, z);
      z := z + 1;
    }
    identity := ids[..];
    assert forall i :: 0 <= i < |identity| ==> Visited(Coord(dims, i), z, 0, 0);
  }

  // ----- what the corrected reading guarantees -----

  /** The corrected slice test lets through every ellipsoid that contains a voxel centre of the slice. */
  lemma CorrectedSliceTestIsConservative(e: FittedEllipsoid, p: Pixel, variant: Variant)
    requires InsideEllipsoid(Centre(p), e, variant)
    ensures InSliceRange(Corrected, e, p.z)
  {
  }

  /**
   * With the corrected reading the slice-by-slice search labels each voxel
   * with the position, in the full largest-first list, of the first
   * ellipsoid that contains its centre, or -1 when none does.
   */
  lemma CorrectedIdIsFirstInFullList(es: seq<FittedEllipsoid>, p: Pixel)
    ensures var g := FirstContaining(es, Corrected, Centre(p));
      VoxelId(Corrected, es, p) == if g < |es| then g else -1
  {
    if FirstContaining(es, Corrected, Centre(p)) < |es| {
      CorrectedIdWhenSomeContains(es, p);
    } else {
      CorrectedIdWhenNoneContains(es, p);
    }
  }

  lemma CorrectedIdWhenSomeContains(es: seq<FittedEllipsoid>, p: Pixel)
    requires FirstContaining(es, Corrected, Centre(p)) < |es|
    ensures VoxelId(Corrected, es, p) == FirstContaining(es, Corrected, Centre(p))
  {
    var x := Centre(p);
    var idx := SliceIndices(Corrected, es, p.z, |es|);
    var local := LocalEllipsoids(Corrected, es, p.z);
    var g := FirstContaining(es, Corrected, x);
    assert g in idx by {
      CorrectedSliceTestIsConservative(es[g], p, Corrected);
    }
    var m :| 0 <= m < |idx| && idx[m] == g;
    assert FirstContaining(local, Corrected, x) == m by {
      forall j | 0 <= j < m
        ensures !InsideEllipsoid(x, local[j], Corrected)
      {
        assert idx[j] < g;
      }
      FirstContainingIsLeast(local, Corrected, x, m);
    }
    assert Labels(Corrected, es, p.z)[m] == g;
  }

  lemma CorrectedIdWhenNoneContains(es: seq<FittedEllipsoid>, p: Pixel)
    requires FirstContaining(es, Corrected, Centre(p)) == |es|
    ensures VoxelId(Corrected, es, p) == -1
  {
    var x := Centre(p);
    var idx := SliceIndices(Corrected, es, p.z, |es|);
    var local := LocalEllipsoids(Corrected, es, p.z);
    forall j | 0 <= j < |local|
      ensures !InsideEllipsoid(x, local[j], Corrected)
    {
      assert local[j] == es[idx[j]];
    }
    FirstContainingIsLeast(local, Corrected, x, |local|);
  }

  // ----- two counterexamples to the reading as written -----

  /** A large ellipsoid far above slice 0 and a unit sphere around the centre of voxel (0, 0, 0). */
  const FarEllipsoid: FittedEllipsoid := EllipsoidRecord(2.0, 2.0, 2.0, Vec3(0.5, 0.5, 10.0), Identity)
  const NearSphere: FittedEllipsoid := EllipsoidRecord(1.0, 1.0, 1.0, Vec3(0.5, 0.5, 0.5), Identity)

  /**
   * The label written is a position in the slice's filtered list, not in the
   * full list: voxel (0, 0, 0) lies in the second ellipsoid only, yet it is
   * labelled 0, the first ellipsoid, because the first was filtered out of
   * its slice. The corrected reading labels it 1.
   */
  lemma LocalLabelNamesWrongEllipsoid(es: seq<FittedEllipsoid>, p: Pixel)
    requires es == [FarEllipsoid, NearSphere] && p == Pixel(0, 0, 0)
    ensures LargestFirst(es) == es
    ensures !InsideEllipsoid(Centre(p), es[0], AsWritten)
    ensures InsideEllipsoid(Centre(p), es[1], AsWritten)
    ensures VoxelId(AsWritten, es, p) == 0
    ensures VoxelId(Corrected, es, p) == 1
  {
    ExampleIsSorted();
    NearSphereContainsOrigin(AsWritten);
    FarEllipsoidMissesOrigin(AsWritten);
    NearSphereLabel(AsWritten, es, p);
    NearSphereLabel(Corrected, es, p);
  }

  /** A voxel whose centre lies in the first ellipsoid of its slice's list gets that ellipsoid's label. */
  lemma LabelOfFirstLocal(variant: Variant, es: seq<FittedEllipsoid>, p: Pixel)
    requires |LocalEllipsoids(variant, es, p.z)| > 0
    requires InsideEllipsoid(Centre(p), LocalEllipsoids(variant, es, p.z)[0], variant)
    ensures VoxelId(variant, es, p) == Labels(variant, es, p.z)[0]
  {
    FirstContainingIsLeast(LocalEllipsoids(variant, es, p.z), variant, Centre(p), 0);
  }

  /** The label voxel (0, 0, 0) gets from the two-ellipsoid list in either reading. */
  lemma NearSphereLabel(variant: Variant, es: seq<FittedEllipsoid>, p: Pixel)
    requires es == [FarEllipsoid, NearSphere] && p == Pixel(0, 0, 0)
    ensures VoxelId(variant, es, p) == if variant == AsWritten then 0 else 1
  {
    OnlyNearSphereInSliceZero(variant);
    NearSphereContainsOrigin(variant);
    LabelOfFirstLocal(variant, es, p);
  }

  lemma FarVolumeIsLarger()
    ensures FarEllipsoid.Volume() > NearSphere.Volume()
  {
    var k := (4.0 / 3.0) * PI;
    assert FarEllipsoid.Volume() == k * 2.0 * 2.0 * 2.0;
    assert NearSphere.Volume() == k * 1.0 * 1.0 * 1.0;
  }

  lemma ExampleIsSorted()
    ensures LargestFirst([FarEllipsoid, NearSphere]) == [FarEllipsoid, NearSphere]
  {
    FarVolumeIsLarger();
    SortPair(FarEllipsoid, NearSphere, NegatedVolume);
  }

  lemma NearSphereContainsOrigin(variant: Variant)
    ensures InsideEllipsoid(Centre(Pixel(0, 0, 0)), NearSphere, variant)
  {
    assert Centre(Pixel(0, 0, 0)) == NearSphere.centroid;
  }

  lemma FarEllipsoidMissesOrigin(variant: Variant)
    ensures !InsideEllipsoid(Centre(Pixel(0, 0, 0)), FarEllipsoid, variant)
  {
    assert Sub(Centre(Pixel(0, 0, 0)), FarEllipsoid.centroid).z == -9.5;
  }

  /** Only the second ellipsoid passes the slice test of slice 0, in either reading. */
  lemma OnlyNearSphereInSliceZero(variant: Variant)
    ensures LocalEllipsoids(variant, [FarEllipsoid, NearSphere], 0) == [NearSphere]
    ensures Labels(variant, [FarEllipsoid, NearSphere], 0) == if variant == AsWritten then [0] else [1]
  {
    var es := [FarEllipsoid, NearSphere];
    assert !InSliceRange(variant, FarEllipsoid, 0);
    assert InSliceRange(variant, NearSphere, 0);
    assert SliceIndices(variant, es, 0, 0) == [];
    assert SliceIndices(variant, es, 0, 1) == [];
    assert SliceIndices(variant, es, 0, 2) == [1];
  }

  /** A unit sphere centred 3/4 above the centre of voxel (0, 0, 0). */
  const RaisedSphere: FittedEllipsoid := EllipsoidRecord(1.0, 1.0, 1.0, Vec3(0.5, 0.5, 1.25), Identity)

  /**
   * The slice test as written compares the centroid with z, not with the
   * voxel centres z + 1/2: it drops an ellipsoid that contains the centre of
   * voxel (0, 0, 0), which is then left unlabelled. The corrected test keeps
   * it.
   */
  lemma SliceTestDropsContainingEllipsoid(es: seq<FittedEllipsoid>, p: Pixel)
    requires es == [RaisedSphere] && p == Pixel(0, 0, 0)
    ensures InsideEllipsoid(Centre(p), es[0], AsWritten)
    ensures !InSliceRange(AsWritten, es[0], p.z)
    ensures VoxelId(AsWritten, es, p) == -1
    ensures VoxelId(Corrected, es, p) == 0
  {
    RaisedSphereContainsOrigin(AsWritten);
    RaisedSphereAsWrittenLabel(es, p);
    RaisedSphereCorrectedLabel(es, p);
  }

  lemma RaisedSphereAsWrittenLabel(es: seq<FittedEllipsoid>, p: Pixel)
    requires es == [RaisedSphere] && p == Pixel(0, 0, 0)
    ensures !InSliceRange(AsWritten, es[0], p.z)
    ensures VoxelId(AsWritten, es, p) == -1
  {
    RaisedSphereSliceLists();
  }

  lemma RaisedSphereCorrectedLabel(es: seq<FittedEllipsoid>, p: Pixel)
    requires es == [RaisedSphere] && p == Pixel(0, 0, 0)
    ensures VoxelId(Corrected, es, p) == 0
  {
    RaisedSphereContainsOrigin(Corrected);
    RaisedSphereSliceLists();
    LabelOfFirstLocal(Corrected, es, p);
  }

  lemma RaisedSphereContainsOrigin(variant: Variant)
    ensures InsideEllipsoid(Centre(Pixel(0, 0, 0)), RaisedSphere, variant)
  {
    assert Centre(Pixel(0, 0, 0)) == Add(RaisedSphere.centroid, Vec3(0.0, 0.0, -0.75));
    AxisAlignedExtentZ(RaisedSphere, variant, -0.75);
  }

  lemma RaisedSphereSliceLists()
    ensures LocalEllipsoids(AsWritten, [RaisedSphere], 0) == []
    ensures LocalEllipsoids(Corrected, [RaisedSphere], 0) == [RaisedSphere]
    ensures Labels(Corrected, [RaisedSphere], 0) == [0]
  {
    assert !InSliceRange(AsWritten, RaisedSphere, 0);
    assert InSliceRange(Corrected, RaisedSphere, 0);
    assert SliceIndices(AsWritten, [RaisedSphere], 0, 0) == [];
    assert SliceIndices(AsWritten, [RaisedSphere], 0, 1) == [];
    assert SliceIndices(Corrected, [RaisedSphere], 0, 1) == [0];
  }

  // ----- countAssignedVoxels -----

  /** The number of labelled cells (value above -1) among the first n. */
  function CountAssigned(ids: seq<int>, n: nat): (count: nat)
    requires n <= |ids|
    ensures count == |set i | 0 <= i < n && ids[i] > -1|
  {
    if n == 0 then 0
    else
      assert (set i | 0 <= i < n && ids[i] > -1)
          == (set i | 0 <= i < n - 1 && ids[i] > -1) + (if ids[n - 1] > -1 then {n - 1} else {});
      CountAssigned(ids, n - 1) + (if ids[n - 1] > -1 then 1 else 0)
  }

  /** countTrue: the number of foreground voxels among the first n. */
  function CountTrue(bits: seq<bool>, n: nat): (count: nat)
    requires n <= |bits|
    ensures count == |set i | 0 <= i < n && bits[i]|
  {
    if n == 0 then 0
    else
      assert (set i | 0 <= i < n && bits[i])
          == (set i | 0 <= i < n - 1 && bits[i]) + (if bits[n - 1] then {n - 1} else {});
      CountTrue(bits, n - 1) + (if bits[n - 1] then 1 else 0)
  }

  method CountAssignedVoxels(ids: seq<int>) returns (count: nat)
    ensures count == CountAssigned(ids, |ids|)
  {
    count := 0;
    var i := 0;
    while i < |ids|
      invariant 0 <= i <= |ids|
      invariant count == CountAssigned(ids, i)
    {
      if ids[i] > -1 {
        count := count + 1;
      }
      i := i + 1;
    }
  }

  /** Only foreground cells are labelled, so there are at most as many labelled cells as foreground voxels. */
  lemma {:induction false} AssignedAtMostForeground(ids: seq<int>, bits: seq<bool>, n: nat)
    requires |ids| == |bits| && n <= |ids|
    requires forall i :: 0 <= i < |ids| && !bits[i] ==> ids[i] == -1
    ensures CountAssigned(ids, n) <= CountTrue(bits, n)
  {
    if n > 0 {
      AssignedAtMostForeground(ids, bits, n - 1);
    }
  }

  /** The filling percentage of the source never exceeds 100%. */
  lemma AssignedVoxelsAtMostForeground(variant: Variant, dims: Dims, bits: seq<bool>, es: seq<FittedEllipsoid>)
    requires |bits| == dims.Size()
    ensures var ids := ExpectedIds(variant, dims, bits, es);
      CountAssigned(ids, |ids|) <= CountTrue(bits, |bits|)
  {
    var ids := ExpectedIds(variant, dims, bits, es);
    AssignedAtMostForeground(ids, bits, |ids|);
  }
}
