/**
 * The run of the Ellipsoid Factor command: seeds from the ridge, fitting
 * tasks from the seeds, the contained fits sorted largest first, the
 * identity image, the output images and the two voxel counts.
 *
 * The image operators that make the ridge, the maximum, the binary view of
 * the input, the spiral direction sets, normalisation, square root, the
 * fitter and the Gaussian blur are parameters.
 */
module Pipeline {
  import opened Wrappers
  import opened Vectors
  import opened Grids
  import opened Containment
  import opened Seeds
  import opened Candidates
  import opened Assignment
  import opened Outputs

  /** What a run leaves behind: the sorted ellipsoids, the identity image, the output images and the counts it logs. */
  datatype RunSummary = RunSummary(
    ellipsoids: seq<FittedEllipsoid>, identity: seq<int>, images: OutputImages,
    assignedVoxels: nat, foregroundVoxels: nat)

  /** The seeds getRidgePoints extracts. */
  function RidgeSeeds(dims: Dims, bits: seq<bool>, ridge: seq<real>, percentage: real, max: seq<real> -> real)
    : seq<Vec3>
    requires |bits| == |ridge| == dims.Size()
  {
    SeedPoints(dims, Masked(ridge, bits), Cutoff(percentage, max(Masked(ridge, bits))))
  }

  /** The ellipsoids of a run: the contained fits of every task, sorted largest first. */
  function SortedEllipsoids(dims: Dims, image: seq<int>, seeds: seq<Vec3>, contactSpiral: seq<Vec3>,
                            normalize: Vec3 -> Vec3, fit: Fitter, variant: Variant,
                            filterDirections: seq<Vec3>, sqrt: real -> real): seq<FittedEllipsoid>
    requires |image| == dims.Size() && NonZero(contactSpiral)
  {
    var tasks := PointCombinations(dims, image, seeds, SamplingDirections(contactSpiral), normalize);
    LargestFirst(FindEllipsoids(dims, image, tasks, fit, variant, filterDirections, sqrt))
  }

  /** Every seed is the centre of a voxel of the image. */
  lemma RidgeSeedsInImage(dims: Dims, values: seq<real>, cutoff: real)
    requires |values| == dims.Size()
    ensures forall s :: 0 <= s < |SeedPoints(dims, values, cutoff)| ==>
      InBounds(dims, ToPixel(SeedPoints(dims, values, cutoff)[s]))
  {
    SeedsInScanOrder(dims, values, cutoff, |values|);
  }

  /** In a list sorted by decreasing volume the first volume is the largest. */
  lemma FirstVolumeIsLargest(es: seq<FittedEllipsoid>)
    requires |es| > 0
    requires forall i, j :: 0 <= i < j < |es| ==> es[i].Volume() >= es[j].Volume()
    ensures forall i :: 0 <= i < |es| ==> es[0].Volume() >= es[i].Volume()
  {
  }

  /** The first half of run(): seeds, fitting tasks, contained fits, sorted largest first. */
  method SearchEllipsoids(dims: Dims, image: seq<int>, bits: seq<bool>, ridge: seq<real>, percentage: real,
                          max: seq<real> -> real, contactSpiral: seq<Vec3>, filterDirections: seq<Vec3>,
                          normalize: Vec3 -> Vec3, fit: Fitter, variant: Variant, sqrt: real -> real)
    returns (es: seq<FittedEllipsoid>)
    requires |image| == |bits| == |ridge| == dims.Size() && NonZero(contactSpiral)
    ensures es == SortedEllipsoids(dims, image, RidgeSeeds(dims, bits, ridge, percentage, max), contactSpiral,
                                   normalize, fit, variant, filterDirections, sqrt)
  {
    var seeds := GetRidgePoints(dims, bits, ridge, percentage, max);
    RidgeSeedsInImage(dims, Masked(ridge, bits), Cutoff(percentage, max(Masked(ridge, bits))));
    var tasks := GetPointCombinations(dims, image, seeds, contactSpiral, normalize);
    var found := FindEllipsoids(dims, image, tasks, fit, variant, filterDirections, sqrt);
    es := LargestFirst(found);
  }

  /**
   * run(). The identity image and the per-ellipsoid images are built from
   * the sorted list; the run fails at the volume display maximum when no
   * ellipsoid is found, before anything is counted.
   */
  method Run(dims: Dims, image: seq<int>, bits: seq<bool>, ridge: seq<real>, percentage: real,
             max: seq<real> -> real, contactSpiral: seq<Vec3>, filterDirections: seq<Vec3>,
             normalize: Vec3 -> Vec3, fit: Fitter, variant: Variant, sqrt: real -> real,
             sigma: real, gauss: seq<real> -> seq<real>)
    returns (r: Result<RunSummary, OutputError>)
    requires |image| == |bits| == |ridge| == dims.Size() && NonZero(contactSpiral)
    ensures var seeds := RidgeSeeds(dims, bits, ridge, percentage, max);
      var es := SortedEllipsoids(dims, image, seeds, contactSpiral, normalize, fit, variant, filterDirections, sqrt);
      && (r.Failure? <==> es == [])
      && (r.Success? ==>
            && r.value.ellipsoids == es
            && r.value.identity == ExpectedIds(variant, dims, bits, es)
            && r.value.assignedVoxels == CountAssigned(r.value.identity, |r.value.identity|)
            && r.value.foregroundVoxels == CountTrue(bits, |bits|)
            && r.value.assignedVoxels <= r.value.foregroundVoxels
            && WrittenImages(r.value.images, es, r.value.identity, sigma, gauss)
            && (sigma <= 0.0 ==> Sum(r.value.images.flinnPeakPlot) == r.value.assignedVoxels as real)
            && WithinRange(r.value.images.ellipsoidFactor, r.value.images.ellipsoidFactorRange)
            && WithinRange(r.value.images.volume, r.value.images.volumeRange)
            && WithinRange(r.value.images.aToB, r.value.images.aToBRange)
            && WithinRange(r.value.images.bToC, r.value.images.bToCRange)
            && (forall i :: 0 <= i < |es| ==> r.value.images.volumeRange.max >= es[i].Volume()))
  {
    var es := SearchEllipsoids(dims, image, bits, ridge, percentage, max, contactSpiral, filterDirections,
                               normalize, fit, variant, sqrt);
    var identity := AssignEllipsoidId(variant, dims, bits, es);
    var images := WriteOutputImages(es, identity, sigma, gauss);
    if images.Failure? {
      return Failure(images.error);
    }
    var assignedCount := CountAssignedVoxels(identity);
    var foregroundCount := CountTrue(bits, |bits|);
    AssignedVoxelsAtMostForeground(variant, dims, bits, es);
    FirstVolumeIsLargest(es);
    WrittenImagesWithinDisplayRanges(images.value, es, identity, sigma, gauss);
    r := Success(RunSummary(es, identity, images.value, assignedCount, foregroundCount));
  }
}
