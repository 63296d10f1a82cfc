/**
 * writeOutputImages: the per-ellipsoid values (ellipsoid factor, volume and
 * the axis ratios a/b and b/c) broadcast into float images through the
 * identity image (mapValuesToImage), the unweighted Flinn plot of the axis
 * ratios, and the Flinn peak plot that counts the labelled voxels of every
 * ellipsoid at its Flinn cell.
 */
module Outputs {
  import opened Wrappers
  import opened Vectors
  import opened Ellipsoids
  import opened Candidates
  import opened Assignment

  /** A cell of a float image: NaN (its initial value) or a number. */
  datatype Cell = NaN | Value(r: real)

  /** Every label is -1 or an index into the ellipsoid list. */
  predicate LabelsInRange(ids: seq<int>, n: nat) {
    forall i :: 0 <= i < |ids| ==> -1 <= ids[i] < n
  }

  /** The image mapValuesToImage leaves: the value of its ellipsoid where a voxel is labelled, unchanged elsewhere. */
  function Broadcast(values: seq<real>, ids: seq<int>, before: seq<Cell>): (after: seq<Cell>)
    requires |ids| == |before| && LabelsInRange(ids, |values|)
    ensures |after| == |before|
  {
    seq(|ids|, i requires 0 <= i < |ids| => if ids[i] != -1 then Value(values[ids[i]]) else before[i])
  }

  /** mapValuesToImage: walk the identity image and copy values[id] into every labelled cell. */
  method MapValuesToImage(values: seq<real>, ids: seq<int>, image: array<Cell>)
    requires |ids| == image.Length && LabelsInRange(ids, |values|)
    modifies image
    ensures image[..] == Broadcast(values, ids, old(image[..]))
  {
    var i := 0;
    while i < |ids|
      invariant 0 <= i <= |ids|
      invariant forall j :: 0 <= j < i ==> image[j] == Broadcast(values, ids, old(image[..]))[j]
      invariant forall j :: i <= j < image.Length ==> image[j] == old(image[j])
    {
      if ids[i] != -1 {
        image[i] := Value(values[ids[i]]);
      }
      i := i + 1;
    }
  }

  /** A float image that starts all NaN, with the values mapped onto it. */
  method NewValueImage(values: seq<real>, ids: seq<int>) returns (image: seq<Cell>)
    requires LabelsInRange(ids, |values|)
    ensures image == Broadcast(values, ids, seq(|ids|, _ => NaN))
  {
    var cells := new Cell[|ids|](_ => NaN);
    assert cells[..] == seq(|ids|, _ => NaN);
    MapValuesToImage(values, ids, cells);
    image := cells[..];
  }

  /**
   * Over an image that starts all NaN, unlabelled voxels stay NaN and every
   * labelled voxel carries the value of the ellipsoid it is labelled with.
   */
  lemma BroadcastOverNaN(values: seq<real>, ids: seq<int>, i: nat)
    requires LabelsInRange(ids, |values|) && i < |ids|
    ensures var image := Broadcast(values, ids, seq(|ids|, _ => NaN));
      && (ids[i] == -1 <==> image[i] == NaN)
      && (ids[i] != -1 ==> image[i] == Value(values[ids[i]]))
  {
  }

  // ----- per-ellipsoid values -----

  /** computeEllipsoidFactor: a/b - b/c, which lies strictly between -1 and 1. */
  function EllipsoidFactor(e: FittedEllipsoid): (f: real)
    ensures -1.0 < f < 1.0
  {
    AxisRatiosInUnitInterval(e);
    e.a / e.b - e.b / e.c
  }

  lemma RatioInUnitInterval(p: real, q: real)
    requires 0.0 < p <= q
    ensures 0.0 < p / q <= 1.0
  {
    assert p / q * q == p;
  }

  /** Both axis ratios of a valid ellipsoid lie in (0, 1]. */
  lemma AxisRatiosInUnitInterval(e: FittedEllipsoid)
    ensures 0.0 < e.a / e.b <= 1.0
    ensures 0.0 < e.b / e.c <= 1.0
  {
    RatioInUnitInterval(e.a, e.b);
    RatioInUnitInterval(e.b, e.c);
  }

  /** A sphere has ellipsoid factor 0. */
  lemma SphereHasFactorZero(e: FittedEllipsoid)
    requires e.a == e.b == e.c
    ensures EllipsoidFactor(e) == 0.0
  {
  }

  // ----- the Flinn plots -----

  /** FlinnPlotDimension */
  const FlinnSize: nat := 501

  const FlinnCells: nat := FlinnSize * FlinnSize

  /** Math.round(r * (N - 1)) for a ratio r. */
  function FlinnCoordinate(r: real): int {
    Round(r * (FlinnSize - 1) as real)
  }

  /** A ratio in (0, 1] quantises into [0, N - 1]. */
  lemma FlinnCoordinateInRange(r: real)
    requires 0.0 < r <= 1.0
    ensures 0 <= FlinnCoordinate(r) <= FlinnSize - 1
  {
  }

  /**
   * The plot cell of an ellipsoid: column round(a/b (N-1)), row
   * N - 1 - round(b/c (N-1)), stored row by row.
   */
  function FlinnIndex(e: FittedEllipsoid): (c: nat)
    ensures c < FlinnCells
  {
    AxisRatiosInUnitInterval(e);
    FlinnCoordinateInRange(e.a / e.b);
    FlinnCoordinateInRange(e.b / e.c);
    var x := FlinnCoordinate(e.a / e.b);
    var y := FlinnSize - 1 - FlinnCoordinate(e.b / e.c);
    x + FlinnSize * y
  }

  /** The cell's column and row both lie in [0, N - 1], so the plot is never written out of bounds. */
  lemma FlinnCellInPlot(e: FittedEllipsoid)
    ensures 0 <= FlinnCoordinate(e.a / e.b) <= FlinnSize - 1
    ensures 0 <= FlinnSize - 1 - FlinnCoordinate(e.b / e.c) <= FlinnSize - 1
    ensures FlinnIndex(e) % FlinnSize == FlinnCoordinate(e.a / e.b)
    ensures FlinnIndex(e) / FlinnSize == FlinnSize - 1 - FlinnCoordinate(e.b / e.c)
  {
    AxisRatiosInUnitInterval(e);
    FlinnCoordinateInRange(e.a / e.b);
    FlinnCoordinateInRange(e.b / e.c);
  }

  /** A sphere sits in the top-right corner of the plot. */
  lemma SphereInTopRightCorner(e: FittedEllipsoid)
    requires e.a == e.b == e.c
    ensures FlinnIndex(e) == FlinnSize - 1
  {
    assert e.a / e.b == 1.0 && e.b / e.c == 1.0;
    assert Round(500.0) == 500;
  }

  /** The unweighted Flinn plot: one bit per ellipsoid, set at its cell. */
  method FlinnPlot(es: seq<FittedEllipsoid>) returns (plot: seq<bool>)
    ensures |plot| == FlinnCells
    ensures forall c :: 0 <= c < FlinnCells ==> (plot[c] <==> exists i :: 0 <= i < |es| && FlinnIndex(es[i]) == c)
  {
    var bits := new bool[FlinnCells](_ => false);
    var i := 0;
    while i < |es|
      invariant 0 <= i <= |es|
      invariant forall c :: 0 <= c < FlinnCells ==> (bits[c] <==> exists k :: 0 <= k < i && FlinnIndex(es[k]) == c)
    {
      bits[FlinnIndex(es[i])] := true;
      i := i + 1;
    }
    plot := bits[..];
  }

  /** The number of labelled voxels among the first n whose ellipsoid falls in plot cell c. */
  function PeakCount(es: seq<FittedEllipsoid>, ids: seq<int>, n: nat, c: nat): nat
    requires n <= |ids| && LabelsInRange(ids, |es|)
  {
    if n == 0 then 0
    else PeakCount(es, ids, n - 1, c) + (if ids[n - 1] >= 0 && FlinnIndex(es[ids[n - 1]]) == c then 1 else 0)
  }

  /** The peak plot before any blur: every cell holds the count of labelled voxels whose ellipsoid falls in it. */
  function PeakCounts(es: seq<FittedEllipsoid>, ids: seq<int>): (plot: seq<real>)
    requires LabelsInRange(ids, |es|)
    ensures |plot| == FlinnCells
  {
    seq(FlinnCells, c requires 0 <= c < FlinnCells => PeakCount(es, ids, |ids|, c) as real)
  }

  function Sum(s: seq<real>): real {
    if s == [] then 0.0 else Sum(s[..|s| - 1]) + s[|s| - 1]
  }

  /** Changing one entry changes the sum by the difference. */
  lemma {:induction false} SumOfUpdate(s: seq<real>, c: nat, v: real)
    requires c < |s|
    ensures Sum(s[c := v]) == Sum(s) - s[c] + v
  {
    var n := |s| - 1;
    assert s[c := v][..n] == if c < n then s[..n][c := v] else s[..n];
    if c < n {
      SumOfUpdate(s[..n], c, v);
    }
  }

  lemma {:induction false} SumOfZeros(n: nat)
    ensures Sum(seq(n, _ => 0.0)) == 0.0
  {
    if n > 0 {
      assert seq(n, _ => 0.0)[..n - 1] == seq(n - 1, _ => 0.0);
      SumOfZeros(n - 1);
    }
  }

  /** The peak plot after the first v voxels, with the running total of labelled voxels. */
  ghost predicate PeakUpTo(es: seq<FittedEllipsoid>, ids: seq<int>, v: nat, plot: seq<real>)
    requires v <= |ids| && LabelsInRange(ids, |es|)
  {
    && |plot| == FlinnCells
    && (forall c :: 0 <= c < FlinnCells ==> plot[c] == PeakCount(es, ids, v, c) as real)
    && Sum(plot) == CountAssigned(ids, v) as real
  }

  /** Adding voxel v to the peak plot. */
  lemma PeakStep(es: seq<FittedEllipsoid>, ids: seq<int>, v: nat, before: seq<real>, after: seq<real>)
    requires v < |ids| && LabelsInRange(ids, |es|) && PeakUpTo(es, ids, v, before)
    requires ids[v] >= 0 ==> after == before[FlinnIndex(es[ids[v]]) := before[FlinnIndex(es[ids[v]])] + 1.0]
    requires ids[v] < 0 ==> after == before
    ensures PeakUpTo(es, ids, v + 1, after)
  {
    if ids[v] >= 0 {
      var c := FlinnIndex(es[ids[v]]);
      SumOfUpdate(before, c, before[c] + 1.0);
    }
  }

  /** Once every voxel is counted the running plot is the whole unblurred peak plot. */
  lemma CompletePeakPlot(es: seq<FittedEllipsoid>, ids: seq<int>, plot: seq<real>)
    requires LabelsInRange(ids, |es|) && PeakUpTo(es, ids, |ids|, plot)
    ensures plot == PeakCounts(es, ids)
  {
    assert forall c :: 0 <= c < FlinnCells ==> plot[c] == PeakCounts(es, ids)[c];
  }

  /**
   * The Flinn peak plot before any blur: cell c counts the labelled voxels
   * whose ellipsoid falls in cell c, so the whole plot sums to the number of
   * labelled voxels, which countAssignedVoxels reports.
   */
  method FlinnPeakPlot(es: seq<FittedEllipsoid>, ids: seq<int>) returns (peak: seq<real>)
    requires LabelsInRange(ids, |es|)
    ensures peak == PeakCounts(es, ids)
    ensures Sum(peak) == CountAssigned(ids, |ids|) as real
  {
    var plot := new real[FlinnCells](_ => 0.0);
    assert plot[..] == seq(FlinnCells, _ => 0.0);
    SumOfZeros(FlinnCells);
    var v := 0;
    while v < |ids|
      invariant 0 <= v <= |ids|
      invariant PeakUpTo(es, ids, v, plot[..])
    {
      ghost var before := plot[..];
      if ids[v] >= 0 {
        var c := FlinnIndex(es[ids[v]]);
        plot[c] := plot[c] + 1.0;
      }
      PeakStep(es, ids, v, before, plot[..]);
      v := v + 1;
    }
    peak := plot[..];
    CompletePeakPlot(es, ids, peak);
  }

  // ----- writeOutputImages -----

  datatype OutputError = NoEllipsoids  // ellipsoids.get(0) on an empty list

  /** The display range setChannelMinimum and setChannelMaximum give an output image. */
  datatype DisplayRange = DisplayRange(min: real, max: real)

  /** The images writeOutputImages stores, each with its display range. */
  datatype OutputImages = OutputImages(
    ellipsoidFactor: seq<Cell>, volume: seq<Cell>, aToB: seq<Cell>, bToC: seq<Cell>,
    flinnPlot: seq<bool>, flinnPeakPlot: seq<real>,
    ellipsoidFactorRange: DisplayRange, identityRange: DisplayRange, volumeRange: DisplayRange,
    aToBRange: DisplayRange, bToCRange: DisplayRange, flinnPlotRange: DisplayRange,
    flinnPeakPlotRange: DisplayRange)

  /** Every number in the image lies in the display range; NaN cells are not numbers. */
  predicate WithinRange(image: seq<Cell>, range: DisplayRange) {
    forall i :: 0 <= i < |image| && image[i].Value? ==> range.min <= image[i].r <= range.max
  }

  function Factors(es: seq<FittedEllipsoid>): (vs: seq<real>)
    ensures |vs| == |es|
  {
    seq(|es|, i requires 0 <= i < |es| => EllipsoidFactor(es[i]))
  }

  function Volumes(es: seq<FittedEllipsoid>): (vs: seq<real>)
    ensures |vs| == |es|
  {
    seq(|es|, i requires 0 <= i < |es| => es[i].Volume())
  }

  function AToB(es: seq<FittedEllipsoid>): (vs: seq<real>)
    ensures |vs| == |es|
  {
    seq(|es|, i requires 0 <= i < |es| => es[i].a / es[i].b)
  }

  function BToC(es: seq<FittedEllipsoid>): (vs: seq<real>)
    ensures |vs| == |es|
  {
    seq(|es|, i requires 0 <= i < |es| => es[i].b / es[i].c)
  }

  /**
   * The images writeOutputImages builds from the ellipsoid list and the
   * identity image: the four value images broadcast over NaN, the
   * unweighted Flinn plot with a bit set at every ellipsoid's cell, the peak
   * plot (blurred by `gauss` when sigma is positive), and the display ranges
   * it sets, the identity image's reaching |ellipsoids| / 10.
   */
  predicate WrittenImages(im: OutputImages, es: seq<FittedEllipsoid>, ids: seq<int>, sigma: real,
                          gauss: seq<real> -> seq<real>)
    requires es != [] && LabelsInRange(ids, |es|)
  {
    var nan := seq(|ids|, _ => NaN);
    && im.ellipsoidFactor == Broadcast(Factors(es), ids, nan)
    && im.volume == Broadcast(Volumes(es), ids, nan)
    && im.aToB == Broadcast(AToB(es), ids, nan)
    && im.bToC == Broadcast(BToC(es), ids, nan)
    && |im.flinnPlot| == FlinnCells
    && (forall c :: 0 <= c < FlinnCells ==>
          (im.flinnPlot[c] <==> exists i :: 0 <= i < |es| && FlinnIndex(es[i]) == c))
    && im.flinnPeakPlot == (if sigma > 0.0 then gauss(PeakCounts(es, ids)) else PeakCounts(es, ids))
    && im.ellipsoidFactorRange == DisplayRange(-1.0, 1.0)
    && im.identityRange == DisplayRange(-1.0, |es| as real / 10.0)
    && im.volumeRange == DisplayRange(-1.0, es[0].Volume())
    && im.aToBRange == DisplayRange(0.0, 1.0)
    && im.bToCRange == DisplayRange(0.0, 1.0)
    && im.flinnPlotRange == DisplayRange(0.0, 255.0)
    && im.flinnPeakPlotRange == DisplayRange(0.0, 255.0)
  }

  /**
   * writeOutputImages. Gaussian blurring of the peak plot (opService's
   * gauss) is the parameter `gauss`, applied when sigma is positive. The
   * display maximum of the volume image reads the first ellipsoid, which
   * throws on an empty list after all images have been computed. Unblurred,
   * the peak plot sums to the number of labelled voxels.
   */
  method WriteOutputImages(es: seq<FittedEllipsoid>, ids: seq<int>, sigma: real, gauss: seq<real> -> seq<real>)
    returns (r: Result<OutputImages, OutputError>)
    requires LabelsInRange(ids, |es|)
    ensures r.Failure? <==> es == []
    ensures r.Success? ==>
      && WrittenImages(r.value, es, ids, sigma, gauss)
      && (sigma <= 0.0 ==> Sum(r.value.flinnPeakPlot) == CountAssigned(ids, |ids|) as real)
  {
    var efImage := NewValueImage(Factors(es), ids);
    var volumeImage := NewValueImage(Volumes(es), ids);
    var aToBImage := NewValueImage(AToB(es), ids);
    var bToCImage := NewValueImage(BToC(es), ids);
    var flinn := FlinnPlot(es);
    var peak := FlinnPeakPlot(es, ids);
    if sigma > 0.0 {
      peak := gauss(peak);
    }
    if es == [] {
      return Failure(NoEllipsoids);
    }
    r := Success(OutputImages(efImage, volumeImage, aToBImage, bToCImage, flinn, peak,
                              DisplayRange(-1.0, 1.0), DisplayRange(-1.0, |es| as real / 10.0),
                              DisplayRange(-1.0, es[0].Volume()), DisplayRange(0.0, 1.0), DisplayRange(0.0, 1.0),
                              DisplayRange(0.0, 255.0), DisplayRange(0.0, 255.0)));
  }

  /** A broadcast over NaN holds only the values given, so it stays within any range that holds them all. */
  lemma BroadcastWithinRange(values: seq<real>, ids: seq<int>, range: DisplayRange)
    requires LabelsInRange(ids, |values|)
    requires forall k :: 0 <= k < |values| ==> range.min <= values[k] <= range.max
    ensures WithinRange(Broadcast(values, ids, seq(|ids|, _ => NaN)), range)
  {
  }

  /**
   * The ellipsoid factor and axis-ratio images never leave their display
   * ranges, and neither does the volume image when the list is sorted
   * largest first, as run() sorts it.
   */
  lemma WrittenImagesWithinDisplayRanges(im: OutputImages, es: seq<FittedEllipsoid>, ids: seq<int>, sigma: real,
                                         gauss: seq<real> -> seq<real>)
    requires es != [] && LabelsInRange(ids, |es|) && WrittenImages(im, es, ids, sigma, gauss)
    ensures WithinRange(im.ellipsoidFactor, im.ellipsoidFactorRange)
    ensures WithinRange(im.aToB, im.aToBRange)
    ensures WithinRange(im.bToC, im.bToCRange)
    ensures (forall i, j :: 0 <= i < j < |es| ==> es[i].Volume() >= es[j].Volume()) ==>
              WithinRange(im.volume, im.volumeRange)
  {
    BroadcastWithinRange(Factors(es), ids, im.ellipsoidFactorRange);
    forall k | 0 <= k < |es|
      ensures 0.0 <= AToB(es)[k] <= 1.0 && 0.0 <= BToC(es)[k] <= 1.0
    {
      AxisRatiosInUnitInterval(es[k]);
    }
    BroadcastWithinRange(AToB(es), ids, im.aToBRange);
    BroadcastWithinRange(BToC(es), ids, im.bToCRange);
    if forall i, j :: 0 <= i < j < |es| ==> es[i].Volume() >= es[j].Volume() {
      forall k | 0 <= k < |es|
        ensures -1.0 <= Volumes(es)[k] <= es[0].Volume()
      {
        VolumePositive(es[k].a, es[k].b, es[k].c);
      }
      BroadcastWithinRange(Volumes(es), ids, im.volumeRange);
    }
  }

  /**
   * With the ellipsoids sorted largest first the volume image's display
   * maximum is the largest volume of all.
   */
  lemma VolumeDisplayMaximumIsLargest(es: seq<FittedEllipsoid>, e: FittedEllipsoid)
    requires e in es
    ensures |LargestFirst(es)| > 0 && LargestFirst(es)[0].Volume() >= e.Volume()
  {
    LargestFirstStartsWithLargest(es, e);
  }
}
