/**
 * The candidate search of the wrapper: from every seed, rays along eighteen
 * sampling directions find contact points on the foreground boundary
 * (getPointCombinations); every four of them, with the seed, go to the
 * ellipsoid fitter; the fits that pass the containment test are kept in
 * encounter order (findEllipsoids) and then sorted largest first.
 *
 * The fitter (FindLocalEllipsoidOp), the spiral directions on the sphere and
 * Vector3d.normalize are parameters.
 */
module Candidates {
  import opened Wrappers
  import opened Vectors
  import opened Grids
  import opened Rays
  import opened Combinations
  import opened Ellipsoids
  import opened Containment
  import opened Sorting

  /** An ellipsoid the fitter hands back: the class's setters guarantee 0 < a <= b <= c. */
  type FittedEllipsoid = e: EllipsoidRecord | e.Valid() witness EllipsoidRecord(1.0, 1.0, 1.0, Zero, Identity)

  /** FindLocalEllipsoidOp.calculate: four contact points and a seed to an optional ellipsoid. */
  type Fitter = FitTask -> Option<FittedEllipsoid>

  /** The six unit vectors the source appends to the spiral directions, in its order. */
  const AxisDirections: seq<Vec3> := [
    Vec3(1.0, 0.0, 0.0), Vec3(0.0, 1.0, 0.0), Vec3(0.0, 0.0, 1.0),
    Vec3(-1.0, 0.0, 0.0), Vec3(0.0, -1.0, 0.0), Vec3(0.0, 0.0, -1.0)]

  predicate NonZero(dirs: seq<Vec3>) {
    forall k :: 0 <= k < |dirs| ==> dirs[k] != Zero
  }

  /** The sampling directions of getPointCombinations: the spiral set followed by the six axes. */
  function SamplingDirections(spiral: seq<Vec3>): (dirs: seq<Vec3>)
    ensures |dirs| == |spiral| + 6
    ensures dirs[..|spiral|] == spiral && dirs[|spiral|..] == AxisDirections
    ensures NonZero(spiral) ==> NonZero(dirs)
  {
    var dirs := spiral + AxisDirections;
    assert dirs[..|spiral|] == spiral && dirs[|spiral|..] == AxisDirections;
    dirs
  }

  /** With the twelve spiral points of the source there are eighteen directions. */
  lemma TwelveSpiralPointsGiveEighteenDirections(spiral: seq<Vec3>)
    requires |spiral| == 12
    ensures |SamplingDirections(spiral)| == 18
  {
  }

  /** Where the ray from seed along d leaves the foreground. */
  function Contact(dims: Dims, image: seq<int>, seed: Vec3, d: Vec3): Vec3
    requires |image| == dims.Size() && d != Zero
  {
    Along(seed, d, StepsToBackground(dims, image, seed, d))
  }

  /** The contact point for each direction, paired with the normalised vector from it back to the seed. */
  function ContactPoints(dims: Dims, image: seq<int>, seed: Vec3, dirs: seq<Vec3>, normalize: Vec3 -> Vec3)
    : (points: seq<ContactPoint>)
    requires |image| == dims.Size() && NonZero(dirs)
    ensures |points| == |dirs|
  {
    seq(|dirs|, k requires 0 <= k < |dirs| =>
      var c := Contact(dims, image, seed, dirs[k]);
      ContactPoint(c, normalize(Sub(seed, c))))
  }

  /** The fitting tasks of getPointCombinations: for each seed in turn, every four of its contact points. */
  function PointCombinations(dims: Dims, image: seq<int>, seeds: seq<Vec3>, dirs: seq<Vec3>, normalize: Vec3 -> Vec3)
    : seq<FitTask>
    requires |image| == dims.Size() && NonZero(dirs)
    decreases |seeds|
  {
    if seeds == [] then []
    else
      var n := |seeds| - 1;
      PointCombinations(dims, image, seeds[..n], dirs, normalize)
      + AllCombinationsOfFour(ContactPoints(dims, image, seeds[n], dirs, normalize), seeds[n])
  }

  /**
   * The body of the per-seed lambda of getPointCombinations: march from the
   * seed along every direction, then pair each contact point with the
   * normalised vector back to the seed.
   */
  method SeedContactPoints(dims: Dims, image: seq<int>, seed: Vec3, directions: seq<Vec3>, normalize: Vec3 -> Vec3)
    returns (seedPoints: seq<ContactPoint>)
    requires |image| == dims.Size() && NonZero(directions) && InBounds(dims, ToPixel(seed))
    ensures seedPoints == ContactPoints(dims, image, seed, directions, normalize)
  {
    var contacts: seq<Vec3> := [];
    var k := 0;
    while k < |directions|
      invariant 0 <= k <= |directions|
      invariant |contacts| == k
      invariant forall j :: 0 <= j < k ==> contacts[j] == Contact(dims, image, seed, directions[j])
    {
      var c := FindFirstPointInBgAlongRay(dims, image, directions[k], seed);
      contacts := contacts + [c];
      k := k + 1;
    }
    seedPoints := [];
    k := 0;
    while k < |contacts|
      invariant 0 <= k <= |contacts|
      invariant seedPoints == ContactPoints(dims, image, seed, directions, normalize)[..k]
    {
      seedPoints := seedPoints + [ContactPoint(contacts[k], normalize(Sub(seed, contacts[k])))];
      k := k + 1;
    }
  }

  /**
   * getPointCombinations. Each seed is the centre of a foreground voxel (see
   * the seed extraction), so the first voxel a ray reads is in the image; the
   * directions are unit vectors, so none is zero.
   */
  method GetPointCombinations(dims: Dims, image: seq<int>, seeds: seq<Vec3>, spiral: seq<Vec3>,
                              normalize: Vec3 -> Vec3)
    returns (combinations: seq<FitTask>)
    requires |image| == dims.Size() && NonZero(spiral)
    requires forall s :: 0 <= s < |seeds| ==> InBounds(dims, ToPixel(seeds[s]))
    ensures combinations == PointCombinations(dims, image, seeds, SamplingDirections(spiral), normalize)
  {
    var directions := SamplingDirections(spiral);
    combinations := [];
    var s := 0;
    while s < |seeds|
      invariant 0 <= s <= |seeds|
      invariant combinations == PointCombinations(dims, image, seeds[..s], directions, normalize)
    {
      var seedPoints := SeedContactPoints(dims, image, seeds[s], directions, normalize);
      assert seeds[..s + 1][..s] == seeds[..s];
      combinations := combinations + AllCombinationsOfFour(seedPoints, seeds[s]);
      s := s + 1;
    }
    assert seeds[..s] == seeds;
  }

  /** The position of item t of block s when every block holds b items. */
  function Offset(s: nat, b: nat, t: nat): nat {
    s * b + t
  }

  lemma OffsetInLaterBlocks(s: nat, b: nat, t: nat, n: nat)
    requires s < n && t < b
    ensures Offset(s, b, t) < n * b
  {
    assert s * b + b == (s + 1) * b;
    assert (s + 1) * b <= n * b;
  }

  /** There are C(|dirs|, 4) tasks per seed. */
  lemma {:induction false} PointCombinationsLength(dims: Dims, image: seq<int>, seeds: seq<Vec3>, dirs: seq<Vec3>,
                                                   normalize: Vec3 -> Vec3)
    requires |image| == dims.Size() && NonZero(dirs)
    ensures |PointCombinations(dims, image, seeds, dirs, normalize)| == |seeds| * Binom(|dirs|, 4)
    decreases |seeds|
  {
    if seeds != [] {
      var n := |seeds| - 1;
      PointCombinationsLength(dims, image, seeds[..n], dirs, normalize);
      BlocksOfConcatenation(PointCombinations(dims, image, seeds[..n], dirs, normalize),
                            AllCombinationsOfFour(ContactPoints(dims, image, seeds[n], dirs, normalize), seeds[n]),
                            n, Binom(|dirs|, 4));
    }
  }

  /**
   * The tasks come in blocks of C(|dirs|, 4), one block per seed in seed
   * order: item t of block s is the t-th four-point combination of seed s,
   * paired with seed s.
   */
  lemma {:induction false} PointCombinationsByBlock(dims: Dims, image: seq<int>, seeds: seq<Vec3>, dirs: seq<Vec3>,
                                                    normalize: Vec3 -> Vec3)
    requires |image| == dims.Size() && NonZero(dirs)
    ensures |PointCombinations(dims, image, seeds, dirs, normalize)| == |seeds| * Binom(|dirs|, 4)
    ensures forall s, t :: 0 <= s < |seeds| && 0 <= t < Binom(|dirs|, 4) ==>
      && Offset(s, Binom(|dirs|, 4), t) < |PointCombinations(dims, image, seeds, dirs, normalize)|
      && PointCombinations(dims, image, seeds, dirs, normalize)[Offset(s, Binom(|dirs|, 4), t)]
         == AllCombinationsOfFour(ContactPoints(dims, image, seeds[s], dirs, normalize), seeds[s])[t]
    decreases |seeds|
  {
    PointCombinationsLength(dims, image, seeds, dirs, normalize);
    if seeds != [] {
      var n := |seeds| - 1;
      var b := Binom(|dirs|, 4);
      var all := PointCombinations(dims, image, seeds, dirs, normalize);
      forall s, t | 0 <= s < |seeds| && 0 <= t < b
        ensures Offset(s, b, t) < |all|
        ensures all[Offset(s, b, t)]
             == AllCombinationsOfFour(ContactPoints(dims, image, seeds[s], dirs, normalize), seeds[s])[t]
      {
        var prefix := PointCombinations(dims, image, seeds[..n], dirs, normalize);
        var last := AllCombinationsOfFour(ContactPoints(dims, image, seeds[n], dirs, normalize), seeds[n]);
        assert all == prefix + last;
        PointCombinationsLength(dims, image, seeds[..n], dirs, normalize);
        BlockOfConcatenation(prefix, last, n, b, s, t);
        if s < n {
          PointCombinationsByBlock(dims, image, seeds[..n], dirs, normalize);
          assert seeds[..n][s] == seeds[s];
        } else {
          assert seeds[s] == seeds[n];
        }
      }
    }
  }

  /** n blocks of b items followed by one more block make n + 1 blocks. */
  lemma BlocksOfConcatenation<T>(prefix: seq<T>, last: seq<T>, n: nat, b: nat)
    requires |prefix| == n * b && |last| == b
    ensures |prefix + last| == (n + 1) * b
  {
  }

  /** Item t of block s of the concatenation comes from the prefix, or from the last block when s == n. */
  lemma BlockOfConcatenation<T>(prefix: seq<T>, last: seq<T>, n: nat, b: nat, s: nat, t: nat)
    requires |prefix| == n * b && |last| == b && s <= n && t < b
    ensures Offset(s, b, t) < |prefix + last|
    ensures s < n ==> Offset(s, b, t) < |prefix| && (prefix + last)[Offset(s, b, t)] == prefix[Offset(s, b, t)]
    ensures s == n ==> (prefix + last)[Offset(s, b, t)] == last[t]
  {
    OffsetInLaterBlocks(s, b, t, n + 1);
    if s < n {
      OffsetInLaterBlocks(s, b, t, n);
    }
  }

  /** With the source's eighteen directions every seed yields 3060 fitting tasks. */
  lemma EighteenDirectionsGive3060TasksPerSeed(dims: Dims, image: seq<int>, seeds: seq<Vec3>, spiral: seq<Vec3>,
                                               normalize: Vec3 -> Vec3)
    requires |image| == dims.Size() && NonZero(spiral) && |spiral| == 12
    ensures |PointCombinations(dims, image, seeds, SamplingDirections(spiral), normalize)| == |seeds| * 3060
  {
    var dirs := SamplingDirections(spiral);
    PointCombinationsByBlock(dims, image, seeds, dirs, normalize);
    EighteenChooseFour(|dirs|);
  }

  // ----- findEllipsoids -----

  /**
   * The stream pipeline of findEllipsoids, for any acceptance test: map each
   * task through the fitter, drop the absent fits, keep those the test
   * accepts. The parallel stream's collect keeps encounter order.
   */
  function FilterFits(tasks: seq<FitTask>, fit: Fitter, accept: FittedEllipsoid -> bool): (found: seq<FittedEllipsoid>)
    ensures |found| <= |tasks|
    decreases |tasks|
  {
    if tasks == [] then []
    else
      var rest := FilterFits(tasks[1..], fit, accept);
      match fit(tasks[0])
      case Some(e) => if accept(e) then [e] + rest else rest
      case None => rest
  }

  /** A fit is in the output exactly when some task produced it and the test accepts it. */
  lemma {:induction false} FilterFitsMembership(tasks: seq<FitTask>, fit: Fitter, accept: FittedEllipsoid -> bool,
                                                e: FittedEllipsoid)
    ensures e in FilterFits(tasks, fit, accept)
        <==> (exists i :: 0 <= i < |tasks| && fit(tasks[i]) == Some(e)) && accept(e)
    decreases |tasks|
  {
    if tasks != [] {
      FilterFitsMembership(tasks[1..], fit, accept, e);
      if exists i :: 0 <= i < |tasks| && fit(tasks[i]) == Some(e) {
        var i :| 0 <= i < |tasks| && fit(tasks[i]) == Some(e);
        if i > 0 {
          assert tasks[1..][i - 1] == tasks[i];
        }
      }
      if exists i :: 0 <= i < |tasks[1..]| && fit(tasks[1..][i]) == Some(e) {
        var i :| 0 <= i < |tasks[1..]| && fit(tasks[1..][i]) == Some(e);
        assert tasks[i + 1] == tasks[1..][i];
      }
    }
  }

  /** What one task contributes to the output: its fit, when there is one and the test accepts it. */
  function Kept(o: Option<FittedEllipsoid>, accept: FittedEllipsoid -> bool): (kept: seq<FittedEllipsoid>)
    ensures |kept| <= 1
  {
    match o
    case Some(e) => if accept(e) then [e] else []
    case None => []
  }

  /** Filtering a non-empty run: the first task's contribution, then the rest. */
  lemma FilterFitsStep(tasks: seq<FitTask>, fit: Fitter, accept: FittedEllipsoid -> bool)
    requires tasks != []
    ensures FilterFits(tasks, fit, accept) == Kept(fit(tasks[0]), accept) + FilterFits(tasks[1..], fit, accept)
  {
  }

  /**
   * Order preservation: filtering two runs of tasks gives the output of the
   * first run followed by that of the second.
   */
  lemma {:induction false} FilterFitsOfConcatenation(first: seq<FitTask>, second: seq<FitTask>, fit: Fitter,
                                                     accept: FittedEllipsoid -> bool)
    ensures FilterFits(first + second, fit, accept) == FilterFits(first, fit, accept) + FilterFits(second, fit, accept)
    decreases |first|
  {
    if first == [] {
      assert first + second == second;
    } else {
      var tail := first[1..];
      FilterFitsOfConcatenation(tail, second, fit, accept);
      assert (first + second)[1..] == tail + second;
      assert (first + second)[0] == first[0];
      FilterFitsStep(first, fit, accept);
      FilterFitsStep(first + second, fit, accept);
    }
  }

  /**
   * findEllipsoids once the combinations are built: the filter with
   * whollyContainedInForeground. An ellipsoid is found exactly when some
   * task's fit is that ellipsoid and it passes the containment test.
   */
  function FindEllipsoids(dims: Dims, image: seq<int>, tasks: seq<FitTask>, fit: Fitter, variant: Variant,
                          filterDirections: seq<Vec3>, sqrt: real -> real): (found: seq<FittedEllipsoid>)
    requires |image| == dims.Size()
    ensures |found| <= |tasks|
    ensures forall e :: (e in found
                         <==> (exists i :: 0 <= i < |tasks| && fit(tasks[i]) == Some(e))
                              && WhollyContained(dims, image, e, variant, filterDirections, sqrt))
  {
    var accept := e => WhollyContained(dims, image, e, variant, filterDirections, sqrt);
    forall e: FittedEllipsoid
      ensures e in FilterFits(tasks, fit, accept)
          <==> (exists i :: 0 <= i < |tasks| && fit(tasks[i]) == Some(e)) && accept(e)
    {
      FilterFitsMembership(tasks, fit, accept, e);
    }
    FilterFits(tasks, fit, accept)
  }

  /** The ellipsoids found from two runs of tasks are those of the first run followed by those of the second. */
  lemma FindEllipsoidsOfConcatenation(dims: Dims, image: seq<int>, first: seq<FitTask>, second: seq<FitTask>,
                                      fit: Fitter, variant: Variant, filterDirections: seq<Vec3>, sqrt: real -> real)
    requires |image| == dims.Size()
    ensures FindEllipsoids(dims, image, first + second, fit, variant, filterDirections, sqrt)
         == FindEllipsoids(dims, image, first, fit, variant, filterDirections, sqrt)
            + FindEllipsoids(dims, image, second, fit, variant, filterDirections, sqrt)
  {
    FilterFitsOfConcatenation(first, second, fit, e => WhollyContained(dims, image, e, variant, filterDirections, sqrt));
  }

  // ----- the largest-first sort -----

  /** The sort key of Comparator.comparingDouble(e -> -e.getVolume()). */
  function NegatedVolume(e: FittedEllipsoid): real {
    -e.Volume()
  }

  /** ellipsoids.sort(...): a stable sort by decreasing volume. */
  function LargestFirst(es: seq<FittedEllipsoid>): (sorted: seq<FittedEllipsoid>)
    ensures multiset(sorted) == multiset(es)
    ensures forall i, j :: 0 <= i < j < |sorted| ==> sorted[i].Volume() >= sorted[j].Volume()
  {
    SortByKeyIsSorted(es, NegatedVolume);
    SortByKey(es, NegatedVolume)
  }

  /** Ellipsoids of equal volume keep their relative order. */
  lemma LargestFirstIsStable(es: seq<FittedEllipsoid>, volume: real)
    ensures WithKey(LargestFirst(es), NegatedVolume, -volume) == WithKey(es, NegatedVolume, -volume)
  {
    SortByKeyIsStable(es, NegatedVolume, -volume);
  }

  /** The first ellipsoid of a non-empty sorted list has the largest volume of all. */
  lemma LargestFirstStartsWithLargest(es: seq<FittedEllipsoid>, e: FittedEllipsoid)
    requires e in es
    ensures |LargestFirst(es)| > 0 && LargestFirst(es)[0].Volume() >= e.Volume()
  {
    var sorted := LargestFirst(es);
    assert e in multiset(es);
    assert e in multiset(sorted);
    var j :| 0 <= j < |sorted| && sorted[j] == e;
  }
}
