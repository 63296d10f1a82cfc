# Ellipsoid Factor: a Dafny model

This project models the core of BoneJ's Ellipsoid Factor command. The command fits locally maximal ellipsoids inside the foreground of a 3-D binary image of bone. It then labels every foreground voxel with the largest ellipsoid that contains it and derives per-voxel shape measures from the label.

The model has two parts.

**The `Ellipsoid` value class** is `Ellipsoids.Ellipsoid` in `ellipsoid.dfy`.
- It is a Dafny class with the source's fields: `a`, `b`, `c`, `centroid`, `orientation` and `isotropicSampling`.
- Its setters return an `Outcome` in place of throwing. Each names the exception the source raises.
- Each setter's contract states exactly which fields change, and under which guard.
- The invariant `0 < a <= b <= c` is preserved by every setter. `setSemiaxes` is not atomic, and its contract states the partial writes.

**The discrete pipeline of `EllipsoidFactorWrapper`** has one module per stage:
- `Seeds`: ridge seeds;
- `Rays`: ray marching;
- `Combinations` and `Candidates`: four-point fitting tasks, the fit/containment filter and the largest-first sort;
- `Containment`: the containment tests;
- `Assignment`: the identity image and the voxel count;
- `Outputs`: value broadcast and the Flinn plots;
- `Pipeline`: the whole `run()`.

Shared support lives in `Grids` (flat W×H×D images, x fastest) and `Vectors` (3-vectors, 3×3 matrices, Java's `(long)` cast and `Math.round`). `Sorting` is a stable insertion sort by a real key, and `Wrappers` holds `Option` and `Result`.

Doubles are modelled as reals. The external operators are function parameters:
- distance transform, morphology, maximum;
- the ellipsoid fitter;
- `Vector3d.normalize` and `length`, `Math.sqrt`;
- the spiral direction sets on the sphere;
- the Gaussian blur.

The fitter returns `Option<FittedEllipsoid>`, where a fitted ellipsoid is an immutable `EllipsoidRecord` with `0 < a <= b <= c`.

Where the system's documented behaviour and the code disagree, the model follows the code:
- An ellipsoid's surface probe that lands outside the image counts as background, so the ellipsoid is rejected. The code returns `true` from `ellipsoidIntersectionIsBackground` there (line 450).
- Pixel coordinates are truncated toward zero (`(long) x`), not rounded.
- The axis probes use the rows of the orientation matrix, not its columns.
- The ID written is an index into the per-slice list, not the global one.
- An empty ellipsoid list makes `writeOutputImages` fail. It does not produce empty outputs.
- The Flinn plot is 501×501.

Two of these behaviours, and two more, are logged under Findings. The model keeps the as-written behaviour beside the corrected one through a `Variant` parameter: `AsWritten` or `Corrected`.

## Model

Source paths are relative to the repository root.

| member | source | states |
|---|---|---|
| Ellipsoids.VolumePositive | Modern/ops/src/main/java/org/bonej/ops/ellipsoid/Ellipsoid.java:275-277 | (4/3)·π·a·b·c is positive for positive radii |
| Ellipsoids.Sort3 | Modern/ops/src/main/java/org/bonej/ops/ellipsoid/Ellipsoid.java:54-55 | Arrays.sort on the three radii: ascending, and a rearrangement of the inputs |
| Ellipsoids.Sort3KeepsVolume | Modern/ops/src/main/java/org/bonej/ops/ellipsoid/Ellipsoid.java:53-60 | sorting the constructor's radii does not change the volume |
| Ellipsoids.OneSidedCheckAcceptsOpposite | Modern/ops/src/main/java/org/bonej/ops/ellipsoid/Ellipsoid.java:340-343 | the one-sided orthogonality test accepts u together with −u (dot product −\|u\|² ≤ 0), although they are parallel |
| Ellipsoids.SortedSemiaxes | Modern/ops/src/main/java/org/bonej/ops/ellipsoid/Ellipsoid.java:245-246 | the copied semi-axis vectors sorted by length: a permutation of the inputs, lengths non-decreasing |
| Ellipsoids.Ellipsoid.Blank | Modern/ops/src/main/java/org/bonej/ops/ellipsoid/Ellipsoid.java:34-41 | the field defaults before a constructor body: zero radii, zero centroid and matrix, no sampler |
| Ellipsoids.Ellipsoid.FromRadii | Modern/ops/src/main/java/org/bonej/ops/ellipsoid/Ellipsoid.java:53-60 | succeeds iff all three radii are positive (else InvalidRadius); the result is valid, a rearrangement of the inputs, with identity orientation and the inputs' volume |
| Ellipsoids.Ellipsoid.FromSemiaxes | Modern/ops/src/main/java/org/bonej/ops/ellipsoid/Ellipsoid.java:70-72 | a null vector fails with NullArgument; otherwise the error is InvalidRadius when the shortest length is not positive and NotOrthogonal when the sorted vectors fail the orthogonality test; on success the radii are the sorted lengths, the orientation columns the normalised sorted vectors, the centroid zero and no sampler set |
| Ellipsoids.Ellipsoid.SetA | Modern/ops/src/main/java/org/bonej/ops/ellipsoid/Ellipsoid.java:90-99 | rejects a non-positive radius, then a > b; writes only `a`, only on success; preserves the invariant |
| Ellipsoids.Ellipsoid.SetB | Modern/ops/src/main/java/org/bonej/ops/ellipsoid/Ellipsoid.java:117-127 | rejects a non-positive radius, then b < a or b > c; writes only `b`, only on success; preserves the invariant |
| Ellipsoids.Ellipsoid.SetC | Modern/ops/src/main/java/org/bonej/ops/ellipsoid/Ellipsoid.java:145-154 | rejects a non-positive radius, then c < b; writes only `c`, only on success; preserves the invariant |
| Ellipsoids.Ellipsoid.SetRadii | Modern/ops/src/main/java/org/bonej/ops/ellipsoid/Ellipsoid.java:56-58 | setC, setB, setA in that order, stopping at the first failure: the outcome is exactly the first check that fails against the radii held before (invalid radius, c < b, b outside [a, c], a > b), and the fields written are those of the setters that ran |
| Ellipsoids.Ellipsoid.SetCentroid | Modern/ops/src/main/java/org/bonej/ops/ellipsoid/Ellipsoid.java:171-176 | null fails and changes nothing; otherwise the centroid becomes the argument's coordinates |
| Ellipsoids.Ellipsoid.SetOrientation | Modern/ops/src/main/java/org/bonej/ops/ellipsoid/Ellipsoid.java:337-352 | fails iff a pairwise dot product exceeds 1e-12; otherwise the columns become the normalised u, v, w |
| Ellipsoids.Ellipsoid.SetOrientationMatrix | Modern/ops/src/main/java/org/bonej/ops/ellipsoid/Ellipsoid.java:209-222 | null fails; otherwise the matrix's columns go through the one-sided check and are normalised |
| Ellipsoids.Ellipsoid.SetSemiaxes | Modern/ops/src/main/java/org/bonej/ops/ellipsoid/Ellipsoid.java:239-251 | exactly which of c, b, a are written before a failure; succeeds iff all three setters pass and the check passes; a failing check leaves the new radii in place |
| Ellipsoids.Ellipsoid.GetSemiAxes | Modern/ops/src/main/java/org/bonej/ops/ellipsoid/Ellipsoid.java:258-268 | axis i is column i of the orientation scaled by radius i |
| Ellipsoids.Ellipsoid.GetOrientation | Modern/ops/src/main/java/org/bonej/ops/ellipsoid/Ellipsoid.java:187-194 | a 4×4 homogeneous matrix whose upper-left block has the semi-axis directions as columns, no translation and 1 in the corner |
| Ellipsoids.Ellipsoid.Volume | Modern/ops/src/main/java/org/bonej/ops/ellipsoid/Ellipsoid.java:275-277 | positive under the class invariant |
| Ellipsoids.Ellipsoid.InitSampling | Modern/ops/src/main/java/org/bonej/ops/ellipsoid/Ellipsoid.java:286-294 | a null environment fails; otherwise the sampler is stored |
| Ellipsoids.Ellipsoid.SamplePoints | Modern/ops/src/main/java/org/bonej/ops/ellipsoid/Ellipsoid.java:304-313 | fails unless initialised; otherwise each sampled point is rotated by the orientation and translated by the centroid |
| Ellipsoids.Ellipsoid.ToRecord | Modern/ops/src/main/java/org/bonej/ops/ellipsoid/Ellipsoid.java:79-136 | the snapshot read through the getters is valid when the object is, with the same volume |
| Vectors.Trunc | Modern/wrapperPlugins/src/main/java/org/bonej/wrapperPlugins/EllipsoidFactorWrapper.java:564-567 | the `(long)` cast: truncation toward zero, never farther from zero than the input and within one unit of it |
| Vectors.Round | Modern/wrapperPlugins/src/main/java/org/bonej/wrapperPlugins/EllipsoidFactorWrapper.java:184-185 | Math.round: the integer nearest the input, halves rounded up |
| Grids.Coord | Modern/wrapperPlugins/src/main/java/org/bonej/wrapperPlugins/EllipsoidFactorWrapper.java:339-342 | the position a cursor reports at flat index i is in the image and indexes back to i |
| Grids.Index | Modern/wrapperPlugins/src/main/java/org/bonej/wrapperPlugins/EllipsoidFactorWrapper.java:555-562 | a pixel that passes isInBounds has a flat index inside the image |
| Grids.CoordOfIndex | Modern/wrapperPlugins/src/main/java/org/bonej/wrapperPlugins/EllipsoidFactorWrapper.java:547-549 | the position set on the random access is the one its flat index decodes to |
| Grids.PixelOfCentre | Modern/wrapperPlugins/src/main/java/org/bonej/wrapperPlugins/EllipsoidFactorWrapper.java:564-567 | truncating a voxel centre (x+½, y+½, z+½) gives back the voxel |
| Grids.SliceIntervalAsWrittenLeavesImage | Modern/wrapperPlugins/src/main/java/org/bonej/wrapperPlugins/EllipsoidFactorWrapper.java:270-271 | the slice view with inclusive upper corner {W, H, k} contains pixel (W, 0, k), outside the image |
| Grids.SliceIntervalIsSlice | Modern/wrapperPlugins/src/main/java/org/bonej/wrapperPlugins/EllipsoidFactorWrapper.java:270-276 | with upper corner {W−1, H−1, k} the view holds exactly the in-image voxels of slice k |
| Sorting.SortByKey | Modern/wrapperPlugins/src/main/java/org/bonej/wrapperPlugins/EllipsoidFactorWrapper.java:137 | List.sort is a permutation of its input |
| Sorting.SortByKeyIsSorted | Modern/wrapperPlugins/src/main/java/org/bonej/wrapperPlugins/EllipsoidFactorWrapper.java:137 | the result is ordered by the key |
| Sorting.SortByKeyIsStable | Modern/wrapperPlugins/src/main/java/org/bonej/wrapperPlugins/EllipsoidFactorWrapper.java:137 | elements with equal keys keep their relative order |
| Sorting.Sort3ByIsSortByKey | Modern/ops/src/main/java/org/bonej/ops/ellipsoid/Ellipsoid.java:245-246 | the three-element sort agrees with the general stable sort |
| Sorting.Sort3ByIsPermutation | Modern/ops/src/main/java/org/bonej/ops/ellipsoid/Ellipsoid.java:245-246 | the three-element sort is a permutation |
| Rays.EscapeStep | Modern/wrapperPlugins/src/main/java/org/bonej/wrapperPlugins/EllipsoidFactorWrapper.java:545-550 | a ray with a non-zero increment reaches a position outside the image |
| Rays.StepsToBackground | Modern/wrapperPlugins/src/main/java/org/bonej/wrapperPlugins/EllipsoidFactorWrapper.java:545-550 | the march stops at this step (background or outside) and at no earlier one |
| Rays.FindFirstPointInBgAlongRay | Modern/wrapperPlugins/src/main/java/org/bonej/wrapperPlugins/EllipsoidFactorWrapper.java:537-553 | the loop returns start + k·increment for k the least stopping step |
| Rays.LeastStopIsUnique | Modern/wrapperPlugins/src/main/java/org/bonej/wrapperPlugins/EllipsoidFactorWrapper.java:545-550 | any stopping step preceded only by non-stopping steps is the step the march takes |
| Rays.BackgroundStartStaysPut | Modern/wrapperPlugins/src/main/java/org/bonej/wrapperPlugins/EllipsoidFactorWrapper.java:541-545 | a march from a background voxel returns its start |
| Rays.ForegroundStartMarches | Modern/wrapperPlugins/src/main/java/org/bonej/wrapperPlugins/EllipsoidFactorWrapper.java:545-552 | from foreground: at least one step, every earlier voxel in-image foreground, the last outside or background |
| Combinations.Comb | Modern/wrapperPlugins/src/main/java/org/bonej/wrapperPlugins/EllipsoidFactorWrapper.java:570 | the iterator yields C(n,k) entries, each k strictly increasing indices below n |
| Combinations.CombDistinct | Modern/wrapperPlugins/src/main/java/org/bonej/wrapperPlugins/EllipsoidFactorWrapper.java:570 | no subset is yielded twice |
| Combinations.CombComplete | Modern/wrapperPlugins/src/main/java/org/bonej/wrapperPlugins/EllipsoidFactorWrapper.java:570 | every k-subset is yielded |
| Combinations.BinomFour | Modern/wrapperPlugins/src/main/java/org/bonej/wrapperPlugins/EllipsoidFactorWrapper.java:570 | 24·C(n,4) = n(n−1)(n−2)(n−3) |
| Combinations.AllCombinationsOfFour | Modern/wrapperPlugins/src/main/java/org/bonej/wrapperPlugins/EllipsoidFactorWrapper.java:569-575 | C(\|points\|,4) tasks; task t holds the points at the t-th subset's indices and the centre |
| Combinations.AllCombinationsOfFourCoverEachSubsetOnce | Modern/wrapperPlugins/src/main/java/org/bonej/wrapperPlugins/EllipsoidFactorWrapper.java:569-575 | every 4-subset of the points appears at some position, and positions hold distinct subsets |
| Combinations.EighteenPointsGive3060Tasks | Modern/wrapperPlugins/src/main/java/org/bonej/wrapperPlugins/EllipsoidFactorWrapper.java:569-575 | 18 contact points give 3060 tasks |
| Containment.InsideIsPointSymmetric | Modern/wrapperPlugins/src/main/java/org/bonej/wrapperPlugins/EllipsoidFactorWrapper.java:458-487 | centroid + d is inside iff centroid − d is |
| Containment.AxisAlignedExtentX | Modern/wrapperPlugins/src/main/java/org/bonej/wrapperPlugins/EllipsoidFactorWrapper.java:463-486 | identity orientation: offset s along x is inside iff \|s\| < a; so a point whose quadric is exactly 1 is outside |
| Containment.AxisAlignedExtentY | Modern/wrapperPlugins/src/main/java/org/bonej/wrapperPlugins/EllipsoidFactorWrapper.java:463-486 | identity orientation: offset s along y is inside iff \|s\| < b |
| Containment.AxisAlignedExtentZ | Modern/wrapperPlugins/src/main/java/org/bonej/wrapperPlugins/EllipsoidFactorWrapper.java:463-486 | identity orientation: offset s along z is inside iff \|s\| < c |
| Containment.RowQuadricAcceptsPointBeyondSemiAxis | Modern/wrapperPlugins/src/main/java/org/bonej/wrapperPlugins/EllipsoidFactorWrapper.java:472-486 | for a rotated ellipsoid the quadric as written accepts a point 1.5·a along the class's first semi-axis; the column reading rejects it |
| Containment.InsideEllipsoid | Modern/wrapperPlugins/src/main/java/org/bonej/wrapperPlugins/EllipsoidFactorWrapper.java:458-487 | the centroid is always inside, and a point inside lies within distance c of the centroid |
| Containment.QuadricAtZero | Modern/wrapperPlugins/src/main/java/org/bonej/wrapperPlugins/EllipsoidFactorWrapper.java:475-486 | the quadric vanishes at the centroid offset |
| Containment.ColumnQuadricAlongAxis | Modern/wrapperPlugins/src/main/java/org/bonej/wrapperPlugins/EllipsoidFactorWrapper.java:475-486 | with orthonormal columns, along column i the corrected quadric is s²/r_i² |
| Containment.CorrectedRejectsBeyondSemiAxis | Modern/wrapperPlugins/src/main/java/org/bonej/wrapperPlugins/EllipsoidFactorWrapper.java:458-487 | corrected reading: a point inside at offset s along semi-axis i has \|s\| < r_i |
| Containment.CorrectedQuadricWithinSemiAxis | Modern/wrapperPlugins/src/main/java/org/bonej/wrapperPlugins/EllipsoidFactorWrapper.java:475-486 | corrected reading: within the end of semi-axis i the quadric is below 1 |
| Containment.AnyBackgroundIffSomeMiss | Modern/wrapperPlugins/src/main/java/org/bonej/wrapperPlugins/EllipsoidFactorWrapper.java:422 | anyMatch over the probes holds iff some probe misses the foreground |
| Containment.IntersectionPoint | Modern/wrapperPlugins/src/main/java/org/bonej/wrapperPlugins/EllipsoidFactorWrapper.java:425-443 | with a true square root and non-zero reduced radii, the point found lies on the reduced ellipsoid (semi-axes shortened by √3): its reduced quadric is 1 |
| Containment.IntersectionIsBackground | Modern/wrapperPlugins/src/main/java/org/bonej/wrapperPlugins/EllipsoidFactorWrapper.java:425-452 | the probe counts as background iff it does not end on an in-image foreground voxel (no point, out of the image, or a zero voxel) |
| Containment.AxisProbes | Modern/wrapperPlugins/src/main/java/org/bonej/wrapperPlugins/EllipsoidFactorWrapper.java:408-418 | six probes: each principal direction followed by its negation |
| Containment.WhollyContained | Modern/wrapperPlugins/src/main/java/org/bonej/wrapperPlugins/EllipsoidFactorWrapper.java:402-423 | kept iff the centroid pixel is in the image and every axis probe and every sphere probe ends on an in-image foreground voxel |
| Containment.NoBackgroundIffAllHit | Modern/wrapperPlugins/src/main/java/org/bonej/wrapperPlugins/EllipsoidFactorWrapper.java:420-422 | anyMatch over the axis probes followed by the sphere probes finds no background iff every probe of each part hits foreground |
| Containment.MoreForegroundKeepsContainment | Modern/wrapperPlugins/src/main/java/org/bonej/wrapperPlugins/EllipsoidFactorWrapper.java:402-452 | adding foreground never rejects a kept ellipsoid |
| Seeds.GetRidgePoints | Modern/wrapperPlugins/src/main/java/org/bonej/wrapperPlugins/EllipsoidFactorWrapper.java:325-369 | the seeds are the scan-order centres of voxels whose masked ridge exceeds percentage·max |
| Seeds.CollectSeeds | Modern/wrapperPlugins/src/main/java/org/bonej/wrapperPlugins/EllipsoidFactorWrapper.java:357-368 | the second cursor loop collects exactly SeedPoints |
| Seeds.SeedMembership | Modern/wrapperPlugins/src/main/java/org/bonej/wrapperPlugins/EllipsoidFactorWrapper.java:358-367 | v is a seed iff it is the centre of a voxel whose value is strictly above the cutoff |
| Seeds.SeedsBelowMembership | Modern/wrapperPlugins/src/main/java/org/bonej/wrapperPlugins/EllipsoidFactorWrapper.java:358-367 | the same, for the first n voxels of the scan |
| Seeds.SeedsAreForeground | Modern/wrapperPlugins/src/main/java/org/bonej/wrapperPlugins/EllipsoidFactorWrapper.java:339-367 | with a non-negative cutoff every seed lies on a foreground voxel |
| Seeds.SeedsInScanOrder | Modern/wrapperPlugins/src/main/java/org/bonej/wrapperPlugins/EllipsoidFactorWrapper.java:357-367 | seeds lie in the image, in strictly increasing voxel order |
| Candidates.SamplingDirections | Modern/wrapperPlugins/src/main/java/org/bonej/wrapperPlugins/EllipsoidFactorWrapper.java:298-302 | the spiral set followed by the six axis vectors; non-zero when the spiral is |
| Candidates.TwelveSpiralPointsGiveEighteenDirections | Modern/wrapperPlugins/src/main/java/org/bonej/wrapperPlugins/EllipsoidFactorWrapper.java:298-302 | twelve spiral points give eighteen directions |
| Candidates.SeedContactPoints | Modern/wrapperPlugins/src/main/java/org/bonej/wrapperPlugins/EllipsoidFactorWrapper.java:308-319 | the two loops pair each ray's contact point with the normalised vector back to the seed |
| Candidates.GetPointCombinations | Modern/wrapperPlugins/src/main/java/org/bonej/wrapperPlugins/EllipsoidFactorWrapper.java:297-323 | the list built seed by seed equals PointCombinations over the eighteen directions |
| Candidates.PointCombinationsLength | Modern/wrapperPlugins/src/main/java/org/bonej/wrapperPlugins/EllipsoidFactorWrapper.java:307-321 | \|seeds\|·C(\|dirs\|,4) tasks |
| Candidates.PointCombinationsByBlock | Modern/wrapperPlugins/src/main/java/org/bonej/wrapperPlugins/EllipsoidFactorWrapper.java:307-321 | tasks come in one block per seed, in seed order; item t of block s is the t-th combination of seed s |
| Candidates.EighteenDirectionsGive3060TasksPerSeed | Modern/wrapperPlugins/src/main/java/org/bonej/wrapperPlugins/EllipsoidFactorWrapper.java:297-321 | \|seeds\|·3060 tasks |
| Candidates.FilterFits | Modern/wrapperPlugins/src/main/java/org/bonej/wrapperPlugins/EllipsoidFactorWrapper.java:294 | never more results than tasks |
| Candidates.FilterFitsMembership | Modern/wrapperPlugins/src/main/java/org/bonej/wrapperPlugins/EllipsoidFactorWrapper.java:294 | e is kept iff some task fits to e and the test accepts e |
| Candidates.FilterFitsOfConcatenation | Modern/wrapperPlugins/src/main/java/org/bonej/wrapperPlugins/EllipsoidFactorWrapper.java:294 | the pipeline distributes over concatenation, so encounter order is kept |
| Candidates.FindEllipsoids | Modern/wrapperPlugins/src/main/java/org/bonej/wrapperPlugins/EllipsoidFactorWrapper.java:291-295 | at most one result per task; an ellipsoid is found iff some task fits to it and it is wholly contained |
| Candidates.FindEllipsoidsOfConcatenation | Modern/wrapperPlugins/src/main/java/org/bonej/wrapperPlugins/EllipsoidFactorWrapper.java:291-295 | results of two task runs concatenate in order |
| Candidates.LargestFirst | Modern/wrapperPlugins/src/main/java/org/bonej/wrapperPlugins/EllipsoidFactorWrapper.java:137 | a permutation with non-increasing volumes |
| Candidates.LargestFirstIsStable | Modern/wrapperPlugins/src/main/java/org/bonej/wrapperPlugins/EllipsoidFactorWrapper.java:137 | ellipsoids of equal volume keep encounter order |
| Candidates.LargestFirstStartsWithLargest | Modern/wrapperPlugins/src/main/java/org/bonej/wrapperPlugins/EllipsoidFactorWrapper.java:137 | the first sorted ellipsoid has the largest volume |
| Assignment.SliceIndices | Modern/wrapperPlugins/src/main/java/org/bonej/wrapperPlugins/EllipsoidFactorWrapper.java:274 | exactly the indices passing the slice test, strictly increasing |
| Assignment.LocalEllipsoids | Modern/wrapperPlugins/src/main/java/org/bonej/wrapperPlugins/EllipsoidFactorWrapper.java:274 | the filtered list: entry k is the ellipsoid at the k-th passing index |
| Assignment.FirstContaining | Modern/wrapperPlugins/src/main/java/org/bonej/wrapperPlugins/EllipsoidFactorWrapper.java:389-392 | the least index whose ellipsoid contains the point, or the list length |
| Assignment.FirstContainingIsLeast | Modern/wrapperPlugins/src/main/java/org/bonej/wrapperPlugins/EllipsoidFactorWrapper.java:389-392 | any containing index with no containing index before it is the one the scan stops at |
| Assignment.VoxelId | Modern/wrapperPlugins/src/main/java/org/bonej/wrapperPlugins/EllipsoidFactorWrapper.java:274-283 | the label lies in [−1, \|ellipsoids\|); it is −1 iff no slice-list ellipsoid contains the voxel centre; corrected, it names a containing ellipsoid of the full list; as written, a containing ellipsoid of the slice list |
| Assignment.FindId | Modern/wrapperPlugins/src/main/java/org/bonej/wrapperPlugins/EllipsoidFactorWrapper.java:386-400 | writes the first containing ellipsoid's label at the point's voxel, and nothing when none contains it |
| Assignment.AssignRow | Modern/wrapperPlugins/src/main/java/org/bonej/wrapperPlugins/EllipsoidFactorWrapper.java:278-285 | one row of the slice cursor fills that row's labels and leaves the rest |
| Assignment.AssignEllipsoidId | Modern/wrapperPlugins/src/main/java/org/bonej/wrapperPlugins/EllipsoidFactorWrapper.java:263-288 | the identity image is exactly ExpectedIds |
| Assignment.ExpectedIds | Modern/wrapperPlugins/src/main/java/org/bonej/wrapperPlugins/EllipsoidFactorWrapper.java:263-288 | background keeps −1, and every label lies in [−1, \|ellipsoids\|) |
| Assignment.CorrectedSliceTestIsConservative | Modern/wrapperPlugins/src/main/java/org/bonej/wrapperPlugins/EllipsoidFactorWrapper.java:274 | corrected slice test: every ellipsoid containing a voxel centre of slice z passes it |
| Assignment.CorrectedIdIsFirstInFullList | Modern/wrapperPlugins/src/main/java/org/bonej/wrapperPlugins/EllipsoidFactorWrapper.java:386-400 | corrected: a voxel's label is the first ellipsoid of the whole sorted list that contains it, or −1 |
| Assignment.LocalLabelNamesWrongEllipsoid | Modern/wrapperPlugins/src/main/java/org/bonej/wrapperPlugins/EllipsoidFactorWrapper.java:274-283 | a sorted two-ellipsoid list where the voxel is labelled 0 as written, but only ellipsoid 1 contains it |
| Assignment.SliceTestDropsContainingEllipsoid | Modern/wrapperPlugins/src/main/java/org/bonej/wrapperPlugins/EllipsoidFactorWrapper.java:274 | an ellipsoid that contains the voxel centre fails the slice test, so the voxel stays −1 as written |
| Assignment.CountAssignedVoxels | Modern/wrapperPlugins/src/main/java/org/bonej/wrapperPlugins/EllipsoidFactorWrapper.java:249-260 | counts the cells above −1 |
| Assignment.CountAssigned | Modern/wrapperPlugins/src/main/java/org/bonej/wrapperPlugins/EllipsoidFactorWrapper.java:249-260 | the number of cells among the first n whose label is above −1, as a set cardinality |
| Assignment.CountTrue | Modern/wrapperPlugins/src/main/java/org/bonej/wrapperPlugins/EllipsoidFactorWrapper.java:143 | the number of foreground voxels among the first n, as a set cardinality |
| Assignment.AssignedAtMostForeground | Modern/wrapperPlugins/src/main/java/org/bonej/wrapperPlugins/EllipsoidFactorWrapper.java:143-144 | if background cells are −1, labelled cells are at most the foreground |
| Assignment.AssignedVoxelsAtMostForeground | Modern/wrapperPlugins/src/main/java/org/bonej/wrapperPlugins/EllipsoidFactorWrapper.java:143-150 | assigned voxels never exceed foreground voxels: the filling percentage is at most 100 |
| Outputs.MapValuesToImage | Modern/wrapperPlugins/src/main/java/org/bonej/wrapperPlugins/EllipsoidFactorWrapper.java:371-384 | cells with id −1 keep their value, every other cell becomes values[id], nothing else changes |
| Outputs.NewValueImage | Modern/wrapperPlugins/src/main/java/org/bonej/wrapperPlugins/EllipsoidFactorWrapper.java:156-175 | a NaN-filled image with the values broadcast onto it |
| Outputs.BroadcastOverNaN | Modern/wrapperPlugins/src/main/java/org/bonej/wrapperPlugins/EllipsoidFactorWrapper.java:156-175 | a cell is NaN iff its id is −1; otherwise it holds its ellipsoid's value |
| Outputs.AxisRatiosInUnitInterval | Modern/wrapperPlugins/src/main/java/org/bonej/wrapperPlugins/EllipsoidFactorWrapper.java:171-175 | a/b and b/c lie in (0, 1] |
| Outputs.EllipsoidFactor | Modern/wrapperPlugins/src/main/java/org/bonej/wrapperPlugins/EllipsoidFactorWrapper.java:454-456 | EF = a/b − b/c lies strictly between −1 and 1 |
| Outputs.SphereHasFactorZero | Modern/wrapperPlugins/src/main/java/org/bonej/wrapperPlugins/EllipsoidFactorWrapper.java:454-456 | a sphere has EF 0 |
| Outputs.FlinnCoordinateInRange | Modern/wrapperPlugins/src/main/java/org/bonej/wrapperPlugins/EllipsoidFactorWrapper.java:184-185 | Math.round(r·500) of a ratio in (0,1] lies in [0, 500] |
| Outputs.FlinnIndex | Modern/wrapperPlugins/src/main/java/org/bonej/wrapperPlugins/EllipsoidFactorWrapper.java:184-186 | the plot cell lies inside the 501×501 plot |
| Outputs.FlinnCellInPlot | Modern/wrapperPlugins/src/main/java/org/bonej/wrapperPlugins/EllipsoidFactorWrapper.java:184-186 | column round(a/b·500) and row 500 − round(b/c·500) both lie in [0, 500] and are the cell's coordinates |
| Outputs.SphereInTopRightCorner | Modern/wrapperPlugins/src/main/java/org/bonej/wrapperPlugins/EllipsoidFactorWrapper.java:184-186 | a sphere falls in cell (500, 0) |
| Outputs.FlinnPlot | Modern/wrapperPlugins/src/main/java/org/bonej/wrapperPlugins/EllipsoidFactorWrapper.java:177-188 | a cell is set iff some ellipsoid falls in it |
| Outputs.FlinnPeakPlot | Modern/wrapperPlugins/src/main/java/org/bonej/wrapperPlugins/EllipsoidFactorWrapper.java:190-211 | the plot equals PeakCounts: cell c counts the labelled voxels whose ellipsoid falls in c; the cells sum to the assigned-voxel count |
| Outputs.WriteOutputImages | Modern/wrapperPlugins/src/main/java/org/bonej/wrapperPlugins/EllipsoidFactorWrapper.java:155-246 | fails iff the list is empty; otherwise WrittenImages holds: the four value images broadcast over NaN, the Flinn plot bit set iff some ellipsoid falls in the cell, the peak plot equal to PeakCounts (blurred when sigma > 0), and every display range the source sets, the volume maximum being the first volume; unblurred, the peak plot sums to the assigned count |
| Outputs.WrittenImagesWithinDisplayRanges | Modern/wrapperPlugins/src/main/java/org/bonej/wrapperPlugins/EllipsoidFactorWrapper.java:218-238 | the EF image lies in [−1, 1] and the a/b and b/c images in [0, 1]; after the largest-first sort the volume image lies in [−1, first volume] |
| Outputs.VolumeDisplayMaximumIsLargest | Modern/wrapperPlugins/src/main/java/org/bonej/wrapperPlugins/EllipsoidFactorWrapper.java:228-229 | after the largest-first sort, the volume image's maximum is the largest volume |
| Pipeline.RidgeSeedsInImage | Modern/wrapperPlugins/src/main/java/org/bonej/wrapperPlugins/EllipsoidFactorWrapper.java:355-368 | every seed lies in the image, so the first voxel each ray reads exists |
| Pipeline.SearchEllipsoids | Modern/wrapperPlugins/src/main/java/org/bonej/wrapperPlugins/EllipsoidFactorWrapper.java:132-137 | seeds, tasks, contained fits, sorted largest first |
| Pipeline.Run | Modern/wrapperPlugins/src/main/java/org/bonej/wrapperPlugins/EllipsoidFactorWrapper.java:129-153 | fails iff no ellipsoid is found; otherwise the sorted list, the identity image, WrittenImages over them (value images, Flinn plot, peak plot, display ranges), the counts with assigned ≤ foreground, the unblurred peak plot summing to the assigned count, the EF, ratio and volume images within their display ranges, and a volume maximum bounding every volume |

## Left out

- Floating point: doubles are reals and the float casts of `computeEllipsoidFactor` and the images are not modelled. NaN and infinity are absent, so `validRadius` is `r > 0`. The peak plot's float `+1.0f` is exact only up to 2^24 voxels per cell.
- External operators are function parameters and are not verified: distance transform, morphological open and close, subtract, `stats().max`, `Thresholder`, the uint8 conversion of the seed image, `Common.toBitTypeImgPlus`, `FindLocalEllipsoidOp`, `EllipsoidPoints` (the sampler), `Vector3d.normalize` and `length`, `Math.sqrt` and the Gaussian blur. The binary view of the input is an input beside the integer image.
- `getGeneralizedSpiralSetOnSphere` and `getPhiByRecursion` (trigonometric floating point) are left out. Their outputs are inputs of `Run`: one spiral set for the contact rays and one for the containment filter. `estimateNSpiralPointsRequired` is unused by the source and is left out too.
- Parallel streams and the parallel slice loop run sequentially, and the collect keeps encounter order. With the corrected slice view each voxel writes only its own cell. As written, the inclusive view of slice k also covers row y = H, whose flat positions are those of row 0 of slice k + 1 (or lie past the image for the last slice), so two slice threads could write the same cell. The model iterates over the in-image voxels of each slice and records the overreach under Findings.
- Status and log output, the filling-percentage division, and the ImgPlus names and colour tables are left out. The display ranges set by `setChannelMinimum` and `setChannelMaximum` are modelled for all seven output images, as `DisplayRange` values in `OutputImages`.
- `writeOutputImages` assigns three image fields before it throws on an empty list: `efImage` (line 218), `eIdImage` (line 224) and `vImage` (line 228); `ellipsoids.get(0)` throws at line 229. The model returns a failure and drops those partial field writes.
- The interval view's out-of-bounds access: the slice view as written reaches one column and one row past the image. The model iterates over the in-image voxels and records the overreach under Findings.
- `mapToOrientation` is modelled as the matrix product of the orientation with each point, through `Mat3.Times`. The per-row loop is not modelled.
- Containment.IntersectionPoint: divisions by zero have no real value, so the model chooses their result. A zero reduced radius (a radius of exactly √3) gives the centroid, and a zero reduced quadric gives no point, which counts as background. In IEEE arithmetic these cases give infinities or NaN. Its contract holds only when `sqrt` is a true square root and the reduced radii are non-zero.
- Ellipsoids.Ellipsoid.GetCentroid: the defensive copy is implicit, because a `Vec3` is a value. Aliasing through the returned vector cannot be expressed, and so nothing about it is proved.
- Rays.FindFirstPointInBgAlongRay: requires a non-zero increment, because the source loops forever on a foreground start with a zero increment. It also requires an in-image start, because the source reads the start voxel without a bounds check. Every seed is an in-image voxel centre.
- Candidates.GetPointCombinations: requires non-zero spiral directions for the same reason. The spiral points are unit vectors.

## Findings

| source | as written | input that shows it | evidently intended | confidence | as-written member | corrected member |
|---|---|---|---|---|---|---|
| Modern/wrapperPlugins/src/main/java/org/bonej/wrapperPlugins/EllipsoidFactorWrapper.java:274-283 | `findID` receives the per-slice list `localEllipsoids` and writes the index into that list. Every later stage reads the label as an index into the global sorted list. | Sorted list [ellipsoid 0: radii 2,2,2 at (0.5,0.5,10); ellipsoid 1: unit sphere at (0.5,0.5,0.5)], voxel (0,0,0). Only ellipsoid 1 is in slice 0's list, at local index 0, so the voxel is labelled 0. Ellipsoid 0 does not contain it. | Write the global index of the first containing ellipsoid | high, not executed | Assignment.LocalLabelNamesWrongEllipsoid | Assignment.CorrectedIdIsFirstInFullList |
| Modern/wrapperPlugins/src/main/java/org/bonej/wrapperPlugins/EllipsoidFactorWrapper.java:274 | The slice filter compares the centroid's z with the slice index z, while the voxel centres tested are at z + 0.5. | Unit sphere at (0.5,0.5,1.25), voxel (0,0,0). It contains the centre (0.5,0.5,0.5), but \|1.25 − 0\| = 1.25 is not below c = 1, so the voxel stays −1. | Compare with the voxel centre, \|cz − (z+0.5)\| ≤ c, which keeps every containing ellipsoid | high, not executed | Assignment.SliceTestDropsContainingEllipsoid | Assignment.CorrectedSliceTestIsConservative |
| Modern/wrapperPlugins/src/main/java/org/bonej/wrapperPlugins/EllipsoidFactorWrapper.java:270-271 | The slice view's upper corner is {W, H, k}, and interval views include their upper corner. | Any image: the view contains pixel (W, 0, k), which is outside the image. | Use the upper corner {W−1, H−1, k} | medium, not executed (depends on the image's out-of-bounds behaviour) | Grids.SliceIntervalAsWrittenLeavesImage | Grids.SliceIntervalIsSlice |
| Modern/wrapperPlugins/src/main/java/org/bonej/wrapperPlugins/EllipsoidFactorWrapper.java:472-486 | The quadric Qᵀ·diag(1/a²,1/b²,1/c²)·Q, like the axis probes at lines 411-418, weights the rows of the orientation. The Ellipsoid class stores the semi-axes as columns. | Radii 1,2,3 at the origin, orientation a rotation about z with cos = 0.6, sin = 0.8. The point 1.5·(column 0) = (0.9, 1.2, 0) has quadric 0.6948 < 1 as written, so it is accepted, although it lies 0.5 beyond semi-axis a. | Use the columns, or the transpose, for the quadric and the probes | medium, not executed (the fitter's own convention is not part of this model) | Containment.RowQuadricAcceptsPointBeyondSemiAxis | Containment.CorrectedRejectsBeyondSemiAxis |
