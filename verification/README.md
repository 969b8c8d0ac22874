# Longitudinal tumour analysis: a verified model of the decision logic

This project models, in Dafny, the parts of the tumour-evolution pipeline
that make decisions or compute results. Everything else in the pipeline is
library plumbing. There are three modelled parts.

- **Change analysis** (`src/analysis.py`, class `TumorAnalysis`). This covers:
  - mask volume;
  - intensity statistics over the masked voxels;
  - the Dice coefficient and the symmetric Hausdorff distance;
  - the comparison record of `compare_tumors`;
  - the growth-status and overlap-commentary tiers of the execution report.
- **Segmentation policy** (`src/segmentation.py`, class `TumorSegmentation`). This covers:
  - the percentile band of brain extraction;
  - largest-component selection;
  - the 9³ → 5³ → 3³ erosion fallback;
  - the tumour threshold `max(mean + 3·std, p99.5)`;
  - the candidate mask and the per-component acceptance rules;
  - the loop that unites the accepted components and counts them;
  - the empty-interior early return;
  - the seed and threshold rule of region growing.
- **2-D view rules** (`visualize_2d.py`). This covers the default slice of
  `load_nrrd_slice`, the slice with the largest tumour area, and the French
  interpretation of the volume change.

Modules:

- `Wrappers`: `Option`.
- `Reductions`: np.sum, np.mean, np.std (through a given square root),
  np.min, np.max, np.median and np.argmax, on exact reals.
- `Grids`: 3-D arrays indexed `[z][y][x]`.
  - Reads go through total accessors that give 0 outside the array.
  - `Coords(shape)` lists every voxel in the C order that `np.where` uses.
  - Every count and selection is a `Filter` over that list.
- `Analysis`, `Segmentation`, `Visualize2D`: the three parts above.

The scipy and numpy primitives that segmentation calls are not part of this
model. These are Gaussian smoothing, percentiles, the square root inside
np.std, binary morphology and connected-component labelling. They are the
function fields of a `Segmentation.Toolkit` value. `Segmentation.Sound`
states the only facts the proofs assume about them:
- erosion never adds a voxel;
- labelling gives each set voxel a label in 1..count and every other voxel 0;
- `sqrt` is the non-negative square root.

The same square root is a parameter of the change analysis too: np.std in
`calculate_intensity_statistics` is `Reductions.Std` applied to it. A
square root is sound when it gives the non-negative root of every
non-negative real (`Reductions.IsSquareRoot`); the contracts that need one
say so.

The Hausdorff distance is kept as a squared distance between integer voxel
indices plus the scale factor. The square root is monotone, so the maximum
of the roots is the root of the maximum square. No square root is taken.

The model follows the code in these behaviours, which a reader might not
expect:
- **Erosion fallback.** The 3³ erosion is used only when the erosion chosen
  so far is empty, and it can be empty too. A non-empty interior is not
  guaranteed. That case leads to the all-zero early return, which the model
  keeps as `EmptyInterior`.
- **Brain radius.** The brain radius uses max − min of each coordinate,
  without the + 1 that the component extents carry.
- **Hausdorff scale.** The distance is measured between voxel indices and
  scaled by the smallest spacing component. It is not a physical Euclidean
  distance on anisotropic voxels.
- **Interpretation label.** Neither label is stored in the comparison record:
  the English growth status is computed in the execution report
  (src/analysis.py:176-187), the French one in the 2-D view
  (visualize_2d.py:128-139).
- **Invalid input.** Non-positive spacing and mismatched shapes are not
  checked by the code, and neither are they by the model.
- **Connectivity.** `scipy.ndimage.label` is called without a structure
  (src/segmentation.py:54 and 113). Components are therefore face-connected,
  6-connected in 3-D, not 26-connected.

## Model

| member | source | states |
|---|---|---|
| Grids.Points | src/analysis.py:76-77 | the listed voxels are exactly the in-bounds voxels whose mask value is positive |
| Reductions.MeanWithinRange | src/analysis.py:49-52 | the mean of a non-empty list lies between its minimum and its maximum |
| Reductions.Std | src/analysis.py:50 | with a sound square root, np.std is non-negative and its square is the population variance |
| Reductions.Median | src/analysis.py:53 | the median lies between the minimum and the maximum, and is a member of the list when its length is odd |
| Reductions.ArgMax | visualize_2d.py:65 | np.argmax returns an index whose value no entry exceeds, and every earlier entry is strictly smaller (first index on ties) |
| Analysis.MinSpacing | src/analysis.py:86-87 | min(spacing) is no larger than any component and equals one of them |
| Analysis.VoxelVolume | src/analysis.py:27-28 | the product of the three spacing components is positive for a positive spacing |
| Analysis.Volume | src/analysis.py:25-31 | for a positive spacing the volume is never negative, and it is 0 exactly when no voxel is set |
| Analysis.VolumeOfSetVoxels | src/analysis.py:25-31 | the volume is (number of distinct set voxels) × voxel volume; for a positive spacing it is ≥ 0 and is 0 exactly when no voxel is set |
| Analysis.VolumeMonotone | src/analysis.py:28-30 | a mask that sets at least the voxels of another has at least its volume |
| Analysis.Statistics | src/analysis.py:39-54 | all five statistics are 0 for no intensities; otherwise min ≤ mean ≤ max, min ≤ median ≤ max, std ≥ 0 for a sound square root, and min and max are members that bound every value |
| Analysis.IntensityStatistics | src/analysis.py:33-54 | the statistics over the masked intensities: all zero for an empty mask; otherwise min ≤ mean ≤ max, min ≤ median ≤ max, std ≥ 0 for a sound square root; every masked intensity lies in [min, max], and both bounds are attained at masked voxels |
| Analysis.Overlap | src/analysis.py:60 | the intersection lists exactly the voxels set in both masks and is no longer than either mask's count |
| Analysis.OverlapRatio | src/analysis.py:66 | 2·inter/total lies in [0, 1]; it is 1 exactly when 2·inter = total and 0 exactly when inter = 0 |
| Analysis.Dice | src/analysis.py:56-67 | Dice lies in [0, 1] and is 1.0 when both masks are empty |
| Analysis.DiceSymmetric | src/analysis.py:60-66 | Dice(A, B) = Dice(B, A) |
| Analysis.DiceOneIffSameVoxels | src/analysis.py:60-66 | Dice is 1 exactly when the two masks set the same voxels (in both directions) |
| Analysis.DiceSelf | src/analysis.py:60-66 | Dice(A, A) = 1 for every mask A |
| Analysis.DiceDisjoint | src/analysis.py:60-66 | two masks with no common set voxel, not both empty, have Dice 0 |
| Analysis.NearestSqIsLeast | src/analysis.py:83-84 | the nearest-neighbour squared distance is attained by a member of the other set and no member is nearer |
| Analysis.DirectedSqIsGreatest | src/analysis.py:83-84 | the directed squared distance is attained by a member of the first set and no member is farther from the second set |
| Analysis.Hausdorff | src/analysis.py:69-89 | infinite exactly when either mask has no set voxel; otherwise finite and scaled by min(spacing) |
| Analysis.HausdorffIsLeastMutualCover | src/analysis.py:83-89 | the distance is max(directed 1→2, directed 2→1): each mask lies within it of the other, and at any smaller distance one of them does not |
| Analysis.HausdorffSymmetric | src/analysis.py:79-89 | for one spacing, the distance does not depend on the order of the masks (the code scales by the first mask's spacing) |
| Analysis.HausdorffSelf | src/analysis.py:76-89 | a non-empty mask is at distance 0 from itself |
| Analysis.HausdorffSingleVoxels | src/analysis.py:76-89 | two single-voxel masks are at the squared index distance of their voxels, scaled by min(spacing) |
| Analysis.PercentChange | src/analysis.py:100-101 | for v1 > 0, percent × v1 = (v2 − v1) × 100, positive exactly when v2 > v1, negative exactly when v2 < v1, and ≥ −100 for v2 ≥ 0; 0 when v1 ≤ 0 |
| Analysis.Compare | src/analysis.py:97-131 | the comparison record has Dice in [0, 1], percent 0 when the first volume is 0, a first volume of 0 exactly when the first mask is empty (positive spacing), and an infinite Hausdorff distance exactly when a mask is empty |
| Analysis.CompareSelf | src/analysis.py:97-130 | a scan compared with itself gives volume change 0, percent 0, Dice 1, mean change 0, std change 0, and Hausdorff 0 when its mask is not empty |
| Analysis.CompareSwapped | src/analysis.py:97-130 | swapping two scans of equal spacing negates the volume, mean and std changes and keeps Dice and Hausdorff |
| Analysis.Status | src/analysis.py:176-187 | each of the six labels holds on exactly one interval of the percent change (stable iff \|c\| < 5, significant growth iff c > 50, moderate growth iff 10 < c ≤ 50, significant reduction iff c < −50, moderate reduction iff −50 ≤ c < −10, minimal change otherwise) |
| Analysis.OverlapCommentary | src/analysis.py:202-211 | largely different iff Dice < 0.1, high overlap iff Dice > 0.7, moderate otherwise |
| Analysis.SelfReportIsStable | src/analysis.py:172-208 | a scan compared with itself is reported stable with high overlap |
| Segmentation.ValuesAbove | src/segmentation.py:30-33 | every listed intensity is above the cut; a value is listed exactly when some in-bounds voxel holds it and it is above the cut; the list is empty exactly when no in-bounds voxel is above the cut; each value is listed as many times as there are in-bounds voxels above the cut that hold it, so the percentiles see the same multiset as numpy's selection |
| Segmentation.BrainBand | src/segmentation.py:30-40 | None exactly when every in-bounds intensity is at most 0, or every one is at most the 5th-percentile cut of the positive ones (np.percentile would raise on the empty selection); otherwise the band holds the 99th, 15th and 85th percentiles of the intensities above that cut |
| Segmentation.PotentialBrain | src/segmentation.py:43 | a voxel is set exactly when it is in bounds, its intensity is within [low, high] and it is not above the skull cut |
| Segmentation.LabelPoints | src/segmentation.py:122-123 | the listed voxels are exactly the in-bounds voxels carrying the label, and there are as many as the set of such voxels has elements |
| Segmentation.ComponentSizes | src/segmentation.py:56 | one entry per label; entry i is the cardinality of the set of in-bounds voxels labelled i + 1 |
| Segmentation.LargestLabel | src/segmentation.py:56-57 | a label in 1..count with the most voxels; every lower label has strictly fewer |
| Segmentation.BrainMask | src/segmentation.py:54-61 | the voxels of the largest label, or the cleaned mask itself when there is no component |
| Segmentation.BrainMaskKeepsCleaned | src/segmentation.py:54-61 | with a sound labelling, the brain mask lies inside the cleaned mask and is empty only when the cleaned mask is |
| Segmentation.Brain | src/segmentation.py:49-61 | with sound primitives, the brain mask lies inside the opened, closed and filled mask, and is empty exactly when that mask is |
| Segmentation.TooEroded | src/segmentation.py:68 | only a non-empty brain mask can be too eroded, and a non-empty one whose 9³ erosion is empty always is |
| Segmentation.InteriorRegion | src/segmentation.py:65-74 | 9³ is kept iff its erosion keeps at least a tenth of the brain and is not empty; 5³ iff 9³ kept less than a tenth and 5³ is not empty; 3³ iff the region chosen so far is empty; the interior lies inside the brain |
| Segmentation.TumourThreshold | src/segmentation.py:98-104 | the threshold is at least both candidates and equals one of them |
| Segmentation.InteriorThreshold | src/segmentation.py:92-104 | the threshold is at least mean + 3·std and at least the 99.5th percentile of the interior intensities, and equals one of them; with a sound square root it is never below the mean |
| Segmentation.UniformInteriorHasNoCandidate | src/segmentation.py:92-110 | an interior region of one uniform intensity yields no candidate voxel |
| Segmentation.Candidates | src/segmentation.py:110 | a voxel is a candidate exactly when it is in bounds, in the interior and strictly above the threshold |
| Segmentation.CandidatesAboveBothThresholds | src/segmentation.py:92-110 | every candidate is in the interior and strictly above both mean + 3·std and the 99.5th percentile of the interior intensities |
| Segmentation.Extents | src/segmentation.py:134-144 | the three inclusive extents are each at least 1, so the max_range == 0 guard never fires |
| Segmentation.AspectRatio | src/segmentation.py:139-150 | min extent / max extent lies in (0, 1], and it is at least 0.4 exactly when the shortest extent is at least 0.4 times the longest |
| Segmentation.BoundingVolume | src/segmentation.py:154 | the bounding-box volume is at least 1 |
| Segmentation.Compactness | src/segmentation.py:154-158 | size / bounding-box volume is positive for every non-empty component, and it is at least 0.1 exactly when the size is at least a tenth of the bounding-box volume |
| Segmentation.BrainRadius | src/segmentation.py:179-182 | the mean of the brain's max − min spans divided by 3 is never negative |
| Segmentation.Centroid | src/segmentation.py:161-169 | each coordinate of the mean position lies between the smallest and the largest coordinate of the voxels on that axis |
| Segmentation.NearCentre | src/segmentation.py:172-186 | with a sound square root, the centroid test passes exactly when the squared centroid distance is at most (0.7 × radius)² |
| Segmentation.Accepted | src/segmentation.py:125-186 | a component is kept exactly when its size is in 20..2000, its shortest extent is at least 0.4 times its longest, it fills at least a tenth of its bounding box, and it passes the centroid test |
| Segmentation.AcceptedNonEmpty | src/segmentation.py:116-127 | every accepted component has at least 20 voxels |
| Segmentation.UnionAcceptedMembers | src/segmentation.py:121-189 | a voxel is in the union of the kept components of labels 1..k exactly when it is in bounds, its label is in 1..k and its component is kept |
| Segmentation.NumberAcceptedAtMost | src/segmentation.py:120-190 | at most k of the labels 1..k are counted |
| Segmentation.NumberAcceptedZero | src/segmentation.py:120-190 | when only non-empty components are kept, the count is 0 exactly when the union is empty |
| Segmentation.FilterComponents | src/segmentation.py:118-190 | the loop returns exactly the union of the kept components and their number |
| Segmentation.CheckComponent | src/segmentation.py:122-190 | one pass of the loop body: given the union and the count of the kept components among labels 1..l−1, it returns those of labels 1..l, adding component l and 1 exactly when it is kept |
| Segmentation.AcceptedAreCandidates | src/segmentation.py:110-189 | with a sound labelling, every voxel of the united mask is a candidate |
| Segmentation.FinalMask | src/segmentation.py:194-201 | the output is a 0/1 array of the image's shape, and it is all zero when no component was kept |
| Segmentation.SegmentAutomatic | src/segmentation.py:19-212 | None exactly when a percentile of an empty array is asked for. Otherwise: a 0/1 mask of the image's shape with the image's geometry; the kernel follows the erosion fallback; the mask is all zero on an empty interior. When filtering ran: the threshold is the interior threshold; the tumour is the union of the accepted components of the candidate labelling and valid_tumors is their number, at most the number of components and 0 iff the union is empty; every tumour voxel is in the interior and above the threshold; the mask is the smoothed union |
| Segmentation.Trunc | src/segmentation.py:229 | int() truncates toward zero: the result is within 1 of the value on the side of 0, and it is the only integer that is |
| Segmentation.SeedVoxel | src/segmentation.py:229 | the voxel (z, y, x) is seed[2], seed[1], seed[0], each truncated toward zero |
| Segmentation.SeedVoxels | src/segmentation.py:228-233 | every kept voxel is the in-bounds voxel of some seed, every seed whose voxel is in bounds has it kept, and there are no more kept voxels than seeds |
| Segmentation.SeedVoxelsMultiplicity | src/segmentation.py:228-233 | each voxel is listed once per seed that names it, repeated seeds included, when it is in bounds, and not at all otherwise |
| Segmentation.SeedVoxelsEmpty | src/segmentation.py:228-235 | no intensity is collected exactly when every seed falls outside the image |
| Segmentation.SeedThresholds | src/segmentation.py:226-242 | lower ≤ upper; mean ∓ 2·std of the in-bounds seed intensities, or 100 and 1000 when no seed is in bounds |
| Visualize2D.DefaultSlice | visualize_2d.py:22-23 | shape[0] // 2 lies in [0, shape[0]) for a non-empty volume |
| Visualize2D.LoadSlice | visualize_2d.py:17-25 | the slice at the index (middle by default), counted from the end for a negative index; None where Python raises IndexError |
| Visualize2D.SliceArea | visualize_2d.py:64 | the area of slice z is the cardinality of the set of set voxels of the mask that lie in slice z |
| Visualize2D.SliceAreasTotal | visualize_2d.py:64 | the slice areas add up to the number of set voxels of the whole mask |
| Visualize2D.BestSlice | visualize_2d.py:64-65 | a slice whose area no slice exceeds and the lowest such slice; None when the volume has no slice |
| Visualize2D.BestSliceShowsTumour | visualize_2d.py:64-65 | a mask with a set voxel has a best slice, and that slice has a positive area |
| Visualize2D.InterpretAsWritten | visualize_2d.py:128-137 | each of the five labels holds on exactly one set of changes; moderate reduction holds for −10 ≤ c ≤ −2 and also for c = 2 |
| Visualize2D.GrowthOfTwoReadsAsReduction | visualize_2d.py:132-137 | a change of exactly +2 % is reported as "Réduction modérée" |
| Visualize2D.AsWrittenNotMonotone | visualize_2d.py:128-137 | +1 % ranks above +2 %: the label order does not follow the change |
| Visualize2D.Interpret | visualize_2d.py:128-137 | the chain with an inclusive moderate-growth test: moderate growth iff 2 ≤ c ≤ 10, moderate reduction iff −10 ≤ c ≤ −2 |
| Visualize2D.InterpretFollowsSign | visualize_2d.py:128-137 | the corrected labels report growth only for a positive change and reduction only for a negative one, and never move backwards as the change grows |

## Left out

- Analysis.Statistics: states std ≥ 0 but not that its square is the variance. That relation is stated once, on `Reductions.Std`, which computes the std field.
- Analysis.IntensityStatistics: the same as `Analysis.Statistics`.
- Analysis.Compare: the try/except around the Hausdorff distance (src/analysis.py:110-113) is not modelled. The modelled distance cannot raise, so the `None` fallback never arises.
- Analysis.Hausdorff: the result is the squared index distance plus the scale min(spacing). The physical value sqrt(indexSq) × min(spacing) is not computed, and neither is float('inf') as a number.
- Analysis.Volume, Analysis.Dice and Analysis.Compare: the shapes of the two masks and images are taken to be one common shape `sh`. Outside an array every read is 0, and numpy's error for mismatched shapes is not modelled.
- Floating point: every value and every threshold (0.1, 0.4, 0.7, 99.5, ...) is an exact real. Rounding and NaN are not modelled.
- Library primitives: gaussian_filter, np.percentile, binary_opening/closing/erosion/fill_holes and label are opaque fields of `Toolkit`. So is the square root inside np.std.
  - That labelling finds face-connected (6-connected) components is not modelled. Only that it labels exactly the set voxels is.
  - The percentile of an empty array (which numpy rejects) appears only as the `None` result of `BrainBand`.
- Segmentation.SegmentAutomatic:
  - The ITK image is reduced to its voxel array and an opaque geometry (origin, spacing, direction) copied to the output.
  - Reading and writing files, and the printed warnings, are not modelled.
- Segmentation.FilterComponents: `final_mask |= component` is modelled as a union of voxel sets. The 0/1 array is built from that set afterwards by `FinalMask`.
- Segmentation.Accepted: the `len(coords[0]) == 0` guard (src/segmentation.py:131-132) and the `max_range == 0` guard (src/segmentation.py:143-144) are dropped. An accepted-size component has at least 20 voxels, and `Extents` proves every extent is at least 1, so neither guard can fire.
- Segmentation.NearCentre: takes the square root through the `Toolkit` field. Its contract gives the equivalent root-free test.
- Segmentation.SegmentAutomatic and Segmentation.SeedThresholds: require the voxel array to have the shape `sh`. The code takes the shape from the array itself.
- segment_tumor_region_growing: the ITK ConnectedThresholdImageFilter run, its AddSeed calls (src/segmentation.py:218-223) and the output writing are library calls and are not modelled. Only the seed rule and the thresholds are.
- refine_segmentation (src/segmentation.py:259-274): library morphology only, not modelled.
- Report writing (save_analysis_report, the markdown of create_execution_report), image loading, plotting in visualize_2d.py, registration, the VTK viewers, demo.py and the orchestration scripts are not part of this model.

## Findings

| source | as written | input that shows it | evidently intended | confidence | as-written member | corrected member |
|---|---|---|---|---|---|---|
| visualize_2d.py:128-137 | `elif volume_change > 2` is strict, so a change of exactly +2 % falls through to the final `else` | volume_change = 2.0 gives "Réduction modérée" for a tumour that grew, while +1 % gives "Volume stable" | a change of +2 % reads as "Croissance modérée" (`>= 2`), so that growth never reads as reduction and the labels follow the change | not executed | Visualize2D.InterpretAsWritten (with Visualize2D.GrowthOfTwoReadsAsReduction and Visualize2D.AsWrittenNotMonotone) | Visualize2D.Interpret (with Visualize2D.InterpretFollowsSign) |
