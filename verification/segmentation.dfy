/**
 * The decision logic of TumorSegmentation (src/segmentation.py): brain
 * extraction from intensity percentiles, the erosion fallback that picks the
 * interior region, the tumour threshold, the per-component acceptance rules,
 * the loop that unites the accepted components, and the seed rule of region
 * growing.
 *
 * The scipy and numpy primitives it calls (Gaussian smoothing, percentiles,
 * the square root inside np.std, binary morphology, connected-component
 * labelling) are not part of this model: they are the fields of a Toolkit
 * value, and Sound states the few facts about them that the proofs use.
 */
module Segmentation {
  import opened Wrappers
  import opened Reductions
  import opened Grids

  /** The result of scipy.ndimage.label: a label array and the number of labels. */
  datatype Labelled = Labelled(labels: Grid<int>, count: nat)

  /**
   * The library primitives, as given functions. The nat argument of the
   * morphological operations is the edge of the all-ones cubic structuring
   * element (np.ones((k, k, k))).
   */
  datatype Toolkit = Toolkit(
    smooth: Grid<real> -> Grid<real>,
    percentile: (seq<real>, real) -> real,
    sqrt: real -> real,
    opening: (Grid<int>, nat) -> Grid<int>,
    closing: (Grid<int>, nat) -> Grid<int>,
    fillHoles: Grid<int> -> Grid<int>,
    erosion: (Grid<int>, nat) -> Grid<int>,
    components: Grid<int> -> Labelled)

  /**
   * What the proofs assume of the primitives: erosion only removes voxels,
   * labelling gives every set voxel of its input a label in 1..count and
   * every other voxel 0, and sqrt is the non-negative square root.
   */
  ghost predicate Sound(tk: Toolkit, sh: Shape)
  {
    (forall g: Grid<int>, k: nat, v: Voxel :: Get(tk.erosion(g, k), v) > 0 ==> Get(g, v) > 0) &&
    (forall g: Grid<int> :: Labelling(tk.components(g), g, sh)) &&
    IsSquareRoot(tk.sqrt)
  }

  /** lab labels every set voxel of g in bounds with one of 1..count, and every other voxel with 0. */
  ghost predicate Labelling(lab: Labelled, g: Grid<int>, sh: Shape)
  {
    forall v :: InBounds(sh, v) ==>
      0 <= Get(lab.labels, v) <= lab.count && (Get(lab.labels, v) > 0 <==> Get(g, v) > 0)
  }

  // -----------------------------------------------------------------------
  // Brain extraction
  // -----------------------------------------------------------------------

  /** The percentile cut-offs of the initial brain mask. */
  datatype Band = Band(skull: real, low: real, high: real)

  /**
   * smoothed[smoothed > t], in C order: one entry per in-bounds voxel above
   * t, so a value is listed exactly when some in-bounds voxel above t holds
   * it, and the list is empty exactly when no in-bounds voxel is above t.
   */
  function ValuesAbove(s: Grid<real>, t: real, sh: Shape): (r: seq<real>)
    ensures |r| == |Filter(Coords(sh), v => GetReal(s, v) > t)|
    ensures forall i :: 0 <= i < |r| ==> r[i] > t
    ensures forall x :: x in r <==> exists v :: InBounds(sh, v) && GetReal(s, v) == x && x > t
    ensures |r| == 0 <==> forall v :: InBounds(sh, v) ==> GetReal(s, v) <= t
    ensures forall x :: multiset(r)[x] == |set v | v in Coords(sh) && GetReal(s, v) > t && GetReal(s, v) == x|
  {
    var above := v => GetReal(s, v) > t;
    var vs := Filter(Coords(sh), above);
    assert forall i :: 0 <= i < |vs| ==> vs[i] in vs;
    ValuesAtMembers(s, vs);
    FilterEmpty(Coords(sh), above);
    ValuesAboveCounts(s, t, sh, vs);
    ValuesAt(s, vs)
  }

  /** smoothed[smoothed > t] lists each value once per in-bounds voxel above t that holds it. */
  lemma ValuesAboveCounts(s: Grid<real>, t: real, sh: Shape, vs: seq<Voxel>)
    requires vs == Filter(Coords(sh), v => GetReal(s, v) > t)
    ensures forall x ::
      multiset(ValuesAt(s, vs))[x] == |set v | v in Coords(sh) && GetReal(s, v) > t && GetReal(s, v) == x|
  {
    var above := v => GetReal(s, v) > t;
    forall x
      ensures multiset(ValuesAt(s, vs))[x] ==
        |set v | v in Coords(sh) && GetReal(s, v) > t && GetReal(s, v) == x|
    {
      ValuesAtFilterCount(s, Coords(sh), above, x);
      assert (set v | v in Coords(sh) && above(v) && GetReal(s, v) == x) ==
        (set v | v in Coords(sh) && GetReal(s, v) > t && GetReal(s, v) == x);
    }
  }

  /**
   * The background cut (5th percentile of the positive intensities) and the
   * skull and tissue cuts (99th, 15th and 85th percentiles of the
   * intensities above it). np.percentile raises on an empty array: None when
   * there is no positive intensity, or none above the background cut.
   */
  function BrainBand(tk: Toolkit, s: Grid<real>, sh: Shape): (r: Option<Band>)
    ensures r.None? <==>
      (forall v :: InBounds(sh, v) ==> GetReal(s, v) <= 0.0) ||
      (forall v :: InBounds(sh, v) ==> GetReal(s, v) <= tk.percentile(ValuesAbove(s, 0.0, sh), 5.0))
    ensures r.Some? ==>
      var foreground := ValuesAbove(s, tk.percentile(ValuesAbove(s, 0.0, sh), 5.0), sh);
      r.value == Band(tk.percentile(foreground, 99.0), tk.percentile(foreground, 15.0), tk.percentile(foreground, 85.0))
  {
    var positives := ValuesAbove(s, 0.0, sh);
    if |positives| == 0 then None
    else
      var foreground := ValuesAbove(s, tk.percentile(positives, 5.0), sh);
      if |foreground| == 0 then None
      else Some(Band(tk.percentile(foreground, 99.0), tk.percentile(foreground, 15.0), tk.percentile(foreground, 85.0)))
  }

  /** (smoothed >= low) & (smoothed <= high) & ~(smoothed > skull) */
  function PotentialBrain(s: Grid<real>, band: Band, sh: Shape): (r: Grid<int>)
    ensures forall v :: Get(r, v) > 0 <==>
      InBounds(sh, v) && band.low <= GetReal(s, v) <= band.high && GetReal(s, v) <= band.skull
  {
    Select(sh, v => band.low <= GetReal(s, v) <= band.high && !(GetReal(s, v) > band.skull))
  }

  /** The voxels that carry label l, each listed once. */
  function LabelPoints(labels: Grid<int>, l: int, sh: Shape): (r: seq<Voxel>)
    ensures forall v :: v in r <==> InBounds(sh, v) && Get(labels, v) == l
    ensures |r| == |set v | v in Coords(sh) && Get(labels, v) == l|
  {
    var p := v => Get(labels, v) == l;
    FilterCardinality(Coords(sh), p, set v | v in Coords(sh) && Get(labels, v) == l);
    Filter(Coords(sh), p)
  }

  /**
   * [np.sum(labels == i) for i in range(1, count + 1)]: entry i is the number
   * of distinct voxels of the array that carry label i + 1.
   */
  function ComponentSizes(lab: Labelled, sh: Shape): (r: seq<int>)
    ensures |r| == lab.count
    ensures forall i :: 0 <= i < lab.count ==> r[i] == |LabelPoints(lab.labels, i + 1, sh)|
    ensures forall i :: 0 <= i < lab.count ==> r[i] == |set v | v in Coords(sh) && Get(lab.labels, v) == i + 1|
  {
    seq(lab.count, i requires 0 <= i < lab.count => |LabelPoints(lab.labels, i + 1, sh)|)
  }

  /**
   * np.argmax(sizes) + 1: a label with the most voxels, and the lowest such
   * label.
   */
  function LargestLabel(lab: Labelled, sh: Shape): (l: nat)
    requires lab.count > 0
    ensures 1 <= l <= lab.count
    ensures forall j :: 1 <= j <= lab.count ==> |LabelPoints(lab.labels, j, sh)| <= |LabelPoints(lab.labels, l, sh)|
    ensures forall j :: 1 <= j < l ==> |LabelPoints(lab.labels, j, sh)| < |LabelPoints(lab.labels, l, sh)|
  {
    var sizes := ComponentSizes(lab, sh);
    var k := ArgMax(sizes);
    assert forall j :: 1 <= j <= lab.count ==> sizes[j - 1] == |LabelPoints(lab.labels, j, sh)|;
    k + 1
  }

  /**
   * The brain mask: the largest component of the cleaned mask, or the
   * cleaned mask itself when it has no component.
   */
  function BrainMask(lab: Labelled, cleaned: Grid<int>, sh: Shape): (r: Grid<int>)
    ensures lab.count == 0 ==> r == cleaned
    ensures lab.count > 0 ==> forall v :: Get(r, v) > 0 <==>
      InBounds(sh, v) && Get(lab.labels, v) == LargestLabel(lab, sh)
  {
    if lab.count > 0 then
      var largest := LargestLabel(lab, sh);
      Select(sh, v => Get(lab.labels, v) == largest)
    else cleaned
  }

  /**
   * With a sound labelling, the brain mask lies inside the cleaned mask, and
   * it is empty only when the cleaned mask is: the largest component has at
   * least as many voxels as the component of any set voxel.
   */
  lemma BrainMaskKeepsCleaned(lab: Labelled, cleaned: Grid<int>, sh: Shape)
    ensures Labelling(lab, cleaned, sh) ==>
      (forall v :: InBounds(sh, v) && Get(BrainMask(lab, cleaned, sh), v) > 0 ==> Get(cleaned, v) > 0) &&
      (Count(BrainMask(lab, cleaned, sh), sh) == 0 <==> Count(cleaned, sh) == 0)
  {
    if Labelling(lab, cleaned, sh) {
      var r := BrainMask(lab, cleaned, sh);
      CountZeroIffEmpty(r, sh);
      CountZeroIffEmpty(cleaned, sh);
      if lab.count > 0 && Count(cleaned, sh) > 0 {
        var w :| InBounds(sh, w) && Get(cleaned, w) > 0;
        var l := Get(lab.labels, w);
        assert w in LabelPoints(lab.labels, l, sh);
        var big := LabelPoints(lab.labels, LargestLabel(lab, sh), sh);
        assert |big| > 0;
        FirstIsMember(big);
        assert Get(r, big[0]) > 0;
      }
    }
  }

  /** Opening (3^3), closing (7^3) and hole filling of the initial brain mask. */
  function CleanedBrain(tk: Toolkit, s: Grid<real>, band: Band, sh: Shape): Grid<int>
  {
    tk.fillHoles(tk.closing(tk.opening(PotentialBrain(s, band, sh), 3), 7))
  }

  /**
   * The largest component of the cleaned brain mask: it lies inside the
   * cleaned mask, and it is empty only when no brain tissue survived the
   * cleaning.
   */
  function Brain(tk: Toolkit, s: Grid<real>, band: Band, sh: Shape): (r: Grid<int>)
    ensures Sound(tk, sh) ==>
      forall v :: InBounds(sh, v) && Get(r, v) > 0 ==> Get(CleanedBrain(tk, s, band, sh), v) > 0
    ensures Sound(tk, sh) ==> (Count(r, sh) == 0 <==> Count(CleanedBrain(tk, s, band, sh), sh) == 0)
  {
    var cleaned := CleanedBrain(tk, s, band, sh);
    var lab := tk.components(cleaned);
    assert Sound(tk, sh) ==> Labelling(lab, cleaned, sh);
    BrainMaskKeepsCleaned(lab, cleaned, sh);
    BrainMask(lab, cleaned, sh)
  }

  // -----------------------------------------------------------------------
  // Interior region: the erosion fallback
  // -----------------------------------------------------------------------

  /**
   * The 9^3 erosion kept less than a tenth of the brain mask. Only a
   * non-empty brain mask can be too eroded, and one whose erosion is empty
   * always is.
   */
  predicate TooEroded(tk: Toolkit, brain: Grid<int>, sh: Shape)
    ensures TooEroded(tk, brain, sh) ==> Count(brain, sh) > 0
    ensures Count(brain, sh) > 0 && Count(tk.erosion(brain, 9), sh) == 0 ==> TooEroded(tk, brain, sh)
  {
    (Count(tk.erosion(brain, 9), sh) as real) < 0.1 * (Count(brain, sh) as real)
  }

  /**
   * The interior region: the 9^3 erosion of the brain mask, replaced by the
   * 5^3 erosion when it kept less than a tenth of the brain, and then by the
   * 3^3 erosion when the region chosen so far is empty. The interior lies
   * inside the brain mask.
   */
  method InteriorRegion(tk: Toolkit, brain: Grid<int>, sh: Shape) returns (inner: Grid<int>, kernel: nat)
    requires Sound(tk, sh)
    ensures inner == tk.erosion(brain, kernel)
    ensures kernel == 9 <==> !TooEroded(tk, brain, sh) && Count(tk.erosion(brain, 9), sh) > 0
    ensures kernel == 5 <==> TooEroded(tk, brain, sh) && Count(tk.erosion(brain, 5), sh) > 0
    ensures kernel == 3 <==>
      Count(tk.erosion(brain, if TooEroded(tk, brain, sh) then 5 else 9), sh) == 0
    ensures forall v :: Get(inner, v) > 0 ==> Get(brain, v) > 0
  {
    inner, kernel := tk.erosion(brain, 9), 9;
    if (Count(inner, sh) as real) < 0.1 * (Count(brain, sh) as real) {
      inner, kernel := tk.erosion(brain, 5), 5;
    }
    if Count(inner, sh) == 0 {
      inner, kernel := tk.erosion(brain, 3), 3;
    }
  }

  // -----------------------------------------------------------------------
  // Threshold and candidates
  // -----------------------------------------------------------------------

  /** max(mean + 3 std, p99.5): the more conservative of the two thresholds. */
  function TumourThreshold(statistical: real, percentile: real): (t: real)
    ensures t >= statistical && t >= percentile
    ensures t == statistical || t == percentile
  {
    if percentile > statistical then percentile else statistical
  }

  /** The intensities of the interior region, smoothed[inner_brain_mask]. */
  function InteriorValues(s: Grid<real>, inner: Grid<int>, sh: Shape): (r: seq<real>)
    ensures |r| == Count(inner, sh)
  {
    ValuesAt(s, Points(inner, sh))
  }

  /**
   * The threshold computed from the interior intensities: the larger of
   * mean + 3 std and the 99.5th percentile, so never below the mean.
   */
  function InteriorThreshold(tk: Toolkit, s: Grid<real>, inner: Grid<int>, sh: Shape): (t: real)
    requires Count(inner, sh) > 0
    ensures var xs := InteriorValues(s, inner, sh);
      t >= Mean(xs) + 3.0 * Std(tk.sqrt, xs) && t >= tk.percentile(xs, 99.5) &&
      (t == Mean(xs) + 3.0 * Std(tk.sqrt, xs) || t == tk.percentile(xs, 99.5))
    ensures IsSquareRoot(tk.sqrt) ==> t >= Mean(InteriorValues(s, inner, sh))
  {
    var xs := InteriorValues(s, inner, sh);
    TumourThreshold(Mean(xs) + 3.0 * Std(tk.sqrt, xs), tk.percentile(xs, 99.5))
  }

  /**
   * An interior of uniform intensity yields no candidate: its mean is its
   * one intensity and the threshold is not below the mean, so no interior
   * voxel is strictly brighter than the threshold.
   */
  lemma UniformInteriorHasNoCandidate(tk: Toolkit, s: Grid<real>, inner: Grid<int>, sh: Shape, c: real)
    requires Count(inner, sh) > 0 && IsSquareRoot(tk.sqrt)
    requires forall v :: InBounds(sh, v) && Get(inner, v) > 0 ==> GetReal(s, v) == c
    ensures Count(Candidates(s, inner, InteriorThreshold(tk, s, inner, sh), sh), sh) == 0
  {
    var xs := InteriorValues(s, inner, sh);
    var ps := Points(inner, sh);
    forall i | 0 <= i < |xs|
      ensures xs[i] == c
    {
      assert ps[i] in ps;
    }
    ConstantList(xs, c);
    CountZeroIffEmpty(Candidates(s, inner, InteriorThreshold(tk, s, inner, sh), sh), sh);
  }

  /** (smoothed > t) & inner_brain_mask */
  function Candidates(s: Grid<real>, inner: Grid<int>, t: real, sh: Shape): (r: Grid<int>)
    ensures forall v :: Get(r, v) > 0 <==> InBounds(sh, v) && GetReal(s, v) > t && Get(inner, v) > 0
  {
    Select(sh, v => GetReal(s, v) > t && Get(inner, v) > 0)
  }

  /**
   * Every candidate lies in the interior region and is strictly brighter
   * than both mean + 3 std and the 99.5th percentile of the interior.
   */
  lemma CandidatesAboveBothThresholds(tk: Toolkit, s: Grid<real>, inner: Grid<int>, sh: Shape, v: Voxel)
    requires Count(inner, sh) > 0
    requires Get(Candidates(s, inner, InteriorThreshold(tk, s, inner, sh), sh), v) > 0
    ensures InBounds(sh, v) && Get(inner, v) > 0
    ensures var xs := InteriorValues(s, inner, sh);
      GetReal(s, v) > Mean(xs) + 3.0 * Std(tk.sqrt, xs) && GetReal(s, v) > tk.percentile(xs, 99.5)
  {
  }

  // -----------------------------------------------------------------------
  // Component acceptance
  // -----------------------------------------------------------------------

  const MinTumourSize := 20
  const MaxTumourSize := 2000

  /** The coordinates of the voxels of c along one axis (0: z, 1: y, 2: x). */
  function AxisValues(c: seq<Voxel>, axis: nat): (r: seq<real>)
    ensures |r| == |c|
  {
    seq(|c|, i requires 0 <= i < |c| =>
      if axis == 0 then c[i].z as real else if axis == 1 then c[i].y as real else c[i].x as real)
  }

  /** coords[axis].max() - coords[axis].min() */
  function Span(c: seq<Voxel>, axis: nat): (r: real)
    requires |c| > 0
    ensures r >= 0.0
  {
    var xs := AxisValues(c, axis);
    assert MinOf(xs) <= xs[0] <= MaxOf(xs);
    MaxOf(xs) - MinOf(xs)
  }

  /**
   * The inclusive bounding-box extents [z_range, y_range, x_range]; each is
   * at least 1, so the source's max_range == 0 guard never fires.
   */
  function Extents(c: seq<Voxel>): (r: seq<real>)
    requires |c| > 0
    ensures |r| == 3
    ensures forall i :: 0 <= i < 3 ==> r[i] >= 1.0
  {
    [Span(c, 0) + 1.0, Span(c, 1) + 1.0, Span(c, 2) + 1.0]
  }

  /**
   * min_range / max_range: a ratio in (0, 1]. It passes the 0.4 check
   * exactly when the shortest extent is at least 0.4 times the longest.
   */
  function AspectRatio(c: seq<Voxel>): (a: real)
    requires |c| > 0
    ensures 0.0 < a <= 1.0
    ensures a >= 0.4 <==> MinOf(Extents(c)) >= 0.4 * MaxOf(Extents(c))
  {
    var e := Extents(c);
    assert MinOf(e) >= 1.0 && MaxOf(e) >= MinOf(e);
    ShortOverLong(MinOf(e), MaxOf(e))
  }

  /** The ratio of a shortest extent to a longest one. */
  function ShortOverLong(lo: real, hi: real): (q: real)
    requires 1.0 <= lo <= hi
    ensures 0.0 < q <= 1.0
    ensures q >= 0.4 <==> lo >= 0.4 * hi
  {
    QuotientPositive(lo, hi);
    RatioAtMost(lo / hi, lo, hi, 1.0);
    RatioAtLeast(lo / hi, lo, hi, 0.4);
    lo / hi
  }

  lemma ProductPositive(a: real, b: real)
    requires a > 0.0 && b > 0.0
    ensures a * b > 0.0
  {
  }

  lemma QuotientPositive(a: real, b: real)
    requires a > 0.0 && b > 0.0
    ensures a / b > 0.0
  {
    assert a == (a / b) * b;
  }

  /** The bounding-box volume z_range * y_range * x_range, at least 1. */
  function BoundingVolume(c: seq<Voxel>): (b: real)
    requires |c| > 0
    ensures b >= 1.0
  {
    var e := Extents(c);
    BoxVolume(e[0], e[1], e[2])
  }

  /** The volume of a box with edges of at least 1, itself at least 1. */
  function BoxVolume(a: real, b: real, d: real): (v: real)
    requires a >= 1.0 && b >= 1.0 && d >= 1.0
    ensures v >= 1.0
  {
    ProductAtLeastOne(a, b);
    ProductAtLeastOne(a * b, d);
    a * b * d
  }

  lemma ProductAtLeastOne(a: real, b: real)
    requires a >= 1.0 && b >= 1.0
    ensures a * b >= 1.0
  {
    assert a * b - 1.0 == (a - 1.0) * b + (b - 1.0);
    assert (a - 1.0) * b >= 0.0;
  }

  /**
   * size / bounding volume, or 0 for an empty bounding box; positive for any
   * non-empty component. It passes the 0.1 check exactly when the component
   * fills at least a tenth of its bounding box.
   */
  function Compactness(c: seq<Voxel>): (k: real)
    requires |c| > 0
    ensures k > 0.0
    ensures k >= 0.1 <==> (|c| as real) >= 0.1 * BoundingVolume(c)
  {
    var b := BoundingVolume(c);
    if b > 0.0 then SizeOverBox(|c| as real, b) else 0.0
  }

  /** The share of a box that n voxels fill; it passes 0.1 exactly when n is at least a tenth of the box. */
  function SizeOverBox(n: real, b: real): (k: real)
    requires n > 0.0 && b > 0.0
    ensures k > 0.0
    ensures k >= 0.1 <==> n >= 0.1 * b
  {
    QuotientPositive(n, b);
    RatioAtLeast(n / b, n, b, 0.1);
    n / b
  }

  /** A point with real coordinates, in array order. */
  datatype Point = Point(z: real, y: real, x: real)

  /**
   * The mean voxel position (np.mean of each coordinate array); it lies in
   * the bounding box of the voxels.
   */
  function Centroid(c: seq<Voxel>): (p: Point)
    requires |c| > 0
    ensures MinOf(AxisValues(c, 0)) <= p.z <= MaxOf(AxisValues(c, 0))
    ensures MinOf(AxisValues(c, 1)) <= p.y <= MaxOf(AxisValues(c, 1))
    ensures MinOf(AxisValues(c, 2)) <= p.x <= MaxOf(AxisValues(c, 2))
  {
    MeanWithinRange(AxisValues(c, 0));
    MeanWithinRange(AxisValues(c, 1));
    MeanWithinRange(AxisValues(c, 2));
    Point(Mean(AxisValues(c, 0)), Mean(AxisValues(c, 1)), Mean(AxisValues(c, 2)))
  }

  lemma SquareNonNegative(d: real)
    ensures d * d >= 0.0
  {
    if d < 0.0 {
      assert d * d == (-d) * (-d);
    }
  }

  /** Squared Euclidean distance between two points. */
  function SqDistance(a: Point, b: Point): (r: real)
    ensures r >= 0.0
  {
    var dz, dy, dx := a.z - b.z, a.y - b.y, a.x - b.x;
    SquareNonNegative(dz);
    SquareNonNegative(dy);
    SquareNonNegative(dx);
    dz * dz + dy * dy + dx * dx
  }

  /** The brain radius: the mean of the brain's spans (max - min, no + 1) divided by 3. */
  function BrainRadius(brainPts: seq<Voxel>): (r: real)
    requires |brainPts| > 0
    ensures r >= 0.0
  {
    var spans := [Span(brainPts, 0), Span(brainPts, 1), Span(brainPts, 2)];
    MeanWithinRange(spans);
    assert MinOf(spans) >= 0.0;
    Mean(spans) / 3.0
  }

  /**
   * The centroid test: not farther than 0.7 brain radii from the brain
   * centroid. With a sound square root it needs no root: the squared
   * distance is within the square of 0.7 radii.
   */
  predicate NearCentre(tk: Toolkit, c: seq<Voxel>, brainPts: seq<Voxel>)
    requires |c| > 0 && |brainPts| > 0
    ensures IsSquareRoot(tk.sqrt) ==> (NearCentre(tk, c, brainPts) <==>
      SqDistance(Centroid(c), Centroid(brainPts)) <= (0.7 * BrainRadius(brainPts)) * (0.7 * BrainRadius(brainPts)))
  {
    RootComparison(tk.sqrt, SqDistance(Centroid(c), Centroid(brainPts)), 0.7 * BrainRadius(brainPts));
    !(tk.sqrt(SqDistance(Centroid(c), Centroid(brainPts))) > 0.7 * BrainRadius(brainPts))
  }

  /** A root is within a non-negative limit exactly when its square is within the limit's square. */
  lemma RootComparison(sqrt: real -> real, x: real, limit: real)
    requires x >= 0.0 && limit >= 0.0
    ensures IsSquareRoot(sqrt) ==> (sqrt(x) <= limit <==> x <= limit * limit)
  {
    if IsSquareRoot(sqrt) {
      assert sqrt(x) >= 0.0 && sqrt(x) * sqrt(x) == x;
      SquareMonotone(sqrt(x), limit);
    }
  }

  lemma SquareMonotone(a: real, b: real)
    requires a >= 0.0 && b >= 0.0
    ensures a <= b <==> a * a <= b * b
  {
    if a <= b {
      assert a * a <= a * b;
      assert a * b <= b * b;
    } else {
      ProductPositive(a - b, a + b);
      assert a * a - b * b == (a - b) * (a + b);
    }
  }

  /** A ratio q = a / b with a positive b is at most k exactly when a <= k * b. */
  lemma RatioAtMost(q: real, a: real, b: real, k: real)
    requires b > 0.0 && q == a / b
    ensures q <= k <==> a <= k * b
  {
    assert a == q * b;
    if q <= k {
      assert k * b - a == (k - q) * b;
    } else {
      ProductPositive(q - k, b);
      assert a - k * b == (q - k) * b;
    }
  }

  /** A ratio q = a / b with a positive b is at least k exactly when a >= k * b. */
  lemma RatioAtLeast(q: real, a: real, b: real, k: real)
    requires b > 0.0 && q == a / b
    ensures q >= k <==> a >= k * b
  {
    assert a == q * b;
    if q >= k {
      assert a - k * b == (q - k) * b;
    } else {
      ProductPositive(k - q, b);
      assert k * b - a == (k - q) * b;
    }
  }

  /**
   * All the checks a component must pass, in the order the loop applies
   * them. Without the divisions: a size in 20..2000, a shortest bounding-box
   * extent at least 0.4 times the longest, at least a tenth of the bounding
   * box filled, and the centroid test.
   */
  predicate Accepted(tk: Toolkit, c: seq<Voxel>, brainPts: seq<Voxel>)
    requires |brainPts| > 0
    ensures Accepted(tk, c, brainPts) <==>
      MinTumourSize <= |c| <= MaxTumourSize &&
      MinOf(Extents(c)) >= 0.4 * MaxOf(Extents(c)) &&
      (|c| as real) >= 0.1 * BoundingVolume(c) &&
      NearCentre(tk, c, brainPts)
  {
    if MinTumourSize <= |c| <= MaxTumourSize then
      AspectRatio(c) >= 0.4 &&
      Compactness(c) >= 0.1 &&
      NearCentre(tk, c, brainPts)
    else false
  }

  // -----------------------------------------------------------------------
  // The component loop
  // -----------------------------------------------------------------------

  /** The acceptance test as a value, for the specification of the loop. */
  function Acceptance(tk: Toolkit, brainPts: seq<Voxel>): seq<Voxel> -> bool
    requires |brainPts| > 0
  {
    c => Accepted(tk, c, brainPts)
  }

  /** The voxels of a list, as a set. */
  function Members(c: seq<Voxel>): (r: set<Voxel>)
    ensures forall v :: v in r <==> v in c
  {
    set v | v in c
  }

  /** The union of the components among labels 1..k that accept keeps. */
  ghost function UnionAccepted(accept: seq<Voxel> -> bool, labels: Grid<int>, k: nat, sh: Shape): set<Voxel>
  {
    if k == 0 then {}
    else
      var c := LabelPoints(labels, k, sh);
      UnionAccepted(accept, labels, k - 1, sh) + (if accept(c) then Members(c) else {})
  }

  /** The number of components among labels 1..k that accept keeps. */
  ghost function NumberAccepted(accept: seq<Voxel> -> bool, labels: Grid<int>, k: nat, sh: Shape): nat
  {
    if k == 0 then 0
    else NumberAccepted(accept, labels, k - 1, sh) + (if accept(LabelPoints(labels, k, sh)) then 1 else 0)
  }

  /**
   * A voxel belongs to the union exactly when it is in bounds, carries one
   * of the labels 1..k, and the component of that label is kept.
   */
  lemma {:induction false} UnionAcceptedMembers(accept: seq<Voxel> -> bool, labels: Grid<int>, k: nat, sh: Shape, v: Voxel)
    ensures v in UnionAccepted(accept, labels, k, sh) <==>
      InBounds(sh, v) && 1 <= Get(labels, v) <= k && accept(LabelPoints(labels, Get(labels, v), sh))
  {
    if k > 0 {
      UnionAcceptedMembers(accept, labels, k - 1, sh, v);
    }
  }

  /** At most k of the labels 1..k are kept. */
  lemma {:induction false} NumberAcceptedAtMost(accept: seq<Voxel> -> bool, labels: Grid<int>, k: nat, sh: Shape)
    ensures NumberAccepted(accept, labels, k, sh) <= k
  {
    if k > 0 {
      NumberAcceptedAtMost(accept, labels, k - 1, sh);
    }
  }

  /** When only non-empty components are kept, none is kept exactly when the union is empty. */
  lemma {:induction false} NumberAcceptedZero(accept: seq<Voxel> -> bool, labels: Grid<int>, k: nat, sh: Shape)
    requires forall c :: accept(c) ==> |c| > 0
    ensures NumberAccepted(accept, labels, k, sh) == 0 <==> UnionAccepted(accept, labels, k, sh) == {}
  {
    if k > 0 {
      NumberAcceptedZero(accept, labels, k - 1, sh);
      var c := LabelPoints(labels, k, sh);
      if accept(c) {
        FirstIsMember(c);
        assert c[0] in Members(c);
      }
    }
  }

  /** An accepted component has at least 20 voxels, so it is never empty. */
  lemma AcceptedNonEmpty(tk: Toolkit, brainPts: seq<Voxel>)
    requires |brainPts| > 0
    ensures forall c :: Acceptance(tk, brainPts)(c) ==> |c| >= MinTumourSize
  {
  }

  /**
   * The loop over labels 1..count: each component that accept keeps is
   * added to the final mask and counted. The result is the union of the
   * kept components and their number. In segment_tumor_automatic, accept is
   * Acceptance: the checks of Accepted, in the order the loop applies them.
   */
  method FilterComponents(accept: seq<Voxel> -> bool, lab: Labelled, sh: Shape)
    returns (tumour: set<Voxel>, validTumors: nat)
    ensures tumour == UnionAccepted(accept, lab.labels, lab.count, sh)
    ensures validTumors == NumberAccepted(accept, lab.labels, lab.count, sh)
  {
    tumour, validTumors := {}, 0;
    for n := 0 to lab.count
      invariant tumour == UnionAccepted(accept, lab.labels, n, sh)
      invariant validTumors == NumberAccepted(accept, lab.labels, n, sh)
    {
      tumour, validTumors := CheckComponent(accept, lab.labels, n + 1, sh, tumour, validTumors);
    }
  }

  /**
   * One pass of the loop body: the component of label l is added to the
   * mask and counted when accept keeps it, and nothing changes otherwise.
   */
  method CheckComponent(accept: seq<Voxel> -> bool, labels: Grid<int>, l: nat, sh: Shape, tumour: set<Voxel>, validTumors: nat)
    returns (tumour': set<Voxel>, validTumors': nat)
    requires l > 0
    requires tumour == UnionAccepted(accept, labels, l - 1, sh)
    requires validTumors == NumberAccepted(accept, labels, l - 1, sh)
    ensures tumour' == UnionAccepted(accept, labels, l, sh)
    ensures validTumors' == NumberAccepted(accept, labels, l, sh)
  {
    var component := LabelPoints(labels, l, sh);
    tumour', validTumors' := tumour, validTumors;
    if accept(component) {
      tumour' := tumour + Members(component);
      validTumors' := validTumors + 1;
    }
  }

  /**
   * With a sound labelling of the candidates, every accepted voxel is a
   * candidate: the final mask lies inside the interior region and above the
   * threshold.
   */
  lemma AcceptedAreCandidates(tk: Toolkit, candidates: Grid<int>, brainPts: seq<Voxel>, sh: Shape, v: Voxel)
    requires Sound(tk, sh) && |brainPts| > 0
    requires v in UnionAccepted(Acceptance(tk, brainPts), tk.components(candidates).labels, tk.components(candidates).count, sh)
    ensures InBounds(sh, v) && Get(candidates, v) > 0
  {
    UnionAcceptedMembers(Acceptance(tk, brainPts), tk.components(candidates).labels, tk.components(candidates).count, sh, v);
  }

  // -----------------------------------------------------------------------
  // segment_tumor_automatic
  // -----------------------------------------------------------------------

  /** Origin, spacing and direction of an image, copied to the output unchanged. */
  datatype Geometry = Geometry(origin: seq<real>, spacing: seq<real>, direction: seq<real>)

  datatype Image = Image(voxels: Grid<real>, geometry: Geometry)

  /**
   * How far the pipeline went: stopped at an empty interior region, or
   * filtered the components of the candidates. kernel is the erosion edge
   * that produced the interior region.
   */
  datatype Stage =
    | EmptyInterior(kernel: nat)
    | Filtered(kernel: nat, threshold: real, components: nat, tumour: set<Voxel>, validTumors: nat)

  /** The output mask (0/1, the image's shape), its geometry, and the stage reached. */
  datatype Segmented = Segmented(mask: Grid<int>, geometry: Geometry, stage: Stage)

  /**
   * segment_tumor_automatic without the file reading and writing. None when
   * a percentile of an empty array is asked for.
   */
  method SegmentAutomatic(tk: Toolkit, image: Image, sh: Shape) returns (r: Option<Segmented>)
    requires Sound(tk, sh) && Conforms(image.voxels, sh)
    ensures r.None? <==> BrainBand(tk, tk.smooth(image.voxels), sh).None?
    ensures r.Some? ==> Conforms(r.value.mask, sh) && r.value.geometry == image.geometry
    ensures r.Some? ==> forall v :: Get(r.value.mask, v) == 0 || Get(r.value.mask, v) == 1
    ensures r.Some? ==>
      var s := tk.smooth(image.voxels);
      var brain := Brain(tk, s, BrainBand(tk, s, sh).value, sh);
      var inner := tk.erosion(brain, r.value.stage.kernel);
      (r.value.stage.kernel == 9 <==> !TooEroded(tk, brain, sh) && Count(tk.erosion(brain, 9), sh) > 0) &&
      (r.value.stage.kernel == 5 <==> TooEroded(tk, brain, sh) && Count(tk.erosion(brain, 5), sh) > 0) &&
      (r.value.stage.kernel == 3 <==> Count(tk.erosion(brain, if TooEroded(tk, brain, sh) then 5 else 9), sh) == 0) &&
      (r.value.stage.EmptyInterior? <==> Count(inner, sh) == 0) &&
      (r.value.stage.EmptyInterior? ==> forall v :: Get(r.value.mask, v) == 0) &&
      (r.value.stage.Filtered? ==>
        r.value.stage.threshold == InteriorThreshold(tk, s, inner, sh) &&
        r.value.stage.components == tk.components(Candidates(s, inner, r.value.stage.threshold, sh)).count &&
        r.value.mask == FinalMask(tk, r.value.stage.tumour, sh) &&
        |Points(brain, sh)| > 0 &&
        var lab := tk.components(Candidates(s, inner, r.value.stage.threshold, sh));
        r.value.stage.tumour == UnionAccepted(Acceptance(tk, Points(brain, sh)), lab.labels, lab.count, sh) &&
        r.value.stage.validTumors == NumberAccepted(Acceptance(tk, Points(brain, sh)), lab.labels, lab.count, sh) &&
        r.value.stage.validTumors <= r.value.stage.components &&
        (r.value.stage.validTumors == 0 <==> r.value.stage.tumour == {}) &&
        (r.value.stage.tumour == {} ==> forall v :: Get(r.value.mask, v) == 0) &&
        (forall v :: v in r.value.stage.tumour ==>
          InBounds(sh, v) && Get(inner, v) > 0 && GetReal(s, v) > r.value.stage.threshold))
  {
    var s := tk.smooth(image.voxels);
    var band := BrainBand(tk, s, sh);
    if band.None? {
      return None;
    }
    var brain := Brain(tk, s, band.value, sh);
    var inner, kernel := InteriorRegion(tk, brain, sh);
    if Count(inner, sh) == 0 {
      return Some(Segmented(Select(sh, v => false), image.geometry, EmptyInterior(kernel)));
    }
    var t := InteriorThreshold(tk, s, inner, sh);
    var candidates := Candidates(s, inner, t, sh);
    var lab := tk.components(candidates);
    BrainNotEmpty(inner, brain, sh);
    var brainPts := Points(brain, sh);
    var tumour, validTumors := FilterComponents(Acceptance(tk, brainPts), lab, sh);
    NumberAcceptedAtMost(Acceptance(tk, brainPts), lab.labels, lab.count, sh);
    AcceptedNonEmpty(tk, brainPts);
    NumberAcceptedZero(Acceptance(tk, brainPts), lab.labels, lab.count, sh);
    forall v | v in tumour
      ensures InBounds(sh, v) && Get(inner, v) > 0 && GetReal(s, v) > t
    {
      AcceptedAreCandidates(tk, candidates, brainPts, sh, v);
    }
    var out := FinalMask(tk, tumour, sh);
    return Some(Segmented(out, image.geometry, Filtered(kernel, t, lab.count, tumour, validTumors)));
  }

  /**
   * The output mask: the union of the accepted components, closed and then
   * opened with a 2^3 structure when it is not empty, as a 0/1 array of the
   * image's shape. An empty union gives an all-zero mask.
   */
  function FinalMask(tk: Toolkit, tumour: set<Voxel>, sh: Shape): (r: Grid<int>)
    ensures Conforms(r, sh)
    ensures forall v :: Get(r, v) == 0 || Get(r, v) == 1
    ensures tumour == {} ==> forall v :: Get(r, v) == 0
  {
    var united := MaskGrid(sh, tumour);
    CountZeroIffEmpty(united, sh);
    var smoothed := if Count(united, sh) > 0 then tk.opening(tk.closing(united, 2), 2) else united;
    Select(sh, v => Get(smoothed, v) > 0)
  }

  /** A non-empty region inside the brain mask makes the brain mask non-empty. */
  lemma BrainNotEmpty(inner: Grid<int>, brain: Grid<int>, sh: Shape)
    requires Count(inner, sh) > 0
    requires forall v :: Get(inner, v) > 0 ==> Get(brain, v) > 0
    ensures Count(brain, sh) > 0
  {
    CountZeroIffEmpty(inner, sh);
    CountZeroIffEmpty(brain, sh);
  }

  // -----------------------------------------------------------------------
  // segment_tumor_region_growing: seeds and thresholds
  // -----------------------------------------------------------------------

  /** A seed point as given: seed[0], seed[1], seed[2]. */
  datatype Seed = Seed(first: real, second: real, third: real)

  /** n is r with its fractional part dropped, toward zero. */
  predicate TowardZero(n: int, r: real)
  {
    if r >= 0.0 then n as real <= r < n as real + 1.0 else n as real - 1.0 < r <= n as real
  }

  /** Python's int() of a float: the one integer that is r truncated toward zero. */
  function Trunc(r: real): (n: int)
    ensures TowardZero(n, r)
    ensures forall m :: TowardZero(m, r) ==> m == n
  {
    if r >= 0.0 then r.Floor else -((-r).Floor)
  }

  /**
   * The voxel a seed names: (z, y, x) = (int(seed[2]), int(seed[1]),
   * int(seed[0])), the seed read in reverse order.
   */
  function SeedVoxel(seed: Seed): (v: Voxel)
    ensures TowardZero(v.z, seed.third) && TowardZero(v.y, seed.second) && TowardZero(v.x, seed.first)
  {
    Voxel(Trunc(seed.third), Trunc(seed.second), Trunc(seed.first))
  }

  /**
   * The voxels of the seeds that fall inside the image, in seed order:
   * every listed voxel is an in-bounds seed voxel, and every in-bounds seed
   * voxel is listed.
   */
  function SeedVoxels(seeds: seq<Seed>, sh: Shape): (r: seq<Voxel>)
    ensures |r| <= |seeds|
    ensures forall v :: v in r ==> InBounds(sh, v) && exists i :: 0 <= i < |seeds| && SeedVoxel(seeds[i]) == v
    ensures forall i :: 0 <= i < |seeds| && InBounds(sh, SeedVoxel(seeds[i])) ==> SeedVoxel(seeds[i]) in r
  {
    if seeds == [] then []
    else
      var v := SeedVoxel(Last(seeds));
      assert forall i :: 0 <= i < |seeds| - 1 ==> seeds[i] == Init(seeds)[i];
      SeedVoxels(Init(seeds), sh) + (if InBounds(sh, v) then [v] else [])
  }

  /** No seed voxel is kept exactly when every seed falls outside the image. */
  lemma {:induction false} SeedVoxelsEmpty(seeds: seq<Seed>, sh: Shape)
    ensures SeedVoxels(seeds, sh) == [] <==> forall i :: 0 <= i < |seeds| ==> !InBounds(sh, SeedVoxel(seeds[i]))
  {
    if seeds != [] {
      SeedVoxelsEmpty(Init(seeds), sh);
      assert forall i :: 0 <= i < |seeds| - 1 ==> seeds[i] == Init(seeds)[i];
    }
  }

  /**
   * A voxel is listed once per seed that names it, repeats included, when
   * it is in bounds, and not at all otherwise: the mean and std of the
   * seed intensities weigh a repeated seed as often as it is given.
   */
  lemma {:induction false} SeedVoxelsMultiplicity(seeds: seq<Seed>, sh: Shape, v: Voxel)
    ensures multiset(SeedVoxels(seeds, sh))[v] == |SeedsNaming(seeds, sh, v)|
  {
    if seeds != [] {
      var w := SeedVoxel(Last(seeds));
      SeedVoxelsMultiplicity(Init(seeds), sh, v);
      SeedsNamingStep(seeds, sh, v);
      assert SeedVoxels(seeds, sh) == SeedVoxels(Init(seeds), sh) + (if InBounds(sh, w) then [w] else []);
    }
  }

  /** The indices of the seeds that name v, when v is in bounds. */
  function SeedsNaming(seeds: seq<Seed>, sh: Shape, v: Voxel): set<int>
  {
    set i | 0 <= i < |seeds| && InBounds(sh, v) && SeedVoxel(seeds[i]) == v
  }

  /** The last seed adds its index when it names v. */
  lemma SeedsNamingStep(seeds: seq<Seed>, sh: Shape, v: Voxel)
    requires seeds != []
    ensures |SeedsNaming(seeds, sh, v)| ==
      |SeedsNaming(Init(seeds), sh, v)| + (if InBounds(sh, v) && SeedVoxel(Last(seeds)) == v then 1 else 0)
  {
    var n, front := |seeds| - 1, Init(seeds);
    if !InBounds(sh, v) {
      assert SeedsNaming(seeds, sh, v) == {} && SeedsNaming(front, sh, v) == {};
    } else {
      var before := SeedsNaming(front, sh, v);
      var extra := if SeedVoxel(seeds[n]) == v then {n} else {};
      forall i
        ensures i in SeedsNaming(seeds, sh, v) <==> i in before + extra
      {
        if 0 <= i < n {
          assert seeds[i] == front[i];
        }
      }
      assert SeedsNaming(seeds, sh, v) == before + extra;
      assert n !in before;
    }
  }

  /** One more seed adds its voxel at the end when the voxel is in bounds. */
  lemma SeedVoxelsStep(seeds: seq<Seed>, n: nat, sh: Shape)
    requires n < |seeds|
    ensures SeedVoxels(seeds[..n + 1], sh) ==
      SeedVoxels(seeds[..n], sh) + (if InBounds(sh, SeedVoxel(seeds[n])) then [SeedVoxel(seeds[n])] else [])
  {
    assert Init(seeds[..n + 1]) == seeds[..n];
  }

  const DefaultLower := 100.0
  const DefaultUpper := 1000.0

  /**
   * The threshold estimation of region growing: the intensities at the
   * in-bounds seeds, then mean -/+ 2 std of them, or 100 and 1000 when no
   * seed is in bounds. The lower threshold never exceeds the upper one.
   */
  method SeedThresholds(tk: Toolkit, image: Grid<real>, seeds: seq<Seed>, sh: Shape)
    returns (lower: real, upper: real)
    requires IsSquareRoot(tk.sqrt) && Conforms(image, sh)
    ensures lower <= upper
    ensures SeedVoxels(seeds, sh) == [] ==> lower == DefaultLower && upper == DefaultUpper
    ensures SeedVoxels(seeds, sh) != [] ==>
      var xs := ValuesAt(image, SeedVoxels(seeds, sh));
      lower == Mean(xs) - 2.0 * Std(tk.sqrt, xs) && upper == Mean(xs) + 2.0 * Std(tk.sqrt, xs)
  {
    var intensities: seq<real> := [];
    for n := 0 to |seeds|
      invariant intensities == ValuesAt(image, SeedVoxels(seeds[..n], sh))
    {
      var v := SeedVoxel(seeds[n]);
      SeedVoxelsStep(seeds, n, sh);
      if InBounds(sh, v) {
        ValuesAtSnoc(image, SeedVoxels(seeds[..n], sh), v);
        intensities := intensities + [GetReal(image, v)];
      }
    }
    assert seeds[..|seeds|] == seeds;
    if intensities != [] {
      var m := Mean(intensities);
      var sd := Std(tk.sqrt, intensities);
      lower, upper := m - 2.0 * sd, m + 2.0 * sd;
    } else {
      lower, upper := DefaultLower, DefaultUpper;
    }
  }
}
