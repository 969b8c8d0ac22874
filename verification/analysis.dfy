/**
 * Change analysis between two scans (class TumorAnalysis): mask volume,
 * intensity statistics over the masked voxels, Dice overlap, symmetric
 * Hausdorff distance, the comparison record and the two qualitative tiers
 * of the execution report. Arithmetic is on exact reals.
 */
module Analysis {
  import opened Reductions
  import opened Grids

  /** Physical voxel size as ITK reports it, in x, y, z order (mm). */
  datatype Spacing = Spacing(x: real, y: real, z: real)

  predicate ValidSpacing(sp: Spacing)
  {
    sp.x > 0.0 && sp.y > 0.0 && sp.z > 0.0
  }

  /** Python's min(spacing). */
  function MinSpacing(sp: Spacing): (r: real)
    ensures r <= sp.x && r <= sp.y && r <= sp.z
    ensures r == sp.x || r == sp.y || r == sp.z
  {
    var m := if sp.x <= sp.y then sp.x else sp.y;
    if m <= sp.z then m else sp.z
  }

  // -----------------------------------------------------------------------
  // Volume
  // -----------------------------------------------------------------------

  /** The physical volume of one voxel: spacing[0] * spacing[1] * spacing[2]. */
  function VoxelVolume(sp: Spacing): (r: real)
    ensures ValidSpacing(sp) ==> r > 0.0
  {
    assert ValidSpacing(sp) ==> sp.x * sp.y > 0.0;
    sp.x * sp.y * sp.z
  }

  /**
   * calculate_volume: the number of set voxels times the physical volume of
   * one voxel. For a positive spacing it is never negative, and it is 0
   * exactly when no voxel is set.
   */
  function Volume(m: Grid<int>, sh: Shape, sp: Spacing): (r: real)
    ensures ValidSpacing(sp) ==> r >= 0.0 && (r == 0.0 <==> Count(m, sh) == 0)
  {
    CountVolume(Count(m, sh), sp)
  }

  /** The physical volume of n voxels: positive exactly when n is, for a positive spacing. */
  function CountVolume(n: nat, sp: Spacing): (r: real)
    ensures ValidSpacing(sp) ==> r >= 0.0 && (r == 0.0 <==> n == 0)
  {
    var vv := VoxelVolume(sp);
    if ValidSpacing(sp) && n > 0 then
      ScaleMonotone(1, n, vv);
      (n as real) * vv
    else (n as real) * vv
  }

  /**
   * The volume is the size of the set of set voxels times the voxel volume;
   * it is never negative, and 0 exactly for an empty mask.
   */
  lemma VolumeOfSetVoxels(m: Grid<int>, sh: Shape, sp: Spacing)
    ensures Volume(m, sh, sp) == (|MaskSet(m, sh)| as real) * VoxelVolume(sp)
    ensures ValidSpacing(sp) ==> Volume(m, sh, sp) >= 0.0 && (Volume(m, sh, sp) == 0.0 <==> MaskSet(m, sh) == {})
  {
    var n := |MaskSet(m, sh)|;
    CountIsCardinality(m, sh);
    assert Volume(m, sh, sp) == CountVolume(n, sp);
    CountVolumeIsProduct(n, sp);
    assert n == 0 <==> MaskSet(m, sh) == {};
  }

  lemma CountVolumeIsProduct(n: nat, sp: Spacing)
    ensures CountVolume(n, sp) == (n as real) * VoxelVolume(sp)
  {
  }

  /** Setting more voxels never decreases the volume. */
  lemma VolumeMonotone(m1: Grid<int>, m2: Grid<int>, sh: Shape, sp: Spacing)
    requires ValidSpacing(sp)
    requires forall v :: InBounds(sh, v) && Get(m1, v) > 0 ==> Get(m2, v) > 0
    ensures Volume(m1, sh, sp) <= Volume(m2, sh, sp)
  {
    CountMonotone(m1, m2, sh);
    CountVolumeMonotone(Count(m1, sh), Count(m2, sh), sp);
  }

  lemma CountVolumeMonotone(a: nat, b: nat, sp: Spacing)
    requires a <= b && ValidSpacing(sp)
    ensures CountVolume(a, sp) <= CountVolume(b, sp)
  {
    ScaleMonotone(a, b, VoxelVolume(sp));
  }

  lemma ScaleMonotone(a: nat, b: nat, c: real)
    requires a <= b && c > 0.0
    ensures (a as real) * c <= (b as real) * c
  {
    assert (b as real) * c - (a as real) * c == ((b - a) as real) * c;
  }

  // -----------------------------------------------------------------------
  // Intensity statistics
  // -----------------------------------------------------------------------

  /**
   * The statistics record: mean, standard deviation (np.std, ddof 0), min,
   * max and median. The square root under np.std is the parameter sqrt of
   * the functions below.
   */
  datatype IntensityStats = IntensityStats(mean: real, std: real, min: real, max: real, median: real)

  const NoStats := IntensityStats(0.0, 0.0, 0.0, 0.0, 0.0)

  /** The statistics of a list of intensities; all zero for an empty list. */
  function Statistics(sqrt: real -> real, xs: seq<real>): (s: IntensityStats)
    ensures xs == [] ==> s == NoStats
    ensures xs != [] ==> s.min <= s.mean <= s.max && s.min <= s.median <= s.max
    ensures xs != [] && IsSquareRoot(sqrt) ==> s.std >= 0.0
    ensures xs != [] ==> s.min in xs && s.max in xs
    ensures forall i :: 0 <= i < |xs| ==> s.min <= xs[i] <= s.max
  {
    if xs == [] then NoStats
    else
      MeanWithinRange(xs);
      var sd := Std(sqrt, xs);
      IntensityStats(Mean(xs), sd, MinOf(xs), MaxOf(xs), Median(xs))
  }

  /**
   * calculate_intensity_statistics: the statistics of the image intensities
   * at the set voxels of the mask; every masked intensity lies between the
   * reported min and max, which are themselves masked intensities.
   */
  function IntensityStatistics(sqrt: real -> real, image: Grid<real>, m: Grid<int>, sh: Shape): (s: IntensityStats)
    ensures Count(m, sh) == 0 ==> s == NoStats
    ensures Count(m, sh) > 0 ==> s.min <= s.mean <= s.max && s.min <= s.median <= s.max
    ensures Count(m, sh) > 0 && IsSquareRoot(sqrt) ==> s.std >= 0.0
    ensures forall v :: InBounds(sh, v) && Get(m, v) > 0 ==> s.min <= GetReal(image, v) <= s.max
    ensures Count(m, sh) > 0 ==>
      (exists v :: InBounds(sh, v) && Get(m, v) > 0 && GetReal(image, v) == s.min) &&
      (exists v :: InBounds(sh, v) && Get(m, v) > 0 && GetReal(image, v) == s.max)
  {
    var ps := Points(m, sh);
    MaskedExtremes(sqrt, image, ps);
    Statistics(sqrt, ValuesAt(image, ps))
  }

  lemma MaskedExtremes(sqrt: real -> real, image: Grid<real>, ps: seq<Voxel>)
    ensures var s := Statistics(sqrt, ValuesAt(image, ps));
      (forall v :: v in ps ==> s.min <= GetReal(image, v) <= s.max) &&
      (ps != [] ==>
        (exists v :: v in ps && GetReal(image, v) == s.min) &&
        (exists v :: v in ps && GetReal(image, v) == s.max))
  {
    var xs := ValuesAt(image, ps);
    var s := Statistics(sqrt, xs);
    forall v | v in ps
      ensures s.min <= GetReal(image, v) <= s.max
    {
      var i :| 0 <= i < |ps| && ps[i] == v;
      assert xs[i] == GetReal(image, v);
    }
    if xs != [] {
      var i :| 0 <= i < |xs| && xs[i] == s.min;
      var j :| 0 <= j < |xs| && xs[j] == s.max;
      assert ps[i] in ps && ps[j] in ps;
    }
  }

  // -----------------------------------------------------------------------
  // Dice coefficient
  // -----------------------------------------------------------------------

  /** np.where((m1 > 0) & (m2 > 0)) */
  function Overlap(m1: Grid<int>, m2: Grid<int>, sh: Shape): (r: seq<Voxel>)
    ensures forall v :: v in r <==> InBounds(sh, v) && Get(m1, v) > 0 && Get(m2, v) > 0
    ensures |r| <= Count(m1, sh) && |r| <= Count(m2, sh)
  {
    var both := v => Get(m1, v) > 0 && Get(m2, v) > 0;
    FilterMonotone(Coords(sh), both, v => Get(m1, v) > 0);
    FilterMonotone(Coords(sh), both, v => Get(m2, v) > 0);
    Filter(Coords(sh), both)
  }

  /** calculate_dice_coefficient: 2|A and B| / (|A| + |B|), and 1 when both masks are empty. */
  function Dice(m1: Grid<int>, m2: Grid<int>, sh: Shape): (r: real)
    ensures 0.0 <= r <= 1.0
    ensures Count(m1, sh) == 0 && Count(m2, sh) == 0 ==> r == 1.0
  {
    var inter := |Overlap(m1, m2, sh)|;
    var total := Count(m1, sh) + Count(m2, sh);
    if total == 0 then 1.0 else OverlapRatio(inter, total)
  }

  /**
   * 2 * inter / total for an intersection no larger than either mask: a
   * fraction, 1 exactly when the intersection is half the total and 0
   * exactly when it is empty.
   */
  function OverlapRatio(inter: nat, total: nat): (r: real)
    requires 0 < total && 2 * inter <= total
    ensures 0.0 <= r <= 1.0
    ensures r == 1.0 <==> 2 * inter == total
    ensures r == 0.0 <==> inter == 0
  {
    var x, t := 2.0 * (inter as real), total as real;
    QuotientBounds(x, t, 0.0, 1.0);
    QuotientIsOne(x, t);
    x / t
  }

  lemma OverlapSymmetric(m1: Grid<int>, m2: Grid<int>, sh: Shape)
    ensures Overlap(m1, m2, sh) == Overlap(m2, m1, sh)
  {
    FilterExtensional(Coords(sh), v => Get(m1, v) > 0 && Get(m2, v) > 0, v => Get(m2, v) > 0 && Get(m1, v) > 0);
  }

  /** Dice does not depend on the order of the masks. */
  lemma DiceSymmetric(m1: Grid<int>, m2: Grid<int>, sh: Shape)
    ensures Dice(m1, m2, sh) == Dice(m2, m1, sh)
  {
    OverlapSymmetric(m1, m2, sh);
  }

  lemma QuotientIsOne(x: real, t: real)
    requires t > 0.0
    ensures x / t == 1.0 <==> x == t
    ensures x / t == 0.0 <==> x == 0.0
  {
    assert x == (x / t) * t;
  }

  /** Dice is 1 exactly when the two masks set the same voxels. */
  lemma DiceOneIffSameVoxels(m1: Grid<int>, m2: Grid<int>, sh: Shape)
    ensures Dice(m1, m2, sh) == 1.0 <==>
      forall v :: InBounds(sh, v) ==> (Get(m1, v) > 0 <==> Get(m2, v) > 0)
  {
    if Dice(m1, m2, sh) == 1.0 {
      DiceOneSameVoxels(m1, m2, sh);
    }
    if forall v :: InBounds(sh, v) ==> (Get(m1, v) > 0 <==> Get(m2, v) > 0) {
      SameVoxelsDiceOne(m1, m2, sh);
    }
  }

  lemma DiceOneSameVoxels(m1: Grid<int>, m2: Grid<int>, sh: Shape)
    requires Dice(m1, m2, sh) == 1.0
    ensures forall v :: InBounds(sh, v) ==> (Get(m1, v) > 0 <==> Get(m2, v) > 0)
  {
    var i, a, b := |Overlap(m1, m2, sh)|, Count(m1, sh), Count(m2, sh);
    if a + b == 0 {
      CountZeroIffEmpty(m1, sh);
      CountZeroIffEmpty(m2, sh);
    } else {
      assert i == a && i == b;
      var both := v => Get(m1, v) > 0 && Get(m2, v) > 0;
      FilterSameLength(Coords(sh), both, v => Get(m1, v) > 0);
      FilterSameLength(Coords(sh), both, v => Get(m2, v) > 0);
    }
  }

  lemma SameVoxelsDiceOne(m1: Grid<int>, m2: Grid<int>, sh: Shape)
    requires forall v :: InBounds(sh, v) ==> (Get(m1, v) > 0 <==> Get(m2, v) > 0)
    ensures Dice(m1, m2, sh) == 1.0
  {
    OverlapOfSameVoxels(m1, m2, sh);
    PointsOfSameVoxels(m1, m2, sh);
    var i, a, b := |Overlap(m1, m2, sh)|, Count(m1, sh), Count(m2, sh);
    assert i == a && a == b;
  }

  lemma OverlapOfSameVoxels(m1: Grid<int>, m2: Grid<int>, sh: Shape)
    requires forall v :: InBounds(sh, v) ==> (Get(m1, v) > 0 <==> Get(m2, v) > 0)
    ensures Overlap(m1, m2, sh) == Points(m1, sh)
  {
    FilterExtensional(Coords(sh), v => Get(m1, v) > 0 && Get(m2, v) > 0, v => Get(m1, v) > 0);
  }

  /** Every mask overlaps itself perfectly, the empty one included. */
  lemma DiceSelf(m: Grid<int>, sh: Shape)
    ensures Dice(m, m, sh) == 1.0
  {
    DiceOneIffSameVoxels(m, m, sh);
  }

  /** Two masks with no common voxel, not both empty, have Dice 0. */
  lemma DiceDisjoint(m1: Grid<int>, m2: Grid<int>, sh: Shape)
    requires forall v :: InBounds(sh, v) ==> Get(m1, v) <= 0 || Get(m2, v) <= 0
    requires Count(m1, sh) + Count(m2, sh) > 0
    ensures Dice(m1, m2, sh) == 0.0
  {
    NoMemberEmpty(Overlap(m1, m2, sh));
  }

  // -----------------------------------------------------------------------
  // Hausdorff distance
  // -----------------------------------------------------------------------

  function Square(d: int): nat
  {
    var a := if d < 0 then -d else d;
    a * a
  }

  /** Squared Euclidean distance between two voxel indices. */
  function SqDist(a: Voxel, b: Voxel): nat
  {
    Square(a.z - b.z) + Square(a.y - b.y) + Square(a.x - b.x)
  }

  /** Squared distance from p to the nearest member of qs. */
  function NearestSq(p: Voxel, qs: seq<Voxel>): nat
    requires |qs| > 0
  {
    if |qs| == 1 then SqDist(p, qs[0])
    else
      var d := NearestSq(p, Init(qs));
      if SqDist(p, Last(qs)) < d then SqDist(p, Last(qs)) else d
  }

  /** NearestSq is attained by a member of qs and no member of qs is nearer. */
  lemma {:induction false} NearestSqIsLeast(p: Voxel, qs: seq<Voxel>) returns (q: Voxel)
    requires |qs| > 0
    ensures q in qs && SqDist(p, q) == NearestSq(p, qs)
    ensures forall q' :: q' in qs ==> NearestSq(p, qs) <= SqDist(p, q')
  {
    if |qs| == 1 {
      q := qs[0];
    } else {
      var q0 := NearestSqIsLeast(p, Init(qs));
      assert qs == Init(qs) + [Last(qs)];
      q := if SqDist(p, Last(qs)) < NearestSq(p, Init(qs)) then Last(qs) else q0;
    }
  }

  /**
   * The square of scipy's directed_hausdorff(ps, qs): the largest, over the
   * members of ps, of the squared distance to the nearest member of qs.
   */
  function DirectedSq(ps: seq<Voxel>, qs: seq<Voxel>): nat
    requires |ps| > 0 && |qs| > 0
  {
    if |ps| == 1 then NearestSq(ps[0], qs)
    else
      var d := DirectedSq(Init(ps), qs);
      var e := NearestSq(Last(ps), qs);
      if e > d then e else d
  }

  /** DirectedSq is attained by a member of ps and no member of ps is farther. */
  lemma {:induction false} DirectedSqIsGreatest(ps: seq<Voxel>, qs: seq<Voxel>) returns (p: Voxel)
    requires |ps| > 0 && |qs| > 0
    ensures p in ps && NearestSq(p, qs) == DirectedSq(ps, qs)
    ensures forall p' :: p' in ps ==> NearestSq(p', qs) <= DirectedSq(ps, qs)
  {
    if |ps| == 1 {
      p := ps[0];
    } else {
      var p0 := DirectedSqIsGreatest(Init(ps), qs);
      assert ps == Init(ps) + [Last(ps)];
      p := if NearestSq(Last(ps), qs) > DirectedSq(Init(ps), qs) then Last(ps) else p0;
    }
  }

  /**
   * A Hausdorff distance: infinite, or sqrt(indexSq) * voxelSize, where
   * indexSq is a squared distance between voxel indices. The square root is
   * monotone, so the largest of several distances is the root of the
   * largest square.
   */
  datatype Distance = Infinite | Finite(indexSq: nat, voxelSize: real)

  /**
   * calculate_hausdorff_distance: infinite when either mask is empty;
   * otherwise the larger directed distance, between voxel indices, scaled by
   * the smallest spacing component.
   */
  function Hausdorff(m1: Grid<int>, m2: Grid<int>, sh: Shape, sp: Spacing): (r: Distance)
    ensures r.Infinite? <==> Count(m1, sh) == 0 || Count(m2, sh) == 0
    ensures r.Finite? ==> r.voxelSize == MinSpacing(sp)
  {
    var p1, p2 := Points(m1, sh), Points(m2, sh);
    if |p1| == 0 || |p2| == 0 then Infinite
    else Finite(SymmetricSq(p1, p2), MinSpacing(sp))
  }

  /** The larger of the two directed squared distances. */
  function SymmetricSq(p1: seq<Voxel>, p2: seq<Voxel>): nat
    requires |p1| > 0 && |p2| > 0
  {
    var h12, h21 := DirectedSq(p1, p2), DirectedSq(p2, p1);
    if h12 >= h21 then h12 else h21
  }

  /** Every voxel of a is within squared distance d of some voxel of b. */
  ghost predicate Covers(a: seq<Voxel>, b: seq<Voxel>, d: nat)
  {
    forall p :: p in a ==> exists q :: q in b && SqDist(p, q) <= d
  }

  /**
   * The Hausdorff distance is the least distance at which each mask covers
   * the other: both covers hold at indexSq, and at any smaller squared
   * distance one of them fails.
   */
  lemma HausdorffIsLeastMutualCover(m1: Grid<int>, m2: Grid<int>, sh: Shape, sp: Spacing, d: nat)
    requires Hausdorff(m1, m2, sh, sp).Finite?
    ensures var h := Hausdorff(m1, m2, sh, sp).indexSq;
      Covers(Points(m1, sh), Points(m2, sh), h) && Covers(Points(m2, sh), Points(m1, sh), h)
    ensures d < Hausdorff(m1, m2, sh, sp).indexSq ==>
      !(Covers(Points(m1, sh), Points(m2, sh), d) && Covers(Points(m2, sh), Points(m1, sh), d))
  {
    var p1, p2 := Points(m1, sh), Points(m2, sh);
    var h12, h21 := DirectedSq(p1, p2), DirectedSq(p2, p1);
    var h := Hausdorff(m1, m2, sh, sp).indexSq;
    DirectedCovers(p1, p2, h);
    DirectedCovers(p2, p1, h);
    if d < Hausdorff(m1, m2, sh, sp).indexSq {
      if h12 >= h21 {
        DirectedTight(p1, p2, d);
      } else {
        DirectedTight(p2, p1, d);
      }
    }
  }

  lemma DirectedCovers(ps: seq<Voxel>, qs: seq<Voxel>, d: nat)
    requires |ps| > 0 && |qs| > 0
    requires d >= DirectedSq(ps, qs)
    ensures Covers(ps, qs, d)
  {
    var _ := DirectedSqIsGreatest(ps, qs);
    forall p | p in ps
      ensures exists q :: q in qs && SqDist(p, q) <= d
    {
      var q := NearestSqIsLeast(p, qs);
    }
  }

  lemma DirectedTight(ps: seq<Voxel>, qs: seq<Voxel>, d: nat)
    requires |ps| > 0 && |qs| > 0
    requires d < DirectedSq(ps, qs)
    ensures !Covers(ps, qs, d)
  {
    var p := DirectedSqIsGreatest(ps, qs);
    var _ := NearestSqIsLeast(p, qs);
    assert forall q :: q in qs ==> SqDist(p, q) > d;
  }

  /** The distance does not depend on the order of the masks (one spacing for both). */
  lemma HausdorffSymmetric(m1: Grid<int>, m2: Grid<int>, sh: Shape, sp: Spacing)
    ensures Hausdorff(m1, m2, sh, sp) == Hausdorff(m2, m1, sh, sp)
  {
  }

  /** A non-empty mask is at distance 0 from itself. */
  lemma HausdorffSelf(m: Grid<int>, sh: Shape, sp: Spacing)
    requires Count(m, sh) > 0
    ensures Hausdorff(m, m, sh, sp) == Finite(0, MinSpacing(sp))
  {
    var ps := Points(m, sh);
    var p := DirectedSqIsGreatest(ps, ps);
    var _ := NearestSqIsLeast(p, ps);
    assert NearestSq(p, ps) <= SqDist(p, p);
  }

  /** Two single-voxel masks are exactly as far apart as their voxels. */
  lemma HausdorffSingleVoxels(m1: Grid<int>, m2: Grid<int>, sh: Shape, sp: Spacing, a: Voxel, b: Voxel)
    requires Points(m1, sh) == [a] && Points(m2, sh) == [b]
    ensures Hausdorff(m1, m2, sh, sp) == Finite(SqDist(a, b), MinSpacing(sp))
  {
    assert SqDist(a, b) == SqDist(b, a);
  }

  // -----------------------------------------------------------------------
  // Comparison
  // -----------------------------------------------------------------------

  /** One scan of the pair: its image, its tumour mask and the mask's spacing. */
  datatype Scan = Scan(image: Grid<real>, mask: Grid<int>, spacing: Spacing)

  /** The 'comparison' and per-tumour entries of the analysis record. */
  datatype Comparison = Comparison(
    volume1: real, volume2: real,
    stats1: IntensityStats, stats2: IntensityStats,
    volumeChange: real, volumeChangePercent: real,
    dice: real, hausdorff: Distance,
    meanChange: real, stdChange: real)

  /** The percent change: defined as 0 when the first volume is not positive. */
  function PercentChange(v1: real, v2: real): (p: real)
    ensures v1 > 0.0 ==> p * v1 == (v2 - v1) * 100.0
    ensures v1 > 0.0 ==> (p > 0.0 <==> v2 > v1) && (p < 0.0 <==> v2 < v1)
    ensures v1 > 0.0 && v2 >= 0.0 ==> p >= -100.0
    ensures v1 <= 0.0 ==> p == 0.0
  {
    if v1 > 0.0 then
      var p := (v2 - v1) / v1 * 100.0;
      assert p * v1 == (v2 - v1) * 100.0;
      p
    else 0.0
  }

  /**
   * compare_tumors, without the file loading. sh is the common shape of the
   * four arrays; the volume uses each mask's own spacing and the Hausdorff
   * distance the first mask's; sqrt is the square root under np.std.
   */
  function Compare(sqrt: real -> real, s1: Scan, s2: Scan, sh: Shape): (r: Comparison)
    ensures 0.0 <= r.dice <= 1.0
    ensures r.volume1 == 0.0 ==> r.volumeChangePercent == 0.0
    ensures ValidSpacing(s1.spacing) ==> (r.volume1 == 0.0 <==> Count(s1.mask, sh) == 0)
    ensures r.hausdorff.Infinite? <==> Count(s1.mask, sh) == 0 || Count(s2.mask, sh) == 0
  {
    var v1 := Volume(s1.mask, sh, s1.spacing);
    var v2 := Volume(s2.mask, sh, s2.spacing);
    var st1 := IntensityStatistics(sqrt, s1.image, s1.mask, sh);
    var st2 := IntensityStatistics(sqrt, s2.image, s2.mask, sh);
    Comparison(v1, v2, st1, st2, v2 - v1, PercentChange(v1, v2),
      Dice(s1.mask, s2.mask, sh), Hausdorff(s1.mask, s2.mask, sh, s1.spacing),
      st2.mean - st1.mean, st2.std - st1.std)
  }

  /** A scan compared with itself: no change, perfect overlap. */
  lemma CompareSelf(sqrt: real -> real, s: Scan, sh: Shape)
    ensures var r := Compare(sqrt, s, s, sh);
      r.volumeChange == 0.0 && r.volumeChangePercent == 0.0 && r.dice == 1.0 &&
      r.meanChange == 0.0 && r.stdChange == 0.0 &&
      (Count(s.mask, sh) > 0 ==> r.hausdorff == Finite(0, MinSpacing(s.spacing)))
  {
    DiceSelf(s.mask, sh);
    if Count(s.mask, sh) > 0 {
      HausdorffSelf(s.mask, sh, s.spacing);
    }
  }

  /**
   * Swapping two scans of equal spacing negates the volume change and keeps
   * the overlap measures.
   */
  lemma CompareSwapped(sqrt: real -> real, s1: Scan, s2: Scan, sh: Shape)
    requires s1.spacing == s2.spacing
    ensures var r, q := Compare(sqrt, s1, s2, sh), Compare(sqrt, s2, s1, sh);
      q.volumeChange == -r.volumeChange && q.meanChange == -r.meanChange && q.stdChange == -r.stdChange &&
      q.dice == r.dice && q.hausdorff == r.hausdorff
  {
    DiceSymmetric(s1.mask, s2.mask, sh);
    HausdorffSymmetric(s1.mask, s2.mask, sh, s1.spacing);
  }

  // -----------------------------------------------------------------------
  // Report tiers
  // -----------------------------------------------------------------------

  datatype GrowthStatus =
    | Stable | SignificantGrowth | ModerateGrowth
    | SignificantReduction | ModerateReduction | MinimalChange
  {
    /**
     * The growth_status string of the execution report. The report prints
     * it title-cased (str.title()); the casing is not modelled.
     */
    function Label(): string
    {
      match this
      case Stable => "stable"
      case SignificantGrowth => "significant growth"
      case ModerateGrowth => "moderate growth"
      case SignificantReduction => "significant reduction"
      case ModerateReduction => "moderate reduction"
      case MinimalChange => "minimal change"
    }
  }

  /**
   * The growth status of the execution report, as one interval of the
   * percent change per label.
   */
  function Status(c: real): (s: GrowthStatus)
    ensures s == Stable <==> -5.0 < c < 5.0
    ensures s == SignificantGrowth <==> c > 50.0
    ensures s == ModerateGrowth <==> 10.0 < c <= 50.0
    ensures s == SignificantReduction <==> c < -50.0
    ensures s == ModerateReduction <==> -50.0 <= c < -10.0
    ensures s == MinimalChange <==> (5.0 <= c <= 10.0 || -10.0 <= c <= -5.0)
  {
    if Abs(c) < 5.0 then Stable
    else if c > 50.0 then SignificantGrowth
    else if c > 10.0 then ModerateGrowth
    else if c < -50.0 then SignificantReduction
    else if c < -10.0 then ModerateReduction
    else MinimalChange
  }

  /** The overlap commentary of the execution report. */
  datatype OverlapComment = LargelyDifferent | HighOverlap | ModerateOverlap

  function OverlapCommentary(dice: real): (k: OverlapComment)
    ensures k == LargelyDifferent <==> dice < 0.1
    ensures k == HighOverlap <==> dice > 0.7
    ensures k == ModerateOverlap <==> 0.1 <= dice <= 0.7
  {
    if dice < 0.1 then LargelyDifferent
    else if dice > 0.7 then HighOverlap
    else ModerateOverlap
  }

  /** A scan compared with itself is reported stable with high overlap. */
  lemma SelfReportIsStable(sqrt: real -> real, s: Scan, sh: Shape)
    ensures Status(Compare(sqrt, s, s, sh).volumeChangePercent) == Stable
    ensures OverlapCommentary(Compare(sqrt, s, s, sh).dice) == HighOverlap
  {
    CompareSelf(sqrt, s, sh);
  }
}
