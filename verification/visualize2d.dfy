/**
 * The rules of the 2-D comparison view (visualize_2d.py) that decide what is
 * shown: the default slice of load_nrrd_slice, the slice with the largest
 * tumour area, and the French interpretation of the volume change.
 */
module Visualize2D {
  import opened Wrappers
  import opened Reductions
  import opened Grids

  /** array.shape[0] // 2: the middle slice. */
  function DefaultSlice(nz: nat): (k: nat)
    ensures nz > 0 ==> k < nz
    ensures 2 * k <= nz < 2 * k + 2
  {
    nz / 2
  }

  /**
   * load_nrrd_slice on a loaded array: array[slice_index] and the index as
   * given (the middle slice when none is given). Python accepts an index in
   * -len..len-1, counting negative ones from the end; any other index raises
   * IndexError, which is None here.
   */
  function LoadSlice<T>(a: Grid<T>, sliceIndex: Option<int>): (r: Option<(seq<seq<T>>, int)>)
    ensures var i := if sliceIndex.None? then DefaultSlice(|a|) else sliceIndex.value;
      (r.Some? <==> -|a| <= i < |a|) &&
      (r.Some? ==> r.value.1 == i && r.value.0 == a[if i < 0 then i + |a| else i])
    ensures sliceIndex.None? ==> (r.Some? <==> |a| > 0)
  {
    var i := if sliceIndex.None? then DefaultSlice(|a|) else sliceIndex.value;
    if 0 <= i < |a| then Some((a[i], i))
    else if -|a| <= i < 0 then Some((a[i + |a|], i))
    else None
  }

  /**
   * np.sum(mask[z] > 0): for a slice of the volume, the number of distinct
   * set voxels of the whole mask that lie in that slice.
   */
  function SliceArea(m: Grid<int>, sh: Shape, z: nat): (r: nat)
    ensures z < sh.nz ==> r == |set v | v in Coords(sh) && v.z == z && Get(m, v) > 0|
  {
    var p := v => Get(m, v) > 0;
    if z < sh.nz then
      FilterCardinality(SliceCoords(sh, z, sh.ny), p, set v | v in Coords(sh) && v.z == z && Get(m, v) > 0);
      |Filter(SliceCoords(sh, z, sh.ny), p)|
    else
      |Filter(SliceCoords(sh, z, sh.ny), p)|
  }

  /** The areas of slices 0 .. n - 1. */
  function AreasUpTo(m: Grid<int>, sh: Shape, n: nat): (r: seq<int>)
    ensures |r| == n
    ensures forall z :: 0 <= z < n ==> r[z] == SliceArea(m, sh, z)
  {
    seq(n, z requires 0 <= z < n => SliceArea(m, sh, z))
  }

  /** [np.sum(mask[i] > 0) for i in range(mask.shape[0])] */
  function SliceAreas(m: Grid<int>, sh: Shape): (r: seq<int>)
    ensures |r| == sh.nz
  {
    AreasUpTo(m, sh, sh.nz)
  }

  /**
   * np.argmax of the slice areas: a slice whose area no slice exceeds, and
   * the lowest such slice. np.argmax raises on an empty list: None when the
   * volume has no slice.
   */
  function BestSlice(m: Grid<int>, sh: Shape): (r: Option<nat>)
    ensures r.None? <==> sh.nz == 0
    ensures r.Some? ==> r.value < sh.nz
    ensures r.Some? ==> forall z :: 0 <= z < sh.nz ==> SliceArea(m, sh, z) <= SliceArea(m, sh, r.value)
    ensures r.Some? ==> forall z :: 0 <= z < r.value ==> SliceArea(m, sh, z) < SliceArea(m, sh, r.value)
  {
    if sh.nz == 0 then None
    else
      var areas := SliceAreas(m, sh);
      Some(ArgMax(areas))
  }

  function Total(s: seq<int>): int
  {
    if s == [] then 0 else Total(Init(s)) + Last(s)
  }

  /** The slice areas add up to the number of set voxels of the volume. */
  lemma {:induction false} AreasUpToTotal(m: Grid<int>, sh: Shape, n: nat)
    ensures Total(AreasUpTo(m, sh, n)) == |Filter(CoordsUpTo(sh, n), v => Get(m, v) > 0)|
  {
    if n > 0 {
      assert Init(AreasUpTo(m, sh, n)) == AreasUpTo(m, sh, n - 1);
      AreasUpToTotal(m, sh, n - 1);
      assert CoordsUpTo(sh, n) == CoordsUpTo(sh, n - 1) + SliceCoords(sh, n - 1, sh.ny);
      FilterAppend(CoordsUpTo(sh, n - 1), SliceCoords(sh, n - 1, sh.ny), v => Get(m, v) > 0);
    }
  }

  lemma SliceAreasTotal(m: Grid<int>, sh: Shape)
    ensures Total(SliceAreas(m, sh)) == Count(m, sh)
  {
    AreasUpToTotal(m, sh, sh.nz);
  }

  lemma {:induction false} TotalOfNonPositive(s: seq<int>)
    requires forall i :: 0 <= i < |s| ==> s[i] <= 0
    ensures Total(s) <= 0
  {
    if s != [] {
      TotalOfNonPositive(Init(s));
    }
  }

  /** A mask with a set voxel has a best slice, and that slice shows some of the tumour. */
  lemma BestSliceShowsTumour(m: Grid<int>, sh: Shape)
    requires Count(m, sh) > 0
    ensures BestSlice(m, sh).Some? && SliceArea(m, sh, BestSlice(m, sh).value) > 0
  {
    SliceAreasTotal(m, sh);
    if sh.nz == 0 {
      CountZeroIffEmpty(m, sh);
    } else if SliceArea(m, sh, BestSlice(m, sh).value) == 0 {
      TotalOfNonPositive(SliceAreas(m, sh));
    }
  }

  // -----------------------------------------------------------------------
  // Interpretation of the volume change
  // -----------------------------------------------------------------------

  /** The five interpretations of the summary panel. */
  datatype Interpretation =
    | VolumeStable
    | SignificantGrowth
    | ModerateGrowth
    | SignificantReduction
    | ModerateReduction
  {
    function Text(): string
    {
      match this
      case VolumeStable => "Volume stable"
      case SignificantGrowth => "Croissance significative"
      case ModerateGrowth => "Croissance modérée"
      case SignificantReduction => "Réduction significative"
      case ModerateReduction => "Réduction modérée"
    }

    predicate IsGrowth()
    {
      this == SignificantGrowth || this == ModerateGrowth
    }

    predicate IsReduction()
    {
      this == SignificantReduction || this == ModerateReduction
    }
  }

  /**
   * The interpretation chain as written. Its moderate-growth test is strict
   * (c > 2), so a change of exactly +2 % falls through to the last branch.
   */
  function InterpretAsWritten(c: real): (k: Interpretation)
    ensures k == VolumeStable <==> -2.0 < c < 2.0
    ensures k == SignificantGrowth <==> c > 10.0
    ensures k == ModerateGrowth <==> 2.0 < c <= 10.0
    ensures k == SignificantReduction <==> c < -10.0
    ensures k == ModerateReduction <==> c == 2.0 || -10.0 <= c <= -2.0
  {
    if Abs(c) < 2.0 then VolumeStable
    else if c > 10.0 then SignificantGrowth
    else if c > 2.0 then ModerateGrowth
    else if c < -10.0 then SignificantReduction
    else ModerateReduction
  }

  /** A volume that grew by 2 % is reported as a moderate reduction. */
  lemma GrowthOfTwoReadsAsReduction()
    ensures InterpretAsWritten(2.0).IsReduction()
    ensures InterpretAsWritten(2.0).Text() == "Réduction modérée"
  {
  }

  /**
   * The interpretation with the moderate-growth test made inclusive
   * (c >= 2), so that every change of at least +2 % reads as growth.
   */
  function Interpret(c: real): (k: Interpretation)
    ensures k == VolumeStable <==> -2.0 < c < 2.0
    ensures k == SignificantGrowth <==> c > 10.0
    ensures k == ModerateGrowth <==> 2.0 <= c <= 10.0
    ensures k == SignificantReduction <==> c < -10.0
    ensures k == ModerateReduction <==> -10.0 <= c <= -2.0
  {
    if Abs(c) < 2.0 then VolumeStable
    else if c > 10.0 then SignificantGrowth
    else if c >= 2.0 then ModerateGrowth
    else if c < -10.0 then SignificantReduction
    else ModerateReduction
  }

  /**
   * The corrected interpretation follows the sign of the change: growth
   * only for a positive change, reduction only for a negative one, and
   * labels never move backwards as the change grows.
   */
  lemma InterpretFollowsSign(c: real, d: real)
    ensures Interpret(c).IsGrowth() ==> c > 0.0
    ensures Interpret(c).IsReduction() ==> c < 0.0
    ensures c <= d ==> Rank(Interpret(c)) <= Rank(Interpret(d))
  {
  }

  /** The interpretations ordered from the largest reduction to the largest growth. */
  function Rank(k: Interpretation): nat
  {
    match k
    case SignificantReduction => 0
    case ModerateReduction => 1
    case VolumeStable => 2
    case ModerateGrowth => 3
    case SignificantGrowth => 4
  }

  /** The chain as written is not monotone: +1 % reads as stable but +2 % as a reduction. */
  lemma AsWrittenNotMonotone()
    ensures Rank(InterpretAsWritten(2.0)) < Rank(InterpretAsWritten(1.0))
  {
  }
}
