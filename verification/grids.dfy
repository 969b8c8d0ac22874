/**
 * Three-dimensional voxel arrays as the numpy code sees them: an array
 * indexed [z][y][x], read through total accessors that give 0 outside the
 * array, and the list of voxel coordinates that np.where returns (C order:
 * z slowest, x fastest). Every count, mask selection and coordinate list of
 * the analysis and segmentation code is a filter over that enumeration.
 */
module Grids {
  import opened Reductions

  /** Voxel counts along z, y and x (the numpy array shape). */
  datatype Shape = Shape(nz: nat, ny: nat, nx: nat)

  /** A voxel index in array order. */
  datatype Voxel = Voxel(z: int, y: int, x: int)

  type Grid<T> = seq<seq<seq<T>>>

  predicate InBounds(sh: Shape, v: Voxel)
  {
    0 <= v.z < sh.nz && 0 <= v.y < sh.ny && 0 <= v.x < sh.nx
  }

  /** The array has exactly the given shape. */
  ghost predicate Conforms<T>(g: Grid<T>, sh: Shape)
  {
    |g| == sh.nz &&
    (forall z :: 0 <= z < |g| ==> |g[z]| == sh.ny) &&
    (forall z, y :: 0 <= z < |g| && 0 <= y < |g[z]| ==> |g[z][y]| == sh.nx)
  }

  /** The value of an integer (mask or label) array at v; 0 outside the array. */
  function Get(g: Grid<int>, v: Voxel): int
  {
    if 0 <= v.z < |g| && 0 <= v.y < |g[v.z]| && 0 <= v.x < |g[v.z][v.y]|
    then g[v.z][v.y][v.x] else 0
  }

  /** The value of an intensity array at v; 0 outside the array. */
  function GetReal(g: Grid<real>, v: Voxel): real
  {
    if 0 <= v.z < |g| && 0 <= v.y < |g[v.z]| && 0 <= v.x < |g[v.z][v.y]|
    then g[v.z][v.y][v.x] else 0.0
  }

  ghost predicate Distinct<T>(s: seq<T>)
  {
    forall i, j :: 0 <= i < j < |s| ==> s[i] != s[j]
  }

  lemma DistinctAppend<T>(a: seq<T>, b: seq<T>)
    requires Distinct(a) && Distinct(b)
    requires forall x :: x in a ==> x !in b
    ensures Distinct(a + b)
  {
    forall i, j | 0 <= i < j < |a + b|
      ensures (a + b)[i] != (a + b)[j]
    {
      if i < |a| && j >= |a| {
        assert (a + b)[i] in a && (a + b)[j] == b[j - |a|];
      }
    }
  }

  /** Voxels (z, y, 0) .. (z, y, n - 1). */
  function RowCoords(z: int, y: int, n: nat): (r: seq<Voxel>)
    ensures forall v :: v in r <==> v.z == z && v.y == y && 0 <= v.x < n
    ensures Distinct(r) && |r| == n
  {
    if n == 0 then []
    else
      var front := RowCoords(z, y, n - 1);
      DistinctAppend(front, [Voxel(z, y, n - 1)]);
      front + [Voxel(z, y, n - 1)]
  }

  /** Rows 0 .. n - 1 of slice z, in C order. */
  function SliceCoords(sh: Shape, z: int, n: nat): (r: seq<Voxel>)
    ensures forall v :: v in r <==> v.z == z && 0 <= v.y < n && 0 <= v.x < sh.nx
    ensures Distinct(r)
  {
    if n == 0 then []
    else
      var front := SliceCoords(sh, z, n - 1);
      var row := RowCoords(z, n - 1, sh.nx);
      DistinctAppend(front, row);
      front + row
  }

  /** Slices 0 .. n - 1, in C order. */
  function CoordsUpTo(sh: Shape, n: nat): (r: seq<Voxel>)
    ensures forall v :: v in r <==> 0 <= v.z < n && 0 <= v.y < sh.ny && 0 <= v.x < sh.nx
    ensures Distinct(r)
  {
    if n == 0 then []
    else
      var front := CoordsUpTo(sh, n - 1);
      var slice := SliceCoords(sh, n - 1, sh.ny);
      DistinctAppend(front, slice);
      front + slice
  }

  /** Every voxel of the shape once, in the order np.where reports them. */
  function Coords(sh: Shape): (r: seq<Voxel>)
    ensures forall v :: v in r <==> InBounds(sh, v)
    ensures Distinct(r)
  {
    CoordsUpTo(sh, sh.nz)
  }

  /** The members of s that satisfy p, in order. */
  function Filter(s: seq<Voxel>, p: Voxel -> bool): (r: seq<Voxel>)
    ensures forall x :: x in r <==> x in s && p(x)
    ensures |r| <= |s|
  {
    if s == [] then []
    else Filter(Init(s), p) + (if p(Last(s)) then [Last(s)] else [])
  }

  lemma {:induction false} FilterDistinct(s: seq<Voxel>, p: Voxel -> bool)
    requires Distinct(s)
    ensures Distinct(Filter(s, p))
  {
    if s != [] {
      assert s == Init(s) + [Last(s)];
      assert Distinct(Init(s));
      FilterDistinct(Init(s), p);
      DistinctAppend(Filter(Init(s), p), if p(Last(s)) then [Last(s)] else []);
    }
  }

  /** Filtering a concatenation filters each part. */
  lemma {:induction false} FilterAppend(a: seq<Voxel>, b: seq<Voxel>, p: Voxel -> bool)
    ensures Filter(a + b, p) == Filter(a, p) + Filter(b, p)
  {
    if b == [] {
      assert a + b == a;
    } else {
      assert Init(a + b) == a + Init(b);
      assert Last(a + b) == Last(b);
      FilterAppend(a, Init(b), p);
      var tail := if p(Last(b)) then [Last(b)] else [];
      assert Filter(a, p) + Filter(Init(b), p) + tail == Filter(a, p) + (Filter(Init(b), p) + tail);
    }
  }

  /** A weaker condition keeps at least as many members. */
  lemma {:induction false} FilterMonotone(s: seq<Voxel>, p: Voxel -> bool, q: Voxel -> bool)
    requires forall x :: x in s && p(x) ==> q(x)
    ensures |Filter(s, p)| <= |Filter(s, q)|
  {
    if s != [] {
      assert forall x :: x in Init(s) ==> x in s;
      FilterMonotone(Init(s), p, q);
    }
  }

  /** Conditions that agree on s keep the same members. */
  lemma {:induction false} FilterExtensional(s: seq<Voxel>, p: Voxel -> bool, q: Voxel -> bool)
    requires forall x :: x in s ==> p(x) == q(x)
    ensures Filter(s, p) == Filter(s, q)
  {
    if s != [] {
      assert forall x :: x in Init(s) ==> x in s;
      FilterExtensional(Init(s), p, q);
    }
  }

  /** A filter that keeps as many members as a weaker one keeps the same ones. */
  lemma {:induction false} FilterSameLength(s: seq<Voxel>, p: Voxel -> bool, q: Voxel -> bool)
    requires forall x :: x in s && p(x) ==> q(x)
    requires |Filter(s, p)| == |Filter(s, q)|
    ensures forall x :: x in s && q(x) ==> p(x)
  {
    if s != [] {
      assert forall x :: x in Init(s) ==> x in s;
      FilterMonotone(Init(s), p, q);
      FilterSameLength(Init(s), p, q);
      assert s == Init(s) + [Last(s)];
    }
  }

  lemma {:induction false} DistinctCardinality<T>(s: seq<T>)
    requires Distinct(s)
    ensures |set x | x in s| == |s|
  {
    if s != [] {
      assert s == Init(s) + [Last(s)];
      assert Distinct(Init(s));
      DistinctCardinality(Init(s));
      assert (set x | x in s) == (set x | x in Init(s)) + {Last(s)};
      assert Last(s) !in (set x | x in Init(s));
    }
  }

  /**
   * Filtering a list without repeats keeps one entry per member that
   * passes: as many entries as the set of those members has elements.
   */
  lemma FilterCardinality(s: seq<Voxel>, p: Voxel -> bool, passing: set<Voxel>)
    requires Distinct(s)
    requires forall v :: v in passing <==> v in s && p(v)
    ensures |Filter(s, p)| == |passing|
  {
    FilterDistinct(s, p);
    DistinctCardinality(Filter(s, p));
    assert (set x | x in Filter(s, p)) == passing;
  }

  /** np.where(m > 0): the coordinates of the set voxels, in C order. */
  function Points(m: Grid<int>, sh: Shape): (r: seq<Voxel>)
    ensures forall v :: v in r <==> InBounds(sh, v) && Get(m, v) > 0
  {
    Filter(Coords(sh), v => Get(m, v) > 0)
  }

  /** np.sum(m > 0) */
  function Count(m: Grid<int>, sh: Shape): nat
  {
    |Points(m, sh)|
  }

  /** A mask that sets at least the voxels of another counts at least as many. */
  lemma CountMonotone(m1: Grid<int>, m2: Grid<int>, sh: Shape)
    requires forall v :: InBounds(sh, v) && Get(m1, v) > 0 ==> Get(m2, v) > 0
    ensures Count(m1, sh) <= Count(m2, sh)
  {
    FilterMonotone(Coords(sh), v => Get(m1, v) > 0, v => Get(m2, v) > 0);
  }

  /** Masks that set the same voxels have the same coordinate list. */
  lemma PointsOfSameVoxels(m1: Grid<int>, m2: Grid<int>, sh: Shape)
    requires forall v :: InBounds(sh, v) ==> (Get(m1, v) > 0 <==> Get(m2, v) > 0)
    ensures Points(m1, sh) == Points(m2, sh)
  {
    FilterExtensional(Coords(sh), v => Get(m1, v) > 0, v => Get(m2, v) > 0);
  }

  lemma FirstIsMember(s: seq<Voxel>)
    requires |s| > 0
    ensures s[0] in s
  {
  }

  /** A list with no member is empty. */
  lemma NoMemberEmpty(s: seq<Voxel>)
    requires forall v :: v !in s
    ensures s == []
  {
    if s != [] {
      FirstIsMember(s);
    }
  }

  /** The set voxels of a mask, as a set. */
  ghost function MaskSet(m: Grid<int>, sh: Shape): set<Voxel>
  {
    set v | v in Coords(sh) && Get(m, v) > 0
  }

  /** The count of set voxels is the size of the set of set voxels: np.where lists each once. */
  lemma CountIsCardinality(m: Grid<int>, sh: Shape)
    ensures Count(m, sh) == |MaskSet(m, sh)|
  {
    var ps := Points(m, sh);
    FilterDistinct(Coords(sh), v => Get(m, v) > 0);
    DistinctCardinality(ps);
    assert (set x | x in ps) == MaskSet(m, sh);
  }

  /** A mask with no set voxel has nothing to count, and conversely. */
  lemma CountZeroIffEmpty(m: Grid<int>, sh: Shape)
    ensures Count(m, sh) == 0 <==> forall v :: InBounds(sh, v) ==> Get(m, v) <= 0
  {
    if Count(m, sh) != 0 {
      assert Points(m, sh)[0] in Points(m, sh);
    }
  }

  /** image[mask > 0]: the intensities at the listed voxels, in list order. */
  function ValuesAt(g: Grid<real>, vs: seq<Voxel>): (r: seq<real>)
    ensures |r| == |vs|
    ensures forall i :: 0 <= i < |vs| ==> r[i] == GetReal(g, vs[i])
  {
    seq(|vs|, i requires 0 <= i < |vs| => GetReal(g, vs[i]))
  }

  /** A filter keeps nothing exactly when no member passes. */
  lemma FilterEmpty(s: seq<Voxel>, p: Voxel -> bool)
    ensures Filter(s, p) == [] <==> forall x :: x in s ==> !p(x)
  {
    if forall x :: x in s ==> !p(x) {
      NoMemberEmpty(Filter(s, p));
    }
  }

  /** A value is read exactly when some listed voxel holds it. */
  lemma ValuesAtMembers(g: Grid<real>, vs: seq<Voxel>)
    ensures forall x :: x in ValuesAt(g, vs) <==> exists v :: v in vs && GetReal(g, v) == x
  {
    var r := ValuesAt(g, vs);
    forall x | x in r
      ensures exists v :: v in vs && GetReal(g, v) == x
    {
      var i :| 0 <= i < |r| && r[i] == x;
      assert vs[i] in vs;
    }
    forall x | exists v :: v in vs && GetReal(g, v) == x
      ensures x in r
    {
      var v :| v in vs && GetReal(g, v) == x;
      var i :| 0 <= i < |vs| && vs[i] == v;
      assert r[i] == x;
    }
  }

  /** The listed voxels that hold the value x. */
  function Holding(g: Grid<real>, vs: seq<Voxel>, x: real): set<Voxel>
  {
    set v | v in vs && GetReal(g, v) == x
  }

  /** The last voxel of a list without repeats adds itself when it holds x. */
  lemma HoldingStep(g: Grid<real>, vs: seq<Voxel>, x: real)
    requires vs != [] && Distinct(vs)
    ensures |Holding(g, vs, x)| == |Holding(g, Init(vs), x)| + (if GetReal(g, Last(vs)) == x then 1 else 0)
  {
    var front, w := Init(vs), Last(vs);
    assert vs == front + [w];
    assert w !in front;
    if GetReal(g, w) == x {
      assert Holding(g, vs, x) == Holding(g, front, x) + {w};
    } else {
      assert Holding(g, vs, x) == Holding(g, front, x);
    }
  }

  /**
   * Reading a list without repeats lists each value once per listed voxel
   * that holds it.
   */
  lemma {:induction false} ValuesAtCount(g: Grid<real>, vs: seq<Voxel>, x: real)
    requires Distinct(vs)
    ensures multiset(ValuesAt(g, vs))[x] == |Holding(g, vs, x)|
  {
    if vs != [] {
      var front, w := Init(vs), Last(vs);
      assert vs == front + [w];
      assert Distinct(front);
      ValuesAtCount(g, front, x);
      ValuesAtSnoc(g, front, w);
      HoldingStep(g, vs, x);
    }
  }

  /**
   * Reading the members of a list without repeats that pass p lists each
   * value once per passing member that holds it.
   */
  lemma ValuesAtFilterCount(g: Grid<real>, s: seq<Voxel>, p: Voxel -> bool, x: real)
    requires Distinct(s)
    ensures multiset(ValuesAt(g, Filter(s, p)))[x] == |set v | v in s && p(v) && GetReal(g, v) == x|
  {
    FilterDistinct(s, p);
    ValuesAtCount(g, Filter(s, p), x);
    assert Holding(g, Filter(s, p), x) == set v | v in s && p(v) && GetReal(g, v) == x;
  }

  /** Reading one more voxel appends its value. */
  lemma ValuesAtSnoc(g: Grid<real>, vs: seq<Voxel>, v: Voxel)
    ensures ValuesAt(g, vs + [v]) == ValuesAt(g, vs) + [GetReal(g, v)]
  {
    assert (vs + [v])[|vs|] == v;
  }

  /** A 0/1 array of the given shape, set where p holds (an elementwise numpy comparison). */
  function Select(sh: Shape, p: Voxel -> bool): (r: Grid<int>)
    ensures Conforms(r, sh)
    ensures forall v :: Get(r, v) == if InBounds(sh, v) && p(v) then 1 else 0
  {
    seq(sh.nz, z requires 0 <= z < sh.nz =>
      seq(sh.ny, y requires 0 <= y < sh.ny =>
        seq(sh.nx, x requires 0 <= x < sh.nx =>
          if p(Voxel(z, y, x)) then 1 else 0)))
  }

  /** A 0/1 array of the given shape whose set voxels are the members of s in bounds. */
  function MaskGrid(sh: Shape, s: set<Voxel>): (r: Grid<int>)
    ensures Conforms(r, sh)
    ensures forall v :: Get(r, v) == if InBounds(sh, v) && v in s then 1 else 0
  {
    seq(sh.nz, z requires 0 <= z < sh.nz =>
      seq(sh.ny, y requires 0 <= y < sh.ny =>
        seq(sh.nx, x requires 0 <= x < sh.nx =>
          if Voxel(z, y, x) in s then 1 else 0)))
  }
}
