/**
 * The spherical neighbourhood sampler of `alleninf/data.py` (`get_sphere`):
 * the voxels within `r` millimetres of a centre voxel that fall inside the
 * image. `GetSphere` is the sampler as written, which the extractor calls;
 * `CorrectedSphere` is the sampler its documentation describes (see
 * `HalfVoxelRadiusIsEmpty` and `OddCentreMissed` for where the two differ,
 * and `SphereAgreement` for where they agree).
 */
module Sphere {
  import opened Wrappers
  import opened Geometry

  /** numpy's `round`: to the nearest integer, ties to the even one. */
  function RoundHalfEven(x: real): (n: int)
    ensures n as real - 0.5 <= x <= n as real + 0.5
    ensures x == n as real - 0.5 || x == n as real + 0.5 ==> n % 2 == 0
  {
    var f := x.Floor;
    var frac := x - f as real;
    if frac < 0.5 then f
    else if frac > 0.5 then f + 1
    else if f % 2 == 0 then f
    else f + 1
  }

  /** The least integer not below `x`. */
  function Ceil(x: real): (n: int)
    ensures x <= n as real < x + 1.0
  {
    -((-x).Floor)
  }

  /**
   * The number of points `np.mgrid` generates for `slice(start, stop, 1)`:
   * `ceil(stop - start)`. A negative count makes `np.indices` raise
   * (`AxisRaises`), so the clamp at 0 only serves the type.
   */
  function SliceCount(start: real, stop: real): nat
  {
    var n := Ceil(stop - start);
    if n < 0 then 0 else n
  }

  /** One axis of the bounding cube: `np.mgrid[-r/d : r/d + 0.01 : 1]`. */
  function AxisOffsets(r: real, d: real): seq<real>
    requires d > 0.0
  {
    var start := -r / d;
    seq(SliceCount(start, r / d + 0.01), k => start + k as real)
  }

  /**
   * The candidate offsets on an axis are `-r/d + k` for k = 0, 1, ... as
   * long as they stay below `r/d + 0.01`, and the next one would not be:
   * they are neither integers nor symmetric about 0 in general.
   */
  lemma AxisOffsetsAreSliceSteps(r: real, d: real)
    requires d > 0.0
    ensures forall k :: 0 <= k < |AxisOffsets(r, d)| ==>
              AxisOffsets(r, d)[k] == -r / d + k as real && AxisOffsets(r, d)[k] < r / d + 0.01
    ensures -r / d + |AxisOffsets(r, d)| as real >= r / d + 0.01
  {
    var start, stop := -r / d, r / d + 0.01;
    var n := Ceil(stop - start);
    assert stop - start <= n as real;
    forall k | 0 <= k < |AxisOffsets(r, d)|
      ensures AxisOffsets(r, d)[k] < stop
    {
      assert k + 1 <= n;
      assert (k + 1) as real - 1.0 < stop - start;
    }
  }

  /** The exception `np.indices` raises for a negative dimension (a ValueError). */
  datatype SphereError = NegativeDimensions

  /** `np.mgrid`'s point count on an axis would be negative. */
  predicate AxisRaises(r: real, d: real)
    requires d > 0.0
  {
    Ceil(r / d + 0.01 - -r / d) < 0
  }

  predicate Raises(r: real, d: Vec)
    requires Positive(d)
  {
    AxisRaises(r, d.x) || AxisRaises(r, d.y) || AxisRaises(r, d.z)
  }

  /** The count goes negative exactly when the radius is at most -0.505 voxels on that axis. */
  lemma AxisRaisesBelowHalfVoxel(r: real, d: real)
    requires d > 0.0
    ensures AxisRaises(r, d) <==> r / d <= -0.505
  {
    assert -r / d == -(r / d);
  }

  /** The cube offsets kept by the distance filter, before any rounding. */
  function Offsets(r: real, d: Vec): seq<Vec>
    requires Positive(d)
  {
    Filter(Grid(AxisOffsets(r, d.x), AxisOffsets(r, d.y), AxisOffsets(r, d.z)),
           o => WithinRadius(o, r, d))
  }

  /** `np.round(offset + coords)` for one offset. */
  function Place(o: Vec, c: Voxel): Voxel
  {
    Triple(RoundHalfEven(o.x + c.x as real),
           RoundHalfEven(o.y + c.y as real),
           RoundHalfEven(o.z + c.z as real))
  }

  /**
   * `get_sphere(coords, r, vox_dims, dims)` as written: the rounded
   * positions of the kept offsets around `c`, restricted to the image,
   * one entry per kept offset in grid order (so possibly repeated). It
   * raises when the radius is at most -0.505 voxels on some axis; any
   * other radius, negative ones included, yields a value.
   */
  function GetSphere(c: Voxel, r: real, d: Vec, dims: Shape): (s: Result<seq<Voxel>, SphereError>)
    requires Positive(d)
    ensures s.Failure? <==> r / d.x <= -0.505 || r / d.y <= -0.505 || r / d.z <= -0.505
    ensures s.Success? ==> forall v :: v in s.value ==> InBounds(v, dims)
  {
    AxisRaisesBelowHalfVoxel(r, d.x);
    AxisRaisesBelowHalfVoxel(r, d.y);
    AxisRaisesBelowHalfVoxel(r, d.z);
    if Raises(r, d) then Failure(NegativeDimensions)
    else Success(Filter(Map(Offsets(r, d), o => Place(o, c)), v => InBounds(v, dims)))
  }

  /**
   * A voxel is returned exactly when it lies in the image and is the
   * rounding of `c + o` for some cube offset `o` whose unrounded physical
   * length is at most `r`: the distance filter comes before rounding.
   */
  lemma GetSphereMembers(c: Voxel, r: real, d: Vec, dims: Shape, v: Voxel)
    requires Positive(d)
    ensures GetSphere(c, r, d, dims).Success? ==>
            (v in GetSphere(c, r, d, dims).value <==>
             InBounds(v, dims) &&
             exists o: Vec :: o.x in AxisOffsets(r, d.x) && o.y in AxisOffsets(r, d.y) &&
                              o.z in AxisOffsets(r, d.z) && WithinRadius(o, r, d) && Place(o, c) == v)
  {
    MapMember(Offsets(r, d), o => Place(o, c), v);
  }

  lemma HalfVoxelAxis()
    ensures AxisOffsets(0.5, 1.0) == [-0.5, 0.5]
  {
    assert (-1.01).Floor == -2;
    assert SliceCount(-0.5, 0.51) == 2;
  }

  lemma HalfVoxelOffsetOutside(o: Vec)
    requires o.x in [-0.5, 0.5] && o.y in [-0.5, 0.5] && o.z in [-0.5, 0.5]
    ensures !WithinRadius(o, 0.5, Triple(1.0, 1.0, 1.0))
  {
    assert o.x * o.x == 0.25 && o.y * o.y == 0.25 && o.z * o.z == 0.25;
  }

  /**
   * The discrepancy: with a radius of half a voxel every candidate offset
   * is +-0.5 on each axis, 0.866 voxels from the centre, so nothing is kept
   * and the sphere is empty, although the centre itself is within `r`.
   */
  lemma HalfVoxelRadiusIsEmpty(c: Voxel, dims: Shape)
    ensures GetSphere(c, 0.5, Triple(1.0, 1.0, 1.0), dims) == Success([])
  {
    var d := Triple(1.0, 1.0, 1.0);
    HalfVoxelAxis();
    assert !Raises(0.5, d);
    var offsets := Offsets(0.5, d);
    if offsets != [] {
      HalfVoxelOffsetOutside(offsets[0]);
    }
  }

  lemma VoxelAndAHalfAxis()
    ensures AxisOffsets(3.0, 2.0) == [-1.5, -0.5, 0.5, 1.5]
  {
    assert (-3.01).Floor == -4;
    assert SliceCount(-1.5, 1.51) == 4;
  }

  /**
   * The same discrepancy with a radius of 1.5 voxels along x: every
   * candidate x offset is a half, so every rounded x coordinate of the
   * sphere is even, and a centre with an odd x coordinate is never sampled.
   */
  lemma OddCentreMissed(c: Voxel, d: Vec, dims: Shape)
    requires Positive(d) && d.x == 2.0 && c.x % 2 == 1
    ensures GetSphere(c, 3.0, d, dims).Success? && c !in GetSphere(c, 3.0, d, dims).value
  {
    VoxelAndAHalfAxis();
    GetSphereMembers(c, 3.0, d, dims, c);
  }

  /** `lo, lo + 1, ..., hi - 1`. */
  function Range(lo: int, hi: int): (a: seq<int>)
    decreases hi - lo
    ensures forall k :: k in a <==> lo <= k < hi
  {
    if lo >= hi then [] else [lo] + Range(lo + 1, hi)
  }

  /** `-m, ..., m`. */
  function Span(m: nat): seq<int>
  {
    Range(-(m as int), m + 1)
  }

  /** The largest whole number of voxels of size `d` within `r`. */
  function Reach(r: real, d: real): nat
    requires d > 0.0
  {
    if r >= 0.0 then (r / d).Floor as nat else 0
  }

  /** Integer cube offsets kept by the distance filter. */
  function IntegerOffsets(r: real, d: Vec): seq<Voxel>
    requires Positive(d)
  {
    Filter(Grid(Span(Reach(r, d.x)), Span(Reach(r, d.y)), Span(Reach(r, d.z))),
           (k: Voxel) => WithinRadius(ToVec(k), r, d))
  }

  lemma ProductPositive(x: real, y: real)
    requires x > 0.0 && y > 0.0
    ensures x * y > 0.0
  {
  }

  lemma SquareBound(a: real, b: real)
    requires a >= 0.0 && b >= 0.0 && a * a <= b * b
    ensures a <= b
  {
    if a > b {
      assert a * a - b * b == (a - b) * (a + b);
      ProductPositive(a - b, a + b);
    }
  }

  lemma SquareNonNegative(x: real)
    ensures x * x >= 0.0
  {
  }

  /** Each axis term of a squared length is bounded by the whole. */
  lemma AxisTermBounded(o: Vec, d: Vec)
    ensures (d.x * o.x) * (d.x * o.x) <= Norm2(o, d)
    ensures (d.y * o.y) * (d.y * o.y) <= Norm2(o, d)
    ensures (d.z * o.z) * (d.z * o.z) <= Norm2(o, d)
  {
    SquareNonNegative(d.x * o.x);
    SquareNonNegative(d.y * o.y);
    SquareNonNegative(d.z * o.z);
  }

  /** An axis offset within `r` physically is within `Reach` voxels. */
  lemma WithinReach(k: int, r: real, d: real)
    requires d > 0.0 && r >= 0.0
    requires (d * k as real) * (d * k as real) <= r * r
    ensures -(Reach(r, d) as int) <= k <= Reach(r, d)
  {
    var a := if k >= 0 then k else -k;
    assert (d * a as real) * (d * a as real) == (d * k as real) * (d * k as real);
    assert d * a as real >= 0.0 by {
      if a > 0 { ProductPositive(d, a as real); }
    }
    SquareBound(d * a as real, r);
    assert a as real <= r / d;
  }

  /** The integer offsets are exactly those within `r`. */
  lemma IntegerOffsetsMembers(k: Voxel, r: real, d: Vec)
    requires Positive(d)
    ensures k in IntegerOffsets(r, d) <==> WithinRadius(ToVec(k), r, d)
  {
    if WithinRadius(ToVec(k), r, d) {
      AxisTermBounded(ToVec(k), d);
      WithinReach(k.x, r, d.x);
      WithinReach(k.y, r, d.y);
      WithinReach(k.z, r, d.z);
    }
  }

  /** The offsets translated to `c`, restricted to the image. */
  function Around(offsets: seq<Voxel>, c: Voxel, dims: Shape): (s: seq<Voxel>)
    ensures forall v :: v in s <==> InBounds(v, dims) && Sub(v, c) in offsets
  {
    var s := Filter(Map(offsets, (k: Voxel) => Add(c, k)), v => InBounds(v, dims));
    assert forall v :: v in s <==> InBounds(v, dims) && Sub(v, c) in offsets by {
      forall v
        ensures v in s <==> InBounds(v, dims) && Sub(v, c) in offsets
      {
        MapMember(offsets, (k: Voxel) => Add(c, k), v);
        if Sub(v, c) in offsets {
          assert Add(c, Sub(v, c)) == v;
        }
      }
    }
    s
  }

  /**
   * `get_sphere` as documented: the offsets are whole voxels, so every
   * image voxel within `r` of `c` is returned and nothing else.
   */
  function CorrectedSphere(c: Voxel, r: real, d: Vec, dims: Shape): (s: seq<Voxel>)
    requires Positive(d)
    ensures forall v :: v in s <==> InBounds(v, dims) && WithinRadius(ToVec(Sub(v, c)), r, d)
  {
    var s := Around(IntegerOffsets(r, d), c, dims);
    assert forall v :: v in s <==> InBounds(v, dims) && WithinRadius(ToVec(Sub(v, c)), r, d) by {
      forall v
        ensures v in s <==> InBounds(v, dims) && WithinRadius(ToVec(Sub(v, c)), r, d)
      {
        IntegerOffsetsMembers(Sub(v, c), r, d);
      }
    }
    s
  }

  /** The evidently intended property: an in-image centre is always sampled. */
  lemma CentreInCorrectedSphere(c: Voxel, r: real, d: Vec, dims: Shape)
    requires Positive(d) && r >= 0.0 && InBounds(c, dims)
    ensures c in CorrectedSphere(c, r, d, dims)
  {
    assert ToVec(Sub(c, c)) == Triple(0.0, 0.0, 0.0);
    assert Norm2(Triple(0.0, 0.0, 0.0), d) == 0.0;
    SquareNonNegative(r);
  }

  /** A larger radius admits every offset a smaller one does. */
  lemma WithinRadiusMonotone(o: Vec, r1: real, r2: real, d: Vec)
    requires r1 <= r2 && WithinRadius(o, r1, d)
    ensures WithinRadius(o, r2, d)
  {
    if r1 < r2 {
      assert r2 * r2 - r1 * r1 == (r2 - r1) * (r2 + r1);
      ProductPositive(r2 - r1, r2 + r1);
    }
  }

  /** A larger radius never loses a voxel. */
  lemma CorrectedSphereMonotone(c: Voxel, r1: real, r2: real, d: Vec, dims: Shape, v: Voxel)
    requires Positive(d) && r1 <= r2
    requires v in CorrectedSphere(c, r1, d, dims)
    ensures v in CorrectedSphere(c, r2, d, dims)
  {
    WithinRadiusMonotone(ToVec(Sub(v, c)), r1, r2, d);
  }
}

module SphereAgreement {
  import opened Geometry
  import opened Sphere

  lemma NegatedQuotient(r: real, d: real)
    requires d > 0.0
    ensures -r / d == -(r / d)
  {
  }

  /** With a radius of exactly `m` voxels the candidate offsets are the integers `-m .. m`. */
  lemma WholeVoxelAxis(r: real, d: real, m: nat)
    requires d > 0.0 && r / d == m as real
    ensures |AxisOffsets(r, d)| == 2 * m + 1
    ensures forall i :: 0 <= i < |AxisOffsets(r, d)| ==> AxisOffsets(r, d)[i] == (i - m) as real
  {
    NegatedQuotient(r, d);
    var x := m as real + 0.01 - -(m as real);
    assert (-x).Floor == -(2 * m) - 1;
    assert Ceil(x) == 2 * m + 1;
  }

  lemma RoundWhole(n: int)
    ensures RoundHalfEven(n as real) == n
  {
  }

  lemma PlaceWhole(k: Voxel, c: Voxel)
    ensures Place(ToVec(k), c) == Add(c, k)
  {
    RoundWhole(k.x + c.x);
    RoundWhole(k.y + c.y);
    RoundWhole(k.z + c.z);
  }

  lemma SubAdd(c: Voxel, k: Voxel)
    ensures Sub(Add(c, k), c) == k
  {
  }

  /** A candidate offset of a whole-voxel radius is an integer offset. */
  lemma WholeOffset(o: Vec, ax: seq<real>, ay: seq<real>, az: seq<real>, mx: nat, my: nat, mz: nat)
    returns (k: Voxel)
    requires forall i :: 0 <= i < |ax| ==> ax[i] == (i - mx) as real
    requires forall i :: 0 <= i < |ay| ==> ay[i] == (i - my) as real
    requires forall i :: 0 <= i < |az| ==> az[i] == (i - mz) as real
    requires o.x in ax && o.y in ay && o.z in az
    ensures ToVec(k) == o
  {
    var i :| 0 <= i < |ax| && ax[i] == o.x;
    var j :| 0 <= j < |ay| && ay[j] == o.y;
    var l :| 0 <= l < |az| && az[l] == o.z;
    k := Triple(i - mx, j - my, l - mz);
    assert ToVec(k).x == o.x && ToVec(k).y == o.y && ToVec(k).z == o.z;
  }

  /** Whole-voxel radius: every voxel the sampler as written returns is within `r` of `c`. */
  lemma WholeVoxelSound(c: Voxel, r: real, d: Vec, dims: Shape, mx: nat, my: nat, mz: nat, v: Voxel)
    requires Positive(d)
    requires r / d.x == mx as real && r / d.y == my as real && r / d.z == mz as real
    requires GetSphere(c, r, d, dims).Success? && v in GetSphere(c, r, d, dims).value
    ensures v in CorrectedSphere(c, r, d, dims)
  {
    WholeVoxelAxis(r, d.x, mx);
    WholeVoxelAxis(r, d.y, my);
    WholeVoxelAxis(r, d.z, mz);
    var ax, ay, az := AxisOffsets(r, d.x), AxisOffsets(r, d.y), AxisOffsets(r, d.z);
    GetSphereMembers(c, r, d, dims, v);
    var o: Vec :| o.x in ax && o.y in ay && o.z in az && WithinRadius(o, r, d) && Place(o, c) == v;
    var k := WholeOffset(o, ax, ay, az, mx, my, mz);
    PlaceWhole(k, c);
    SubAdd(c, k);
  }

  /** Whole-voxel radius: an offset within `r` is one of the candidate offsets. */
  lemma WholeVoxelCandidate(k: Voxel, r: real, d: Vec, mx: nat, my: nat, mz: nat)
    requires Positive(d)
    requires r / d.x == mx as real && r / d.y == my as real && r / d.z == mz as real
    requires WithinRadius(ToVec(k), r, d)
    ensures ToVec(k).x in AxisOffsets(r, d.x) && ToVec(k).y in AxisOffsets(r, d.y)
    ensures ToVec(k).z in AxisOffsets(r, d.z)
  {
    AxisTermBounded(ToVec(k), d);
    WithinReach(k.x, r, d.x);
    WithinReach(k.y, r, d.y);
    WithinReach(k.z, r, d.z);
    WholeVoxelAxis(r, d.x, mx);
    WholeVoxelAxis(r, d.y, my);
    WholeVoxelAxis(r, d.z, mz);
    assert AxisOffsets(r, d.x)[k.x + mx] == k.x as real;
    assert AxisOffsets(r, d.y)[k.y + my] == k.y as real;
    assert AxisOffsets(r, d.z)[k.z + mz] == k.z as real;
  }

  /** Whole-voxel radius: every image voxel within `r` of `c` is returned by the sampler as written. */
  lemma WholeVoxelComplete(c: Voxel, r: real, d: Vec, dims: Shape, mx: nat, my: nat, mz: nat, v: Voxel)
    requires Positive(d)
    requires r / d.x == mx as real && r / d.y == my as real && r / d.z == mz as real
    requires v in CorrectedSphere(c, r, d, dims)
    ensures GetSphere(c, r, d, dims).Success? && v in GetSphere(c, r, d, dims).value
  {
    var k := Sub(v, c);
    WholeVoxelCandidate(k, r, d, mx, my, mz);
    PlaceWhole(k, c);
    assert Add(c, k) == v;
    GetSphereMembers(c, r, d, dims, v);
  }

  /**
   * Where the radius is a whole number of voxels on every axis, the sampler
   * as written and the corrected one return the same voxels: the correction
   * changes nothing in that case.
   */
  lemma AgreeOnWholeVoxelRadius(c: Voxel, r: real, d: Vec, dims: Shape, mx: nat, my: nat, mz: nat, v: Voxel)
    requires Positive(d)
    requires r / d.x == mx as real && r / d.y == my as real && r / d.z == mz as real
    ensures GetSphere(c, r, d, dims).Success?
    ensures v in GetSphere(c, r, d, dims).value <==> v in CorrectedSphere(c, r, d, dims)
  {
    if v in GetSphere(c, r, d, dims).value {
      WholeVoxelSound(c, r, d, dims, mx, my, mz, v);
    }
    if v in CorrectedSphere(c, r, d, dims) {
      WholeVoxelComplete(c, r, d, dims, mx, my, mz, v);
    }
  }
}
