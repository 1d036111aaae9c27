/**
 * Voxel-grid vocabulary shared by the sampler and the extractor: index and
 * offset triples, volume shapes, and order-preserving filter/map on sequences
 * (the array expressions the sampler is written with).
 */
module Geometry {

  /** A value per axis; `Triple<int>` is a voxel index, `Triple<real>` a physical or fractional offset. */
  datatype Triple<T> = Triple(x: T, y: T, z: T)

  type Voxel = Triple<int>
  type Vec = Triple<real>

  /** The extents of a 3-D volume, in voxels. */
  datatype Shape = Shape(nx: nat, ny: nat, nz: nat)

  predicate InBounds(v: Voxel, s: Shape)
  {
    0 <= v.x < s.nx && 0 <= v.y < s.ny && 0 <= v.z < s.nz
  }

  predicate Positive(d: Vec)
  {
    d.x > 0.0 && d.y > 0.0 && d.z > 0.0
  }

  function ToVec(v: Voxel): Vec
  {
    Triple(v.x as real, v.y as real, v.z as real)
  }

  function Add(u: Voxel, v: Voxel): Voxel
  {
    Triple(u.x + v.x, u.y + v.y, u.z + v.z)
  }

  function Sub(u: Voxel, v: Voxel): Voxel
  {
    Triple(u.x - v.x, u.y - v.y, u.z - v.z)
  }

  /** Squared physical length of an offset measured in voxels of size `d`. */
  function Norm2(o: Vec, d: Vec): real
  {
    (d.x * o.x) * (d.x * o.x) + (d.y * o.y) * (d.y * o.y) + (d.z * o.z) * (d.z * o.z)
  }

  /**
   * `sqrt(Norm2(o, d)) <= r`, stated without a square root: a square root is
   * never negative, so a negative radius admits nothing.
   */
  predicate WithinRadius(o: Vec, r: real, d: Vec)
  {
    r >= 0.0 && Norm2(o, d) <= r * r
  }

  /** The elements of `s` that satisfy `p`, in their original order (a boolean-mask selection). */
  function Filter<T(!new)>(s: seq<T>, p: T -> bool): (r: seq<T>)
    ensures |r| <= |s|
    ensures forall x :: x in r <==> x in s && p(x)
  {
    if s == [] then []
    else (if p(s[0]) then [s[0]] else []) + Filter(s[1..], p)
  }

  /** `f` applied elementwise. */
  function Map<A, B>(s: seq<A>, f: A -> B): (r: seq<B>)
    ensures |r| == |s|
    ensures forall i :: 0 <= i < |s| ==> r[i] == f(s[i])
  {
    seq(|s|, i requires 0 <= i < |s| => f(s[i]))
  }

  lemma MapMember<A, B>(s: seq<A>, f: A -> B, y: B)
    ensures y in Map(s, f) <==> exists x :: x in s && f(x) == y
  {
    var r := Map(s, f);
    if y in r {
      var i :| 0 <= i < |r| && r[i] == y;
      assert s[i] in s && f(s[i]) == y;
    }
    if exists x :: x in s && f(x) == y {
      var x :| x in s && f(x) == y;
      var i :| 0 <= i < |s| && s[i] == x;
      assert r[i] == y;
    }
  }

  /**
   * All triples of the three axis sequences, x outermost and z innermost:
   * the order of `np.mgrid[xx, yy, zz]` flattened row by row.
   */
  function Grid<T(!new)>(xs: seq<T>, ys: seq<T>, zs: seq<T>): (g: seq<Triple<T>>)
    ensures |g| == |xs| * |ys| * |zs|
    ensures forall t :: t in g <==> t.x in xs && t.y in ys && t.z in zs
  {
    if xs == [] then []
    else
      GridPlane(xs[0], ys, zs) + Grid(xs[1..], ys, zs)
  }

  function GridPlane<T(!new)>(a: T, ys: seq<T>, zs: seq<T>): (g: seq<Triple<T>>)
    ensures |g| == |ys| * |zs|
    ensures forall t :: t in g <==> t.x == a && t.y in ys && t.z in zs
  {
    if ys == [] then []
    else
      GridRow(a, ys[0], zs) + GridPlane(a, ys[1..], zs)
  }

  function GridRow<T(!new)>(a: T, b: T, zs: seq<T>): (g: seq<Triple<T>>)
    ensures |g| == |zs|
    ensures forall t :: t in g <==> t.x == a && t.y == b && t.z in zs
  {
    Map(zs, (c: T) => Triple(a, b, c))
  }
}
