/**
 * `get_values_at_locations` of `alleninf/data.py`: one value per location,
 * the mean of the statistical map over the voxels of the location's
 * neighbourhood that the validity mask admits, or NaN when it admits none.
 *
 * Volumes are flat buffers in C order (`Index`), as numpy stores them; the
 * NIfTI loading and the world-to-voxel affine are outside the model, so each
 * location arrives as its (already rounded) centre voxel.
 */
module Extract {
  import opened Wrappers
  import opened Geometry
  import opened Sphere

  /** A floating-point sample of a volume; `NaN` is also the missing-value sentinel of a result. */
  datatype Sample = NaN | Num(value: real)

  /**
   * The exceptions a location can raise: IndexError for an index outside
   * `[-n, n)`, ValueError from `get_sphere` for a radius of -0.505 voxels
   * or less.
   */
  datatype ExtractError = IndexError | ValueError

  function Size(s: Shape): nat
  {
    s.nx * s.ny * s.nz
  }

  /** Position of voxel `v` in the C-order buffer of a volume of shape `s`. */
  function Index(v: Voxel, s: Shape): int
  {
    (v.x * s.ny + v.y) * s.nz + v.z
  }

  lemma MulMonotone(a: int, b: int, n: nat)
    requires a <= b
    ensures a * n <= b * n
  {
  }

  /** `a * m + b` addresses a cell of an `n` by `m` grid. */
  lemma RowMajorInRange(a: int, b: int, n: nat, m: nat)
    requires 0 <= a < n && 0 <= b < m
    ensures 0 <= a * m + b < n * m
  {
    MulMonotone(0, a, m);
    MulMonotone(a + 1, n, m);
  }

  lemma IndexInRange(v: Voxel, s: Shape)
    requires InBounds(v, s)
    ensures 0 <= Index(v, s) < Size(s)
  {
    RowMajorInRange(v.x, v.y, s.nx, s.ny);
    RowMajorInRange(v.x * s.ny + v.y, v.z, s.nx * s.ny, s.nz);
  }

  /** numpy's reading of one integer index on an axis of length `n`: negative indices count from the end. */
  function WrapIndex(i: int, n: nat): (r: Option<int>)
    ensures r.Some? <==> -(n as int) <= i < n
    ensures r.Some? ==> 0 <= r.value < n && (r.value == i || r.value == i + n)
  {
    if 0 <= i < n then Some(i)
    else if -(n as int) <= i < 0 then Some(i + n)
    else None
  }

  /** The voxel `sph_mask[x, y, z]` designates, or None where numpy raises IndexError. */
  function Normalise(c: Voxel, s: Shape): (r: Option<Voxel>)
    ensures r.Some? ==> InBounds(r.value, s)
    ensures InBounds(c, s) ==> r == Some(c)
  {
    match (WrapIndex(c.x, s.nx), WrapIndex(c.y, s.ny), WrapIndex(c.z, s.nz))
    case (Some(x), Some(y), Some(z)) => Some(Triple(x, y, z))
    case _ => None
  }

  /** An explicit mask admits a voxel whose mask value is a number above 0. */
  predicate MaskAdmits(m: Sample)
  {
    m.Num? && m.value > 0.0
  }

  /** Without a mask file a voxel is admitted when its own value is a number other than 0. */
  predicate DataAdmits(x: Sample)
  {
    x.Num? && x.value != 0.0
  }

  /** `np.logical_and(np.logical_not(np.isnan(mask_data)), mask_data > 0)` */
  function MaskOf(maskData: seq<Sample>): (m: seq<bool>)
    ensures |m| == |maskData|
    ensures forall i :: 0 <= i < |m| ==> (m[i] <==> MaskAdmits(maskData[i]))
  {
    seq(|maskData|, i requires 0 <= i < |maskData| => MaskAdmits(maskData[i]))
  }

  /** `np.logical_and(np.logical_not(np.isnan(data)), data != 0)` */
  function ImplicitMaskOf(data: seq<Sample>): (m: seq<bool>)
    ensures |m| == |data|
    ensures forall i :: 0 <= i < |m| ==> (m[i] <==> DataAdmits(data[i]))
  {
    seq(|data|, i requires 0 <= i < |data| => DataAdmits(data[i]))
  }

  /** The validity mask, from the mask volume when one is given and from the data otherwise. */
  function ValidMask(data: seq<Sample>, maskData: Option<seq<Sample>>): (m: seq<bool>)
    requires maskData.Some? ==> |maskData.value| == |data|
    ensures |m| == |data|
  {
    if maskData.Some? then MaskOf(maskData.value) else ImplicitMaskOf(data)
  }

  /** The buffer positions of `get_sphere`'s voxels around `c`, one per sphere entry. */
  function SphereIndices(c: Voxel, radius: real, d: Vec, s: Shape): (r: Result<seq<int>, ExtractError>)
    requires Positive(d)
    ensures r.Failure? <==> GetSphere(c, radius, d, s).Failure?
    ensures r.Failure? ==> r.error == ValueError
    ensures r.Success? ==> forall j :: j in r.value ==> 0 <= j < Size(s)
  {
    match GetSphere(c, radius, d, s)
    case Failure(_) => Failure(ValueError)
    case Success(sphere) =>
      var idx := Map(sphere, (v: Voxel) => Index(v, s));
      assert forall j :: j in idx ==> 0 <= j < Size(s) by {
        forall j | j in idx
          ensures 0 <= j < Size(s)
        {
          MapMember(sphere, (v: Voxel) => Index(v, s), j);
          var v :| v in sphere && Index(v, s) == j;
          IndexInRange(v, s);
        }
      }
      Success(idx)
  }

  /**
   * The buffer positions of a location's neighbourhood: the voxels of
   * `get_sphere` when `radius` is non-zero (any non-zero float is true),
   * else the single centre voxel, read with numpy's index rules. A set:
   * voxels reached twice count once.
   */
  function Region(c: Voxel, radius: real, d: Vec, s: Shape): (r: Result<set<int>, ExtractError>)
    requires Positive(d)
    ensures r.Failure? <==> if radius == 0.0 then Normalise(c, s).None?
                            else radius / d.x <= -0.505 || radius / d.y <= -0.505 || radius / d.z <= -0.505
    ensures r.Failure? ==> r.error == if radius == 0.0 then IndexError else ValueError
    ensures r.Success? ==> forall j :: j in r.value ==> 0 <= j < Size(s)
  {
    if radius != 0.0 then
      match SphereIndices(c, radius, d, s)
      case Failure(e) => Failure(e)
      case Success(idx) => Success(set j | j in idx)
    else
      match Normalise(c, s)
      case None => Failure(IndexError)
      case Some(w) => IndexInRange(w, s); Success({Index(w, s)})
  }

  /** `data[roi]` restricted to the first `n` positions: admitted samples of the region, in buffer order. */
  function Selected(data: seq<Sample>, valid: seq<bool>, region: set<int>, n: nat): seq<Sample>
    requires n <= |data| && |valid| == |data|
  {
    if n == 0 then []
    else Selected(data, valid, region, n - 1) +
         (if valid[n - 1] && n - 1 in region then [data[n - 1]] else [])
  }

  /** Floating-point addition: NaN absorbs. */
  function AddSample(a: Sample, b: Sample): Sample
  {
    if a.NaN? || b.NaN? then NaN else Num(a.value + b.value)
  }

  function Sum(xs: seq<Sample>): Sample
  {
    if xs == [] then Num(0.0) else AddSample(Sum(xs[..|xs| - 1]), xs[|xs| - 1])
  }

  lemma SumAppend(xs: seq<Sample>, x: Sample)
    ensures Sum(xs + [x]) == AddSample(Sum(xs), x)
  {
    assert (xs + [x])[..|xs|] == xs;
  }

  /** numpy's mean: NaN for no samples or when any sample is NaN. */
  function Mean(xs: seq<Sample>): Sample
  {
    if xs == [] then NaN
    else
      var t := Sum(xs);
      if t.NaN? then NaN else Num(t.value / |xs| as real)
  }

  /** The value reported for one location. */
  function LocationValue(data: seq<Sample>, valid: seq<bool>, c: Voxel, radius: real, d: Vec, s: Shape)
    : Result<Sample, ExtractError>
    requires Positive(d) && |valid| == |data|
  {
    match Region(c, radius, d, s)
    case Failure(e) => Failure(e)
    case Success(region) => Success(Mean(Selected(data, valid, region, |data|)))
  }

  /** `mask[idx] = True`: sets every listed position and leaves the others as they were. */
  method MarkAll(mask: array<bool>, idx: seq<int>)
    requires forall j :: j in idx ==> 0 <= j < mask.Length
    modifies mask
    ensures forall j :: 0 <= j < mask.Length ==> (mask[j] <==> old(mask[j]) || j in idx)
  {
    var k := 0;
    while k < |idx|
      invariant 0 <= k <= |idx|
      invariant forall j :: 0 <= j < mask.Length ==> (mask[j] <==> old(mask[j]) || j in idx[..k])
    {
      assert idx[..k + 1] == idx[..k] + [idx[k]];
      assert idx[k] in idx;
      mask[idx[k]] := true;
      k := k + 1;
    }
    assert idx[..k] == idx;
  }

  /**
   * `sph_mask`: a fresh all-false array set true, in place, over the
   * neighbourhood of `c`.
   */
  method NeighbourhoodMask(c: Voxel, radius: real, d: Vec, s: Shape)
    returns (r: Result<array<bool>, ExtractError>)
    requires Positive(d)
    ensures r.Failure? <==> Region(c, radius, d, s).Failure?
    ensures r.Failure? ==> r.error == Region(c, radius, d, s).error
    ensures r.Success? ==> fresh(r.value) && r.value.Length == Size(s)
    ensures r.Success? ==> forall j :: 0 <= j < Size(s) ==> (r.value[j] <==> j in Region(c, radius, d, s).value)
  {
    var sphMask := new bool[Size(s)](_ => false);
    if radius != 0.0 {
      var idx := SphereIndices(c, radius, d, s);
      if idx.Failure? {
        return Failure(idx.error);
      }
      MarkAll(sphMask, idx.value);
    } else {
      match Normalise(c, s)
      case None =>
        return Failure(IndexError);
      case Some(w) =>
        IndexInRange(w, s);
        sphMask[Index(w, s)] := true;
    }
    r := Success(sphMask);
  }

  /**
   * `data[roi].mean()` if `np.any(roi)`, else NaN, where `roi` is the
   * validity mask and `sphMask`: the admitted samples are summed in buffer order.
   */
  method MaskedMean(data: seq<Sample>, valid: seq<bool>, sphMask: array<bool>, ghost region: set<int>)
    returns (r: Sample)
    requires |valid| == |data| && sphMask.Length == |data|
    requires forall j :: 0 <= j < |data| ==> (sphMask[j] <==> j in region)
    ensures r == Mean(Selected(data, valid, region, |data|))
  {
    var count, total, i := 0, Num(0.0), 0;
    ghost var sel: seq<Sample> := [];
    while i < |data|
      invariant 0 <= i <= |data|
      invariant sel == Selected(data, valid, region, i)
      invariant count == |sel| && total == Sum(sel)
    {
      if valid[i] && sphMask[i] {
        SumAppend(sel, data[i]);
        count, total := count + 1, AddSample(total, data[i]);
        sel := sel + [data[i]];
      }
      i := i + 1;
    }
    if count == 0 || total.NaN? {
      r := NaN;
    } else {
      r := Num(total.value / count as real);
    }
  }

  /** One iteration of the location loop. */
  method ValueAt(data: seq<Sample>, valid: seq<bool>, c: Voxel, radius: real, d: Vec, s: Shape)
    returns (r: Result<Sample, ExtractError>)
    requires Positive(d) && |data| == Size(s) && |valid| == |data|
    ensures r == LocationValue(data, valid, c, radius, d, s)
  {
    var sphMask := NeighbourhoodMask(c, radius, d, s);
    if sphMask.Failure? {
      return Failure(sphMask.error);
    }
    var value := MaskedMean(data, valid, sphMask.value, Region(c, radius, d, s).value);
    r := Success(value);
  }

  /**
   * A loop that stops at the first exception: it fails iff some step fails,
   * with the exception of the first step that fails, and otherwise yields
   * every step's value in order.
   */
  function Collect<T, E>(rs: seq<Result<T, E>>): (r: Result<seq<T>, E>)
    ensures r.Failure? <==> exists i :: 0 <= i < |rs| && rs[i].Failure?
    ensures r.Failure? ==> exists i :: 0 <= i < |rs| && rs[i] == Failure(r.error) &&
                                       forall j :: 0 <= j < i ==> rs[j].Success?
    ensures r.Success? ==> |r.value| == |rs| && forall i :: 0 <= i < |rs| ==> rs[i] == Success(r.value[i])
    decreases |rs|
  {
    if rs == [] then Success([])
    else
      var init := rs[..|rs| - 1];
      assert forall i :: 0 <= i < |init| ==> init[i] == rs[i];
      match Collect(init)
      case Failure(e) => Failure(e)
      case Success(vs) =>
        match rs[|rs| - 1]
        case Failure(e) => Failure(e)
        case Success(v) => Success(vs + [v])
  }

  /** One more successful step extends the collected values by its value. */
  lemma CollectStep<T, E>(rs: seq<Result<T, E>>, i: nat, values: seq<T>)
    requires i < |rs| && Collect(rs[..i]) == Success(values) && rs[i].Success?
    ensures Collect(rs[..i + 1]) == Success(values + [rs[i].value])
  {
    assert rs[..i + 1][..i] == rs[..i];
  }

  /** Once every earlier step succeeded, the loop ends with the first failing step's exception. */
  lemma CollectFirstFailure<T, E>(rs: seq<Result<T, E>>, i: nat)
    requires i < |rs| && rs[i].Failure?
    requires forall j :: 0 <= j < i ==> rs[j].Success?
    ensures Collect(rs) == Failure(rs[i].error)
  {
  }

  /** The value of every location on its own, in order. */
  function LocationResults(data: seq<Sample>, valid: seq<bool>, centres: seq<Voxel>, radius: real, d: Vec, s: Shape)
    : (rs: seq<Result<Sample, ExtractError>>)
    requires Positive(d) && |valid| == |data|
    ensures |rs| == |centres|
  {
    seq(|centres|, i requires 0 <= i < |centres| => LocationValue(data, valid, centres[i], radius, d, s))
  }

  /** The loop over the locations, stopping at the first exception. */
  method ValuesAtEach(data: seq<Sample>, valid: seq<bool>, centres: seq<Voxel>, radius: real, d: Vec, s: Shape)
    returns (r: Result<seq<Sample>, ExtractError>)
    requires Positive(d) && |data| == Size(s) && |valid| == |data|
    ensures r == Collect(LocationResults(data, valid, centres, radius, d, s))
  {
    ghost var results := LocationResults(data, valid, centres, radius, d, s);
    var values: seq<Sample> := [];
    for i := 0 to |centres|
      invariant Collect(results[..i]) == Success(values)
    {
      var v := ValueAt(data, valid, centres[i], radius, d, s);
      assert results[i] == v;
      if v.Failure? {
        assert forall j :: 0 <= j < i ==> results[..i][j] == results[j];
        CollectFirstFailure(results, i);
        return Failure(v.error);
      }
      CollectStep(results, i, values);
      values := values + [v.value];
    }
    assert results[..|centres|] == results;
    r := Success(values);
  }

  /**
   * `get_values_at_locations(nifti_file, locations, radius, mask_file)`:
   * exactly one value per location, in order, entry i computed from
   * location i alone; an exception at any location (an IndexError with a
   * zero radius, a ValueError with a radius of -0.505 voxels or less)
   * aborts the whole call with the first location's exception.
   */
  method ValuesAtLocations(data: seq<Sample>, maskData: Option<seq<Sample>>, s: Shape, d: Vec,
                           centres: seq<Voxel>, radius: real)
    returns (r: Result<seq<Sample>, ExtractError>)
    requires Positive(d) && |data| == Size(s)
    requires maskData.Some? ==> |maskData.value| == |data|
    ensures r.Failure? <==> exists i :: 0 <= i < |centres| && Region(centres[i], radius, d, s).Failure?
    ensures r.Failure? ==> exists i :: 0 <= i < |centres| && Region(centres[i], radius, d, s) == Failure(r.error) &&
                                       forall j :: 0 <= j < i ==> Region(centres[j], radius, d, s).Success?
    ensures r.Success? ==> |r.value| == |centres|
    ensures r.Success? ==> forall i :: 0 <= i < |centres| ==>
              LocationValue(data, ValidMask(data, maskData), centres[i], radius, d, s) == Success(r.value[i])
  {
    var valid := ValidMask(data, maskData);
    r := ValuesAtEach(data, valid, centres, radius, d, s);
    ghost var results := LocationResults(data, valid, centres, radius, d, s);
    forall i | 0 <= i < |centres|
      ensures results[i].Failure? <==> Region(centres[i], radius, d, s).Failure?
      ensures results[i].Failure? ==> results[i].error == Region(centres[i], radius, d, s).error
    {
    }
  }

  lemma {:induction false} SelectedSingleton(data: seq<Sample>, valid: seq<bool>, k: int, n: nat)
    requires n <= |data| && |valid| == |data|
    ensures Selected(data, valid, {k}, n) == if 0 <= k < n && valid[k] then [data[k]] else []
  {
    if n > 0 {
      SelectedSingleton(data, valid, k, n - 1);
    }
  }

  /**
   * With a zero radius the value is the sample at the centre voxel when the
   * mask admits it, and NaN otherwise.
   */
  lemma PointSample(data: seq<Sample>, valid: seq<bool>, c: Voxel, d: Vec, s: Shape)
    requires Positive(d) && |data| == Size(s) && |valid| == |data| && InBounds(c, s)
    ensures 0 <= Index(c, s) < |data|
    ensures LocationValue(data, valid, c, 0.0, d, s) ==
            Success(if valid[Index(c, s)] then data[Index(c, s)] else NaN)
  {
    IndexInRange(c, s);
    var k := Index(c, s);
    assert Region(c, 0.0, d, s) == Success({k});
    SelectedSingleton(data, valid, k, |data|);
    if valid[k] {
      MeanOfOne(data[k]);
    }
  }

  lemma MeanOfOne(x: Sample)
    ensures Mean([x]) == x
  {
    assert [x][..0] == [];
    assert Sum([x]) == AddSample(Num(0.0), x);
    if x.Num? {
      assert (0.0 + x.value) / 1.0 == x.value;
    }
  }

  lemma {:induction false} SelectedEmpty(data: seq<Sample>, valid: seq<bool>, region: set<int>, n: nat)
    requires n <= |data| && |valid| == |data|
    ensures Selected(data, valid, region, n) == [] <==> forall j :: 0 <= j < n && j in region ==> !valid[j]
  {
    if n > 0 {
      SelectedEmpty(data, valid, region, n - 1);
    }
  }

  lemma {:induction false} SelectedFrom(data: seq<Sample>, valid: seq<bool>, region: set<int>, n: nat, x: Sample)
    requires n <= |data| && |valid| == |data|
    requires x in Selected(data, valid, region, n)
    ensures exists j :: 0 <= j < n && j in region && valid[j] && data[j] == x
  {
    if n > 0 {
      if x in Selected(data, valid, region, n - 1) {
        SelectedFrom(data, valid, region, n - 1, x);
      }
    }
  }

  lemma {:induction false} SumOfNumbers(xs: seq<Sample>)
    requires forall x :: x in xs ==> x.Num?
    ensures Sum(xs).Num?
  {
    if xs != [] {
      assert forall x :: x in xs[..|xs| - 1] ==> x in xs;
      SumOfNumbers(xs[..|xs| - 1]);
    }
  }

  lemma {:induction false} SumWithNaN(xs: seq<Sample>)
    requires NaN in xs
    ensures Sum(xs) == NaN
  {
    if xs[|xs| - 1] != NaN {
      assert xs == xs[..|xs| - 1] + [xs[|xs| - 1]];
      SumWithNaN(xs[..|xs| - 1]);
    }
  }

  /** Nothing admitted in the neighbourhood: the value is NaN, whatever the mask. */
  lemma NoAdmittedVoxelIsNaN(data: seq<Sample>, valid: seq<bool>, c: Voxel, radius: real, d: Vec, s: Shape)
    requires Positive(d) && |data| == Size(s) && |valid| == |data|
    requires Region(c, radius, d, s).Success?
    requires forall j :: j in Region(c, radius, d, s).value ==> !valid[j]
    ensures LocationValue(data, valid, c, radius, d, s) == Success(NaN)
  {
    SelectedEmpty(data, valid, Region(c, radius, d, s).value, |data|);
  }

  /**
   * The sampler's discrepancy reaches the output: with 1 mm voxels and a
   * radius of 0.5 mm the sphere is empty, so every location reads NaN,
   * even one whose centre voxel is admitted and holds a number.
   */
  lemma HalfVoxelRadiusReadsNaN(data: seq<Sample>, valid: seq<bool>, c: Voxel, s: Shape)
    requires |data| == Size(s) && |valid| == |data|
    ensures LocationValue(data, valid, c, 0.5, Triple(1.0, 1.0, 1.0), s) == Success(NaN)
  {
    var d := Triple(1.0, 1.0, 1.0);
    HalfVoxelRadiusIsEmpty(c, s);
    assert SphereIndices(c, 0.5, d, s) == Success([]);
    EmptySphereRegion(c, 0.5, d, s);
    SelectedEmpty(data, valid, {}, |data|);
  }

  lemma EmptySphereRegion(c: Voxel, radius: real, d: Vec, s: Shape)
    requires Positive(d) && radius != 0.0 && SphereIndices(c, radius, d, s) == Success([])
    ensures Region(c, radius, d, s) == Success({})
  {
    var idx: seq<int> := [];
    assert (set j | j in idx) == {};
  }

  /**
   * Without a mask file the value is NaN exactly when no voxel of the
   * neighbourhood is admitted; otherwise it is the mean of the admitted
   * values, a number.
   */
  lemma ImplicitMaskNaNIffNoneAdmitted(data: seq<Sample>, c: Voxel, radius: real, d: Vec, s: Shape)
    requires Positive(d) && |data| == Size(s)
    requires Region(c, radius, d, s).Success?
    ensures LocationValue(data, ValidMask(data, None), c, radius, d, s) == Success(NaN) <==>
            forall j :: j in Region(c, radius, d, s).value ==> !DataAdmits(data[j])
  {
    var valid := ValidMask(data, None);
    var region := Region(c, radius, d, s).value;
    var sel := Selected(data, valid, region, |data|);
    SelectedEmpty(data, valid, region, |data|);
    forall x | x in sel
      ensures x.Num?
    {
      SelectedFrom(data, valid, region, |data|, x);
    }
    if sel != [] {
      SumOfNumbers(sel);
    }
  }

  /** With an explicit mask, a NaN data value under an admitted voxel makes the location's value NaN. */
  lemma AdmittedNaNPropagates(data: seq<Sample>, valid: seq<bool>, c: Voxel, radius: real, d: Vec, s: Shape, j: int)
    requires Positive(d) && |data| == Size(s) && |valid| == |data|
    requires Region(c, radius, d, s).Success?
    requires j in Region(c, radius, d, s).value && valid[j] && data[j] == NaN
    ensures LocationValue(data, valid, c, radius, d, s) == Success(NaN)
  {
    var region := Region(c, radius, d, s).value;
    SelectedHas(data, valid, region, |data|, j);
    SumWithNaN(Selected(data, valid, region, |data|));
  }

  lemma {:induction false} SelectedHas(data: seq<Sample>, valid: seq<bool>, region: set<int>, n: nat, j: int)
    requires n <= |data| && |valid| == |data|
    requires 0 <= j < n && j in region && valid[j]
    ensures data[j] in Selected(data, valid, region, n)
  {
    if j < n - 1 {
      SelectedHas(data, valid, region, n - 1, j);
    }
  }

  /** The admitted positions among the first `n`. */
  function AdmittedSet(valid: seq<bool>, region: set<int>, n: nat): set<int>
    requires n <= |valid|
  {
    set j | 0 <= j < n && j in region && valid[j]
  }

  /**
   * The mean divides by the number of distinct admitted voxels: a voxel the
   * sphere reaches more than once is counted once.
   */
  lemma {:induction false} SelectedCountsDistinctVoxels(data: seq<Sample>, valid: seq<bool>, region: set<int>, n: nat)
    requires n <= |data| && |valid| == |data|
    ensures |Selected(data, valid, region, n)| == |AdmittedSet(valid, region, n)|
  {
    if n > 0 {
      SelectedCountsDistinctVoxels(data, valid, region, n - 1);
      AdmittedStep(valid, region, n);
    }
  }

  lemma AdmittedStep(valid: seq<bool>, region: set<int>, n: nat)
    requires 0 < n <= |valid|
    ensures |AdmittedSet(valid, region, n)| ==
            |AdmittedSet(valid, region, n - 1)| + (if valid[n - 1] && n - 1 in region then 1 else 0)
  {
    var before := AdmittedSet(valid, region, n - 1);
    if valid[n - 1] && n - 1 in region {
      assert AdmittedSet(valid, region, n) == before + {n - 1};
      assert n - 1 !in before;
    } else {
      assert AdmittedSet(valid, region, n) == before;
    }
  }
}

/**
 * A worked extraction: a 3x3x3 volume of 1.0 with 5.0 at the centre voxel,
 * 1 mm voxels, a mask admitting everything and a 1 mm radius around the
 * centre. The neighbourhood is the centre and its six face neighbours, so the
 * value is (6 * 1.0 + 5.0) / 7.
 */
module ExtractScenario {
  import opened Wrappers
  import opened Geometry
  import opened Sphere
  import opened SphereAgreement
  import opened Extract

  const Cube: Shape := Shape(3, 3, 3)
  const Unit: Vec := Triple(1.0, 1.0, 1.0)
  const Centre: Voxel := Triple(1, 1, 1)
  const Neighbourhood: set<int> := {4, 10, 12, 13, 14, 16, 22}

  function PeakVolume(): (data: seq<Sample>)
    ensures |data| == 27
  {
    seq(27, j => if j == 13 then Num(5.0) else Num(1.0))
  }

  function FullMask(): (m: seq<Sample>)
    ensures |m| == 27
  {
    seq(27, _ => Num(1.0))
  }

  lemma UnitSquare(a: int)
    requires -1 <= a <= 1
    ensures (1.0 * a as real) * (1.0 * a as real) == if a == 0 then 0.0 else 1.0
  {
  }

  /** Within 1 mm of the centre: the centre or one step along one axis. */
  lemma NearCentre(v: Voxel)
    requires InBounds(v, Cube)
    ensures WithinRadius(ToVec(Sub(v, Centre)), 1.0, Unit) <==> Index(v, Cube) in Neighbourhood
  {
    UnitSquare(v.x - 1);
    UnitSquare(v.y - 1);
    UnitSquare(v.z - 1);
    assert Index(v, Cube) == 9 * v.x + 3 * v.y + v.z;
  }

  /** The voxel at each position of the neighbourhood. */
  lemma NeighbourVoxel(j: int) returns (v: Voxel)
    requires j in Neighbourhood
    ensures InBounds(v, Cube) && Index(v, Cube) == j
  {
    if j == 4 { v := Triple(0, 1, 1); }
    else if j == 10 { v := Triple(1, 0, 1); }
    else if j == 12 { v := Triple(1, 1, 0); }
    else if j == 13 { v := Triple(1, 1, 1); }
    else if j == 14 { v := Triple(1, 1, 2); }
    else if j == 16 { v := Triple(1, 2, 1); }
    else { v := Triple(2, 1, 1); }
  }

  /** With a radius of one voxel the sphere as written succeeds. */
  lemma UnitRadiusSucceeds(r: real)
    requires r == 1.0
    ensures SphereIndices(Centre, r, Unit, Cube).Success?
  {
  }

  lemma SphereIndicesInNeighbourhood(r: real, j: int)
    requires r == 1.0
    requires SphereIndices(Centre, r, Unit, Cube).Success? && j in SphereIndices(Centre, r, Unit, Cube).value
    ensures j in Neighbourhood
  {
    var sphere := GetSphere(Centre, r, Unit, Cube).value;
    var f := (v: Voxel) => Index(v, Cube);
    MapMember(sphere, f, j);
    var v :| v in sphere && f(v) == j;
    AgreeOnWholeVoxelRadius(Centre, r, Unit, Cube, 1, 1, 1, v);
    NearCentre(v);
  }

  lemma NeighbourhoodInSphereIndices(r: real, j: int)
    requires r == 1.0 && j in Neighbourhood
    ensures SphereIndices(Centre, r, Unit, Cube).Success? && j in SphereIndices(Centre, r, Unit, Cube).value
  {
    var v := NeighbourVoxel(j);
    NearCentre(v);
    AgreeOnWholeVoxelRadius(Centre, r, Unit, Cube, 1, 1, 1, v);
    var sphere := GetSphere(Centre, r, Unit, Cube).value;
    var f := (v: Voxel) => Index(v, Cube);
    assert v in sphere && f(v) == j;
    MapMember(sphere, f, j);
  }

  lemma NeighbourhoodIsRegion(r: real)
    requires r == 1.0
    ensures Region(Centre, r, Unit, Cube) == Success(Neighbourhood)
  {
    UnitRadiusSucceeds(r);
    var idx := SphereIndices(Centre, r, Unit, Cube).value;
    assert Region(Centre, r, Unit, Cube) == Success(set j | j in idx);
    IndexSetIsNeighbourhood(r);
  }

  lemma IndexSetIsNeighbourhood(r: real)
    requires r == 1.0
    ensures SphereIndices(Centre, r, Unit, Cube).Success?
    ensures (set j | j in SphereIndices(Centre, r, Unit, Cube).value) == Neighbourhood
  {
    UnitRadiusSucceeds(r);
    IndicesWithinNeighbourhood(r);
    NeighbourhoodWithinIndices(r);
  }

  lemma IndicesWithinNeighbourhood(r: real)
    requires r == 1.0
    ensures SphereIndices(Centre, r, Unit, Cube).Success?
    ensures forall j :: j in SphereIndices(Centre, r, Unit, Cube).value ==> j in Neighbourhood
  {
    UnitRadiusSucceeds(r);
    var idx := SphereIndices(Centre, r, Unit, Cube).value;
    forall j | j in idx
      ensures j in Neighbourhood
    {
      SphereIndicesInNeighbourhood(r, j);
    }
  }

  lemma NeighbourhoodWithinIndices(r: real)
    requires r == 1.0
    ensures SphereIndices(Centre, r, Unit, Cube).Success?
    ensures forall j :: j in Neighbourhood ==> j in SphereIndices(Centre, r, Unit, Cube).value
  {
    UnitRadiusSucceeds(r);
    var idx := SphereIndices(Centre, r, Unit, Cube).value;
    forall j | j in Neighbourhood
      ensures j in idx
    {
      NeighbourhoodInSphereIndices(r, j);
    }
  }

  /** Four more for the peak once it has been passed and admitted. */
  function Bonus(valid: seq<bool>, region: set<int>, n: nat): real
    requires |valid| == 27
  {
    if 13 < n && 13 in region && valid[13] then 4.0 else 0.0
  }

  /** Summing the peak volume over the admitted part of a region: one per voxel, four more for the peak. */
  lemma {:induction false} PeakSum(valid: seq<bool>, region: set<int>, n: nat)
    requires n <= 27 && |valid| == 27
    ensures Sum(Selected(PeakVolume(), valid, region, n)) ==
            Num(|AdmittedSet(valid, region, n)| as real + Bonus(valid, region, n))
  {
    if n > 0 {
      PeakSum(valid, region, n - 1);
      AdmittedStep(valid, region, n);
      var sel := Selected(PeakVolume(), valid, region, n - 1);
      if valid[n - 1] && n - 1 in region {
        var x := PeakVolume()[n - 1];
        assert Selected(PeakVolume(), valid, region, n) == sel + [x];
        SumAppend(sel, x);
      } else {
        assert Selected(PeakVolume(), valid, region, n) == sel;
      }
    }
  }

  lemma NeighbourhoodSize()
    ensures |Neighbourhood| == 7
  {
    assert Neighbourhood == {4} + {10} + {12} + {13} + {14} + {16} + {22};
  }

  /** The full mask admits every voxel. */
  lemma FullMaskAdmitsAll()
    ensures forall j :: 0 <= j < 27 ==> ValidMask(PeakVolume(), Some(FullMask()))[j]
  {
  }

  lemma PeakSelection()
    ensures var sel := Selected(PeakVolume(), ValidMask(PeakVolume(), Some(FullMask())), Neighbourhood, 27);
            |sel| == 7 && Sum(sel) == Num(11.0)
  {
    var data := PeakVolume();
    var valid := ValidMask(data, Some(FullMask()));
    FullMaskAdmitsAll();
    assert AdmittedSet(valid, Neighbourhood, 27) == Neighbourhood;
    NeighbourhoodSize();
    SelectedCountsDistinctVoxels(data, valid, Neighbourhood, 27);
    PeakSum(valid, Neighbourhood, 27);
  }

  /** The worked example: the value at the centre is 11/7. */
  lemma PeakScenario()
    ensures LocationValue(PeakVolume(), ValidMask(PeakVolume(), Some(FullMask())), Centre, 1.0, Unit, Cube) ==
            Success(Num(11.0 / 7.0))
  {
    NeighbourhoodIsRegion(1.0);
    PeakSelection();
  }
}
