// The z alignment both readers' `load_piece` apply to a piece's tiles: each
// stack is padded with empty slices above and below so that all tiles share
// one z grid, and every tile's z bounds become the grid's.
module Readers {
  import opened Wrappers
  import opened Volumes
  import opened Specimens

  /** The shared z grid: its bounds, its slice count and each tile's padding below and above. */
  datatype ZPlan = ZPlan(zMin: real, zMax: real, depth: int, below: seq<int>, above: seq<int>)

  /** Every extent has z bounds at positions 4 and 5. */
  predicate HasZ(extents: seq<seq<real>>) {
    forall k :: 0 <= k < |extents| ==> |extents[k]| >= 6
  }

  predicate AllShaped(images: seq<Volume>) {
    forall k :: 0 <= k < |images| ==> images[k].Shaped()
  }

  /** The first tile's z voxel size, the only one `load_piece` divides by, is positive. */
  predicate LeadPositive(zScales: seq<real>) {
    |zScales| > 0 ==> zScales[0] > 0.0
  }

  /** The z voxel size of each tile (`info['voxel_size'][2]`). */
  function ZScalesOf(ts: seq<Tile>): (s: seq<real>)
    ensures |s| == |ts| && forall k :: 0 <= k < |ts| ==> s[k] == ts[k].info.voxelSize.z
  {
    seq(|ts|, k requires 0 <= k < |ts| => ts[k].info.voxelSize.z)
  }

  /** `int(np.ceil((z_max - z_min) / z_scale))`: the number of slices of the grid. */
  function GridDepth(zMin: real, zMax: real, zScale: real): int
    requires zScale > 0.0
  {
    Ceil((zMax - zMin) / zScale)
  }

  /** The paddings' shared denominator is the first tile's z voxel size. */
  function Step(lb: real, zMin: real, zScale: real): real
    requires zScale > 0.0
  {
    (lb - zMin) / zScale
  }

  /**
   * The padding arithmetic of `load_piece`: the grid runs from the lowest
   * lower to the highest upper z bound in steps of the first tile's z voxel
   * size; each stack is padded below by its offset from the bottom in
   * slices (rounded half to even) and above by what is left of the grid. No
   * tile, or an extent without z bounds, raises `IndexError`.
   */
  function PlanZ(images: seq<Volume>, extents: seq<seq<real>>, zScales: seq<real>): (r: Result<ZPlan>)
    requires |images| == |extents| == |zScales| && LeadPositive(zScales)
    ensures r.Err? <==> |extents| == 0 || !HasZ(extents)
    ensures r.Err? ==> r.error == IndexError
    ensures r.Ok? ==> |r.value.below| == |r.value.above| == |extents|
  {
    if |extents| == 0 || !HasZ(extents) then Err(IndexError)
    else
      var zScale := zScales[0];
      var zMin := ColumnMin(extents, 4);
      var zMax := ColumnMax(extents, 5);
      var depth := GridDepth(zMin, zMax, zScale);
      var below := Offsets(extents, zMin, zScale);
      Ok(ZPlan(zMin, zMax, depth, below, Remainders(images, below, depth)))
  }

  /** `np.round((slice_lb - z_min) / z_scale)`: each stack's offset from the bottom, in slices. */
  function Offsets(extents: seq<seq<real>>, zMin: real, zScale: real): (r: seq<int>)
    requires HasZ(extents) && zScale > 0.0
    ensures |r| == |extents|
  {
    seq(|extents|, k requires 0 <= k < |extents| => RoundHalfEven(Step(extents[k][4], zMin, zScale)))
  }

  /** `z_n - pad_bottom - slice_n`: the slices of the grid left above each stack. */
  function Remainders(images: seq<Volume>, below: seq<int>, depth: int): (r: seq<int>)
    requires |below| == |images|
    ensures |r| == |images|
  {
    seq(|images|, k requires 0 <= k < |images| => depth - below[k] - images[k].n2)
  }

  /** The grid a successful plan refers to. */
  lemma PlanGrid(images: seq<Volume>, extents: seq<seq<real>>, zScales: seq<real>, plan: ZPlan)
    requires |images| == |extents| == |zScales| && LeadPositive(zScales)
    requires PlanZ(images, extents, zScales) == Ok(plan)
    ensures plan.zMin == ColumnMin(extents, 4) && plan.zMax == ColumnMax(extents, 5)
    ensures plan.depth == GridDepth(plan.zMin, plan.zMax, zScales[0])
  {
  }

  /** The widths planned for tile `k`. */
  lemma PlanAt(images: seq<Volume>, extents: seq<seq<real>>, zScales: seq<real>, plan: ZPlan, k: int)
    requires |images| == |extents| == |zScales| && LeadPositive(zScales)
    requires PlanZ(images, extents, zScales) == Ok(plan) && 0 <= k < |extents|
    ensures plan.below[k] == RoundHalfEven(Step(extents[k][4], plan.zMin, zScales[0]))
    ensures plan.above[k] == plan.depth - plan.below[k] - images[k].n2
  {
  }

  /** The first tile `np.pad` refuses (a negative width), or the number of tiles. */
  function FirstRefused(plan: ZPlan): (n: nat)
    requires |plan.below| == |plan.above|
    ensures n <= |plan.below|
    ensures forall k :: 0 <= k < n ==> plan.below[k] >= 0 && plan.above[k] >= 0
    ensures n < |plan.below| ==> plan.below[n] < 0 || plan.above[n] < 0
  {
    FirstRefusedFrom(plan, 0)
  }

  function FirstRefusedFrom(plan: ZPlan, i: nat): (n: nat)
    requires |plan.below| == |plan.above| && i <= |plan.below|
    requires forall k :: 0 <= k < i ==> plan.below[k] >= 0 && plan.above[k] >= 0
    ensures i <= n <= |plan.below|
    ensures forall k :: 0 <= k < n ==> plan.below[k] >= 0 && plan.above[k] >= 0
    ensures n < |plan.below| ==> plan.below[n] < 0 || plan.above[n] < 0
    decreases |plan.below| - i
  {
    if i == |plan.below| || plan.below[i] < 0 || plan.above[i] < 0 then i
    else FirstRefusedFrom(plan, i + 1)
  }

  /** The stacks once the first `n` tiles have been padded. */
  function PaddedImages(images: seq<Volume>, plan: ZPlan, n: nat): (r: seq<Volume>)
    requires |plan.below| == |plan.above| == |images| && n <= |images| && AllShaped(images)
    requires forall k :: 0 <= k < n ==> plan.below[k] >= 0 && plan.above[k] >= 0
    ensures |r| == |images|
  {
    seq(|images|, k requires 0 <= k < |images| =>
      if k < n then PadZ(images[k], plan.below[k], plan.above[k]) else images[k])
  }

  /** The extents once the first `n` tiles have had their z bounds set to the grid's (`extent[4:] = [z_min, z_max]`). */
  function Rebounded(extents: seq<seq<real>>, plan: ZPlan, n: nat): (r: seq<seq<real>>)
    requires HasZ(extents) && n <= |extents|
    ensures |r| == |extents|
  {
    seq(|extents|, k requires 0 <= k < |extents| =>
      if k < n then extents[k][..4] + [plan.zMin, plan.zMax] else extents[k])
  }

  /** The message `np.pad` raises for a negative width. */
  const NegativePad := "index can't contain negative values"

  /**
   * The padding step of `load_piece`: the outcome and the tiles' stacks and
   * extents. A refused tile raises after the tiles before it were padded.
   */
  function Aligned(images: seq<Volume>, extents: seq<seq<real>>, zScales: seq<real>): (Outcome, seq<Volume>, seq<seq<real>>)
    requires |images| == |extents| == |zScales| && LeadPositive(zScales) && AllShaped(images)
  {
    match PlanZ(images, extents, zScales)
    case Err(e) => (Fail(e), images, extents)
    case Ok(plan) =>
      var n := FirstRefused(plan);
      (if n < |images| then Fail(ValueError(NegativePad)) else Pass,
       PaddedImages(images, plan, n), Rebounded(extents, plan, n))
  }

  /** One pass of the padding loop: tile `k`'s stack padded and its z bounds replaced. */
  method PadTile(ts: seq<Tile>, k: nat, pb: nat, pt: nat, zMin: real, zMax: real)
    requires forall i, j :: 0 <= i < j < |ts| ==> ts[i] != ts[j]
    requires k < |ts| && ts[k].image.Shaped() && |ts[k].extent| >= 4
    modifies ts[k]
    ensures ImagesOf(ts) == old(ImagesOf(ts))[k := PadZ(old(ts[k].image), pb, pt)]
    ensures ExtentsOf(ts) == old(ExtentsOf(ts))[k := old(ts[k].extent)[..4] + [zMin, zMax]]
  {
    ghost var images := ImagesOf(ts);
    ghost var extents := ExtentsOf(ts);
    ts[k].image := PadZ(ts[k].image, pb, pt);
    ts[k].extent := ts[k].extent[..4] + [zMin, zMax];
    assert ImagesOf(ts) == images[k := ts[k].image];
    assert ExtentsOf(ts) == extents[k := ts[k].extent];
  }

  /** One more tile padded. */
  lemma PaddedStep(images: seq<Volume>, extents: seq<seq<real>>, plan: ZPlan, k: nat)
    requires |plan.below| == |plan.above| == |images| == |extents| && k < |images| && AllShaped(images) && HasZ(extents)
    requires forall j :: 0 <= j <= k ==> plan.below[j] >= 0 && plan.above[j] >= 0
    ensures PaddedImages(images, plan, k + 1) == PaddedImages(images, plan, k)[k := PadZ(images[k], plan.below[k], plan.above[k])]
    ensures Rebounded(extents, plan, k + 1) == Rebounded(extents, plan, k)[k := extents[k][..4] + [plan.zMin, plan.zMax]]
  {
  }

  /** The padding loop over the planned widths, stopping at the first tile `np.pad` refuses. */
  method PadTiles(ts: seq<Tile>, ghost images: seq<Volume>, ghost extents: seq<seq<real>>, plan: ZPlan) returns (r: Outcome)
    requires forall i, j :: 0 <= i < j < |ts| ==> ts[i] != ts[j]
    requires ImagesOf(ts) == images && ExtentsOf(ts) == extents && AllShaped(images) && HasZ(extents)
    requires |plan.below| == |plan.above| == |ts|
    modifies set t | t in ts
    ensures var n := FirstRefused(plan);
      && r == (if n < |ts| then Fail(ValueError(NegativePad)) else Pass)
      && ImagesOf(ts) == PaddedImages(images, plan, n)
      && ExtentsOf(ts) == Rebounded(extents, plan, n)
  {
    for k := 0 to |ts|
      invariant forall j :: 0 <= j < k ==> plan.below[j] >= 0 && plan.above[j] >= 0
      invariant ImagesOf(ts) == PaddedImages(images, plan, k)
      invariant ExtentsOf(ts) == Rebounded(extents, plan, k)
    {
      if plan.below[k] < 0 || plan.above[k] < 0 {
        assert FirstRefused(plan) == k;
        return Fail(ValueError(NegativePad));
      }
      PaddedStep(images, extents, plan, k);
      PadTile(ts, k, plan.below[k], plan.above[k], plan.zMin, plan.zMax);
    }
    assert FirstRefused(plan) == |ts|;
    return Pass;
  }

  /**
   * The padding step of `load_piece`, in place on the piece's tiles: the
   * outcome and the new stacks and extents are those `Aligned` gives.
   */
  method AlignZ(ts: seq<Tile>) returns (r: Outcome)
    requires forall i, j :: 0 <= i < j < |ts| ==> ts[i] != ts[j]
    requires AllShaped(ImagesOf(ts)) && LeadPositive(ZScalesOf(ts))
    modifies set t | t in ts
    ensures (r, ImagesOf(ts), ExtentsOf(ts)) == Aligned(old(ImagesOf(ts)), old(ExtentsOf(ts)), ZScalesOf(ts))
  {
    var images := ImagesOf(ts);
    var extents := ExtentsOf(ts);
    var planned := PlanZ(images, extents, ZScalesOf(ts));
    if planned.Err? {
      return Fail(planned.error);
    }
    r := PadTiles(ts, images, extents, planned.value);
  }

  // What the alignment promises

  /** A quotient bounded on both sides bounds the dividend by the scaled bounds. */
  lemma Scaled(x: real, s: real, lo: real, hi: real)
    requires s > 0.0 && lo <= x / s <= hi
    ensures lo * s <= x <= hi * s
  {
    assert x == (x / s) * s;
  }

  /** `d` slices of size `zs` reach from `lo` to `hi`, and one fewer would not. */
  predicate Spans(lo: real, hi: real, zs: real, d: int) {
    (d - 1) as real * zs < hi - lo <= d as real * zs
  }

  /** `lb` lies within half a slice of the `n`th grid line above `zMin`. */
  predicate NearLine(lb: real, zMin: real, zs: real, n: int) {
    zMin + n as real * zs - zs / 2.0 <= lb <= zMin + n as real * zs + zs / 2.0
  }

  /** The grid's slice count: the fewest steps of size `zs` that reach from `lo` to `hi`. */
  lemma CeilSteps(lo: real, hi: real, zs: real, d: int)
    requires zs > 0.0 && d == GridDepth(lo, hi, zs)
    ensures Spans(lo, hi, zs, d)
  {
    var x := hi - lo;
    var s := zs;
    Scaled(x, s, (d - 1) as real, d as real);
    ScaledStrict(x, s, (d - 1) as real);
  }

  lemma ScaledStrict(x: real, s: real, lo: real)
    requires s > 0.0 && lo < x / s
    ensures lo * s < x
  {
    assert x == (x / s) * s;
  }

  /** The rounded step count puts a lower bound within half a step of its grid line. */
  lemma NearestLine(lb: real, zMin: real, zs: real, n: int)
    requires zs > 0.0 && n == RoundHalfEven(Step(lb, zMin, zs))
    ensures NearLine(lb, zMin, zs, n)
  {
    var x := lb - zMin;
    Scaled(x, zs, n as real - 0.5, n as real + 0.5);
  }

  /** No stack is padded by a negative count below: its lower bound is never under the grid's. */
  lemma PlanBelowNonNegative(images: seq<Volume>, extents: seq<seq<real>>, zScales: seq<real>, plan: ZPlan)
    requires |images| == |extents| == |zScales| && LeadPositive(zScales)
    requires PlanZ(images, extents, zScales) == Ok(plan)
    ensures forall k :: 0 <= k < |extents| ==> plan.below[k] >= 0
  {
    forall k | 0 <= k < |extents|
      ensures plan.below[k] >= 0
    {
      assert plan.zMin <= extents[k][4] by {
        PlanCoversTiles(images, extents, zScales, plan, k);
      }
      assert plan.below[k] == RoundHalfEven(Step(extents[k][4], plan.zMin, zScales[0])) by {
        PlanAt(images, extents, zScales, plan, k);
      }
      StepNonNegative(extents[k][4], plan.zMin, zScales[0]);
    }
  }

  /** A lower bound at or above the grid's bottom is a non-negative number of steps up. */
  lemma StepNonNegative(lb: real, zMin: real, zs: real)
    requires zs > 0.0 && zMin <= lb
    ensures RoundHalfEven(Step(lb, zMin, zs)) >= 0
  {
    assert Step(lb, zMin, zs) >= 0.0;
  }

  /** The grid is the fewest slices of the first tile's size that span the lowest to the highest z bound. */
  lemma PlanSpansRange(images: seq<Volume>, extents: seq<seq<real>>, zScales: seq<real>, plan: ZPlan)
    requires |images| == |extents| == |zScales| && LeadPositive(zScales)
    requires PlanZ(images, extents, zScales) == Ok(plan)
    ensures Spans(plan.zMin, plan.zMax, zScales[0], plan.depth)
  {
    assert plan.depth == GridDepth(plan.zMin, plan.zMax, zScales[0]) by {
      PlanGrid(images, extents, zScales, plan);
    }
    CeilSteps(plan.zMin, plan.zMax, zScales[0], plan.depth);
  }

  /** Every tile's z bounds lie within the grid's. */
  lemma PlanCoversTiles(images: seq<Volume>, extents: seq<seq<real>>, zScales: seq<real>, plan: ZPlan, k: int)
    requires |images| == |extents| == |zScales| && LeadPositive(zScales)
    requires PlanZ(images, extents, zScales) == Ok(plan) && 0 <= k < |extents|
    ensures plan.zMin <= extents[k][4] && extents[k][5] <= plan.zMax
  {
    PlanGrid(images, extents, zScales, plan);
  }

  /**
   * Each stack's first slice lands within half a slice of its recorded
   * lower bound on the shared grid: what the padding is for.
   */
  lemma PlanAligns(images: seq<Volume>, extents: seq<seq<real>>, zScales: seq<real>, plan: ZPlan, k: int)
    requires |images| == |extents| == |zScales| && LeadPositive(zScales)
    requires PlanZ(images, extents, zScales) == Ok(plan) && 0 <= k < |extents|
    ensures NearLine(extents[k][4], plan.zMin, zScales[0], plan.below[k])
  {
    assert plan.below[k] == RoundHalfEven(Step(extents[k][4], plan.zMin, zScales[0])) by {
      PlanAt(images, extents, zScales, plan, k);
    }
    NearestLine(extents[k][4], plan.zMin, zScales[0], plan.below[k]);
  }

  /** The step succeeds exactly when the tiles have z bounds and no stack is taller than the grid leaves room for. */
  lemma AlignedOutcome(images: seq<Volume>, extents: seq<seq<real>>, zScales: seq<real>)
    requires |images| == |extents| == |zScales| && LeadPositive(zScales) && AllShaped(images)
    ensures Aligned(images, extents, zScales).0 == Pass <==>
      PlanZ(images, extents, zScales).Ok? && forall k :: 0 <= k < |extents| ==> PlanZ(images, extents, zScales).value.above[k] >= 0
    ensures Aligned(images, extents, zScales).0.Fail? && PlanZ(images, extents, zScales).Ok? ==>
      Aligned(images, extents, zScales).0 == Fail(ValueError(NegativePad))
  {
    if PlanZ(images, extents, zScales).Ok? {
      PlanBelowNonNegative(images, extents, zScales, PlanZ(images, extents, zScales).value);
    }
  }

  /**
   * After a successful step every stack has the grid's slice count, and
   * every extent keeps its x and y bounds and takes the grid's z bounds.
   */
  lemma AlignedUniform(images: seq<Volume>, extents: seq<seq<real>>, zScales: seq<real>, k: int)
    requires |images| == |extents| == |zScales| && LeadPositive(zScales) && AllShaped(images)
    requires Aligned(images, extents, zScales).0 == Pass && 0 <= k < |images|
    ensures var plan := PlanZ(images, extents, zScales).value;
      var (_, padded, rebounded) := Aligned(images, extents, zScales);
      && padded[k].n2 == plan.depth
      && rebounded[k] == extents[k][..4] + [plan.zMin, plan.zMax]
  {
  }

  /** After a successful step each stack holds its slices, unchanged, from its bottom padding on. */
  lemma AlignedContents(images: seq<Volume>, extents: seq<seq<real>>, zScales: seq<real>, k: int, a: int, b: int, c: int, d: int)
    requires |images| == |extents| == |zScales| && LeadPositive(zScales) && AllShaped(images)
    requires Aligned(images, extents, zScales).0 == Pass && 0 <= k < |images| && images[k].InBounds(a, b, c, d)
    ensures var plan := PlanZ(images, extents, zScales).value;
      Aligned(images, extents, zScales).1[k].data[a][b][plan.below[k] + c][d] == images[k].data[a][b][c][d]
  {
    var plan := PlanZ(images, extents, zScales).value;
    PadZContents(images[k], plan.below[k], plan.above[k], a, b, plan.below[k] + c, d);
  }

  /** Padding by nothing leaves a stack as it is. */
  lemma PadZNothing(v: Volume)
    requires v.Shaped()
    ensures PadZ(v, 0, 0) == v
  {
    var w := PadZ(v, 0, 0);
    forall a | 0 <= a < v.n0
      ensures w.data[a] == v.data[a]
    {
      forall b | 0 <= b < v.n1
        ensures w.data[a][b] == v.data[a][b]
      {
        assert w.data[a][b] == ZeroSlices(0, v.n3) + v.data[a][b] + ZeroSlices(0, v.n3);
      }
    }
  }

  /** Tiles whose stacks and z bounds already match one grid. */
  predicate OnGrid(images: seq<Volume>, extents: seq<seq<real>>, zScales: seq<real>, lo: real, hi: real)
    requires |images| == |extents| == |zScales| && LeadPositive(zScales)
  {
    && |extents| > 0
    && (forall k :: 0 <= k < |extents| ==> |extents[k]| == 6 && extents[k][4] == lo && extents[k][5] == hi)
    && (forall k :: 0 <= k < |images| ==> images[k].n2 == GridDepth(lo, hi, zScales[0]))
  }

  /** The plan for tiles on one grid pads nothing. */
  lemma PlanOnGrid(images: seq<Volume>, extents: seq<seq<real>>, zScales: seq<real>, lo: real, hi: real)
    requires |images| == |extents| == |zScales| && LeadPositive(zScales)
    requires OnGrid(images, extents, zScales, lo, hi)
    ensures PlanZ(images, extents, zScales).Ok?
    ensures var plan := PlanZ(images, extents, zScales).value;
      && plan.zMin == lo && plan.zMax == hi
      && forall k :: 0 <= k < |extents| ==> plan.below[k] == 0 && plan.above[k] == 0
  {
    var plan := PlanZ(images, extents, zScales).value;
    PlanGrid(images, extents, zScales, plan);
    var j :| 0 <= j < |extents| && plan.zMin == extents[j][4];
    var i :| 0 <= i < |extents| && plan.zMax == extents[i][5];
    forall k | 0 <= k < |extents|
      ensures plan.below[k] == 0 && plan.above[k] == 0
    {
      PlanAt(images, extents, zScales, plan, k);
      assert Step(extents[k][4], lo, zScales[0]) == 0.0;
    }
  }

  /** Aligning tiles already on one grid changes nothing. */
  lemma AlignedOnGrid(images: seq<Volume>, extents: seq<seq<real>>, zScales: seq<real>, lo: real, hi: real)
    requires |images| == |extents| == |zScales| && LeadPositive(zScales) && AllShaped(images)
    requires OnGrid(images, extents, zScales, lo, hi)
    ensures Aligned(images, extents, zScales) == (Pass, images, extents)
  {
    PlanOnGrid(images, extents, zScales, lo, hi);
    var plan := PlanZ(images, extents, zScales).value;
    assert plan.zMin == lo && plan.zMax == hi;
    PadsNothing(images, extents, plan);
  }

  /** A plan with no padding and the tiles' own z bounds leaves every tile as it is. */
  lemma PadsNothing(images: seq<Volume>, extents: seq<seq<real>>, plan: ZPlan)
    requires |plan.below| == |plan.above| == |images| == |extents| && AllShaped(images)
    requires forall k :: 0 <= k < |extents| ==> plan.below[k] == 0 && plan.above[k] == 0
    requires forall k :: 0 <= k < |extents| ==> |extents[k]| == 6 && extents[k][4] == plan.zMin && extents[k][5] == plan.zMax
    ensures FirstRefused(plan) == |images|
    ensures PaddedImages(images, plan, |images|) == images
    ensures Rebounded(extents, plan, |images|) == extents
  {
    var n := |images|;
    forall k | 0 <= k < n
      ensures PaddedImages(images, plan, n)[k] == images[k]
      ensures Rebounded(extents, plan, n)[k] == extents[k]
    {
      PadZNothing(images[k]);
      assert extents[k][..4] + [plan.zMin, plan.zMax] == extents[k];
    }
  }

  /** Aligning tiles that are already aligned changes nothing. */
  lemma AlignIdempotent(images: seq<Volume>, extents: seq<seq<real>>, zScales: seq<real>)
    requires |images| == |extents| == |zScales| && LeadPositive(zScales) && AllShaped(images)
    requires Aligned(images, extents, zScales).0 == Pass
    ensures var (_, padded, rebounded) := Aligned(images, extents, zScales);
      AllShaped(padded) && Aligned(padded, rebounded, zScales) == (Pass, padded, rebounded)
  {
    var plan := PlanZ(images, extents, zScales).value;
    var (_, padded, rebounded) := Aligned(images, extents, zScales);
    forall k | 0 <= k < |images|
      ensures padded[k].Shaped() && padded[k].n2 == plan.depth
      ensures rebounded[k] == extents[k][..4] + [plan.zMin, plan.zMax]
    {
      AlignedUniform(images, extents, zScales, k);
    }
    AlignedOnGrid(padded, rebounded, zScales, plan.zMin, plan.zMax);
  }
}
