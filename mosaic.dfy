// `Piece.merge_tiles`: the tiles of a piece pasted, in order, onto one zero
// canvas spanning their joint bounding box, so that the last tile written wins.
module Mosaic {
  import opened Wrappers
  import opened Volumes

  /** What `merge_tiles` reads of a tile: its placement record and its image. */
  datatype TileData = TileData(info: Info, image: Volume)

  /**
   * Every image is a well-formed array, and the first tile's voxel size, the
   * only one `merge_tiles` divides by, is positive.
   */
  predicate WellFormed(data: seq<TileData>) {
    && (forall k :: 0 <= k < |data| ==> data[k].image.Shaped())
    && (|data| > 0 ==> Positive(data[0].info.voxelSize))
  }

  function Min(a: real, b: real): real { if a <= b then a else b }

  function Max(a: real, b: real): real { if a <= b then b else a }

  /** `np.vstack(vs).min(axis=0)`: the componentwise least corner. */
  function MinCorner(vs: seq<Vec3>): (m: Vec3)
    requires |vs| > 0
    ensures forall k :: 0 <= k < |vs| ==> m.x <= vs[k].x && m.y <= vs[k].y && m.z <= vs[k].z
    ensures exists k :: 0 <= k < |vs| && m.x == vs[k].x
    ensures exists k :: 0 <= k < |vs| && m.y == vs[k].y
    ensures exists k :: 0 <= k < |vs| && m.z == vs[k].z
  {
    var n := |vs| - 1;
    if n == 0 then vs[0]
    else
      var m := MinCorner(vs[..n]);
      assert forall k :: 0 <= k < n ==> vs[..n][k] == vs[k];
      Vec3(Min(m.x, vs[n].x), Min(m.y, vs[n].y), Min(m.z, vs[n].z))
  }

  /** `np.vstack(vs).max(axis=0)`: the componentwise greatest corner. */
  function MaxCorner(vs: seq<Vec3>): (m: Vec3)
    requires |vs| > 0
    ensures forall k :: 0 <= k < |vs| ==> vs[k].x <= m.x && vs[k].y <= m.y && vs[k].z <= m.z
    ensures exists k :: 0 <= k < |vs| && m.x == vs[k].x
    ensures exists k :: 0 <= k < |vs| && m.y == vs[k].y
    ensures exists k :: 0 <= k < |vs| && m.z == vs[k].z
  {
    var n := |vs| - 1;
    if n == 0 then vs[0]
    else
      var m := MaxCorner(vs[..n]);
      assert forall k :: 0 <= k < n ==> vs[..n][k] == vs[k];
      Vec3(Max(m.x, vs[n].x), Max(m.y, vs[n].y), Max(m.z, vs[n].z))
  }

  function Lowers(data: seq<TileData>): (r: seq<Vec3>)
    ensures |r| == |data| && forall k :: 0 <= k < |data| ==> r[k] == data[k].info.lower
  {
    seq(|data|, k requires 0 <= k < |data| => data[k].info.lower)
  }

  function Uppers(data: seq<TileData>): (r: seq<Vec3>)
    ensures |r| == |data| && forall k :: 0 <= k < |data| ==> r[k] == data[k].info.upper
  {
    seq(|data|, k requires 0 <= k < |data| => data[k].info.upper)
  }

  /** Integer voxel offsets or sizes along the canvas axes. */
  datatype Idx3 = Idx3(a: int, b: int, c: int)

  /** The merged bounding box, the voxel size of the first tile, and the canvas size in voxels. */
  datatype Layout = Layout(lower: Vec3, upper: Vec3, voxel: Vec3, dims: Idx3)

  /**
   * The canvas of `merge_tiles`: from `floor(merged_lb / scaling)` to
   * `ceil(merged_ub / scaling)` on each axis.
   */
  function LayoutOf(data: seq<TileData>): (l: Layout)
    requires |data| > 0 && WellFormed(data)
    ensures Positive(l.voxel)
    ensures forall k :: 0 <= k < |data| ==>
      l.lower.x <= data[k].info.lower.x && l.lower.y <= data[k].info.lower.y && l.lower.z <= data[k].info.lower.z
  {
    var lb, ub, s := MinCorner(Lowers(data)), MaxCorner(Uppers(data)), data[0].info.voxelSize;
    Layout(lb, ub, s, Idx3(Cells(lb.x, ub.x, s.x), Cells(lb.y, ub.y, s.y), Cells(lb.z, ub.z, s.z)))
  }

  /** Voxels of size `s` from `floor(lb / s)` to `ceil(ub / s)`. */
  function Cells(lb: real, ub: real, s: real): (n: int)
    requires s > 0.0
    ensures lb <= ub ==> n >= 0
  {
    Ceil(ub / s) - (lb / s).Floor
  }

  predicate NonNegative(i: Idx3) {
    i.a >= 0 && i.b >= 0 && i.c >= 0
  }

  /** `tile_lb`: the tile's lower corner relative to the merged one, in rounded voxels. */
  function Offset(l: Layout, t: TileData): Idx3
    requires Positive(l.voxel)
  {
    Idx3(
      RoundHalfEven((t.info.lower.x - l.lower.x) / l.voxel.x),
      RoundHalfEven((t.info.lower.y - l.lower.y) / l.voxel.y),
      RoundHalfEven((t.info.lower.z - l.lower.z) / l.voxel.z))
  }

  /** A slice bound `i` of `a[i:...]` on an axis of length `n`, normalised as Python does. */
  function SliceBound(i: int, n: int): (r: int)
    requires n >= 0
    ensures 0 <= r <= n
  {
    if i < 0 then (if i + n < 0 then 0 else i + n) else if i <= n then i else n
  }

  /** The first canvas voxel of the tile's slot, per axis. */
  function SlotStart(l: Layout, t: TileData): Idx3
    requires Positive(l.voxel) && NonNegative(l.dims)
  {
    var o := Offset(l, t);
    Idx3(SliceBound(o.a, l.dims.a), SliceBound(o.b, l.dims.b), SliceBound(o.c, l.dims.c))
  }

  /** One past the last canvas voxel of the slot: `tile_ub = tile_lb + image.shape[:-1]`. */
  function SlotStop(l: Layout, t: TileData): Idx3
    requires Positive(l.voxel) && NonNegative(l.dims)
  {
    var o := Offset(l, t);
    Idx3(
      SliceBound(o.a + t.image.n0, l.dims.a),
      SliceBound(o.b + t.image.n1, l.dims.b),
      SliceBound(o.c + t.image.n2, l.dims.c))
  }

  /** A tile as it lands on the canvas: its (clipped) slot and its image. */
  datatype Placed = Placed(start: Idx3, stop: Idx3, image: Volume)

  function Place(l: Layout, t: TileData): (p: Placed)
    requires Positive(l.voxel) && NonNegative(l.dims)
    ensures p.image == t.image
  {
    Placed(SlotStart(l, t), SlotStop(l, t), t.image)
  }

  predicate AllShaped(ps: seq<Placed>) {
    forall k :: 0 <= k < |ps| ==> ps[k].image.Shaped()
  }

  /** Every tile placed on the canvas of `l`, in order. */
  function Placements(l: Layout, data: seq<TileData>): (ps: seq<Placed>)
    requires Positive(l.voxel) && NonNegative(l.dims)
    ensures |ps| == |data|
    ensures forall k :: 0 <= k < |data| ==> ps[k] == Place(l, data[k])
    ensures WellFormed(data) ==> AllShaped(ps)
  {
    seq(|data|, k requires 0 <= k < |data| => Place(l, data[k]))
  }

  function Span(start: int, stop: int): nat {
    if stop <= start then 0 else stop - start
  }

  predicate Inside(p: Placed, a: int, b: int, c: int) {
    p.start.a <= a < p.stop.a && p.start.b <= b < p.stop.b && p.start.c <= c < p.stop.c
  }

  /** numpy broadcasting of one source axis onto one target axis. */
  predicate Broadcasts(source: nat, target: nat) {
    source == target || source == 1
  }

  /**
   * The pasted block `image[::-1, ::-1, ::-1].swapaxes(0, 1)` has shape
   * `(n1, n0, n2, n3)`; it must broadcast onto the slot and the 3 channels.
   */
  predicate Fits(p: Placed) {
    && Broadcasts(p.image.n1, Span(p.start.a, p.stop.a))
    && Broadcasts(p.image.n0, Span(p.start.b, p.stop.b))
    && Broadcasts(p.image.n2, Span(p.start.c, p.stop.c))
    && Broadcasts(p.image.n3, 3)
  }

  /**
   * The value the tile writes at canvas voxel `(a, b, c, d)` of its slot:
   * x, y and z reversed, x and y swapped, size-1 axes repeated.
   */
  function SourceAt(p: Placed, a: int, b: int, c: int, d: int): real
    requires p.image.Shaped() && Fits(p) && Inside(p, a, b, c) && 0 <= d < 3
  {
    var s, v := p.start, p.image;
    var va := if v.n1 == 1 then 0 else a - s.a;
    var vb := if v.n0 == 1 then 0 else b - s.b;
    var vc := if v.n2 == 1 then 0 else c - s.c;
    var vd := if v.n3 == 1 then 0 else d;
    v.data[v.n0 - 1 - vb][v.n1 - 1 - va][v.n2 - 1 - vc][vd]
  }

  /** The first `k` placed tiles all broadcast onto their slots. */
  predicate AllFit(ps: seq<Placed>, k: int) {
    forall j :: 0 <= j < k && j < |ps| ==> Fits(ps[j])
  }

  /** The canvas voxel after the first `k` tiles are pasted, each over the ones before it. */
  function Painted(ps: seq<Placed>, k: nat, a: int, b: int, c: int, d: int): real
    requires AllShaped(ps) && k <= |ps| && AllFit(ps, k)
  {
    if k == 0 then 0.0
    else if Inside(ps[k - 1], a, b, c) && 0 <= d < 3 then SourceAt(ps[k - 1], a, b, c, d)
    else Painted(ps, k - 1, a, b, c, d)
  }

  /** A voxel no tile's slot covers keeps the fill value 0. */
  lemma {:induction false} PaintedBlank(ps: seq<Placed>, k: nat, a: int, b: int, c: int, d: int)
    requires AllShaped(ps) && k <= |ps| && AllFit(ps, k)
    requires forall j :: 0 <= j < k ==> !Inside(ps[j], a, b, c)
    ensures Painted(ps, k, a, b, c, d) == 0.0
  {
    if k > 0 {
      PaintedBlank(ps, k - 1, a, b, c, d);
    }
  }

  /** Where slots overlap, the voxel holds what the last tile covering it wrote. */
  lemma {:induction false} PaintedLastWins(ps: seq<Placed>, k: nat, j: nat, a: int, b: int, c: int, d: int)
    requires AllShaped(ps) && k <= |ps| && AllFit(ps, k)
    requires j < k && Inside(ps[j], a, b, c) && 0 <= d < 3
    requires forall m :: j < m < k ==> !Inside(ps[m], a, b, c)
    ensures Painted(ps, k, a, b, c, d) == SourceAt(ps[j], a, b, c, d)
  {
    if j < k - 1 {
      PaintedLastWins(ps, k - 1, j, a, b, c, d);
    }
  }

  /** Every tile lies at a non-negative offset from the merged lower corner. */
  lemma OffsetsNonNegative(data: seq<TileData>, k: int)
    requires |data| > 0 && WellFormed(data) && 0 <= k < |data|
    ensures NonNegative(Offset(LayoutOf(data), data[k]))
  {
    OffsetBelow(LayoutOf(data), data[k]);
  }

  lemma OffsetBelow(l: Layout, t: TileData)
    requires Positive(l.voxel)
    requires l.lower.x <= t.info.lower.x && l.lower.y <= t.info.lower.y && l.lower.z <= t.info.lower.z
    ensures NonNegative(Offset(l, t))
  {
    var p := t.info.lower;
    OffsetAxis(p.x, l.lower.x, l.voxel.x);
    OffsetAxis(p.y, l.lower.y, l.voxel.y);
    OffsetAxis(p.z, l.lower.z, l.voxel.z);
  }

  lemma OffsetAxis(p: real, lower: real, s: real)
    requires lower <= p && s > 0.0
    ensures RoundHalfEven((p - lower) / s) >= 0
  {
    assert (p - lower) / s >= 0.0;
  }

  /**
   * A tile whose x and y sizes differ (neither being 1) and whose slot lies
   * wholly inside the canvas cannot be pasted: the swapped block does not
   * broadcast onto the slot.
   */
  lemma NonSquareRejected(l: Layout, t: TileData)
    requires Positive(l.voxel) && NonNegative(l.dims)
    requires t.image.n0 != t.image.n1 && t.image.n0 > 1 && t.image.n1 > 1
    requires var o := Offset(l, t); 0 <= o.a && o.a + t.image.n0 <= l.dims.a
    ensures !Fits(Place(l, t))
  {
  }

  /** `merged_image.swapaxes(0, 1)`, read out of the canvas. */
  function SwapXY(canvas: array4<real>): (v: Volume)
    reads canvas
    ensures v.Shaped()
    ensures v.n0 == canvas.Length1 && v.n1 == canvas.Length0 && v.n2 == canvas.Length2 && v.n3 == canvas.Length3
    ensures forall b, a, c, d :: v.InBounds(b, a, c, d) ==> v.data[b][a][c][d] == canvas[a, b, c, d]
  {
    Volume(canvas.Length1, canvas.Length0, canvas.Length2, canvas.Length3,
      seq(canvas.Length1, b requires 0 <= b < canvas.Length1 reads canvas =>
        seq(canvas.Length0, a requires 0 <= a < canvas.Length0 reads canvas =>
          seq(canvas.Length2, c requires 0 <= c < canvas.Length2 reads canvas =>
            seq(canvas.Length3, d requires 0 <= d < canvas.Length3 reads canvas => canvas[a, b, c, d])))))
  }

  lemma AllFitStep(ps: seq<Placed>, k: nat)
    requires k < |ps| && AllFit(ps, k) && Fits(ps[k])
    ensures AllFit(ps, k + 1)
  {
  }

  /** Canvas voxel `(a, b, c, d)` of a canvas of `dims` voxels with three channels. */
  predicate OnCanvas(dims: Idx3, a: int, b: int, c: int, d: int) {
    0 <= a < dims.a && 0 <= b < dims.b && 0 <= c < dims.c && 0 <= d < 3
  }

  /** `merged_image[tile_lb[0]:tile_ub[0], ...] = img`: tile `k` written over the canvas. */
  method Paste(canvas: array4<real>, dims: Idx3, ps: seq<Placed>, k: nat)
    requires AllShaped(ps) && k < |ps| && AllFit(ps, k + 1)
    requires canvas.Length0 == dims.a && canvas.Length1 == dims.b && canvas.Length2 == dims.c && canvas.Length3 == 3
    requires forall a, b, c, d :: OnCanvas(dims, a, b, c, d) ==> canvas[a, b, c, d] == Painted(ps, k, a, b, c, d)
    modifies canvas
    ensures forall a, b, c, d :: OnCanvas(dims, a, b, c, d) ==> canvas[a, b, c, d] == Painted(ps, k + 1, a, b, c, d)
  {
    var p := ps[k];
    forall a, b, c, d | 0 <= a < dims.a && 0 <= b < dims.b && 0 <= c < dims.c && 0 <= d < 3 && Inside(p, a, b, c) {
      canvas[a, b, c, d] := SourceAt(p, a, b, c, d);
    }
  }

  /** The tiles pasted in order; false at the first one that does not fit. */
  method PasteAll(canvas: array4<real>, dims: Idx3, ps: seq<Placed>) returns (fits: bool)
    requires AllShaped(ps)
    requires canvas.Length0 == dims.a && canvas.Length1 == dims.b && canvas.Length2 == dims.c && canvas.Length3 == 3
    requires forall a, b, c, d :: OnCanvas(dims, a, b, c, d) ==> canvas[a, b, c, d] == 0.0
    modifies canvas
    ensures fits <==> AllFit(ps, |ps|)
    ensures fits ==> forall a, b, c, d :: OnCanvas(dims, a, b, c, d) ==> canvas[a, b, c, d] == Painted(ps, |ps|, a, b, c, d)
  {
    var k := 0;
    while k < |ps|
      invariant 0 <= k <= |ps| && AllFit(ps, k)
      invariant forall a, b, c, d :: OnCanvas(dims, a, b, c, d) ==> canvas[a, b, c, d] == Painted(ps, k, a, b, c, d)
    {
      if !Fits(ps[k]) {
        return false;
      }
      AllFitStep(ps, k);
      Paste(canvas, dims, ps, k);
      k := k + 1;
    }
    return true;
  }

  /** The `ValueError` numpy raises in `merge_tiles`, if any. */
  function MergeError(data: seq<TileData>): Option<Error>
    requires WellFormed(data)
  {
    if |data| == 0 then Some(ValueError("need at least one array to concatenate"))
    else if !NonNegative(LayoutOf(data).dims) then Some(ValueError("negative dimensions are not allowed"))
    else if !AllFit(Placements(LayoutOf(data), data), |data|) then Some(ValueError("could not broadcast input array"))
    else None
  }

  /**
   * The merged tile: placed at the joint bounding box with the first tile's
   * voxel size; its image is the painted canvas with x and y swapped back.
   */
  ghost predicate Merged(data: seq<TileData>, info: Info, image: Volume)
    requires WellFormed(data) && MergeError(data).None?
  {
    var l := LayoutOf(data);
    && info == Info(l.lower, l.upper, l.voxel)
    && image.Shaped()
    && image.n0 == l.dims.b && image.n1 == l.dims.a && image.n2 == l.dims.c && image.n3 == 3
    && forall b, a, c, d :: image.InBounds(b, a, c, d) ==>
         image.data[b][a][c][d] == Painted(Placements(l, data), |data|, a, b, c, d)
  }

  /**
   * The numeric core of `merge_tiles`: the merged placement record and the
   * merged image, or the `ValueError` numpy raises for no tiles, a negative
   * canvas size, or a tile that does not broadcast onto its slot.
   */
  method Merge(data: seq<TileData>) returns (r: Result<(Info, Volume)>)
    requires WellFormed(data)
    ensures MergeError(data).Some? ==> r == Err(MergeError(data).value)
    ensures MergeError(data).None? ==> r.Ok? && Merged(data, r.value.0, r.value.1)
  {
    if |data| == 0 {
      return Err(ValueError("need at least one array to concatenate"));
    }
    var l := LayoutOf(data);
    if !NonNegative(l.dims) {
      return Err(ValueError("negative dimensions are not allowed"));
    }
    var canvas := Blank(l.dims);
    var fits := PasteAll(canvas, l.dims, Placements(l, data));
    if !fits {
      return Err(ValueError("could not broadcast input array"));
    }
    MergedCanvas(data, canvas);
    return Ok((Info(l.lower, l.upper, l.voxel), SwapXY(canvas)));
  }

  /** `np.zeros(...)`: a fresh all-zero canvas of the given size with three channels. */
  method Blank(dims: Idx3) returns (canvas: array4<real>)
    requires NonNegative(dims)
    ensures fresh(canvas)
    ensures canvas.Length0 == dims.a && canvas.Length1 == dims.b && canvas.Length2 == dims.c && canvas.Length3 == 3
    ensures forall a, b, c, d :: OnCanvas(dims, a, b, c, d) ==> canvas[a, b, c, d] == 0.0
  {
    canvas := new real[dims.a, dims.b, dims.c, 3]((a, b, c, d) => 0.0);
  }

  /** A canvas painted with every tile, read back with x and y swapped, is the merged image. */
  lemma MergedCanvas(data: seq<TileData>, canvas: array4<real>)
    requires WellFormed(data) && MergeError(data).None?
    requires var l := LayoutOf(data);
      && canvas.Length0 == l.dims.a && canvas.Length1 == l.dims.b && canvas.Length2 == l.dims.c && canvas.Length3 == 3
      && forall a, b, c, d :: OnCanvas(l.dims, a, b, c, d) ==>
           canvas[a, b, c, d] == Painted(Placements(l, data), |data|, a, b, c, d)
    ensures var l := LayoutOf(data); Merged(data, Info(l.lower, l.upper, l.voxel), SwapXY(canvas))
  {
  }
}
