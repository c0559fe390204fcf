// `model.Tile`: one image stack of a piece, with its physical placement, the
// affine maps between voxel indices and physical coordinates, and the
// bounding-box test.
module Volumes {
  import opened Wrappers
  import opened Geometry

  /** `np.round`: the nearest integer, a tie going to the even neighbour. */
  function RoundHalfEven(r: real): (n: int)
    ensures n as real - 0.5 <= r <= n as real + 0.5
    ensures (r - n as real == 0.5 || n as real - r == 0.5) ==> n % 2 == 0
    ensures r >= 0.0 ==> n >= 0
  {
    var f := r.Floor;
    var frac := r - f as real;
    if frac < 0.5 then f
    else if frac > 0.5 then f + 1
    else if f % 2 == 0 then f
    else f + 1
  }

  /** `np.ceil` followed by `int(...)`: the least integer not below `r`. */
  function Ceil(r: real): (n: int)
    ensures (n - 1) as real < r <= n as real
  {
    if r.Floor as real == r then r.Floor else r.Floor + 1
  }

  /** A physical (x, y, z) triple, or a triple of fractional voxel indices. */
  datatype Vec3 = Vec3(x: real, y: real, z: real)

  predicate Positive(v: Vec3) {
    v.x > 0.0 && v.y > 0.0 && v.z > 0.0
  }

  /**
   * The tile's `info` record: the physical position of its first voxel, the
   * far corner, and the size of one voxel (read as `info["scaling"]` by
   * model.py and as `info["voxel_size"]` by readers.py).
   */
  datatype Info = Info(lower: Vec3, upper: Vec3, voxelSize: Vec3)

  /** Voxel values indexed `[x][y][z][channel]`. */
  type Grid = seq<seq<seq<seq<real>>>>

  /** A numpy array of shape `(n0, n1, n2, n3)`. */
  datatype Volume = Volume(n0: nat, n1: nat, n2: nat, n3: nat, data: Grid) {
    predicate Shaped() {
      && |data| == n0
      && (forall a :: 0 <= a < n0 ==> |data[a]| == n1)
      && (forall a, b :: 0 <= a < n0 && 0 <= b < n1 ==> |data[a][b]| == n2)
      && (forall a, b, c :: 0 <= a < n0 && 0 <= b < n1 && 0 <= c < n2 ==> |data[a][b][c]| == n3)
    }

    predicate InBounds(a: int, b: int, c: int, d: int) {
      0 <= a < n0 && 0 <= b < n1 && 0 <= c < n2 && 0 <= d < n3
    }
  }

  /** `k` z-slices of zeros, each with `n3` channels. */
  function ZeroSlices(k: nat, n3: nat): (r: seq<seq<real>>)
    ensures |r| == k && forall c :: 0 <= c < k ==> |r[c]| == n3 && forall d :: 0 <= d < n3 ==> r[c][d] == 0.0
  {
    seq(k, c requires 0 <= c < k => seq(n3, d requires 0 <= d < n3 => 0.0))
  }

  /**
   * `np.pad(image, [(0, 0), (0, 0), (pb, pt), (0, 0)])`: `pb` zero slices
   * below and `pt` above on the z axis; every other axis is unchanged.
   */
  function PadZ(v: Volume, pb: nat, pt: nat): (r: Volume)
    requires v.Shaped()
    ensures r.Shaped()
    ensures r.n0 == v.n0 && r.n1 == v.n1 && r.n2 == pb + v.n2 + pt && r.n3 == v.n3
  {
    var data := seq(v.n0, a requires 0 <= a < v.n0 =>
      seq(v.n1, b requires 0 <= b < v.n1 => ZeroSlices(pb, v.n3) + v.data[a][b] + ZeroSlices(pt, v.n3)));
    forall a, b | 0 <= a < v.n0 && 0 <= b < v.n1
      ensures |data[a][b]| == pb + v.n2 + pt
    {
      assert data[a][b] == ZeroSlices(pb, v.n3) + v.data[a][b] + ZeroSlices(pt, v.n3);
    }
    forall a, b, c | 0 <= a < v.n0 && 0 <= b < v.n1 && 0 <= c < pb + v.n2 + pt
      ensures |data[a][b][c]| == v.n3
    {
      var column := ZeroSlices(pb, v.n3) + v.data[a][b] + ZeroSlices(pt, v.n3);
      assert data[a][b] == column;
      if c < pb {
        assert column[c] == ZeroSlices(pb, v.n3)[c];
      } else if c < pb + v.n2 {
        assert column[c] == v.data[a][b][c - pb];
      } else {
        assert column[c] == ZeroSlices(pt, v.n3)[c - pb - v.n2];
      }
    }
    Volume(v.n0, v.n1, pb + v.n2 + pt, v.n3, data)
  }

  /** The padded stack holds the original slices from offset `pb` on, and zeros around them. */
  lemma PadZContents(v: Volume, pb: nat, pt: nat, a: int, b: int, c: int, d: int)
    requires v.Shaped() && PadZ(v, pb, pt).InBounds(a, b, c, d)
    ensures pb <= c < pb + v.n2 ==> PadZ(v, pb, pt).data[a][b][c][d] == v.data[a][b][c - pb][d]
    ensures !(pb <= c < pb + v.n2) ==> PadZ(v, pb, pt).data[a][b][c][d] == 0.0
  {
    var column := ZeroSlices(pb, v.n3) + v.data[a][b] + ZeroSlices(pt, v.n3);
    assert PadZ(v, pb, pt).data[a][b] == column;
    if c < pb {
      assert column[c] == ZeroSlices(pb, v.n3)[c];
    } else if c < pb + v.n2 {
      assert column[c] == v.data[a][b][c - pb];
    } else {
      assert column[c] == ZeroSlices(pt, v.n3)[c - pb - v.n2];
    }
  }

  /** The six-element extent `[xlb, xub, ylb, yub, zlb, zub]` of a tile placed by `info`. */
  function ExtentOf(info: Info): (e: seq<real>)
    ensures |e| == 6
  {
    [info.lower.x, info.upper.x, info.lower.y, info.upper.y, info.lower.z, info.upper.z]
  }

  /**
   * `extent[k] <= v <= extent[k + 1]` as Python evaluates the chain: the
   * upper bound is only read when the lower comparison holds; a missing
   * bound raises `IndexError`.
   */
  function ChainedIn(extent: seq<real>, k: nat, v: real): (r: Result<bool>)
    ensures |extent| >= k + 2 ==> r == Ok(extent[k] <= v <= extent[k + 1])
    ensures |extent| <= k ==> r == Err(IndexError)
  {
    if |extent| <= k then Err(IndexError)
    else if !(extent[k] <= v) then Ok(false)
    else if |extent| <= k + 1 then Err(IndexError)
    else Ok(v <= extent[k + 1])
  }

  /** A tile's saved state: `{"extent": extent}`, the key possibly missing. */
  datatype TileState = TileState(extent: Option<seq<real>>)

  /** `model.Tile`: an image stack, its placement record, its source name and its editable extent. */
  class Tile {
    const info: Info
    /** The stem of the file or the stack name the tile was read from. */
    const source: string
    var image: Volume
    var extent: seq<real>

    predicate Valid()
      reads this
    {
      image.Shaped() && Positive(info.voxelSize)
    }

    /** `Tile(info, image, source)`: the extent starts as the box `info` spans. */
    constructor (info: Info, image: Volume, source: string)
      ensures this.info == info && this.image == image && this.source == source
      ensures extent == ExtentOf(info)
    {
      this.info := info;
      this.image := image;
      this.source := source;
      extent := ExtentOf(info);
    }

    /**
     * `contains(x, y)`: both chained tests run before they are combined, so
     * an extent with fewer than three bounds always raises.
     */
    function Contains(x: real, y: real): (r: Result<bool>)
      reads this
      ensures |extent| >= 4 ==> r == Ok(extent[0] <= x <= extent[1] && extent[2] <= y <= extent[3])
      ensures |extent| <= 2 ==> r == Err(IndexError)
    {
      match ChainedIn(extent, 0, x)
      case Err(e) => Err(e)
      case Ok(inX) =>
        match ChainedIn(extent, 2, y)
        case Err(e) => Err(e)
        case Ok(inY) => Ok(inX && inY)
    }

    /** `to_coords(x, y, z)`: physical = index * voxel size + lower corner, per axis. */
    function ToCoords(idx: Vec3): (p: Vec3) {
      Vec3(
        idx.x * info.voxelSize.x + info.lower.x,
        idx.y * info.voxelSize.y + info.lower.y,
        idx.z * info.voxelSize.z + info.lower.z)
    }

    /** `to_indices(x, y, z)`: index = (physical - lower corner) / voxel size, per axis. */
    function ToIndices(p: Vec3): (idx: Vec3)
      requires Positive(info.voxelSize)
    {
      Vec3(
        (p.x - info.lower.x) / info.voxelSize.x,
        (p.y - info.lower.y) / info.voxelSize.y,
        (p.z - info.lower.z) / info.voxelSize.z)
    }

    /**
     * `to_coords(x, y)`: the z column is filled with `lower[-1]` and dropped
     * from the result, so only x and y matter.
     */
    function ToCoordsXY(idx: Point): (p: Point) {
      var q := ToCoords(Vec3(idx.x, idx.y, info.lower.z));
      Point(q.x, q.y)
    }

    /** `to_indices(x, y)`, with the same z filling as `to_coords(x, y)`. */
    function ToIndicesXY(p: Point): (idx: Point)
      requires Positive(info.voxelSize)
    {
      var q := ToIndices(Vec3(p.x, p.y, info.lower.z));
      Point(q.x, q.y)
    }

    /** `to_indices_delta(v, axis)`: a physical length in voxels along `x`, `y` or `z`. */
    function ToIndicesDelta(v: real, axis: string): (r: Result<real>)
      requires Positive(info.voxelSize)
      ensures r.Err? <==> axis !in {"x", "y", "z"}
      ensures r.Err? ==> r.error == ValueError("Unsupported axis")
    {
      if axis == "x" then Ok(v / info.voxelSize.x)
      else if axis == "y" then Ok(v / info.voxelSize.y)
      else if axis == "z" then Ok(v / info.voxelSize.z)
      else Err(ValueError("Unsupported axis"))
    }

    /** Mapping indices to coordinates and back gives the indices again. */
    lemma IndicesOfCoords(idx: Vec3)
      requires Positive(info.voxelSize)
      ensures ToIndices(ToCoords(idx)) == idx
    {
      Cancel(idx.x, info.voxelSize.x, info.lower.x);
      Cancel(idx.y, info.voxelSize.y, info.lower.y);
      Cancel(idx.z, info.voxelSize.z, info.lower.z);
    }

    /** Mapping coordinates to indices and back gives the coordinates again. */
    lemma CoordsOfIndices(p: Vec3)
      requires Positive(info.voxelSize)
      ensures ToCoords(ToIndices(p)) == p
    {
      var idx := ToIndices(p);
      Uncancel(p.x, info.voxelSize.x, info.lower.x);
      Uncancel(p.y, info.voxelSize.y, info.lower.y);
      Uncancel(p.z, info.voxelSize.z, info.lower.z);
      assert idx.z == (p.z - info.lower.z) / info.voxelSize.z;
      assert ToCoords(idx).z == idx.z * info.voxelSize.z + info.lower.z;
    }

    /** The two-column maps are inverse to each other as well. */
    lemma RoundTripXY(idx: Point, p: Point)
      requires Positive(info.voxelSize)
      ensures ToIndicesXY(ToCoordsXY(idx)) == idx
      ensures ToCoordsXY(ToIndicesXY(p)) == p
    {
      IndicesOfCoords(Vec3(idx.x, idx.y, info.lower.z));
      CoordsOfIndices(Vec3(p.x, p.y, info.lower.z));
    }

    /** A physical displacement moves the indices by its `to_indices_delta`, axis by axis. */
    lemma DeltaOfDisplacement(p: Vec3, dv: Vec3)
      requires Positive(info.voxelSize)
      ensures var moved := ToIndices(Vec3(p.x + dv.x, p.y + dv.y, p.z + dv.z));
        && moved.x - ToIndices(p).x == ToIndicesDelta(dv.x, "x").value
        && moved.y - ToIndices(p).y == ToIndicesDelta(dv.y, "y").value
        && moved.z - ToIndices(p).z == ToIndicesDelta(dv.z, "z").value
    {
      Split(p.x - info.lower.x, dv.x, info.voxelSize.x);
      Split(p.y - info.lower.y, dv.y, info.voxelSize.y);
      Split(p.z - info.lower.z, dv.z, info.voxelSize.z);
    }

    /** `get_state()`. */
    function GetState(): (st: TileState)
      reads this
      ensures st.extent == Some(extent)
    {
      TileState(Some(extent))
    }

    /** `set_state(state)`: replaces the extent; `KeyError` when the key is missing. */
    method SetState(st: TileState) returns (r: Outcome)
      modifies this
      ensures image == old(image)
      ensures st.extent.None? ==> r == Fail(KeyError("extent")) && extent == old(extent)
      ensures st.extent.Some? ==> r == Pass && extent == st.extent.value
    {
      if st.extent.None? {
        return Fail(KeyError("extent"));
      }
      extent := st.extent.value;
      return Pass;
    }
  }

  lemma Cancel(a: real, s: real, lower: real)
    requires s > 0.0
    ensures (a * s + lower - lower) / s == a
  {
  }

  lemma Uncancel(p: real, s: real, lower: real)
    requires s > 0.0
    ensures (p - lower) / s * s + lower == p
  {
  }

  lemma Split(a: real, d: real, s: real)
    requires s > 0.0
    ensures (a + d) / s - a / s == d / s
  {
  }
}
