// `model.Piece`: the tiles of one piece of cochlea, a spiral and a set of
// cells per hair-cell row, the union of the tile extents, the merged image
// and the piece's state document.
module Specimens {
  import opened Wrappers
  import opened Volumes
  import opened Mosaic
  import opened Curves

  /** The hair-cell rows, in the order `Piece.__init__` creates them. */
  datatype Label = IHC | OHC1 | OHC2 | OHC3

  const Labels: seq<Label> := [IHC, OHC1, OHC2, OHC3]

  function Name(l: Label): string {
    match l
    case IHC => "IHC"
    case OHC1 => "OHC1"
    case OHC2 => "OHC2"
    case OHC3 => "OHC3"
  }

  lemma LabelsListed(l: Label)
    ensures exists j :: 0 <= j < |Labels| && Labels[j] == l
  {
    match l
    case IHC => assert Labels[0] == l;
    case OHC1 => assert Labels[1] == l;
    case OHC2 => assert Labels[2] == l;
    case OHC3 => assert Labels[3] == l;
  }

  predicate Total<V>(m: map<Label, V>) {
    forall l: Label :: l in m
  }

  // Union of the tile extents (`get_image_extent`)

  function ColumnMin(rows: seq<seq<real>>, c: nat): (m: real)
    requires |rows| > 0 && forall k :: 0 <= k < |rows| ==> c < |rows[k]|
    ensures forall k :: 0 <= k < |rows| ==> m <= rows[k][c]
    ensures exists k :: 0 <= k < |rows| && m == rows[k][c]
  {
    var n := |rows| - 1;
    if n == 0 then rows[0][c]
    else
      var m := ColumnMin(rows[..n], c);
      assert forall k :: 0 <= k < n ==> rows[..n][k] == rows[k];
      if m <= rows[n][c] then m else rows[n][c]
  }

  function ColumnMax(rows: seq<seq<real>>, c: nat): (m: real)
    requires |rows| > 0 && forall k :: 0 <= k < |rows| ==> c < |rows[k]|
    ensures forall k :: 0 <= k < |rows| ==> rows[k][c] <= m
    ensures exists k :: 0 <= k < |rows| && m == rows[k][c]
  {
    var n := |rows| - 1;
    if n == 0 then rows[0][c]
    else
      var m := ColumnMax(rows[..n], c);
      assert forall k :: 0 <= k < n ==> rows[..n][k] == rows[k];
      if rows[n][c] <= m then m else rows[n][c]
  }

  /** `np.vstack` accepts rows of one common length only. */
  predicate Rectangular(rows: seq<seq<real>>) {
    forall k :: 0 <= k < |rows| ==> |rows[k]| == |rows[0]|
  }

  /**
   * `get_image_extent()` over the tiles' extents: `[xmin, xmax, ymin, ymax]`
   * of the stacked rows, or the error numpy raises on no rows, ragged rows
   * or rows too short to have four columns.
   */
  function UnionExtent(rows: seq<seq<real>>): (r: Result<seq<real>>)
    ensures |rows| == 0 ==> r == Err(ValueError("need at least one array to concatenate"))
    ensures |rows| > 0 && !Rectangular(rows) ==>
      r == Err(ValueError("all the input array dimensions except for the concatenation axis must match exactly"))
    ensures |rows| > 0 && Rectangular(rows) && |rows[0]| < 4 ==> r == Err(IndexError)
    ensures r.Ok? <==> |rows| > 0 && Rectangular(rows) && |rows[0]| >= 4
    ensures r.Ok? ==> |r.value| == 4 && forall k :: 0 <= k < |rows| ==>
      r.value[0] <= rows[k][0] && rows[k][1] <= r.value[1] && r.value[2] <= rows[k][2] && rows[k][3] <= r.value[3]
  {
    if |rows| == 0 then Err(ValueError("need at least one array to concatenate"))
    else if !Rectangular(rows) then
      Err(ValueError("all the input array dimensions except for the concatenation axis must match exactly"))
    else if |rows[0]| < 4 then Err(IndexError)
    else Ok([ColumnMin(rows, 0), ColumnMax(rows, 1), ColumnMin(rows, 2), ColumnMax(rows, 3)])
  }

  /** Each bound of the union box is the bound of some tile: the box is no larger than needed. */
  lemma UnionTight(rows: seq<seq<real>>)
    requires UnionExtent(rows).Ok?
    ensures var u := UnionExtent(rows).value;
      && (exists k :: 0 <= k < |rows| && u[0] == rows[k][0])
      && (exists k :: 0 <= k < |rows| && u[1] == rows[k][1])
      && (exists k :: 0 <= k < |rows| && u[2] == rows[k][2])
      && (exists k :: 0 <= k < |rows| && u[3] == rows[k][3])
  {
    var u := UnionExtent(rows).value;
    assert u[0] == ColumnMin(rows, 0) && u[1] == ColumnMax(rows, 1);
    assert u[2] == ColumnMin(rows, 2) && u[3] == ColumnMax(rows, 3);
  }

  // The state document

  /** The editable state of a piece: each row's spiral and cells, and each tile's extent. */
  datatype PieceFields = PieceFields(spirals: map<Label, Fields>, cells: map<Label, Fields>, extents: seq<seq<real>>)

  /** A `set_state` document; the groups, any label and any tile stem may be missing. */
  datatype PieceState = PieceState(
    tiles: Option<map<string, TileState>>,
    spirals: Option<map<Label, PointsState>>,
    cells: Option<map<Label, PointsState>>)

  function SaveGroup(g: map<Label, Fields>): (d: map<Label, PointsState>)
    ensures forall l :: l in g ==> l in d && d[l] == Saved(g[l])
  {
    map l | l in g :: Saved(g[l])
  }

  /** `{t.source.stem: t.get_state() for t in tiles}`: a later tile with the same stem overwrites. */
  function TileDoc(stems: seq<string>, extents: seq<seq<real>>): map<string, TileState>
    requires |stems| == |extents|
  {
    if |stems| == 0 then map[]
    else
      var n := |stems| - 1;
      TileDoc(stems[..n], extents[..n])[stems[n] := TileState(Some(extents[n]))]
  }

  /** `get_state()`. */
  function SavePiece(f: PieceFields, stems: seq<string>): PieceState
    requires |stems| == |f.extents|
  {
    PieceState(Some(TileDoc(stems, f.extents)), Some(SaveGroup(f.spirals)), Some(SaveGroup(f.cells)))
  }

  /**
   * One group of `set_state`, over the first `k` labels in order: `KeyError`
   * for the missing group or label, and each row restored by
   * `Points.set_state`; the rows restored before a failure keep their new state.
   */
  function RestoreGroup(doc: Option<map<Label, PointsState>>, group: string, cur: map<Label, Fields>, k: nat): (r: (Outcome, map<Label, Fields>))
    requires k <= |Labels| && Total(cur)
    ensures Total(r.1)
    ensures forall j :: k <= j < |Labels| ==> r.1[Labels[j]] == cur[Labels[j]]
  {
    if k == 0 then (Pass, cur)
    else
      var (o, f) := RestoreGroup(doc, group, cur, k - 1);
      var l := Labels[k - 1];
      if o.Fail? then (o, f)
      else if doc.None? then (Fail(KeyError(group)), f)
      else if l !in doc.value then (Fail(KeyError(Name(l))), f)
      else
        var (o2, g) := Restored(doc.value[l], f[l]);
        (o2, f[l := g])
  }

  /** The tile loop of `set_state` over the first `k` tiles, looked up by stem. */
  function RestoreTiles(doc: Option<map<string, TileState>>, stems: seq<string>, cur: seq<seq<real>>, k: nat): (r: (Outcome, seq<seq<real>>))
    requires k <= |stems| == |cur|
    ensures |r.1| == |cur|
    ensures forall j :: k <= j < |cur| ==> r.1[j] == cur[j]
  {
    if k == 0 then (Pass, cur)
    else
      var (o, e) := RestoreTiles(doc, stems, cur, k - 1);
      var s := stems[k - 1];
      if o.Fail? then (o, e)
      else if doc.None? then (Fail(KeyError("tiles")), e)
      else if s !in doc.value then (Fail(KeyError(s)), e)
      else if doc.value[s].extent.None? then (Fail(KeyError("extent")), e)
      else (Pass, e[k - 1 := doc.value[s].extent.value])
  }

  /** The curve part of `set_state`: all spirals, then all cells. */
  function RestoreGroups(st: PieceState, sp: map<Label, Fields>, ce: map<Label, Fields>): (r: (Outcome, map<Label, Fields>, map<Label, Fields>))
    requires Total(sp) && Total(ce)
    ensures Total(r.1) && Total(r.2)
  {
    var (o1, sp') := RestoreGroup(st.spirals, "spirals", sp, |Labels|);
    if o1.Fail? then (o1, sp', ce)
    else
      var (o2, ce') := RestoreGroup(st.cells, "cells", ce, |Labels|);
      (o2, sp', ce')
  }

  /** `set_state(state)`: spirals, then cells, then tiles, stopping at the first error. */
  function RestorePiece(st: PieceState, cur: PieceFields, stems: seq<string>): (r: (Outcome, PieceFields))
    requires Total(cur.spirals) && Total(cur.cells) && |stems| == |cur.extents|
    ensures |r.1.extents| == |cur.extents|
  {
    var (o, sp, ce) := RestoreGroups(st, cur.spirals, cur.cells);
    if o.Fail? then (o, cur.(spirals := sp, cells := ce))
    else
      var (o3, ex) := RestoreTiles(st.tiles, stems, cur.extents, |stems|);
      (o3, PieceFields(sp, ce, ex))
  }

  /** A group restore that has failed stays failed, with the same partial state. */
  lemma {:induction false} GroupFailSticks(doc: Option<map<Label, PointsState>>, group: string, cur: map<Label, Fields>, k: nat, n: nat)
    requires k <= n <= |Labels| && Total(cur)
    requires RestoreGroup(doc, group, cur, k).0.Fail?
    ensures RestoreGroup(doc, group, cur, n) == RestoreGroup(doc, group, cur, k)
  {
    if k < n {
      GroupFailSticks(doc, group, cur, k, n - 1);
    }
  }

  /** One more tile restored: its entry's extent replaces the old one, or `KeyError` leaves it. */
  lemma TilesStep(doc: Option<map<string, TileState>>, stems: seq<string>, cur: seq<seq<real>>, k: nat,
                  before: seq<seq<real>>, e: seq<real>, r: Outcome)
    requires k < |stems| == |cur| && RestoreTiles(doc, stems, cur, k) == (Pass, before)
    requires doc.Some? && stems[k] in doc.value
    requires doc.value[stems[k]].extent.None? ==> r == Fail(KeyError("extent")) && e == before[k]
    requires doc.value[stems[k]].extent.Some? ==> r == Pass && e == doc.value[stems[k]].extent.value
    ensures RestoreTiles(doc, stems, cur, k + 1) == (r, before[k := e])
  {
    if r.Fail? {
      assert before[k := e] == before;
    }
  }

  /** A tile restore that has failed stays failed, with the same partial state. */
  lemma {:induction false} TilesFailStick(doc: Option<map<string, TileState>>, stems: seq<string>, cur: seq<seq<real>>, k: nat, n: nat)
    requires k <= n <= |stems| == |cur|
    requires RestoreTiles(doc, stems, cur, k).0.Fail?
    ensures RestoreTiles(doc, stems, cur, n) == RestoreTiles(doc, stems, cur, k)
  {
    if k < n {
      TilesFailStick(doc, stems, cur, k, n - 1);
    }
  }

  predicate GroupValid(g: map<Label, Fields>) {
    forall l :: l in g ==> |g[l].x| == |g[l].y|
  }

  predicate Distinct(stems: seq<string>) {
    forall j, k :: 0 <= j < k < |stems| ==> stems[j] != stems[k]
  }

  lemma {:induction false} GroupRoundTrip(f: map<Label, Fields>, group: string, cur: map<Label, Fields>, k: nat)
    requires k <= |Labels| && Total(f) && Total(cur) && GroupValid(f)
    ensures RestoreGroup(Some(SaveGroup(f)), group, cur, k).0 == Pass
    ensures forall j :: 0 <= j < k ==> RestoreGroup(Some(SaveGroup(f)), group, cur, k).1[Labels[j]] == f[Labels[j]]
  {
    if k > 0 {
      GroupRoundTrip(f, group, cur, k - 1);
      var l := Labels[k - 1];
      var prev := RestoreGroup(Some(SaveGroup(f)), group, cur, k - 1).1;
      StateRoundTrip(f[l], prev[l]);
    }
  }

  lemma {:induction false} TileDocAt(stems: seq<string>, extents: seq<seq<real>>, j: int)
    requires |stems| == |extents| && Distinct(stems) && 0 <= j < |stems|
    ensures stems[j] in TileDoc(stems, extents) && TileDoc(stems, extents)[stems[j]] == TileState(Some(extents[j]))
  {
    var n := |stems| - 1;
    if j < n {
      TileDocAt(stems[..n], extents[..n], j);
    }
  }

  lemma {:induction false} TilesRoundTrip(stems: seq<string>, extents: seq<seq<real>>, cur: seq<seq<real>>, k: nat)
    requires k <= |stems| == |extents| == |cur| && Distinct(stems)
    ensures RestoreTiles(Some(TileDoc(stems, extents)), stems, cur, k).0 == Pass
    ensures forall j :: 0 <= j < k ==> RestoreTiles(Some(TileDoc(stems, extents)), stems, cur, k).1[j] == extents[j]
  {
    if k > 0 {
      TilesRoundTrip(stems, extents, cur, k - 1);
      TileDocAt(stems, extents, k - 1);
    }
  }

  /** Restoring a saved group brings back every row of it. */
  lemma GroupRestored(f: map<Label, Fields>, group: string, cur: map<Label, Fields>)
    requires Total(f) && Total(cur) && GroupValid(f)
    ensures RestoreGroup(Some(SaveGroup(f)), group, cur, |Labels|) == (Pass, f)
  {
    GroupRoundTrip(f, group, cur, |Labels|);
    var g := RestoreGroup(Some(SaveGroup(f)), group, cur, |Labels|).1;
    forall l: Label
      ensures g[l] == f[l]
    {
      LabelsListed(l);
    }
    assert g == f;
  }

  /** Restoring a saved tile map brings back every extent, when the stems are distinct. */
  lemma TilesRestored(stems: seq<string>, extents: seq<seq<real>>, cur: seq<seq<real>>)
    requires |stems| == |extents| == |cur| && Distinct(stems)
    ensures RestoreTiles(Some(TileDoc(stems, extents)), stems, cur, |stems|) == (Pass, extents)
  {
    TilesRoundTrip(stems, extents, cur, |stems|);
    var e := RestoreTiles(Some(TileDoc(stems, extents)), stems, cur, |stems|).1;
    assert e == extents;
  }

  /**
   * Saving a piece and restoring the document into any piece with the same
   * tiles gives back the saved state, when the tile stems are distinct.
   */
  lemma PieceRoundTrip(f: PieceFields, stems: seq<string>, cur: PieceFields)
    requires Total(f.spirals) && Total(f.cells) && GroupValid(f.spirals) && GroupValid(f.cells)
    requires Total(cur.spirals) && Total(cur.cells)
    requires |stems| == |f.extents| == |cur.extents| && Distinct(stems)
    ensures RestorePiece(SavePiece(f, stems), cur, stems) == (Pass, f)
  {
    GroupRestored(f.spirals, "spirals", cur.spirals);
    GroupRestored(f.cells, "cells", cur.cells);
    TilesRestored(stems, f.extents, cur.extents);
  }

  /** A missing label fails the restore and leaves the labels after it untouched. */
  lemma MissingLabel(st: PieceState, cur: PieceFields, stems: seq<string>)
    requires Total(cur.spirals) && Total(cur.cells) && |stems| == |cur.extents|
    requires st.spirals.Some? && OHC3 !in st.spirals.value
    ensures RestorePiece(st, cur, stems).0.Fail?
    ensures RestorePiece(st, cur, stems).1.spirals[OHC3] == cur.spirals[OHC3]
    ensures RestorePiece(st, cur, stems).1.cells == cur.cells
  {
    var (o3, f3) := RestoreGroup(st.spirals, "spirals", cur.spirals, 3);
    assert Labels[3] == OHC3;
    if o3.Pass? {
      assert RestoreGroup(st.spirals, "spirals", cur.spirals, 4).0 == Fail(KeyError("OHC3"));
    }
  }

  // Clearing a row

  /**
   * `clear_cells` / `clear_spiral` as written: `set_nodes([], [])` with
   * Python lists, which cannot be indexed by the NaN mask.
   */
  method ClearAsWritten(target: Points) returns (r: Outcome)
    modifies target
    ensures r == Fail(TypeError)
    ensures target.Current() == old(target.Current())
  {
    r := target.SetNodes(PyList([]), PyList([]));
  }

  /** Clearing with empty arrays, as intended: no nodes are left; `i` and the exclusions stay. */
  method Clear(target: Points) returns (r: Outcome)
    modifies target
    ensures r == Pass && target.Valid()
    ensures target.Current() == old(target.Current()).(x := [], y := [])
  {
    r := target.SetNodes(NdArray([]), NdArray([]));
  }

  /** The masking step itself: lists fail, arrays give the empty curve. */
  lemma ClearedFields(cur: Fields)
    ensures MaskedAssign(PyList([]), PyList([]), cur) == (Fail(TypeError), cur)
    ensures MaskedAssign(NdArray([]), NdArray([]), cur) == (Pass, cur.(x := [], y := []))
  {
    assert MaskNaN([], []) == Ok([]);
  }

  // The piece

  function GroupFields(g: map<Label, Points>): (f: map<Label, Fields>)
    reads g.Values
    ensures forall l :: l in g ==> l in f && f[l] == g[l].Current()
    ensures forall l :: l in f ==> l in g
  {
    map l | l in g :: g[l].Current()
  }

  function StemsOf(ts: seq<Tile>): (s: seq<string>)
    ensures |s| == |ts| && forall k :: 0 <= k < |ts| ==> s[k] == ts[k].source
  {
    seq(|ts|, k requires 0 <= k < |ts| => ts[k].source)
  }

  function ExtentsOf(ts: seq<Tile>): (e: seq<seq<real>>)
    reads set t | t in ts
    ensures |e| == |ts| && forall k :: 0 <= k < |ts| ==> e[k] == ts[k].extent
  {
    seq(|ts|, k requires 0 <= k < |ts| reads set t | t in ts => ts[k].extent)
  }

  function ImagesOf(ts: seq<Tile>): (v: seq<Volume>)
    reads set t | t in ts
    ensures |v| == |ts| && forall k :: 0 <= k < |ts| ==> v[k] == ts[k].image
  {
    seq(|ts|, k requires 0 <= k < |ts| reads set t | t in ts => ts[k].image)
  }

  function DataOf(ts: seq<Tile>): (d: seq<TileData>)
    reads set t | t in ts
    ensures |d| == |ts| && forall k :: 0 <= k < |ts| ==> d[k] == TileData(ts[k].info, ts[k].image)
  {
    seq(|ts|, k requires 0 <= k < |ts| reads set t | t in ts => TileData(ts[k].info, ts[k].image))
  }

  predicate Injective(g: map<Label, Points>) {
    forall l, m :: l in g && m in g && l != m ==> g[l] != g[m]
  }

  /** A group whose curve objects did not change has the same state. */
  twostate lemma GroupUnchanged(g: map<Label, Points>)
    requires forall l :: l in g ==> unchanged(g[l])
    ensures GroupFields(g) == old(GroupFields(g))
  {
  }

  /** Tiles that did not change have the same extents and images. */
  twostate lemma TilesUnchanged(ts: seq<Tile>)
    requires forall k :: 0 <= k < |ts| ==> unchanged(ts[k])
    ensures ExtentsOf(ts) == old(ExtentsOf(ts))
    ensures forall k :: 0 <= k < |ts| ==> ts[k].image == old(ts[k].image)
  {
  }

  /** `Points.set_state` on each row of a group in label order, stopping at the first error. */
  method SetGroup(g: map<Label, Points>, doc: Option<map<Label, PointsState>>, group: string) returns (r: Outcome)
    requires Total(g) && Injective(g)
    modifies g.Values
    ensures (r, GroupFields(g)) == RestoreGroup(doc, group, old(GroupFields(g)), |Labels|)
  {
    ghost var start := GroupFields(g);
    var k := 0;
    while k < |Labels|
      invariant 0 <= k <= |Labels|
      invariant RestoreGroup(doc, group, start, k) == (Pass, GroupFields(g))
    {
      r := SetRow(g, doc, group, start, k);
      if r.Fail? {
        return;
      }
      k := k + 1;
    }
    r := Pass;
  }

  /** One pass of the row loop: the entry under row `k`'s label, or the `KeyError` looking it up raises. */
  method SetRow(g: map<Label, Points>, doc: Option<map<Label, PointsState>>, group: string, ghost start: map<Label, Fields>, k: nat) returns (r: Outcome)
    requires Total(g) && Injective(g) && Total(start)
    requires k < |Labels| && RestoreGroup(doc, group, start, k) == (Pass, GroupFields(g))
    modifies g[Labels[k]]
    ensures RestoreGroup(doc, group, start, k + 1) == (r, GroupFields(g))
    ensures r.Fail? ==> RestoreGroup(doc, group, start, |Labels|) == (r, GroupFields(g))
  {
    var l := Labels[k];
    if doc.None? {
      r := Fail(KeyError(group));
    } else if l !in doc.value {
      r := Fail(KeyError(Name(l)));
    } else {
      ghost var before := GroupFields(g);
      r := g[l].SetState(doc.value[l]);
      assert GroupFields(g) == before[l := g[l].Current()];
    }
    if r.Fail? {
      GroupFailSticks(doc, group, start, k + 1, |Labels|);
    }
  }

  /** The tile loop of `set_state`: each tile's extent from the entry under its stem. */
  method SetTiles(ts: seq<Tile>, doc: Option<map<string, TileState>>) returns (r: Outcome)
    requires forall j, k :: 0 <= j < k < |ts| ==> ts[j] != ts[k]
    modifies set t | t in ts
    ensures (r, ExtentsOf(ts)) == RestoreTiles(doc, StemsOf(ts), old(ExtentsOf(ts)), |ts|)
    ensures ImagesOf(ts) == old(ImagesOf(ts))
  {
    ghost var start := ExtentsOf(ts);
    var k := 0;
    while k < |ts|
      invariant 0 <= k <= |ts|
      invariant RestoreTiles(doc, StemsOf(ts), start, k) == (Pass, ExtentsOf(ts))
      invariant ImagesOf(ts) == old(ImagesOf(ts))
    {
      r := SetTile(ts, doc, start, k);
      if r.Fail? {
        return;
      }
      k := k + 1;
    }
    r := Pass;
  }

  /** One pass of the tile loop: the entry under tile `k`'s stem, or the `KeyError` looking it up raises. */
  method SetTile(ts: seq<Tile>, doc: Option<map<string, TileState>>, ghost start: seq<seq<real>>, k: nat) returns (r: Outcome)
    requires forall i, j :: 0 <= i < j < |ts| ==> ts[i] != ts[j]
    requires k < |ts| == |start| && RestoreTiles(doc, StemsOf(ts), start, k) == (Pass, ExtentsOf(ts))
    modifies ts[k]
    ensures RestoreTiles(doc, StemsOf(ts), start, k + 1) == (r, ExtentsOf(ts))
    ensures r.Fail? ==> RestoreTiles(doc, StemsOf(ts), start, |ts|) == (r, ExtentsOf(ts))
    ensures ImagesOf(ts) == old(ImagesOf(ts))
  {
    var s := ts[k].source;
    if doc.None? {
      r := Fail(KeyError("tiles"));
    } else if s !in doc.value {
      r := Fail(KeyError(s));
    } else {
      ghost var before := ExtentsOf(ts);
      ghost var images := ImagesOf(ts);
      r := ts[k].SetState(doc.value[s]);
      assert ExtentsOf(ts) == before[k := ts[k].extent];
      assert ImagesOf(ts) == images;
      TilesStep(doc, StemsOf(ts), start, k, before, ts[k].extent, r);
    }
    if r.Fail? {
      TilesFailStick(doc, StemsOf(ts), start, k + 1, |ts|);
    }
  }

  /** One empty curve per row, each a new object. */
  method NewGroup(fit: Spline) returns (g: map<Label, Points>)
    ensures Total(g) && Injective(g) && forall l :: l in g ==> fresh(g[l])
    ensures forall l :: l in g ==> g[l].Current() == Fields([], [], 0, []) && g[l].fit == fit
  {
    var p0 := new Points(fit, [], [], 0, []);
    var p1 := new Points(fit, [], [], 0, []);
    var p2 := new Points(fit, [], [], 0, []);
    var p3 := new Points(fit, [], [], 0, []);
    g := map[IHC := p0, OHC1 := p1, OHC2 := p2, OHC3 := p3];
    forall l: Label
      ensures l in g
    {
      match l
      case IHC =>
      case OHC1 =>
      case OHC2 =>
      case OHC3 =>
    }
  }

  class Piece {
    const tiles: seq<Tile>
    const path: string
    const piece: int
    const spirals: map<Label, Points>
    const cells: map<Label, Points>

    /** One curve object per row and group, none shared; no tile listed twice. */
    predicate Valid()
      reads this
    {
      && Total(spirals) && Total(cells) && Injective(spirals) && Injective(cells)
      && (forall l, m :: l in spirals && m in cells ==> spirals[l] != cells[m])
      && forall j, k :: 0 <= j < k < |tiles| ==> tiles[j] != tiles[k]
    }

    function Snapshot(): PieceFields
      reads this, spirals.Values, cells.Values, set t | t in tiles
    {
      PieceFields(GroupFields(spirals), GroupFields(cells), ExtentsOf(tiles))
    }

    /** `Piece(tiles, path, piece)`: an empty spiral and an empty set of cells for every row. */
    constructor (tiles: seq<Tile>, path: string, piece: int, fit: Spline)
      requires forall j, k :: 0 <= j < k < |tiles| ==> tiles[j] != tiles[k]
      ensures Valid()
      ensures this.tiles == tiles && this.path == path && this.piece == piece
      ensures forall l :: l in spirals ==> spirals[l].Current() == Fields([], [], 0, []) && spirals[l].fit == fit
      ensures forall l :: l in cells ==> cells[l].Current() == Fields([], [], 0, []) && cells[l].fit == fit
      ensures forall l :: l in spirals ==> fresh(spirals[l])
      ensures forall l :: l in cells ==> fresh(cells[l])
    {
      this.tiles := tiles;
      this.path := path;
      this.piece := piece;
      var sg := NewGroup(fit);
      var cg := NewGroup(fit);
      spirals := sg;
      cells := cg;
      new;
      assert forall l, m :: l in sg && m in cg ==> sg[l] != cg[m];
    }

    /** `get_image_extent()`: a box holding every tile's `[xmin, xmax, ymin, ymax]`. */
    function GetImageExtent(): (r: Result<seq<real>>)
      reads set t | t in tiles
      ensures r.Ok? <==> |tiles| > 0 && Rectangular(ExtentsOf(tiles)) && |tiles[0].extent| >= 4
      ensures r.Ok? ==> |r.value| == 4 && forall k :: 0 <= k < |tiles| ==>
        r.value[0] <= tiles[k].extent[0] && tiles[k].extent[1] <= r.value[1] &&
        r.value[2] <= tiles[k].extent[2] && tiles[k].extent[3] <= r.value[3]
    {
      UnionExtent(ExtentsOf(tiles))
    }

    /** `merge_tiles()`: a new tile holding the merged image, its source the piece's path. */
    method MergeTiles() returns (r: Result<Tile>)
      requires forall k :: 0 <= k < |tiles| ==> tiles[k].image.Shaped()
      requires |tiles| > 0 ==> Positive(tiles[0].info.voxelSize)
      ensures var data := old(DataOf(tiles));
        && WellFormed(data)
        && (MergeError(data).Some? ==> r == Err(MergeError(data).value))
        && (MergeError(data).None? ==> r.Ok? && Merged(data, r.value.info, r.value.image))
      ensures r.Ok? ==> fresh(r.value) && r.value.source == path && r.value.extent == ExtentOf(r.value.info)
    {
      var data := DataOf(tiles);
      var m := Merge(data);
      if m.Err? {
        return Err(m.error);
      }
      var t := new Tile(m.value.0, m.value.1, path);
      return Ok(t);
    }

    /** `get_state()`: restoring it gives the piece back, when the tile stems are distinct. */
    function GetState(): (st: PieceState)
      reads this, spirals.Values, cells.Values, set t | t in tiles
      ensures Valid() && GroupValid(Snapshot().spirals) && GroupValid(Snapshot().cells) && Distinct(StemsOf(tiles)) ==>
        RestorePiece(st, Snapshot(), StemsOf(tiles)) == (Pass, Snapshot())
    {
      var f := Snapshot();
      if Valid() && GroupValid(f.spirals) && GroupValid(f.cells) && Distinct(StemsOf(tiles)) then
        PieceRoundTrip(f, StemsOf(tiles), f);
        SavePiece(f, StemsOf(tiles))
      else SavePiece(f, StemsOf(tiles))
    }

    /** `set_state(state)`, with the partial updates a raising step leaves behind. */
    method SetState(st: PieceState) returns (r: Outcome)
      requires Valid()
      modifies spirals.Values, cells.Values, set t | t in tiles
      ensures (r, Snapshot()) == RestorePiece(st, old(Snapshot()), StemsOf(tiles))
      ensures forall k :: 0 <= k < |tiles| ==> tiles[k].image == old(tiles[k].image)
    {
      ghost var f0 := Snapshot();
      label start:
      r := SetGroups(st);
      TilesUnchanged@start(tiles);
      ghost var sp, ce := GroupFields(spirals), GroupFields(cells);
      if r.Fail? {
        assert Snapshot() == f0.(spirals := sp, cells := ce);
        return;
      }
      label between:
      r := SetTiles(tiles, st.tiles);
      GroupUnchanged@between(spirals);
      GroupUnchanged@between(cells);
      assert Snapshot() == PieceFields(sp, ce, ExtentsOf(tiles));
    }

    /** The spirals, then the cells, of `set_state`. */
    method SetGroups(st: PieceState) returns (r: Outcome)
      requires Valid()
      modifies spirals.Values, cells.Values
      ensures (r, GroupFields(spirals), GroupFields(cells)) == RestoreGroups(st, old(GroupFields(spirals)), old(GroupFields(cells)))
      ensures forall k :: 0 <= k < |tiles| ==> unchanged(tiles[k])
    {
      label start:
      r := SetGroup(spirals, st.spirals, "spirals");
      GroupUnchanged@start(cells);
      if r.Fail? {
        return;
      }
      label between:
      r := SetGroup(cells, st.cells, "cells");
      GroupUnchanged@between(spirals);
    }

    /**
     * `clear_cells(cell_type)` as intended, with empty arrays so that the row
     * is emptied; as written it raises `TypeError` (see `ClearAsWritten`).
     */
    method ClearCells(l: Label) returns (r: Outcome)
      requires Valid()
      modifies cells[l]
      ensures r == Pass && cells[l].Current() == old(cells[l].Current()).(x := [], y := [])
    {
      r := Clear(cells[l]);
    }

    /**
     * `clear_spiral(cell_type)` as intended, with empty arrays so that the row
     * is emptied; as written it raises `TypeError` (see `ClearAsWritten`).
     */
    method ClearSpiral(l: Label) returns (r: Outcome)
      requires Valid()
      modifies spirals[l]
      ensures r == Pass && spirals[l].Current() == old(spirals[l].Current()).(x := [], y := [])
    {
      r := Clear(spirals[l]);
    }
  }
}
