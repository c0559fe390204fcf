// `model.Points`: an editable curve (a spiral or a row of cells) made of
// 2-D nodes, a start node `i` for the greedy ordering, and exclusion spans
// whose endpoints sit on samples of the interpolated path.
module Curves {
  import opened Wrappers
  import opened Geometry
  import opened Paths
  import Epochs

  /**
   * scipy's `splprep`/`splev` at the default resolution: ordered nodes to the
   * samples of the fitted spline, or the error the fit raises. Nothing is
   * assumed about it beyond `RejectsRepeats` where a lemma says so.
   */
  type Spline = seq<Point> -> Result<seq<Point>>

  /**
   * fitpack's input check: the chord-length parameters `splprep` builds must
   * strictly increase, so a node list with two equal neighbours is refused.
   */
  ghost predicate RejectsRepeats(fit: Spline) {
    forall ns :: Repeats(ns) ==> fit(ns).Err?
  }

  /** One exclusion: the two endpoints the user marked, snapped onto the path. */
  datatype Span = Span(start: Point, end: Point)

  /** Default `hit_threshold` of `add_node` (2.5e-6). */
  const AddHitThreshold: real := 0.0000025

  /** Default `hit_threshold` of `remove_node` (25e-6). */
  const RemoveHitThreshold: real := 0.000025

  // ---------------------------------------------------------------------
  // Ordering and sampling

  /** `get_nodes()`: the greedy order of `zip(x, y)` from node `start`, or the `IndexError` of its first pop. */
  function OrderedNodes(x: seq<real>, y: seq<real>, start: int): (r: Result<seq<Point>>)
    ensures r.Err? <==> !StartOk(|Zip(x, y)|, start)
    ensures r.Ok? ==> multiset(r.value) == multiset(Zip(x, y))
  {
    var nodes := Zip(x, y);
    if StartOk(|nodes|, start) then
      WalkPermutation(nodes, StartIndex(|nodes|, start));
      Ok(Walk(nodes, StartIndex(|nodes|, start)))
    else Err(IndexError)
  }

  /** `interpolate()`: no samples with three nodes or fewer, otherwise the spline through the ordered nodes. */
  function Samples(fit: Spline, x: seq<real>, y: seq<real>, start: int): (r: Result<seq<Point>>)
    ensures !StartOk(|Zip(x, y)|, start) ==> r == Err(IndexError)
    ensures StartOk(|Zip(x, y)|, start) && |Zip(x, y)| <= 3 ==> r == Ok([])
    ensures StartOk(|Zip(x, y)|, start) && |Zip(x, y)| > 3 ==> r == fit(OrderedNodes(x, y, start).value)
  {
    match OrderedNodes(x, y, start)
    case Err(e) => Err(e)
    case Ok(nodes) => if |nodes| <= 3 then Ok([]) else fit(nodes)
  }

  /**
   * Coincident nodes make `interpolate` raise: the greedy order puts them
   * side by side, which a fit with fitpack's input check refuses.
   */
  lemma CoincidentNodesFail(fit: Spline, x: seq<real>, y: seq<real>, start: int)
    requires RejectsRepeats(fit)
    requires StartOk(|Zip(x, y)|, start) && |Zip(x, y)| > 3 && HasDuplicate(Zip(x, y))
    ensures Samples(fit, x, y, start).Err?
  {
    var nodes := Zip(x, y);
    WalkRepeats(nodes, StartIndex(|nodes|, start));
  }

  /**
   * `nearest_point(x, y)`: the first sample nearest `p`. A failed
   * interpolation propagates; `argmin` over no samples raises `ValueError`.
   */
  function Snap(samples: Result<seq<Point>>, p: Point): (r: Result<Point>)
    ensures r.Ok? <==> samples.Ok? && |samples.value| > 0
    ensures r.Ok? ==> r.value in samples.value
    ensures r.Ok? ==> forall q :: q in samples.value ==> Dist2(p, r.value) <= Dist2(p, q)
  {
    match samples
    case Err(e) => Err(e)
    case Ok(s) =>
      match ArgNearest(p, s)
      case None => Err(ValueError("attempt to get argmin of an empty sequence"))
      case Some(k) => Ok(s[k])
  }

  /** A sample of the path snaps to itself. */
  lemma SnapSample(samples: seq<Point>, q: Point)
    requires q in samples
    ensures Snap(Ok(samples), q) == Ok(q)
  {
    ArgNearestOfMember(q, samples);
  }

  // ---------------------------------------------------------------------
  // Exclusion upkeep

  /**
   * The body of the loop in `update_exclude` for one span: both endpoints
   * re-snapped, dropped when snapping raises or both land on one sample.
   */
  function Resnap(samples: Result<seq<Point>>, span: Span): Option<Span> {
    match (Snap(samples, span.start), Snap(samples, span.end))
    case (Ok(s), Ok(e)) => if s == e then None else Some(Span(s, e))
    case _ => None
  }

  /** Every span has two distinct endpoints, both samples of the path. */
  ghost predicate OnPath(samples: Result<seq<Point>>, spans: seq<Span>) {
    forall k :: 0 <= k < |spans| ==>
      samples.Ok? && spans[k].start in samples.value && spans[k].end in samples.value && spans[k].start != spans[k].end
  }

  /** What one span contributes to `update_exclude()`'s new list: itself re-snapped, or nothing. */
  function Kept(samples: Result<seq<Point>>, span: Span): (r: seq<Span>)
    ensures |r| <= 1
    ensures |r| == 1 ==> samples.Ok? && r[0].start in samples.value && r[0].end in samples.value && r[0].start != r[0].end
  {
    match Resnap(samples, span)
    case Some(s) => [s]
    case None => []
  }

  lemma KeptOnPath(samples: Result<seq<Point>>, span: Span)
    ensures OnPath(samples, Kept(samples, span))
  {
  }

  /** `update_exclude()` as a function of the path samples and the old exclusions. */
  function Revalidated(samples: Result<seq<Point>>, ex: seq<Span>): (r: seq<Span>)
    ensures |r| <= |ex|
  {
    if |ex| == 0 then [] else Revalidated(samples, ex[..|ex| - 1]) + Kept(samples, ex[|ex| - 1])
  }

  lemma OnPathConcat(samples: Result<seq<Point>>, a: seq<Span>, b: seq<Span>)
    requires OnPath(samples, a) && OnPath(samples, b)
    ensures OnPath(samples, a + b)
  {
    forall k | 0 <= k < |a + b|
      ensures samples.Ok? && (a + b)[k].start in samples.value && (a + b)[k].end in samples.value
      ensures (a + b)[k].start != (a + b)[k].end
    {
      if k < |a| {
        assert (a + b)[k] == a[k];
      } else {
        assert (a + b)[k] == b[k - |a|];
      }
    }
  }

  /**
   * Every surviving span has two distinct endpoints on the path; with no path
   * (a failed or empty interpolation) nothing survives.
   */
  lemma {:induction false} RevalidatedOnPath(samples: Result<seq<Point>>, ex: seq<Span>)
    ensures samples.Err? || samples.value == [] ==> Revalidated(samples, ex) == []
    ensures OnPath(samples, Revalidated(samples, ex))
    decreases |ex|
  {
    if |ex| > 0 {
      var init := ex[..|ex| - 1];
      RevalidatedOnPath(samples, init);
      KeptOnPath(samples, ex[|ex| - 1]);
      OnPathConcat(samples, Revalidated(samples, init), Kept(samples, ex[|ex| - 1]));
    }
  }

  lemma RevalidatedStep(samples: Result<seq<Point>>, ex: seq<Span>, k: int)
    requires 0 <= k < |ex|
    ensures Revalidated(samples, ex[..k + 1]) == Revalidated(samples, ex[..k]) + Kept(samples, ex[k])
  {
    assert ex[..k + 1][..k] == ex[..k];
  }

  /** Re-validation works span by span: it distributes over concatenation, so order is kept. */
  lemma {:induction false} RevalidatedConcat(samples: Result<seq<Point>>, a: seq<Span>, b: seq<Span>)
    ensures Revalidated(samples, a + b) == Revalidated(samples, a) + Revalidated(samples, b)
    decreases |b|
  {
    if |b| == 0 {
      assert a + b == a;
    } else {
      var b', z := b[..|b| - 1], b[|b| - 1];
      assert b == b' + [z];
      assert a + b == (a + b') + [z];
      RevalidatedConcat(samples, a, b');
      RevalidatedSnoc(samples, a + b', z);
      RevalidatedSnoc(samples, b', z);
      Associative(Revalidated(samples, a), Revalidated(samples, b'), Kept(samples, z));
    }
  }

  lemma RevalidatedSnoc(samples: Result<seq<Point>>, s: seq<Span>, z: Span)
    ensures Revalidated(samples, s + [z]) == Revalidated(samples, s) + Kept(samples, z)
  {
    assert (s + [z])[..|s|] == s;
  }

  lemma Associative(x: seq<Span>, y: seq<Span>, z: seq<Span>)
    ensures (x + y) + z == x + (y + z)
  {
  }

  /** Re-validating twice against the same samples changes nothing more. */
  lemma {:induction false} RevalidatedIdempotent(samples: seq<Point>, ex: seq<Span>)
    ensures Revalidated(Ok(samples), Revalidated(Ok(samples), ex)) == Revalidated(Ok(samples), ex)
    decreases |ex|
  {
    if |ex| > 0 {
      var init := ex[..|ex| - 1];
      var once := Revalidated(Ok(samples), init);
      var last := Kept(Ok(samples), ex[|ex| - 1]);
      RevalidatedIdempotent(samples, init);
      RevalidatedConcat(Ok(samples), once, last);
      if |last| == 1 {
        var span := last[0];
        SnapSample(samples, span.start);
        SnapSample(samples, span.end);
        assert Kept(Ok(samples), span) == [span];
        assert Revalidated(Ok(samples), last) == [span] by {
          assert last[..0] == [];
        }
      } else {
        assert last == [];
      }
    }
  }

  /** The closed index range `[min(si, ei), max(si, ei)]` a span covers on the samples. */
  function SpanIndices(samples: seq<Point>, span: Span): (r: Epochs.Epoch)
    requires |samples| > 0
    ensures 0 <= r.lo <= r.hi < |samples|
  {
    var si, ei := ArgNearest(span.start, samples).value, ArgNearest(span.end, samples).value;
    Epochs.Epoch(Lower(si, ei), Upper(si, ei))
  }

  /** The index ranges of all spans, in order (the `indices` list of `simplify_exclude`). */
  function AllSpanIndices(samples: seq<Point>, ex: seq<Span>): (r: seq<Epochs.Epoch>)
    requires |samples| > 0
    ensures |r| == |ex|
    ensures Epochs.AllValid(r)
    ensures forall k :: 0 <= k < |r| ==> r[k] == SpanIndices(samples, ex[k]) && 0 <= r[k].lo && r[k].hi < |samples|
  {
    if |ex| == 0 then []
    else
      var init := AllSpanIndices(samples, ex[..|ex| - 1]);
      assert forall k :: 0 <= k < |ex| - 1 ==> ex[..|ex| - 1][k] == ex[k];
      init + [SpanIndices(samples, ex[|ex| - 1])]
  }

  /**
   * The position `remove_exclude` pops: the first index range that contains
   * the clicked sample `pi`, if any.
   */
  function FirstContaining(ranges: seq<Epochs.Epoch>, pi: int): (r: Option<nat>)
    ensures r.Some? ==> r.value < |ranges| && Epochs.Contains(ranges[r.value], pi)
    ensures r.Some? ==> forall k :: 0 <= k < r.value ==> !Epochs.Contains(ranges[k], pi)
    ensures r.None? <==> !Epochs.Covers(ranges, pi)
  {
    if |ranges| == 0 then None
    else if Epochs.Contains(ranges[0], pi) then Some(0)
    else
      match FirstContaining(ranges[1..], pi)
      case None => None
      case Some(k) => Some(k + 1)
  }

  /** The first containing range is the one a left-to-right scan stops at. */
  lemma FirstContainingAt(ranges: seq<Epochs.Epoch>, pi: int, k: nat)
    requires k < |ranges| && Epochs.Contains(ranges[k], pi)
    requires forall j :: 0 <= j < k ==> !Epochs.Contains(ranges[j], pi)
    ensures FirstContaining(ranges, pi) == Some(k)
  {
    var r := FirstContaining(ranges, pi);
    assert Epochs.Covers(ranges, pi);
    assert r.value <= k;
  }

  /** The spans `simplify_exclude` writes back: the samples at both ends of each merged index range. */
  function SpansAt(samples: seq<Point>, merged: seq<Epochs.Epoch>): (r: seq<Span>)
    requires forall k :: 0 <= k < |merged| ==> 0 <= merged[k].lo <= merged[k].hi < |samples|
    ensures |r| == |merged|
    ensures forall k :: 0 <= k < |r| ==> r[k] == Span(samples[merged[k].lo], samples[merged[k].hi])
  {
    if |merged| == 0 then []
    else
      var m := merged[|merged| - 1];
      SpansAt(samples, merged[..|merged| - 1]) + [Span(samples[m.lo], samples[m.hi])]
  }

  // ---------------------------------------------------------------------
  // Hit tests

  /**
   * `find_node(x, y, hit_threshold)`: the first nearest node, if it lies
   * strictly within the threshold; otherwise (also with no nodes) `ValueError`.
   */
  function FindNode(nodes: seq<Point>, p: Point, threshold: real): (r: Result<nat>)
    ensures r.Ok? ==> r.value < |nodes| && Within(p, nodes[r.value], threshold)
    ensures r.Ok? ==> forall j :: 0 <= j < |nodes| ==> Dist2(p, nodes[r.value]) <= Dist2(p, nodes[j])
    ensures r.Err? ==> r.error.ValueError?
  {
    match ArgNearest(p, nodes)
    case None => Err(ValueError("attempt to get argmin of an empty sequence"))
    case Some(k) => if Within(p, nodes[k], threshold) then Ok(k) else Err(ValueError("No node nearby"))
  }

  /**
   * The points `find_node` measures: `np.array(x) - px` and `np.array(y) - py`
   * broadcast together, so equal lengths pair up position by position, a
   * one-element side is repeated against the other, and any other mismatch
   * raises `ValueError`.
   */
  function NodeGrid(x: seq<real>, y: seq<real>): (r: Result<seq<Point>>)
    ensures r.Ok? <==> |x| == |y| || |x| == 1 || |y| == 1
    ensures r.Err? ==> r.error.ValueError?
    ensures |x| == |y| ==> r == Ok(Zip(x, y))
    ensures r.Ok? ==> |r.value| == if |x| == 1 then |y| else |x|
    ensures r.Ok? ==> forall k :: 0 <= k < |r.value| ==>
      r.value[k] == Point(x[if |x| == 1 then 0 else k], y[if |y| == 1 then 0 else k])
  {
    if |x| == |y| then Ok(Zip(x, y))
    else if |x| == 1 then Ok(seq(|y|, k requires 0 <= k < |y| => Point(x[0], y[k])))
    else if |y| == 1 then Ok(seq(|x|, k requires 0 <= k < |x| => Point(x[k], y[0])))
    else Err(ValueError("operands could not be broadcast together"))
  }

  /**
   * `find_node(x, y, hit_threshold)` on the curve's coordinate lists: the
   * broadcast error, or `FindNode` over the broadcast points. For lists of
   * equal length that is `FindNode` over the nodes.
   */
  function FindNodeIn(x: seq<real>, y: seq<real>, p: Point, threshold: real): (r: Result<nat>)
    ensures r.Err? ==> r.error.ValueError?
    ensures |x| == |y| ==> r == FindNode(Zip(x, y), p, threshold)
    ensures r.Ok? ==> r.value < (if |x| == 1 then |y| else |x|)
    ensures r.Ok? ==> NodeGrid(x, y).Ok? && r.value < |NodeGrid(x, y).value| && Within(p, NodeGrid(x, y).value[r.value], threshold)
  {
    match NodeGrid(x, y)
    case Err(e) => Err(e)
    case Ok(grid) => FindNode(grid, p, threshold)
  }

  /** `has_node(x, y, hit_threshold)`: `find_node` succeeds. */
  predicate HasNode(nodes: seq<Point>, p: Point, threshold: real) {
    FindNode(nodes, p, threshold).Ok?
  }

  /** A node is found exactly when some node lies strictly within the threshold. */
  lemma HasNodeIffSomeWithin(nodes: seq<Point>, p: Point, threshold: real)
    ensures HasNode(nodes, p, threshold) <==> exists k :: 0 <= k < |nodes| && Within(p, nodes[k], threshold)
  {
    if k :| 0 <= k < |nodes| && Within(p, nodes[k], threshold) {
      var m := ArgNearest(p, nodes).value;
      assert Dist2(p, nodes[m]) <= Dist2(p, nodes[k]);
    }
  }

  /** Once `p` is a node, `has_node(p)` holds for any positive threshold, so adding it again is a no-op. */
  lemma AddedNodeIsHit(nodes: seq<Point>, p: Point, threshold: real)
    requires threshold > 0.0
    ensures HasNode(nodes + [p], p, threshold)
  {
    WithinSelf(p, threshold);
    assert (nodes + [p])[|nodes|] == p;
    HasNodeIffSomeWithin(nodes + [p], p, threshold);
  }

  /** Zipping after popping one index from both coordinate lists pops that node. */
  lemma ZipWithout(x: seq<real>, y: seq<real>, k: int)
    requires |x| == |y| && 0 <= k < |x|
    ensures Zip(Without(x, k), Without(y, k)) == Without(Zip(x, y), k)
  {
    var a, b := Zip(Without(x, k), Without(y, k)), Without(Zip(x, y), k);
    assert |a| == |b|;
    forall j | 0 <= j < |a|
      ensures a[j] == b[j]
    {
      if j < k {
        assert b[j] == Zip(x, y)[..k][j];
      } else {
        assert b[j] == Zip(x, y)[k + 1..][j - k];
      }
    }
  }

  /** Appending one coordinate to each list appends that node. */
  lemma ZipAppend(x: seq<real>, y: seq<real>, px: real, py: real)
    requires |x| == |y|
    ensures Zip(x + [px], y + [py]) == Zip(x, y) + [Point(px, py)]
  {
    var a, b := Zip(x + [px], y + [py]), Zip(x, y) + [Point(px, py)];
    assert |a| == |b|;
    forall j | 0 <= j < |a|
      ensures a[j] == b[j]
    {
    }
  }

  /** With a positive threshold, a point that is not hit is not already a node. */
  lemma MissIsNew(nodes: seq<Point>, p: Point, threshold: real)
    requires threshold > 0.0 && !HasNode(nodes, p, threshold)
    ensures p !in nodes
  {
    HasNodeIffSomeWithin(nodes, p, threshold);
    WithinSelf(p, threshold);
    assert forall k :: 0 <= k < |nodes| && nodes[k] == p ==> Within(p, nodes[k], threshold);
  }

  /**
   * `remove_node` undoes `add_node`: once a new point is appended, finding it
   * with any positive threshold picks the appended position (the only node at
   * distance zero), and popping it gives back the old nodes.
   */
  lemma {:induction false} AddThenRemove(nodes: seq<Point>, p: Point, threshold: real)
    requires p !in nodes && threshold > 0.0
    ensures FindNode(nodes + [p], p, threshold) == Ok(|nodes|)
    ensures Without(nodes + [p], |nodes|) == nodes
  {
    var all := nodes + [p];
    assert all[|nodes|] == p;
    var k := ArgNearest(p, all).value;
    Dist2Zero(p, all[|nodes|]);
    Dist2Zero(p, all[k]);
    assert all[k] == p;
    WithinSelf(p, threshold);
    assert all[..|nodes|] == nodes;
  }

  // ---------------------------------------------------------------------
  // NaN masking (`set_nodes`, `set_state`)

  /** A coordinate column handed to `set_nodes`: a Python list or a numpy array. */
  datatype Column = PyList(items: seq<Num>) | NdArray(items: seq<Num>)

  /**
   * `np.isnan(x) | np.isnan(y)` under numpy broadcasting: equal lengths pair
   * up, a length-1 side is repeated, anything else raises `ValueError`.
   * `true` marks a pair to drop.
   */
  function MaskNaN(a: seq<Num>, b: seq<Num>): (r: Result<seq<bool>>)
    ensures r.Ok? <==> |a| == |b| || |a| == 1 || |b| == 1
    ensures r.Ok? && |a| == |b| ==> |r.value| == |a| && forall k :: 0 <= k < |a| ==> (r.value[k] <==> a[k].NaN? || b[k].NaN?)
  {
    if |a| == |b| then Ok(seq(|a|, k requires 0 <= k < |a| => a[k].NaN? || b[k].NaN?))
    else if |a| == 1 then Ok(seq(|b|, k requires 0 <= k < |b| => a[0].NaN? || b[k].NaN?))
    else if |b| == 1 then Ok(seq(|a|, k requires 0 <= k < |a| => a[k].NaN? || b[0].NaN?))
    else Err(ValueError("operands could not be broadcast together"))
  }

  /** The items at unmasked positions, in order (NaN items are never unmasked where it is called). */
  function Unmasked(items: seq<Num>, mask: seq<bool>): (r: seq<real>)
    requires |items| == |mask|
    ensures |r| <= |items|
  {
    if |items| == 0 then []
    else
      var n := |items| - 1;
      Unmasked(items[..n], mask[..n]) +
      if mask[n] then [] else match items[n] case Finite(v) => [v] case NaN => []
  }

  /**
   * `col[~mask]`: boolean indexing of an array; a list cannot be indexed by
   * an array (`TypeError`), and a mask of another length raises `IndexError`.
   */
  function Select(col: Column, mask: seq<bool>): (r: Result<seq<real>>)
    ensures r.Ok? <==> col.NdArray? && |col.items| == |mask|
  {
    if col.PyList? then Err(TypeError)
    else if |col.items| != |mask| then Err(IndexError)
    else Ok(Unmasked(col.items, mask))
  }

  /** The editable state of a `Points`. */
  datatype Fields = Fields(x: seq<real>, y: seq<real>, i: int, exclude: seq<Span>)

  /**
   * Masks NaN pairs out of two columns and assigns x, then y: each step that
   * raises leaves the assignments made before it in place.
   */
  function MaskedAssign(xs: Column, ys: Column, cur: Fields): (r: (Outcome, Fields))
    ensures r.1.i == cur.i && r.1.exclude == cur.exclude
    ensures r.0.Pass? ==> |r.1.x| == |r.1.y|
  {
    match MaskNaN(xs.items, ys.items)
    case Err(e) => (Fail(e), cur)
    case Ok(m) =>
      match Select(xs, m)
      case Err(e) => (Fail(e), cur)
      case Ok(nx) =>
        match Select(ys, m)
        case Err(e) => (Fail(e), cur.(x := nx))
        case Ok(ny) =>
          MaskedLengths(xs.items, ys.items, m);
          (Pass, cur.(x := nx, y := ny))
  }

  /** Positions the mask keeps. */
  function KeptCount(mask: seq<bool>): nat {
    if |mask| == 0 then 0 else KeptCount(mask[..|mask| - 1]) + if mask[|mask| - 1] then 0 else 1
  }

  lemma {:induction false} UnmaskedLength(items: seq<Num>, mask: seq<bool>)
    requires |items| == |mask|
    requires forall k :: 0 <= k < |items| && items[k].NaN? ==> mask[k]
    ensures |Unmasked(items, mask)| == KeptCount(mask)
  {
    if |items| > 0 {
      var n := |items| - 1;
      UnmaskedLength(items[..n], mask[..n]);
    }
  }

  /** Two columns masked by the same NaN mask keep equally many items. */
  lemma MaskedLengths(a: seq<Num>, b: seq<Num>, m: seq<bool>)
    requires MaskNaN(a, b) == Ok(m) && |a| == |m| && |b| == |m|
    ensures |Unmasked(a, m)| == |Unmasked(b, m)|
  {
    UnmaskedLength(a, m);
    UnmaskedLength(b, m);
  }

  /** The finite pairs of two equally long columns, in order: the nodes `set_nodes` should leave. */
  function FinitePairs(a: seq<Num>, b: seq<Num>): seq<Point>
    requires |a| == |b|
  {
    if |a| == 0 then []
    else
      var n := |a| - 1;
      FinitePairs(a[..n], b[..n]) +
      match (a[n], b[n]) case (Finite(u), Finite(v)) => [Point(u, v)] case _ => []
  }

  /** A column of finite values. */
  function Finites(s: seq<real>): (r: seq<Num>)
    ensures |r| == |s| && forall k :: 0 <= k < |s| ==> r[k] == Finite(s[k])
  {
    seq(|s|, k requires 0 <= k < |s| => Finite(s[k]))
  }

  /** Masking a column of finite values with an all-keep mask gives the values back. */
  lemma {:induction false} UnmaskedFinites(s: seq<real>, mask: seq<bool>)
    requires |mask| == |s| && forall k :: 0 <= k < |mask| ==> !mask[k]
    ensures Unmasked(Finites(s), mask) == s
  {
    if |s| > 0 {
      var n := |s| - 1;
      assert Finites(s)[..n] == Finites(s[..n]);
      UnmaskedFinites(s[..n], mask[..n]);
      assert s == s[..n] + [s[n]];
    }
  }

  lemma ZipConcat(a: seq<real>, b: seq<real>, c: seq<real>, d: seq<real>)
    requires |a| == |b| && |c| == |d|
    ensures Zip(a + c, b + d) == Zip(a, b) + Zip(c, d)
  {
    var l, r := Zip(a + c, b + d), Zip(a, b) + Zip(c, d);
    assert |l| == |r|;
    forall k | 0 <= k < |l|
      ensures l[k] == r[k]
    {
      if k >= |a| {
        assert r[k] == Zip(c, d)[k - |a|];
      }
    }
  }

  /** Masking both columns with their joint NaN mask keeps exactly the finite pairs, in order. */
  lemma {:induction false} UnmaskedPairs(a: seq<Num>, b: seq<Num>, m: seq<bool>)
    requires |a| == |b| == |m|
    requires forall k :: 0 <= k < |m| ==> (m[k] <==> a[k].NaN? || b[k].NaN?)
    ensures |Unmasked(a, m)| == |Unmasked(b, m)|
    ensures Zip(Unmasked(a, m), Unmasked(b, m)) == FinitePairs(a, b)
  {
    if |a| > 0 {
      var n := |a| - 1;
      UnmaskedPairs(a[..n], b[..n], m[..n]);
      var ka: seq<real> := if m[n] then [] else match a[n] case Finite(v) => [v] case NaN => [];
      var kb: seq<real> := if m[n] then [] else match b[n] case Finite(v) => [v] case NaN => [];
      assert Unmasked(a, m) == Unmasked(a[..n], m[..n]) + ka;
      assert Unmasked(b, m) == Unmasked(b[..n], m[..n]) + kb;
      ZipConcat(Unmasked(a[..n], m[..n]), Unmasked(b[..n], m[..n]), ka, kb);
    }
  }

  /** A `set_state` document; any key may be missing. */
  datatype PointsState = PointsState(x: Option<seq<Num>>, y: Option<seq<Num>>, i: Option<int>, exclude: Option<seq<Span>>)

  /** `get_state()`: every field under its key. */
  function Saved(f: Fields): PointsState {
    PointsState(Some(Finites(f.x)), Some(Finites(f.y)), Some(f.i), Some(f.exclude))
  }

  /**
   * `set_state(state)`: `KeyError` for a missing `x` or `y` before anything
   * changes; NaN pairs masked out of x and y as in `set_nodes`; then `i`
   * (a missing one raises with x and y already replaced) and `exclude`
   * (empty when missing). No re-validation of the exclusions.
   */
  function Restored(st: PointsState, cur: Fields): (r: (Outcome, Fields))
    ensures r.0.Pass? ==> |r.1.x| == |r.1.y| && r.1.exclude == st.exclude.GetOr([])
  {
    if st.x.None? then (Fail(KeyError("x")), cur)
    else if st.y.None? then (Fail(KeyError("y")), cur)
    else
      var (out, f) := MaskedAssign(NdArray(st.x.value), NdArray(st.y.value), cur);
      if out.Fail? then (out, f)
      else if st.i.None? then (Fail(KeyError("i")), f)
      else (Pass, f.(i := st.i.value, exclude := st.exclude.GetOr([])))
  }

  /** Saving and restoring gives back the same curve, whatever the current state is. */
  lemma StateRoundTrip(f: Fields, cur: Fields)
    requires |f.x| == |f.y|
    ensures Restored(Saved(f), cur) == (Pass, f)
  {
    var xs, ys := Finites(f.x), Finites(f.y);
    var m := MaskNaN(xs, ys).value;
    UnmaskedFinites(f.x, m);
    UnmaskedFinites(f.y, m);
  }

  /**
   * Restoring two equally long columns succeeds (given `i`) and leaves as
   * nodes exactly the pairs where both coordinates are numbers, in order.
   */
  lemma RestoredDropsNaN(st: PointsState, cur: Fields)
    requires st.x.Some? && st.y.Some? && st.i.Some? && |st.x.value| == |st.y.value|
    ensures Restored(st, cur).0 == Pass
    ensures Restored(st, cur).1.i == st.i.value
    ensures Zip(Restored(st, cur).1.x, Restored(st, cur).1.y) == FinitePairs(st.x.value, st.y.value)
  {
    var m := MaskNaN(st.x.value, st.y.value).value;
    UnmaskedPairs(st.x.value, st.y.value, m);
  }

  /** `SimplifyExclude` needs merged ranges that still index the samples. */
  lemma MergedInRange(es: seq<Epochs.Epoch>, merged: seq<Epochs.Epoch>, n: int)
    requires forall k :: 0 <= k < |es| ==> 0 <= es[k].lo && es[k].hi < n
    requires Epochs.AllValid(merged)
    requires forall k :: 0 <= k < |merged| ==> merged[k].lo in Epochs.Starts(es) && merged[k].hi in Epochs.Ends(es)
    ensures forall k :: 0 <= k < |merged| ==> 0 <= merged[k].lo <= merged[k].hi < n
  {
    forall k | 0 <= k < |merged|
      ensures 0 <= merged[k].lo <= merged[k].hi < n
    {
      var a :| 0 <= a < |es| && Epochs.Starts(es)[a] == merged[k].lo;
      var b :| 0 <= b < |es| && Epochs.Ends(es)[b] == merged[k].hi;
    }
  }

  /** The exclusions `remove_exclude` leaves: the first span containing the click's sample popped. */
  function ExcludeRemoved(samples: seq<Point>, ex: seq<Span>, p: Point): seq<Span>
    requires |samples| > 0
  {
    match FirstContaining(AllSpanIndices(samples, ex), ArgNearest(p, samples).value)
    case Some(k) => Without(ex, k)
    case None => ex
  }

  /**
   * The clicked sample lies in some span's range exactly when one span
   * (the first such) goes; otherwise the list is kept as it is.
   */
  lemma ExcludeRemovedSpec(samples: seq<Point>, ex: seq<Span>, p: Point)
    requires |samples| > 0
    ensures var pi := ArgNearest(p, samples).value;
      && (Epochs.Covers(AllSpanIndices(samples, ex), pi) ==>
            |ExcludeRemoved(samples, ex, p)| == |ex| - 1 &&
            multiset(ExcludeRemoved(samples, ex, p)) <= multiset(ex))
      && (!Epochs.Covers(AllSpanIndices(samples, ex), pi) ==> ExcludeRemoved(samples, ex, p) == ex)
  {
    var found := FirstContaining(AllSpanIndices(samples, ex), ArgNearest(p, samples).value);
    if found.Some? {
      WithoutMultiset(ex, found.value);
      assert ExcludeRemoved(samples, ex, p) == Without(ex, found.value);
    } else {
      assert ExcludeRemoved(samples, ex, p) == ex;
    }
  }

  /**
   * The search loop of `remove_exclude` over the spans' index ranges: the
   * first range that contains `pi`.
   */
  method FindSpan(ranges: seq<Epochs.Epoch>, pi: int) returns (r: Option<nat>)
    ensures r == FirstContaining(ranges, pi)
  {
    var k := 0;
    while k < |ranges|
      invariant 0 <= k <= |ranges|
      invariant forall j :: 0 <= j < k ==> !Epochs.Contains(ranges[j], pi)
    {
      if ranges[k].lo <= pi <= ranges[k].hi {
        FirstContainingAt(ranges, pi, k);
        return Some(k);
      }
      k := k + 1;
    }
    return None;
  }

  /** The spans `remove_exclude` leaves after a click at `p`. */
  method RemoveSpan(samples: seq<Point>, ex: seq<Span>, p: Point) returns (r: seq<Span>)
    requires |samples| > 0
    ensures r == ExcludeRemoved(samples, ex, p)
  {
    var pi := ArgNearest(p, samples).value;
    // the spans' ranges are computed lazily in the source; `argnearest` has no effects
    var ranges := SpanIndexList(samples, ex);
    var found := FindSpan(ranges, pi);
    r := if found.Some? then Without(ex, found.value) else ex;
  }

  /** Each span's sorted pair of snapped indices (the loops of `remove_exclude` and `simplify_exclude`). */
  method SpanIndexList(samples: seq<Point>, ex: seq<Span>) returns (indices: seq<Epochs.Epoch>)
    requires |samples| > 0
    ensures indices == AllSpanIndices(samples, ex)
  {
    indices := [];
    var k := 0;
    while k < |ex|
      invariant 0 <= k <= |ex|
      invariant indices == AllSpanIndices(samples, ex[..k])
    {
      assert ex[..k + 1][..k] == ex[..k];
      indices := indices + [SpanIndices(samples, ex[k])];
      k := k + 1;
    }
    assert ex[..k] == ex;
  }

  /**
   * What `simplify_exclude` promises of the merged ranges: ordered and
   * disjoint, inside the samples, covering exactly the samples and the steps
   * between neighbouring samples that the old spans did (so spans that only
   * touch at adjacent samples stay apart).
   */
  ghost predicate Simplified(samples: seq<Point>, ex: seq<Span>, merged: seq<Epochs.Epoch>)
    requires |samples| > 0
  {
    && Epochs.Ordered(merged)
    && (forall k :: 0 <= k < |merged| ==> 0 <= merged[k].lo <= merged[k].hi < |samples|)
    && Epochs.SameCover(merged, AllSpanIndices(samples, ex))
  }

  /**
   * The work of `simplify_exclude` once the path has samples: snap, merge
   * with `smooth_epochs`, and write the merged ranges back as spans.
   */
  method MergeSpans(samples: seq<Point>, ex: seq<Span>) returns (merged: seq<Epochs.Epoch>, spans: seq<Span>)
    requires |samples| > 0
    ensures Simplified(samples, ex, merged)
    ensures spans == SpansAt(samples, merged)
  {
    var indices := SpanIndexList(samples, ex);
    merged := Epochs.SmoothEpochs(indices);
    MergedInRange(indices, merged, |samples|);
    SimplifiedBy(samples, ex, indices, merged);
    spans := SpansAt(samples, merged);
  }

  lemma SimplifiedBy(samples: seq<Point>, ex: seq<Span>, indices: seq<Epochs.Epoch>, merged: seq<Epochs.Epoch>)
    requires |samples| > 0 && indices == AllSpanIndices(samples, ex)
    requires Epochs.AllValid(indices) ==> forall q :: Epochs.Covers(merged, q) <==> Epochs.Covers(indices, q)
    requires Epochs.AllValid(indices) ==> forall q :: Epochs.StepCovers(merged, q) <==> Epochs.StepCovers(indices, q)
    requires forall j, k :: 0 <= j < k < |merged| ==> merged[j].hi < merged[k].lo
    requires forall j, k :: 0 <= j < k < |merged| ==> merged[j].lo <= merged[k].lo
    requires forall k :: 0 <= k < |merged| ==> 0 <= merged[k].lo <= merged[k].hi < |samples|
    ensures Simplified(samples, ex, merged)
  {
  }

  /**
   * `model.Points`: the nodes of one curve as two coordinate lists, the node
   * the greedy ordering starts from, and the exclusion spans.
   */
  class Points {
    var x: seq<real>
    var y: seq<real>
    var i: int
    var exclude: seq<Span>
    /** The spline fit `interpolate` uses (an external routine). */
    const fit: Spline

    /** Node operations read both lists position by position. */
    predicate Valid()
      reads this
    {
      |x| == |y|
    }

    function Current(): Fields
      reads this
    {
      Fields(x, y, i, exclude)
    }

    function Nodes(): seq<Point>
      reads this
    {
      Zip(x, y)
    }

    /** `Points(x, y, i, exclude)`; omitted lists are passed as empty ones. */
    constructor (fit: Spline, x: seq<real>, y: seq<real>, i: int, exclude: seq<Span>)
      ensures this.fit == fit && Current() == Fields(x, y, i, exclude)
    {
      this.fit := fit;
      this.x := x;
      this.y := y;
      this.i := i;
      this.exclude := exclude;
    }

    /** `get_nodes()`: the greedy order of the nodes starting from node `i`. */
    method GetNodes() returns (r: Result<seq<Point>>)
      ensures r == OrderedNodes(x, y, i)
    {
      r := ShortestPath(x, y, i);
    }

    /** `interpolate()`: samples of the spline through the ordered nodes. */
    method Interpolate() returns (r: Result<seq<Point>>)
      ensures r == Samples(fit, x, y, i)
    {
      var nodes := GetNodes();
      if nodes.Err? {
        return Err(nodes.error);
      }
      if |nodes.value| <= 3 {
        return Ok([]);
      }
      return fit(nodes.value);
    }

    /** `nearest_point(x, y)`: the first sample of the path nearest `p`. */
    method NearestPoint(p: Point) returns (r: Result<Point>)
      ensures r == Snap(Samples(fit, x, y, i), p)
    {
      var samples := Interpolate();
      if samples.Err? {
        return Err(samples.error);
      }
      var k := ArgNearest(p, samples.value);
      if k.None? {
        return Err(ValueError("attempt to get argmin of an empty sequence"));
      }
      return Ok(samples.value[k.value]);
    }

    /**
     * `update_exclude()`: re-snaps both ends of every span onto the current
     * path, dropping spans whose snapping raises or whose ends coincide.
     */
    method UpdateExclude()
      modifies this
      ensures x == old(x) && y == old(y) && i == old(i)
      ensures exclude == Revalidated(Samples(fit, x, y, i), old(exclude))
    {
      ghost var samples := Samples(fit, x, y, i);
      var ex := exclude;
      var kept: seq<Span> := [];
      var k := 0;
      while k < |ex|
        invariant 0 <= k <= |ex|
        invariant Current() == old(Current())
        invariant kept == Revalidated(samples, ex[..k])
      {
        RevalidatedStep(samples, ex, k);
        var s := NearestPoint(ex[k].start);
        if s.Ok? {
          var e := NearestPoint(ex[k].end);
          if e.Ok? && s.value != e.value {
            kept := kept + [Span(s.value, e.value)];
          }
        }
        k := k + 1;
      }
      assert ex[..k] == ex;
      exclude := kept;
    }

    /**
     * `add_node(x, y, hit_threshold)`: a NaN coordinate raises; a point that
     * hits an existing node changes nothing; otherwise the point is appended
     * and the exclusions are re-validated against the new path.
     */
    method AddNode(px: Num, py: Num, threshold: real) returns (r: Outcome)
      modifies this
      ensures i == old(i) && (Valid() <==> old(Valid()))
      ensures (px.NaN? || py.NaN?) ==> r == Fail(ValueError("Point must be finite")) && Current() == old(Current())
      ensures px.Finite? && py.Finite? && FindNodeIn(old(x), old(y), Point(px.r, py.r), threshold).Ok? ==>
        r == Pass && Current() == old(Current())
      ensures px.Finite? && py.Finite? && FindNodeIn(old(x), old(y), Point(px.r, py.r), threshold).Err? ==>
        && r == Pass
        && x == old(x) + [px.r] && y == old(y) + [py.r]
        && exclude == Revalidated(Samples(fit, x, y, i), old(exclude))
      ensures old(Valid()) && px.Finite? && py.Finite? && !HasNode(old(Nodes()), Point(px.r, py.r), threshold) ==>
        Nodes() == old(Nodes()) + [Point(px.r, py.r)]
    {
      if px.NaN? || py.NaN? {
        return Fail(ValueError("Point must be finite"));
      }
      if FindNodeIn(x, y, Point(px.r, py.r), threshold).Ok? {
        return Pass;
      }
      if Valid() {
        ZipAppend(x, y, px.r, py.r);
      }
      x := x + [px.r];
      y := y + [py.r];
      UpdateExclude();
      return Pass;
    }

    /**
     * `remove_node(x, y, hit_threshold)`: pops the node `find_node` picks from
     * both lists and re-validates the exclusions; raises when no node is near.
     */
    method RemoveNode(p: Point, threshold: real) returns (r: Outcome)
      modifies this
      ensures i == old(i)
      ensures FindNodeIn(old(x), old(y), p, threshold).Err? ==>
        r == Fail(FindNodeIn(old(x), old(y), p, threshold).error) && Current() == old(Current())
      ensures FindNodeIn(old(x), old(y), p, threshold).Ok? ==>
        var k := FindNodeIn(old(x), old(y), p, threshold).value;
        && (k >= |old(x)| ==> r == Fail(IndexError) && Current() == old(Current()))
        && (|old(y)| <= k < |old(x)| ==>
              r == Fail(IndexError) && Current() == old(Current()).(x := Without(old(x), k)))
        && (k < |old(x)| && k < |old(y)| ==>
              && r == Pass
              && x == Without(old(x), k) && y == Without(old(y), k)
              && exclude == Revalidated(Samples(fit, x, y, i), old(exclude)))
      ensures old(Valid()) ==> Valid()
      ensures old(Valid()) && FindNode(old(Nodes()), p, threshold).Ok? ==>
        r == Pass && Nodes() == Without(old(Nodes()), FindNode(old(Nodes()), p, threshold).value)
    {
      var found := FindNodeIn(x, y, p, threshold);
      if found.Err? {
        return Fail(found.error);
      }
      var k := found.value;
      if k >= |x| {
        return Fail(IndexError);
      }
      if k >= |y| {
        x := Without(x, k);
        return Fail(IndexError);
      }
      RemoveAt(k);
      return Pass;
    }

    /** `self.x.pop(i)`, `self.y.pop(i)` and the re-validation that follows. */
    method RemoveAt(k: nat)
      requires k < |x| && k < |y|
      modifies this
      ensures i == old(i) && (Valid() <==> old(Valid()))
      ensures x == Without(old(x), k) && y == Without(old(y), k)
      ensures old(Valid()) ==> Nodes() == Without(old(Nodes()), k)
      ensures exclude == Revalidated(Samples(fit, x, y, i), old(exclude))
    {
      if Valid() {
        ZipWithout(x, y, k);
      }
      x := Without(x, k);
      y := Without(y, k);
      UpdateExclude();
    }

    /**
     * `add_exclude(start, end)`: snaps both points onto the path and appends
     * the span (even when both snap to one sample); raises when snapping does.
     */
    method AddExclude(start: Point, end: Point) returns (r: Outcome)
      modifies this
      ensures x == old(x) && y == old(y) && i == old(i)
      ensures var s, e := Snap(Samples(fit, x, y, i), start), Snap(Samples(fit, x, y, i), end);
        && (s.Err? ==> r == Fail(s.error) && exclude == old(exclude))
        && (s.Ok? ==> e.Ok? && r == Pass && exclude == old(exclude) + [Span(s.value, e.value)])
    {
      var s := NearestPoint(start);
      if s.Err? {
        return Fail(s.error);
      }
      // snapping cannot fail for one point and succeed for the other
      var e := NearestPoint(end);
      exclude := exclude + [Span(s.value, e.value)];
      return Pass;
    }

    /**
     * `remove_exclude(x, y)`: pops the first span whose index range on the
     * path contains the sample nearest the click; nothing when none does.
     */
    method RemoveExclude(p: Point) returns (r: Outcome)
      modifies this
      ensures x == old(x) && y == old(y) && i == old(i)
      ensures Samples(fit, x, y, i).Err? ==> r == Fail(Samples(fit, x, y, i).error) && exclude == old(exclude)
      ensures Samples(fit, x, y, i) == Ok([]) ==>
        r == Fail(ValueError("attempt to get argmin of an empty sequence")) && exclude == old(exclude)
      ensures Samples(fit, x, y, i).Ok? && |Samples(fit, x, y, i).value| > 0 ==>
        r == Pass && exclude == ExcludeRemoved(Samples(fit, x, y, i).value, old(exclude), p)
    {
      var samples := Interpolate();
      if samples.Err? {
        return Fail(samples.error);
      }
      var pi := ArgNearest(p, samples.value);
      if pi.None? {
        return Fail(ValueError("attempt to get argmin of an empty sequence"));
      }
      exclude := RemoveSpan(samples.value, exclude, p);
      return Pass;
    }

    /**
     * `simplify_exclude()`: replaces the spans by the union of their index
     * ranges on the path (`smooth_epochs`), each written back as the samples
     * at its two ends.
     */
    method SimplifyExclude() returns (r: Outcome, ghost merged: seq<Epochs.Epoch>)
      modifies this
      ensures x == old(x) && y == old(y) && i == old(i)
      ensures Samples(fit, x, y, i).Err? ==> r == Fail(Samples(fit, x, y, i).error) && exclude == old(exclude)
      ensures Samples(fit, x, y, i) == Ok([]) && old(exclude) == [] ==> r == Pass && exclude == []
      ensures Samples(fit, x, y, i) == Ok([]) && old(exclude) != [] ==>
        r == Fail(ValueError("attempt to get argmin of an empty sequence")) && exclude == old(exclude)
      ensures Samples(fit, x, y, i).Ok? && |Samples(fit, x, y, i).value| > 0 ==>
        && r == Pass
        && Simplified(Samples(fit, x, y, i).value, old(exclude), merged)
        && exclude == SpansAt(Samples(fit, x, y, i).value, merged)
    {
      merged := [];
      var samples := Interpolate();
      if samples.Err? {
        return Fail(samples.error), merged;
      }
      if |exclude| == 0 {
        // nothing to snap: `smooth_epochs([])` returns its input
        exclude := [];
        return Pass, merged;
      }
      if |samples.value| == 0 {
        return Fail(ValueError("attempt to get argmin of an empty sequence")), merged;
      }
      var spans;
      merged, spans := MergeSpans(samples.value, exclude);
      exclude := spans;
      return Pass, merged;
    }

    /** `get_state()`. */
    function GetState(): (st: PointsState)
      reads this
      ensures Valid() ==> Restored(st, Current()) == (Pass, Current())
    {
      if Valid() then StateRoundTrip(Current(), Current()); Saved(Current()) else Saved(Current())
    }

    /** `set_state(state)`, with the partial updates a raising step leaves behind. */
    method SetState(st: PointsState) returns (r: Outcome)
      modifies this
      ensures (r, Current()) == Restored(st, old(Current()))
      ensures r.Pass? ==> Valid()
    {
      if st.x.None? {
        return Fail(KeyError("x"));
      }
      if st.y.None? {
        return Fail(KeyError("y"));
      }
      r := SetNodes(NdArray(st.x.value), NdArray(st.y.value));
      if r.Fail? {
        return r;
      }
      if st.i.None? {
        return Fail(KeyError("i"));
      }
      i := st.i.value;
      exclude := st.exclude.GetOr([]);
    }

    /**
     * `set_nodes(x, y)`: drops NaN pairs and replaces both coordinate lists;
     * the exclusions are left as they are.
     */
    method SetNodes(xs: Column, ys: Column) returns (r: Outcome)
      modifies this
      ensures (r, Current()) == MaskedAssign(xs, ys, old(Current()))
      ensures r.Pass? ==> Valid()
    {
      var m := MaskNaN(xs.items, ys.items);
      if m.Err? {
        return Fail(m.error);
      }
      var nx := Select(xs, m.value);
      if nx.Err? {
        return Fail(nx.error);
      }
      x := nx.value;
      var ny := Select(ys, m.value);
      if ny.Err? {
        return Fail(ny.error);
      }
      y := ny.value;
      return Pass;
    }
  }
}
