// The greedy nearest-neighbour ordering of curve nodes (`util.shortest_path`,
// repeated inline in `Points.get_nodes`) and `util.get_region`, the stretch of
// a sampled path between the samples nearest two clicked points.
module Paths {
  import opened Wrappers
  import opened Geometry

  /** `list(zip(x, y))`: pairs up the coordinates, stopping at the shorter list. */
  function Zip(x: seq<real>, y: seq<real>): (nodes: seq<Point>)
    ensures |nodes| == if |x| <= |y| then |x| else |y|
    ensures forall k :: 0 <= k < |nodes| ==> nodes[k] == Point(x[k], y[k])
  {
    if |x| == 0 || |y| == 0 then []
    else [Point(x[0], y[0])] + Zip(x[1..], y[1..])
  }

  /** `s` after `s.pop(k)`: position `k` removed, the rest in order. */
  function Without<T>(s: seq<T>, k: int): (r: seq<T>)
    requires 0 <= k < |s|
    ensures |r| == |s| - 1
  {
    s[..k] + s[k + 1..]
  }

  /** Popping position `k` removes exactly one occurrence of `s[k]`. */
  lemma WithoutMultiset<T>(s: seq<T>, k: int)
    requires 0 <= k < |s|
    ensures multiset(Without(s, k)) + multiset{s[k]} == multiset(s)
    ensures multiset(Without(s, k)) <= multiset(s)
  {
    assert s == s[..k] + [s[k]] + s[k + 1..];
  }

  /** `list.pop(i)` accepts `-n <= i < n`; the loop only pops while two or more nodes remain. */
  predicate StartOk(n: int, i: int) {
    n <= 1 || -n <= i < n
  }

  /** The position Python's negative-index rule makes of `i` (0 when nothing is popped). */
  function StartIndex(n: int, i: int): (k: int)
    requires StartOk(n, i)
    ensures n > 1 ==> 0 <= k < n
  {
    if n <= 1 then 0 else if i < 0 then i + n else i
  }

  /**
   * The greedy walk as a specification: take node `k`, then repeatedly the
   * remaining node nearest the last one taken (first such on ties, as
   * `argmin` picks); once one node is left it is appended.
   */
  function Walk(nodes: seq<Point>, k: int): (w: seq<Point>)
    requires |nodes| <= 1 || 0 <= k < |nodes|
    ensures |w| == |nodes|
    decreases |nodes|
  {
    if |nodes| <= 1 then nodes
    else
      var rest := Without(nodes, k);
      [nodes[k]] + Walk(rest, FirstNearest(nodes[k], rest))
  }

  /** The walk visits every node exactly once: it is a permutation of the nodes. */
  lemma {:induction false} WalkPermutation(nodes: seq<Point>, k: int)
    requires |nodes| <= 1 || 0 <= k < |nodes|
    ensures multiset(Walk(nodes, k)) == multiset(nodes)
    decreases |nodes|
  {
    if |nodes| > 1 {
      var rest := Without(nodes, k);
      var m := FirstNearest(nodes[k], rest);
      WalkPermutation(rest, m);
      WithoutMultiset(nodes, k);
      assert Walk(nodes, k) == [nodes[k]] + Walk(rest, m);
    }
  }

  /** The walk starts at the node it was asked to start from. */
  lemma WalkStart(nodes: seq<Point>, k: int)
    requires 0 <= k < |nodes|
    ensures Walk(nodes, k)[0] == nodes[k]
  {
  }

  /** `t` starts with a point nearest `h` among all of `t`. */
  ghost predicate StartsNearest(h: Point, t: seq<Point>) {
    |t| > 0 && forall j :: 0 <= j < |t| ==> Dist2(h, t[0]) <= Dist2(h, t[j])
  }

  /** Each point of `w` is followed by a point at least as near to it as any later one. */
  ghost predicate Greedy(w: seq<Point>) {
    forall a, b :: 0 <= a && a + 1 <= b < |w| ==> Dist2(w[a], w[a + 1]) <= Dist2(w[a], w[b])
  }

  lemma GreedyCons(h: Point, t: seq<Point>)
    requires Greedy(t)
    requires |t| > 0 ==> StartsNearest(h, t)
    ensures Greedy([h] + t)
  {
    var w := [h] + t;
    forall a, b | 0 <= a && a + 1 <= b < |w|
      ensures Dist2(w[a], w[a + 1]) <= Dist2(w[a], w[b])
    {
      assert w[a + 1] == t[a] && w[b] == t[b - 1];
      if a > 0 {
        assert w[a] == t[a - 1];
      }
    }
  }

  /** The walk from `k` continues at the remaining node nearest `nodes[k]`. */
  lemma WalkHeadNearest(nodes: seq<Point>, k: int)
    requires 0 <= k < |nodes| && |nodes| > 1
    ensures var rest := Without(nodes, k);
      StartsNearest(nodes[k], Walk(rest, FirstNearest(nodes[k], rest)))
  {
    var rest := Without(nodes, k);
    var m := FirstNearest(nodes[k], rest);
    var tail := Walk(rest, m);
    assert tail[0] == rest[m] by {
      if |rest| > 1 {
        WalkStart(rest, m);
      }
    }
    WalkPermutation(rest, m);
    forall j | 0 <= j < |tail|
      ensures Dist2(nodes[k], tail[0]) <= Dist2(nodes[k], tail[j])
    {
      assert tail[j] in multiset(rest);
      var i :| 0 <= i < |rest| && rest[i] == tail[j];
    }
  }

  /** Some two positions of `s` hold the same point. */
  predicate HasDuplicate(s: seq<Point>) {
    exists i, j :: 0 <= i < j < |s| && s[i] == s[j]
  }

  /** Some point of `s` is immediately followed by an equal one. */
  predicate Repeats(s: seq<Point>) {
    exists a :: 0 <= a && a + 1 < |s| && s[a] == s[a + 1]
  }

  /** A permutation of a sequence with a repeated point has one too. */
  lemma DuplicateKept(s: seq<Point>, t: seq<Point>)
    requires multiset(s) == multiset(t) && HasDuplicate(s)
    ensures HasDuplicate(t)
  {
    var i, j :| 0 <= i < j < |s| && s[i] == s[j];
    var v := s[j];
    assert s == s[..j] + [v] + s[j + 1..];
    assert s[..j][i] == v;
    assert multiset(s)[v] >= 2;
    assert v in multiset(t);
    var a :| 0 <= a < |t| && t[a] == v;
    var rest := Without(t, a);
    WithoutMultiset(t, a);
    assert v in multiset(rest);
    var c :| 0 <= c < |rest| && rest[c] == v;
    if c < a {
      assert t[c] == v;
    } else {
      assert t[c + 1] == v;
    }
  }

  /**
   * The greedy walk puts equal nodes side by side: from the first copy
   * reached, another copy is at distance 0, so it comes next.
   */
  lemma WalkRepeats(nodes: seq<Point>, k: int)
    requires 0 <= k < |nodes| && HasDuplicate(nodes)
    ensures Repeats(Walk(nodes, k))
  {
    var w := Walk(nodes, k);
    WalkPermutation(nodes, k);
    DuplicateKept(nodes, w);
    WalkGreedy(nodes, k);
    var a, b :| 0 <= a < b < |w| && w[a] == w[b];
    Dist2Zero(w[a], w[b]);
    Dist2Zero(w[a], w[a + 1]);
    assert w[a] == w[a + 1];
  }

  /** The walk is greedy: every step goes to a nearest node not yet visited. */
  lemma {:induction false} WalkGreedy(nodes: seq<Point>, k: int)
    requires |nodes| <= 1 || 0 <= k < |nodes|
    ensures Greedy(Walk(nodes, k))
    decreases |nodes|
  {
    if |nodes| > 1 {
      var rest := Without(nodes, k);
      var m := FirstNearest(nodes[k], rest);
      WalkGreedy(rest, m);
      WalkHeadNearest(nodes, k);
      GreedyCons(nodes[k], Walk(rest, m));
      assert Walk(nodes, k) == [nodes[k]] + Walk(rest, m);
    }
  }

  /**
   * Each node of the walk is followed by a node at least as near to it as any
   * node that comes later in the walk.
   */
  lemma WalkNearest(nodes: seq<Point>, k: int, a: int, b: int)
    requires |nodes| <= 1 || 0 <= k < |nodes|
    requires 0 <= a && a + 1 <= b < |nodes|
    ensures Dist2(Walk(nodes, k)[a], Walk(nodes, k)[a + 1]) <= Dist2(Walk(nodes, k)[a], Walk(nodes, k)[b])
  {
    WalkGreedy(nodes, k);
  }

  /** Unfolding the walk once: pop node `k`, continue from the remaining node nearest it. */
  lemma WalkUnfold(nodes: seq<Point>, k: int)
    requires 0 <= k < |nodes| && |nodes| > 1
    ensures var rest := Without(nodes, k);
      Walk(nodes, k) == [nodes[k]] + Walk(rest, StartIndex(|rest|, ArgNearest(nodes[k], rest).value))
  {
    var rest := Without(nodes, k);
    var i := ArgNearest(nodes[k], rest).value;
    if |rest| > 1 {
      assert StartIndex(|rest|, i) == i;
    }
  }

  lemma ShiftOne(path: seq<Point>, n: Point, tail: seq<Point>)
    ensures (path + [n]) + tail == path + ([n] + tail)
  {
  }

  /**
   * `util.shortest_path(x, y, i)` (and the loop inside `Points.get_nodes`):
   * pops node `i`, then repeatedly pops the remaining node nearest the last
   * one popped; the final node is appended. A start index `list.pop`
   * rejects raises `IndexError`, but only if there is something to pop.
   */
  method GreedyOrder(nodes: seq<Point>, start: int) returns (r: Result<seq<Point>>)
    ensures !StartOk(|nodes|, start) ==> r == Err(IndexError)
    ensures StartOk(|nodes|, start) ==> r == Ok(Walk(nodes, StartIndex(|nodes|, start)))
  {
    if !StartOk(|nodes|, start) {
      // the first `nodes.pop(i)` raises before anything is taken
      return Err(IndexError);
    }
    ghost var goal := Walk(nodes, StartIndex(|nodes|, start));
    var remaining := nodes;
    var path: seq<Point> := [];
    var i := start;
    assert path + Walk(remaining, StartIndex(|remaining|, i)) == goal;
    while |remaining| > 1
      invariant StartOk(|remaining|, i)
      invariant path + Walk(remaining, StartIndex(|remaining|, i)) == goal
      decreases |remaining|
    {
      var k := StartIndex(|remaining|, i);
      var n := remaining[k];
      WalkUnfold(remaining, k);
      remaining := Without(remaining, k);
      var nearest := ArgNearest(n, remaining);
      ShiftOne(path, n, Walk(remaining, StartIndex(|remaining|, nearest.value)));
      path := path + [n];
      i := nearest.value;
    }
    assert Walk(remaining, StartIndex(|remaining|, i)) == remaining;
    path := path + remaining;
    return Ok(path);
  }

  /**
   * `util.shortest_path(x, y, i)` on coordinate lists: the greedy order of
   * `zip(x, y)`, returned as points (the source transposes them back into an
   * x tuple and a y tuple).
   */
  method ShortestPath(x: seq<real>, y: seq<real>, start: int) returns (r: Result<seq<Point>>)
    ensures !StartOk(|Zip(x, y)|, start) ==> r == Err(IndexError)
    ensures StartOk(|Zip(x, y)|, start) ==> r == Ok(Walk(Zip(x, y), StartIndex(|Zip(x, y)|, start)))
  {
    r := GreedyOrder(Zip(x, y), start);
  }

  /** The smaller of two sample indices. */
  function Lower(a: nat, b: nat): nat {
    if a <= b then a else b
  }

  /** The larger of two sample indices. */
  function Upper(a: nat, b: nat): nat {
    if a <= b then b else a
  }

  /**
   * `util.get_region(spline, start, end)`: snaps both points to the samples
   * of the interpolated path and returns the half-open slice between the two
   * snapped indices; with no samples `argmin` raises.
   */
  function Region(samples: seq<Point>, start: Point, end: Point): (r: Result<seq<Point>>)
    ensures r.Err? <==> |samples| == 0
  {
    if |samples| == 0 then Err(ValueError("attempt to get argmin of an empty sequence"))
    else
      var i1 := ArgNearest(start, samples).value;
      var i2 := ArgNearest(end, samples).value;
      Ok(samples[Lower(i1, i2)..Upper(i1, i2)])
  }

  /**
   * The region runs from the earlier snapped sample up to (not including)
   * the later one; it is empty exactly when both points snap to the same sample.
   */
  lemma RegionBetweenSnaps(samples: seq<Point>, start: Point, end: Point)
    requires |samples| > 0
    ensures var i1, i2 := ArgNearest(start, samples).value, ArgNearest(end, samples).value;
      && |Region(samples, start, end).value| == Upper(i1, i2) - Lower(i1, i2)
      && (Region(samples, start, end).value == [] <==> i1 == i2)
      && forall j :: 0 <= j < |Region(samples, start, end).value| ==>
           Region(samples, start, end).value[j] == samples[Lower(i1, i2) + j]
  {
  }

  /** Swapping the two endpoints gives the same region. */
  lemma RegionSymmetric(samples: seq<Point>, start: Point, end: Point)
    ensures Region(samples, start, end) == Region(samples, end, start)
  {
  }
}
