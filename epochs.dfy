// `util.smooth_epochs`: the union of closed intervals used by
// `Points.simplify_exclude` to merge exclusions into disjoint index ranges.
module Epochs {

  /** One row `[start, end]` of the epoch array: a closed interval of sample indices. */
  datatype Epoch = Epoch(lo: int, hi: int)

  predicate Contains(e: Epoch, p: int) {
    e.lo <= p <= e.hi
  }

  /** Some interval of `es` contains `p`. */
  predicate Covers(es: seq<Epoch>, p: int) {
    exists k :: 0 <= k < |es| && Contains(es[k], p)
  }

  /**
   * The unit step from `q` to `q + 1` lies inside `e`. With integer endpoints,
   * `Contains` and `Straddles` together fix `e` as a closed interval of reals:
   * `[0, 2]` and `[3, 5]` contain the same integers as `[0, 5]`, but neither
   * straddles the step from 2 to 3.
   */
  predicate Straddles(e: Epoch, q: int) {
    e.lo <= q < e.hi
  }

  /** Some interval of `es` straddles the step from `q` to `q + 1`. */
  predicate StepCovers(es: seq<Epoch>, q: int) {
    exists k :: 0 <= k < |es| && Straddles(es[k], q)
  }

  /** Every interval starts no later than it ends. */
  predicate AllValid(es: seq<Epoch>) {
    forall k :: 0 <= k < |es| ==> es[k].lo <= es[k].hi
  }

  predicate Ascending(s: seq<int>) {
    forall i, j :: 0 <= i < j < |s| ==> s[i] <= s[j]
  }

  /** The start column `epochs[:, 0]`. */
  function Starts(es: seq<Epoch>): seq<int> {
    seq(|es|, k requires 0 <= k < |es| => es[k].lo)
  }

  /** The end column `epochs[:, 1]`. */
  function Ends(es: seq<Epoch>): seq<int> {
    seq(|es|, k requires 0 <= k < |es| => es[k].hi)
  }

  /** Rows rebuilt from two columns of equal length. */
  function Rows(starts: seq<int>, ends: seq<int>): (r: seq<Epoch>)
    requires |starts| == |ends|
    ensures Starts(r) == starts && Ends(r) == ends
  {
    seq(|starts|, k requires 0 <= k < |starts| => Epoch(starts[k], ends[k]))
  }

  // ---------------------------------------------------------------------
  // numpy's column sort, as an insertion sort on values

  function Insert(x: int, s: seq<int>): (r: seq<int>)
    requires Ascending(s)
    ensures Ascending(r)
    ensures multiset(r) == multiset(s) + multiset{x}
    ensures |r| > 0 && (r[0] == x || (|s| > 0 && r[0] == s[0]))
  {
    if |s| == 0 || x <= s[0] then [x] + s
    else
      var rest := Insert(x, s[1..]);
      assert s == [s[0]] + s[1..];
      assert s[0] <= rest[0];
      [s[0]] + rest
  }

  /** An ascending permutation of `s`. */
  function Sort(s: seq<int>): (r: seq<int>)
    ensures Ascending(r)
    ensures multiset(r) == multiset(s)
    decreases |s|
  {
    if |s| == 0 then []
    else
      assert s == s[..|s| - 1] + [s[|s| - 1]];
      Insert(s[|s| - 1], Sort(s[..|s| - 1]))
  }

  /** `epochs.sort(axis=0)`: each column sorted on its own, so rows are re-paired. */
  function SortColumns(es: seq<Epoch>): (r: seq<Epoch>)
    ensures |r| == |es|
    ensures Starts(r) == Sort(Starts(es)) && Ends(r) == Sort(Ends(es))
  {
    var starts, ends := Sort(Starts(es)), Sort(Ends(es));
    assert |starts| == |multiset(starts)| == |multiset(Starts(es))| == |es|;
    assert |ends| == |multiset(ends)| == |multiset(Ends(es))| == |es|;
    Rows(starts, ends)
  }

  // ---------------------------------------------------------------------
  // Counting: re-pairing the sorted columns keeps every interval valid and
  // covers the same points, because coverage is a difference of counts.

  /** How many values of `s` are at most `y`. */
  function CountAtMost(s: seq<int>, y: int): (c: nat)
    ensures c <= |s|
  {
    if |s| == 0 then 0
    else CountAtMost(s[..|s| - 1], y) + (if s[|s| - 1] <= y then 1 else 0)
  }

  lemma {:induction false} CountConcat(a: seq<int>, b: seq<int>, y: int)
    ensures CountAtMost(a + b, y) == CountAtMost(a, y) + CountAtMost(b, y)
    decreases |b|
  {
    if |b| > 0 {
      assert (a + b)[..|a + b| - 1] == a + b[..|b| - 1];
      CountConcat(a, b[..|b| - 1], y);
    } else {
      assert a + b == a;
    }
  }

  /** Dropping position `i` removes exactly that value's contribution. */
  lemma CountRemove(b: seq<int>, i: int, y: int)
    requires 0 <= i < |b|
    ensures CountAtMost(b, y) == CountAtMost(b[..i] + b[i + 1..], y) + CountAtMost([b[i]], y)
  {
    assert b == (b[..i] + [b[i]]) + b[i + 1..];
    CountConcat(b[..i] + [b[i]], b[i + 1..], y);
    CountConcat(b[..i], [b[i]], y);
    CountConcat(b[..i], b[i + 1..], y);
  }

  /** The count depends only on the multiset of values. */
  lemma {:induction false} CountPermutation(a: seq<int>, b: seq<int>, y: int)
    requires multiset(a) == multiset(b)
    ensures CountAtMost(a, y) == CountAtMost(b, y)
    decreases |a|
  {
    if |a| == 0 {
      assert |b| == |multiset(b)| == 0;
    } else {
      var h := a[|a| - 1];
      var a' := a[..|a| - 1];
      assert a == a' + [h];
      assert h in multiset(b);
      var i :| 0 <= i < |b| && b[i] == h;
      var b' := b[..i] + b[i + 1..];
      assert b == b[..i] + [h] + b[i + 1..];
      calc {
        multiset(b');
        multiset(b[..i]) + multiset(b[i + 1..]);
        multiset(b) - multiset{h};
        multiset(a) - multiset{h};
        multiset(a');
      }
      CountPermutation(a', b', y);
      CountRemove(b, i, y);
      CountConcat(a', [h], y);
    }
  }

  /** In an ascending sequence, fewer than `k + 1` values at most `y` means `s[k] > y`. */
  lemma {:induction false} AscendingCount(s: seq<int>, k: int, y: int)
    requires Ascending(s) && 0 <= k < |s|
    ensures s[k] <= y ==> CountAtMost(s, y) >= k + 1
    ensures s[k] > y ==> CountAtMost(s, y) <= k
    decreases |s|
  {
    if k < |s| - 1 {
      AscendingCount(s[..|s| - 1], k, y);
    } else if s[k] <= y {
      AllBelowCount(s[..|s| - 1], y);
    }
  }

  lemma {:induction false} AllBelowCount(s: seq<int>, top: int)
    requires forall i :: 0 <= i < |s| ==> s[i] <= top
    ensures CountAtMost(s, top) == |s|
    decreases |s|
  {
    if |s| > 0 {
      AllBelowCount(s[..|s| - 1], top);
    }
  }

  /** Every interval ending by `x` also started by `x`. */
  lemma {:induction false} EndsTrailStarts(es: seq<Epoch>, x: int)
    requires AllValid(es)
    ensures CountAtMost(Ends(es), x) <= CountAtMost(Starts(es), x)
    decreases |es|
  {
    if |es| > 0 {
      var init := es[..|es| - 1];
      assert Starts(es)[..|es| - 1] == Starts(init);
      assert Ends(es)[..|es| - 1] == Ends(init);
      EndsTrailStarts(init, x);
    }
  }

  /** How many intervals of `es` contain `p`. */
  function CoverCount(es: seq<Epoch>, p: int): nat {
    if |es| == 0 then 0
    else CoverCount(es[..|es| - 1], p) + (if Contains(es[|es| - 1], p) then 1 else 0)
  }

  lemma {:induction false} CoverCountPositive(es: seq<Epoch>, p: int)
    ensures Covers(es, p) <==> CoverCount(es, p) > 0
    decreases |es|
  {
    if |es| > 0 {
      var init := es[..|es| - 1];
      CoverCountPositive(init, p);
      if Covers(init, p) {
        var k :| 0 <= k < |init| && Contains(init[k], p);
        assert Contains(es[k], p);
      }
      if Covers(es, p) && !Contains(es[|es| - 1], p) {
        var k :| 0 <= k < |es| && Contains(es[k], p);
        assert Contains(init[k], p);
      }
    }
  }

  /** For valid intervals: containing `p` = starting by `p` minus ending before `p`. */
  lemma {:induction false} CoverCountByColumns(es: seq<Epoch>, p: int)
    requires AllValid(es)
    ensures CoverCount(es, p) == CountAtMost(Starts(es), p) - CountAtMost(Ends(es), p - 1)
    decreases |es|
  {
    if |es| > 0 {
      var init := es[..|es| - 1];
      assert Starts(es)[..|es| - 1] == Starts(init);
      assert Ends(es)[..|es| - 1] == Ends(init);
      CoverCountByColumns(init, p);
    }
  }

  /** How many intervals of `es` straddle the step from `q`. */
  function StepCount(es: seq<Epoch>, q: int): nat {
    if |es| == 0 then 0
    else StepCount(es[..|es| - 1], q) + (if Straddles(es[|es| - 1], q) then 1 else 0)
  }

  lemma {:induction false} StepCountPositive(es: seq<Epoch>, q: int)
    ensures StepCovers(es, q) <==> StepCount(es, q) > 0
    decreases |es|
  {
    if |es| > 0 {
      var init := es[..|es| - 1];
      StepCountPositive(init, q);
      if StepCovers(init, q) {
        var k :| 0 <= k < |init| && Straddles(init[k], q);
        assert Straddles(es[k], q);
      }
      if StepCovers(es, q) && !Straddles(es[|es| - 1], q) {
        var k :| 0 <= k < |es| && Straddles(es[k], q);
        assert Straddles(init[k], q);
      }
    }
  }

  /** For valid intervals: straddling the step from `q` = starting by `q` minus ending by `q`. */
  lemma {:induction false} StepCountByColumns(es: seq<Epoch>, q: int)
    requires AllValid(es)
    ensures StepCount(es, q) == CountAtMost(Starts(es), q) - CountAtMost(Ends(es), q)
    decreases |es|
  {
    if |es| > 0 {
      var init := es[..|es| - 1];
      assert Starts(es)[..|es| - 1] == Starts(init);
      assert Ends(es)[..|es| - 1] == Ends(init);
      StepCountByColumns(init, q);
    }
  }

  /**
   * Sorting the two columns independently keeps every row valid and covers
   * exactly the points and the unit steps the input covered.
   */
  lemma SortColumnsCoverage(es: seq<Epoch>)
    requires AllValid(es)
    ensures AllValid(SortColumns(es))
    ensures forall p :: Covers(SortColumns(es), p) <==> Covers(es, p)
    ensures forall q :: StepCovers(SortColumns(es), q) <==> StepCovers(es, q)
  {
    var r := SortColumns(es);
    var S, E := Starts(r), Ends(r);
    forall x: int
      ensures CountAtMost(E, x) <= CountAtMost(S, x)
    {
      CountPermutation(S, Starts(es), x);
      CountPermutation(E, Ends(es), x);
      EndsTrailStarts(es, x);
    }
    forall k | 0 <= k < |r|
      ensures r[k].lo <= r[k].hi
    {
      assert S[k] == r[k].lo && E[k] == r[k].hi;
      AscendingCount(E, k, E[k]);
      if S[k] > E[k] {
        AscendingCount(S, k, E[k]);
        assert false;
      }
    }
    forall p
      ensures Covers(r, p) <==> Covers(es, p)
    {
      CountPermutation(S, Starts(es), p);
      CountPermutation(E, Ends(es), p - 1);
      CoverCountByColumns(es, p);
      CoverCountByColumns(r, p);
      CoverCountPositive(es, p);
      CoverCountPositive(r, p);
    }
    forall q
      ensures StepCovers(r, q) <==> StepCovers(es, q)
    {
      CountPermutation(S, Starts(es), q);
      CountPermutation(E, Ends(es), q);
      StepCountByColumns(es, q);
      StepCountByColumns(r, q);
      StepCountPositive(es, q);
      StepCountPositive(r, q);
    }
  }

  lemma CoversSnoc(es: seq<Epoch>, e: Epoch, p: int)
    ensures Covers(es + [e], p) <==> Covers(es, p) || Contains(e, p)
  {
    if Covers(es, p) {
      var k :| 0 <= k < |es| && Contains(es[k], p);
      assert (es + [e])[k] == es[k];
    }
    if Contains(e, p) {
      assert (es + [e])[|es|] == e;
    }
  }

  lemma CoversConcat(a: seq<Epoch>, b: seq<Epoch>, p: int)
    ensures Covers(a + b, p) <==> Covers(a, p) || Covers(b, p)
  {
    if Covers(a, p) {
      var k :| 0 <= k < |a| && Contains(a[k], p);
      assert (a + b)[k] == a[k];
    }
    if Covers(b, p) {
      var k :| 0 <= k < |b| && Contains(b[k], p);
      assert (a + b)[|a| + k] == b[k];
    }
    if Covers(a + b, p) {
      var k :| 0 <= k < |a + b| && Contains((a + b)[k], p);
      if k < |a| {
        assert a[k] == (a + b)[k];
      } else {
        assert b[k - |a|] == (a + b)[k];
      }
    }
  }

  lemma StepCoversSnoc(es: seq<Epoch>, e: Epoch, q: int)
    ensures StepCovers(es + [e], q) <==> StepCovers(es, q) || Straddles(e, q)
  {
    if StepCovers(es, q) {
      var k :| 0 <= k < |es| && Straddles(es[k], q);
      assert (es + [e])[k] == es[k];
    }
    if Straddles(e, q) {
      assert (es + [e])[|es|] == e;
    }
  }

  lemma StepCoversConcat(a: seq<Epoch>, b: seq<Epoch>, q: int)
    ensures StepCovers(a + b, q) <==> StepCovers(a, q) || StepCovers(b, q)
  {
    if StepCovers(a, q) {
      var k :| 0 <= k < |a| && Straddles(a[k], q);
      assert (a + b)[k] == a[k];
    }
    if StepCovers(b, q) {
      var k :| 0 <= k < |b| && Straddles(b[k], q);
      assert (a + b)[|a| + k] == b[k];
    }
    if StepCovers(a + b, q) {
      var k :| 0 <= k < |a + b| && Straddles((a + b)[k], q);
      if k < |a| {
        assert a[k] == (a + b)[k];
      } else {
        assert b[k - |a|] == (a + b)[k];
      }
    }
  }

  /** The run `run` has the same points and unit steps as the rows `rs`. */
  ghost predicate SameUnion(run: Epoch, rs: seq<Epoch>) {
    && (forall p :: Contains(run, p) <==> Covers(rs, p))
    && (forall q :: Straddles(run, q) <==> StepCovers(rs, q))
  }

  /** The two sequences have the same points and unit steps. */
  ghost predicate SameCover(a: seq<Epoch>, b: seq<Epoch>) {
    && (forall p :: Covers(a, p) <==> Covers(b, p))
    && (forall q :: StepCovers(a, q) <==> StepCovers(b, q))
  }

  /** A run of one row covers what that row contains. */
  lemma RunStart(rows: seq<Epoch>, g: int)
    requires 0 <= g < |rows|
    ensures SameUnion(rows[g], rows[g..g + 1])
  {
    assert rows[g..g + 1] == [rows[g]];
    forall p
      ensures Contains(rows[g], p) <==> Covers([rows[g]], p)
    {
      CoversSnoc([], rows[g], p);
    }
    forall q
      ensures Straddles(rows[g], q) <==> StepCovers([rows[g]], q)
    {
      StepCoversSnoc([], rows[g], q);
    }
  }

  /**
   * A row that starts inside the run and ends after it stretches the run's
   * union to that row's end.
   */
  lemma RunExtend(rows: seq<Epoch>, g: int, i: int, run: Epoch)
    requires 0 <= g < i < |rows|
    requires run.lo <= rows[i].lo <= run.hi <= rows[i].hi
    requires SameUnion(run, rows[g..i])
    ensures SameUnion(Epoch(run.lo, rows[i].hi), rows[g..i + 1])
  {
    var prefix, next := rows[g..i], rows[g..i + 1];
    assert next == prefix + [rows[i]];
    forall p
      ensures Contains(Epoch(run.lo, rows[i].hi), p) <==> Covers(next, p)
    {
      CoversSnoc(prefix, rows[i], p);
    }
    forall q
      ensures Straddles(Epoch(run.lo, rows[i].hi), q) <==> StepCovers(next, q)
    {
      StepCoversSnoc(prefix, rows[i], q);
    }
  }

  /** Emitting a finished run keeps the output covering the rows consumed so far. */
  lemma RunClose(smoothed: seq<Epoch>, rows: seq<Epoch>, g: int, i: int, run: Epoch)
    requires 0 <= g < i <= |rows|
    requires SameCover(smoothed, rows[..g])
    requires SameUnion(run, rows[g..i])
    ensures SameCover(smoothed + [run], rows[..i])
  {
    var done, before, current := rows[..i], rows[..g], rows[g..i];
    assert done == before + current;
    forall p
      ensures Covers(smoothed + [run], p) <==> Covers(done, p)
    {
      CoversSnoc(smoothed, run, p);
      CoversConcat(before, current, p);
    }
    forall q
      ensures StepCovers(smoothed + [run], q) <==> StepCovers(done, q)
    {
      StepCoversSnoc(smoothed, run, q);
      StepCoversConcat(before, current, q);
    }
  }

  /** Later intervals start strictly after earlier ones end, and starts never decrease. */
  predicate Ordered(es: seq<Epoch>) {
    (forall j, k :: 0 <= j < k < |es| ==> es[j].hi < es[k].lo) &&
    (forall j, k :: 0 <= j < k < |es| ==> es[j].lo <= es[k].lo)
  }

  /** Every interval starts by `lo` and ends by `hi`. */
  predicate Below(es: seq<Epoch>, lo: int, hi: int) {
    forall k :: 0 <= k < |es| ==> es[k].lo <= lo && es[k].hi <= hi
  }

  /** Every endpoint is a value of the matching input column. */
  predicate FromColumns(out: seq<Epoch>, es: seq<Epoch>) {
    forall k :: 0 <= k < |out| ==> out[k].lo in Starts(es) && out[k].hi in Ends(es)
  }

  /** Emitting a run that starts after everything so far keeps the output ordered. */
  lemma Emit(smoothed: seq<Epoch>, es: seq<Epoch>, run: Epoch, lo: int, hi: int, lo': int, hi': int)
    requires Ordered(smoothed) && Below(smoothed, lo, hi) && FromColumns(smoothed, es)
    requires lo <= run.lo && hi < run.lo
    requires run.lo in Starts(es) && run.hi in Ends(es)
    requires lo <= lo' && hi <= hi' && run.lo <= lo' && run.hi <= hi'
    ensures Ordered(smoothed + [run]) && Below(smoothed + [run], lo', hi')
    ensures FromColumns(smoothed + [run], es)
  {
  }

  // ---------------------------------------------------------------------

  /**
   * The inner loop of `smooth_epochs`: starting from row `g` of the column-sorted
   * rows, absorb every following row whose start is at most the running end.
   * Returns the first row not absorbed and the run's end.
   */
  method RunEnd(rows: seq<Epoch>, g: int) returns (i: int, ub: int)
    requires 0 <= g < |rows|
    requires Ascending(Starts(rows)) && Ascending(Ends(rows))
    ensures g < i <= |rows|
    ensures ub == rows[i - 1].hi
    ensures i < |rows| ==> ub < rows[i].lo
    ensures AllValid(rows) ==> rows[g].lo <= ub
    ensures AllValid(rows) ==> SameUnion(Epoch(rows[g].lo, ub), rows[g..i])
  {
    ghost var S, E := Starts(rows), Ends(rows);
    ghost var valid := AllValid(rows);
    var lb := rows[g].lo;
    ub := rows[g].hi;
    i := g + 1;
    if valid {
      RunStart(rows, g);
    }
    while i < |rows| && ub >= rows[i].lo
      invariant g < i <= |rows|
      invariant lb == S[g] && ub == E[i - 1]
      invariant valid ==> lb <= ub && SameUnion(Epoch(lb, ub), rows[g..i])
    {
      if valid {
        assert S[g] <= S[i] && E[i - 1] <= E[i];
        RunExtend(rows, g, i, Epoch(lb, ub));
      }
      ub := rows[i].hi;
      i := i + 1;
    }
  }

  /**
   * What the outer loop of `smooth_epochs` has established once the first
   * `i` column-sorted rows are consumed into `smoothed`.
   */
  ghost predicate Progress(es: seq<Epoch>, rows: seq<Epoch>, smoothed: seq<Epoch>, i: int) {
    && 0 <= i <= |rows|
    && |smoothed| <= i
    && Ordered(smoothed)
    && FromColumns(smoothed, es)
    && (i == 0 ==> smoothed == [])
    && (0 < i ==> Below(smoothed, rows[i - 1].lo, rows[i - 1].hi))
    && (0 < i < |rows| ==> rows[i - 1].hi < rows[i].lo)
    && (AllValid(rows) ==> AllValid(smoothed))
    && (AllValid(rows) ==> SameCover(smoothed, rows[..i]))
  }

  /** Emitting the run of rows `g .. i - 1` (as `RunEnd` found it) keeps `Progress`. */
  lemma Advance(es: seq<Epoch>, rows: seq<Epoch>, smoothed: seq<Epoch>, g: int, i: int, ub: int)
    requires rows == SortColumns(es)
    requires Progress(es, rows, smoothed, g)
    requires g < i <= |rows|
    requires ub == rows[i - 1].hi
    requires i < |rows| ==> ub < rows[i].lo
    requires AllValid(rows) ==> rows[g].lo <= ub
    requires AllValid(rows) ==> SameUnion(Epoch(rows[g].lo, ub), rows[g..i])
    ensures Progress(es, rows, smoothed + [Epoch(rows[g].lo, ub)], i)
  {
    var run := Epoch(rows[g].lo, ub);
    var next := smoothed + [run];
    AdvanceOrder(es, rows, smoothed, g, i, ub);
    if AllValid(rows) {
      RunClose(smoothed, rows, g, i, run);
      assert forall k :: 0 <= k < |smoothed| ==> next[k] == smoothed[k];
    }
  }

  /** The ordering half of `Advance`: the emitted run starts after the output so far. */
  lemma AdvanceOrder(es: seq<Epoch>, rows: seq<Epoch>, smoothed: seq<Epoch>, g: int, i: int, ub: int)
    requires rows == SortColumns(es)
    requires 0 <= g < i <= |rows|
    requires Ordered(smoothed) && FromColumns(smoothed, es)
    requires g == 0 ==> smoothed == []
    requires 0 < g ==> Below(smoothed, rows[g - 1].lo, rows[g - 1].hi) && rows[g - 1].hi < rows[g].lo
    requires ub == rows[i - 1].hi
    ensures Ordered(smoothed + [Epoch(rows[g].lo, ub)])
    ensures FromColumns(smoothed + [Epoch(rows[g].lo, ub)], es)
    ensures Below(smoothed + [Epoch(rows[g].lo, ub)], rows[i - 1].lo, rows[i - 1].hi)
  {
    var S, E := Starts(rows), Ends(rows);
    assert Ascending(S) && Ascending(E);
    assert multiset(S) == multiset(Starts(es)) && multiset(E) == multiset(Ends(es));
    var run := Epoch(rows[g].lo, ub);
    assert run.lo == S[g] && S[g] in multiset(S);
    assert ub == E[i - 1] && E[i - 1] in multiset(E);
    assert run.lo <= S[i - 1] by {
      if g < i - 1 {
        assert S[g] <= S[i - 1];
      }
    }
    if g == 0 {
      var floor := if E[i - 1] < run.lo then E[i - 1] else run.lo - 1;
      Emit(smoothed, es, run, run.lo, floor, S[i - 1], E[i - 1]);
    } else {
      assert S[g - 1] <= S[g] && E[g - 1] <= E[i - 1];
      Emit(smoothed, es, run, S[g - 1], E[g - 1], S[i - 1], E[i - 1]);
    }
    assert S[i - 1] == rows[i - 1].lo && E[i - 1] == rows[i - 1].hi;
  }

  /**
   * `util.smooth_epochs(epochs)`: sorts both columns, then walks the rows,
   * extending the current interval while the next start is at most its end
   * (touching intervals merge), and emits one interval per run.
   */
  method SmoothEpochs(es: seq<Epoch>) returns (r: seq<Epoch>)
    ensures |es| == 0 ==> r == es
    ensures |r| <= |es|
    ensures forall j, k :: 0 <= j < k < |r| ==> r[j].hi < r[k].lo
    ensures forall j, k :: 0 <= j < k < |r| ==> r[j].lo <= r[k].lo
    ensures forall k :: 0 <= k < |r| ==> r[k].lo in Starts(es) && r[k].hi in Ends(es)
    ensures AllValid(es) ==> AllValid(r) && forall p :: Covers(r, p) <==> Covers(es, p)
    ensures AllValid(es) ==> forall q :: StepCovers(r, q) <==> StepCovers(es, q)
  {
    if |es| == 0 {
      return es;
    }
    var rows := SortColumns(es);
    var n := |rows|;
    var i := 0;
    var smoothed: seq<Epoch> := [];
    while i < n
      invariant Progress(es, rows, smoothed, i)
    {
      ghost var g := i;
      var lb := rows[i].lo;
      var ub;
      i, ub := RunEnd(rows, i);
      Advance(es, rows, smoothed, g, i, ub);
      smoothed := smoothed + [Epoch(lb, ub)];
    }
    if AllValid(es) {
      SortColumnsCoverage(es);
      assert rows[..n] == rows;
    }
    r := smoothed;
  }

  /**
   * The documented example: `[0, 5]` and `[3, 8]` overlap, so any result that
   * meets `SmoothEpochs`' contract for them is the single interval `[0, 8]`.
   */
  lemma OverlapExample(r: seq<Epoch>)
    requires |r| <= 2
    requires forall j, k :: 0 <= j < k < |r| ==> r[j].hi < r[k].lo
    requires forall k :: 0 <= k < |r| ==> r[k].lo in Starts([Epoch(0, 5), Epoch(3, 8)]) && r[k].hi in Ends([Epoch(0, 5), Epoch(3, 8)])
    requires forall p :: Covers(r, p) <==> Covers([Epoch(0, 5), Epoch(3, 8)], p)
    ensures r == [Epoch(0, 8)]
  {
    var es := [Epoch(0, 5), Epoch(3, 8)];
    assert Starts(es) == [0, 3] && Ends(es) == [5, 8];
    assert Contains(es[0], 0) && Contains(es[1], 8);
    assert Covers(r, 0) && Covers(r, 8);
    var a :| 0 <= a < |r| && Contains(r[a], 0);
    var b :| 0 <= b < |r| && Contains(r[b], 8);
    assert forall k :: 0 <= k < |r| ==> r[k].lo <= 3 && 5 <= r[k].hi;
    assert r[a] == r[b] == Epoch(0, 8);
    assert forall k :: 0 <= k < |r| ==> r[k] == r[a];
    assert r[0] == r[|r| - 1] == r[a];
  }

  /**
   * Rows that only touch at neighbouring indices stay apart: any result that
   * meets `SmoothEpochs`' contract for `[0, 2]` and `[3, 5]` is those two rows.
   */
  lemma AdjacentExample(r: seq<Epoch>)
    requires |r| <= 2
    requires forall j, k :: 0 <= j < k < |r| ==> r[j].hi < r[k].lo
    requires forall k :: 0 <= k < |r| ==> r[k].lo in Starts([Epoch(0, 2), Epoch(3, 5)]) && r[k].hi in Ends([Epoch(0, 2), Epoch(3, 5)])
    requires forall p :: Covers(r, p) <==> Covers([Epoch(0, 2), Epoch(3, 5)], p)
    requires forall q :: StepCovers(r, q) <==> StepCovers([Epoch(0, 2), Epoch(3, 5)], q)
    ensures r == [Epoch(0, 2), Epoch(3, 5)]
  {
    var es := [Epoch(0, 2), Epoch(3, 5)];
    assert Starts(es) == [0, 3] && Ends(es) == [2, 5];
    assert Contains(es[0], 0) && Contains(es[1], 5);
    assert !StepCovers(es, 2) by {
      forall k | 0 <= k < |es|
        ensures !Straddles(es[k], 2)
      {
      }
    }
    assert Covers(r, 0) && Covers(r, 5);
    var a :| 0 <= a < |r| && Contains(r[a], 0);
    var b :| 0 <= b < |r| && Contains(r[b], 5);
    assert r[a].lo in [0, 3] && r[a].hi in [2, 5];
    assert r[b].lo in [0, 3] && r[b].hi in [2, 5];
    assert !Straddles(r[a], 2) && !Straddles(r[b], 2);
    assert r[a] == Epoch(0, 2) && r[b] == Epoch(3, 5);
    assert a < b;
    assert a == 0 && b == 1;
  }
}
