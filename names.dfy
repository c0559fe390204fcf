// Piece numbers read from file and stack names (`list_pieces` in util.py and
// in both readers) and the file a piece's analysis is saved to
// (`state_filename`).
module Names {
  import opened Wrappers

  predicate IsDigit(c: char) {
    '0' <= c <= '9'
  }

  predicate AllDigits(d: string) {
    forall k :: 0 <= k < |d| ==> IsDigit(d[k])
  }

  function DigitValue(c: char): (v: nat)
    requires IsDigit(c)
    ensures v < 10
  {
    c as int - '0' as int
  }

  /** The character of a decimal digit. */
  function Digit(v: nat): (c: char)
    requires v < 10
    ensures IsDigit(c) && DigitValue(c) == v
  {
    ('0' as int + v) as char
  }

  /** `int(d)` for a run of decimal digits, most significant first. */
  function DigitsValue(d: string): nat
    requires AllDigits(d)
  {
    if |d| == 0 then 0 else DigitsValue(d[..|d| - 1]) * 10 + DigitValue(d[|d| - 1])
  }

  /** `str(n)` (and `f'{n}'`) for a non-negative integer. */
  function Show(n: nat): (s: string)
    ensures |s| > 0 && AllDigits(s)
  {
    if n < 10 then [Digit(n)] else Show(n / 10) + [Digit(n % 10)]
  }

  /** Reading back what `str` wrote gives the number again. */
  lemma {:induction false} ShowValue(n: nat)
    ensures DigitsValue(Show(n)) == n
  {
    if n >= 10 {
      ShowValue(n / 10);
      var s := Show(n);
      assert s[..|s| - 1] == Show(n / 10);
    }
  }

  /** `str` is one-to-one. */
  lemma ShowInjective(a: nat, b: nat)
    requires Show(a) == Show(b)
    ensures a == b
  {
    ShowValue(a);
    ShowValue(b);
  }

  // The regular expressions

  /** The end of the run of digits starting at `i`: how far a greedy `\d+` reaches. */
  function RunEnd(s: string, i: nat): (j: nat)
    requires i <= |s|
    ensures i <= j <= |s|
    ensures forall k :: i <= k < j ==> IsDigit(s[k])
    ensures j == |s| || !IsDigit(s[j])
    decreases |s| - i
  {
    if i < |s| && IsDigit(s[i]) then RunEnd(s, i + 1) else i
  }

  /** `marker(\d+)` matches at position `i` of `s`. */
  predicate MatchesAt(s: string, marker: string, i: int) {
    0 <= i && i + |marker| < |s| && s[i..i + |marker|] == marker && IsDigit(s[i + |marker|])
  }

  /** The number `(\d+)` captures after `marker` at position `i`. */
  function NumberAt(s: string, marker: string, i: int): nat
    requires MatchesAt(s, marker, i)
  {
    var a := i + |marker|;
    DigitsValue(s[a..RunEnd(s, a)])
  }

  /**
   * A start the leading `.*` of `re.match('.*' + marker + r'(\d+)\w?', s)`
   * can reach: `.` does not cross a line break.
   */
  predicate Candidate(s: string, marker: string, i: int) {
    MatchesAt(s, marker, i) && forall k :: 0 <= k < i ==> s[k] != '\n'
  }

  /** The last candidate start below `i`: the greedy `.*` backs off from the end. */
  function LastCandidate(s: string, marker: string, i: nat): (r: Option<nat>)
    requires i <= |s|
    ensures r.Some? ==> r.value < i && Candidate(s, marker, r.value)
    ensures r.Some? ==> forall j :: r.value < j < i ==> !Candidate(s, marker, j)
    ensures r.None? ==> forall j :: 0 <= j < i ==> !Candidate(s, marker, j)
  {
    if i == 0 then None
    else if Candidate(s, marker, i - 1) then Some(i - 1)
    else LastCandidate(s, marker, i - 1)
  }

  /**
   * `int(re.match('.*' + marker + r'(\d+)\w?', s).group(1))`, or `None`
   * where the match fails (and `.group` then raises `AttributeError`).
   */
  function PieceNumber(s: string, marker: string): Option<nat> {
    match LastCandidate(s, marker, |s|)
    case None => None
    case Some(i) => Some(NumberAt(s, marker, i))
  }

  /** The marker of util.py's names (`piece 3`). */
  const SpacedMarker := "piece "
  /** The marker of the readers' names (`piece_3`). */
  const Marker := "piece_"

  /**
   * A marker whose first character is no digit, no line break and occurs
   * nowhere else in it, as both markers: no match can start inside it.
   */
  predicate Anchored(marker: string) {
    && |marker| > 0 && !IsDigit(marker[0]) && marker[0] != '\n'
    && forall k :: 0 < k < |marker| ==> marker[k] != marker[0] && marker[k] != '\n'
  }

  lemma MarkersAnchored()
    ensures Anchored(SpacedMarker) && Anchored(Marker)
  {
  }

  /** The number a run of digits starting at `a` spells, when the run is known to end at `b`. */
  lemma RunValue(s: string, a: nat, b: nat)
    requires a <= b <= |s| && AllDigits(s[a..b]) && (b == |s| || !IsDigit(s[b]))
    ensures RunEnd(s, a) == b
  {
    forall k | a <= k < b
      ensures IsDigit(s[k])
    {
      assert s[a..b][k - a] == s[k];
    }
  }

  /** No start inside the marker or the digits after it: only the marker's first character could begin one. */
  lemma NoStartWithin(s: string, marker: string, i: nat, d: nat, j: int)
    requires Anchored(marker) && i + |marker| + d <= |s| && s[i..i + |marker|] == marker
    requires AllDigits(s[i + |marker|..i + |marker| + d])
    requires i < j < i + |marker| + d
    ensures !MatchesAt(s, marker, j)
  {
    if j < i + |marker| {
      assert s[i..i + |marker|][j - i] == s[j];
    } else {
      assert s[i + |marker|..i + |marker| + d][j - i - |marker|] == s[j];
    }
    if j + |marker| < |s| {
      assert s[j..j + |marker|][0] == s[j];
    }
  }

  /** A start inside the suffix is a start in the suffix alone. */
  lemma StartInSuffix(prefix: string, suffix: string, marker: string, j: int)
    requires |prefix| <= j
    ensures MatchesAt(prefix + suffix, marker, j) <==> MatchesAt(suffix, marker, j - |prefix|)
  {
    var s := prefix + suffix;
    var t := j - |prefix|;
    if 0 <= t && t + |marker| < |suffix| {
      assert s[j..j + |marker|] == suffix[t..t + |marker|];
      assert s[j + |marker|] == suffix[t + |marker|];
    }
  }

  /**
   * `.*piece_(\d+)` reads back the number written after the marker, whatever
   * comes before it on the line, provided nothing after the number is
   * another marker with digits and the number is not followed by a digit.
   */
  lemma {:induction false} PieceNumberShown(prefix: string, marker: string, n: nat, suffix: string)
    requires Anchored(marker)
    requires forall k :: 0 <= k < |prefix| ==> prefix[k] != '\n'
    requires |suffix| == 0 || !IsDigit(suffix[0])
    requires forall j :: 0 <= j < |suffix| ==> !MatchesAt(suffix, marker, j)
    ensures PieceNumber(prefix + marker + Show(n) + suffix, marker) == Some(n)
  {
    var digits := Show(n);
    var head := prefix + marker + digits;
    var s := head + suffix;
    var i := |prefix|;
    var a := i + |marker|;
    var b := a + |digits|;
    assert s[i..a] == marker;
    assert s[a..b] == digits;
    assert IsDigit(s[a]) by {
      assert s[a..b][0] == s[a];
    }
    assert Candidate(s, marker, i) by {
      forall k | 0 <= k < i
        ensures s[k] != '\n'
      {
        assert s[k] == prefix[k];
      }
    }
    forall j | i < j < |s|
      ensures !Candidate(s, marker, j)
    {
      if j < b {
        NoStartWithin(s, marker, i, |digits|, j);
      } else {
        StartInSuffix(head, suffix, marker, j);
      }
    }
    var r := LastCandidate(s, marker, |s|);
    assert r == Some(i);
    RunValue(s, a, b);
    ShowValue(n);
  }

  /** The greedy `.*` makes the last marker on the line count: `piece_1_piece_2` is piece 2. */
  lemma LastMarkerWins()
    ensures PieceNumber("piece_1_piece_2", Marker) == Some(2)
  {
    MarkersAnchored();
    assert Show(2) == "2";
    assert "piece_1_piece_2" == "piece_1_" + Marker + Show(2) + "";
    PieceNumberShown("piece_1_", Marker, 2, "");
  }

  /** `^(?!_)piece_(\d+)\w?` on a stack name: the marker must open the name. */
  function StackNumber(name: string): (r: Option<nat>)
    ensures r.Some? <==> MatchesAt(name, Marker, 0)
  {
    if MatchesAt(name, Marker, 0) then Some(NumberAt(name, Marker, 0)) else None
  }

  /** A stack named `piece_<n>` followed by anything but a digit belongs to piece `n`. */
  lemma StackNumberShown(n: nat, rest: string)
    requires |rest| == 0 || !IsDigit(rest[0])
    ensures StackNumber(Marker + Show(n) + rest) == Some(n)
  {
    var s := Marker + Show(n) + rest;
    var b := |Marker| + |Show(n)|;
    assert s[..|Marker|] == Marker;
    assert s[|Marker|..b] == Show(n);
    assert IsDigit(s[|Marker|]) by {
      assert s[|Marker|..b][0] == s[|Marker|];
    }
    RunValue(s, |Marker|, b);
    ShowValue(n);
  }

  // File names

  /** Position of the last `.` in `name` (`str.rfind`). */
  function LastDot(name: string): (r: Option<nat>)
    ensures r.Some? ==> r.value < |name| && name[r.value] == '.' && forall k :: r.value < k < |name| ==> name[k] != '.'
    ensures r.None? ==> '.' !in name
  {
    if |name| == 0 then None
    else if name[|name| - 1] == '.' then Some(|name| - 1)
    else
      var r := LastDot(name[..|name| - 1]);
      assert r.None? ==> forall k :: 0 <= k < |name| - 1 ==> name[k] == name[..|name| - 1][k];
      r
  }

  /**
   * `Path.stem`: the name without its last suffix; a leading dot or a
   * trailing one does not start a suffix.
   */
  function Stem(name: string): (r: string)
    ensures |r| <= |name| && r == name[..|r|]
  {
    match LastDot(name)
    case Some(i) => if 0 < i < |name| - 1 then name[..i] else name
    case None => name
  }

  predicate EndsWith(name: string, tail: string) {
    |tail| <= |name| && name[|name| - |tail|..] == tail
  }

  /**
   * `Path.glob('*' + marker + '*.*')` from position `i` on: the marker, and
   * a dot somewhere after it.
   */
  predicate GlobbedFrom(name: string, marker: string, i: nat)
    requires i <= |name|
    decreases |name| - i
  {
    if i + |marker| > |name| then false
    else (name[i..i + |marker|] == marker && '.' in name[i + |marker|..]) || (i < |name| && GlobbedFrom(name, marker, i + 1))
  }

  predicate Globbed(name: string, marker: string) {
    GlobbedFrom(name, marker, 0)
  }

  /** A name the listing loop reads a number from: globbed and not a `.json` file. */
  predicate Listed(name: string, marker: string) {
    Globbed(name, marker) && !EndsWith(name, ".json")
  }

  /** The number the loop reads from a listed name's stem. */
  function ListedNumber(name: string, marker: string): Option<nat> {
    PieceNumber(Stem(name), marker)
  }

  // Sorting

  predicate Increasing(s: seq<nat>) {
    forall j, k :: 0 <= j < k < |s| ==> s[j] < s[k]
  }

  /** `x` inserted into an increasing list, unless it is already there. */
  function InsertNew(x: nat, s: seq<nat>): (r: seq<nat>)
    requires Increasing(s)
    ensures Increasing(r)
    ensures forall p :: p in r <==> p == x || p in s
    ensures |r| > 0 && (r[0] == x || (|s| > 0 && r[0] == s[0]))
  {
    if |s| == 0 then [x]
    else if x < s[0] then [x] + s
    else if x == s[0] then s
    else
      var rest := InsertNew(x, s[1..]);
      assert s == [s[0]] + s[1..];
      [s[0]] + rest
  }

  /** `sorted(set(s))`: the distinct values of `s`, smallest first. */
  function SortedSet(s: seq<nat>): (r: seq<nat>)
    ensures Increasing(r)
    ensures forall p :: p in r <==> p in s
  {
    if |s| == 0 then []
    else
      var rest := SortedSet(s[1..]);
      assert forall p :: p in s <==> p == s[0] || p in s[1..];
      InsertNew(s[0], rest)
  }

  /** An increasing list is determined by its values: `sorted(set(...))` has one possible result. */
  lemma {:induction false} IncreasingUnique(r: seq<nat>, t: seq<nat>)
    requires Increasing(r) && Increasing(t)
    requires forall p :: p in r <==> p in t
    ensures r == t
  {
    if |r| > 0 {
      assert r[0] in r;
    }
    if |t| > 0 {
      assert t[0] in t;
    }
    if |r| > 0 {
      assert |t| > 0;
      assert r[0] == t[0] by {
        assert r[0] in t && t[0] in r;
      }
      forall p
        ensures p in r[1..] <==> p in t[1..]
      {
        if p in r[1..] {
          assert p in t && p > r[0];
        }
        if p in t[1..] {
          assert p in r && p > t[0];
        }
      }
      IncreasingUnique(r[1..], t[1..]);
      assert r == [r[0]] + r[1..] && t == [t[0]] + t[1..];
    }
  }

  // The listing loops

  /** What the listing loop makes of one name. */
  datatype Reading = Skipped | Unnumbered | Numbered(piece: nat)

  function ReadName(name: string, marker: string): (r: Reading)
    ensures r == Skipped <==> !Listed(name, marker)
  {
    if !Listed(name, marker) then Skipped
    else match ListedNumber(name, marker)
      case None => Unnumbered
      case Some(p) => Numbered(p)
  }

  function ReadNames(names: seq<string>, marker: string): (rs: seq<Reading>)
    ensures |rs| == |names| && forall k :: 0 <= k < |names| ==> rs[k] == ReadName(names[k], marker)
  {
    seq(|names|, k requires 0 <= k < |names| => ReadName(names[k], marker))
  }

  /**
   * The numbers the listing loop collects in order, or the
   * `AttributeError` of the first listed name without one.
   */
  function Collect(rs: seq<Reading>): Result<seq<nat>> {
    if |rs| == 0 then Ok([])
    else
      match Collect(rs[..|rs| - 1])
      case Err(e) => Err(e)
      case Ok(ps) =>
        match rs[|rs| - 1]
        case Skipped => Ok(ps)
        case Unnumbered => Err(AttributeError)
        case Numbered(p) => Ok(ps + [p])
  }

  /** The loop fails exactly when some listed name has no number, and then with `AttributeError`. */
  lemma {:induction false} CollectFails(rs: seq<Reading>)
    ensures Collect(rs).Err? <==> Unnumbered in rs
    ensures Collect(rs).Err? ==> Collect(rs).error == AttributeError
  {
    if |rs| > 0 {
      var init := rs[..|rs| - 1];
      CollectFails(init);
      assert rs == init + [rs[|rs| - 1]];
    }
  }

  /** Otherwise it collects the number of every listed name. */
  lemma {:induction false} CollectNumbers(rs: seq<Reading>)
    requires Collect(rs).Ok?
    ensures forall p :: p in Collect(rs).value <==> Numbered(p) in rs
  {
    if |rs| > 0 {
      var init := rs[..|rs| - 1];
      CollectNumbers(init);
      assert rs == init + [rs[|rs| - 1]];
    }
  }

  /** One more name read by the loop. */
  lemma CollectStep(rs: seq<Reading>, k: nat)
    requires k < |rs|
    ensures Collect(rs[..k + 1]) == match Collect(rs[..k])
      case Err(e) => Err(e)
      case Ok(ps) => (match rs[k]
        case Skipped => Ok(ps)
        case Unnumbered => Err(AttributeError)
        case Numbered(p) => Ok(ps + [p]))
  {
    assert rs[..k + 1][..k] == rs[..k];
  }

  /** Once a prefix fails, the whole listing fails. */
  lemma {:induction false} CollectFailSticks(rs: seq<Reading>, k: nat)
    requires k <= |rs| && Collect(rs[..k]).Err?
    ensures Collect(rs).Err?
  {
    if k < |rs| {
      var n := |rs| - 1;
      assert rs[..n][..k] == rs[..k];
      CollectFailSticks(rs[..n], k);
    } else {
      assert rs[..k] == rs;
    }
  }

  /**
   * One pass of the listing loop: names the glob does not yield and `.json`
   * files are passed over; the others are matched.
   */
  method ReadOne(name: string, marker: string) returns (r: Reading)
    ensures r == ReadName(name, marker)
  {
    if !Globbed(name, marker) {
      return Skipped;
    }
    if EndsWith(name, ".json") {
      return Skipped;
    }
    var piece := PieceNumber(Stem(name), marker);
    if piece.None? {
      return Unnumbered;
    }
    return Numbered(piece.value);
  }

  /**
   * `list_pieces(path)` in util.py (marker `piece `) and
   * `ProcessedReader.list_pieces()` (marker `piece_`) over the names a
   * directory listing yields: the numbers read from the listed names'
   * stems, sorted and without repeats; a listed name with no number raises
   * `AttributeError`.
   */
  method ListPieces(names: seq<string>, marker: string) returns (r: Result<seq<nat>>)
    ensures r == ListedPieces(names, marker)
  {
    ghost var rs := ReadNames(names, marker);
    var pieces: seq<nat> := [];
    for k := 0 to |names|
      invariant Collect(rs[..k]) == Ok(pieces)
    {
      var reading := ReadOne(names[k], marker);
      CollectStep(rs, k);
      match reading
      case Skipped =>
      case Unnumbered =>
        CollectFailSticks(rs, k + 1);
        CollectFails(rs);
        return Err(AttributeError);
      case Numbered(p) =>
        pieces := pieces + [p];
    }
    assert rs[..|names|] == rs;
    return Ok(SortedSet(pieces));
  }

  /** What the listing returns: the sorted distinct numbers the loop collects, or its error. */
  function ListedPieces(names: seq<string>, marker: string): Result<seq<nat>> {
    match Collect(ReadNames(names, marker))
    case Err(e) => Err(e)
    case Ok(ps) => Ok(SortedSet(ps))
  }

  /**
   * The listing fails, with `AttributeError`, exactly when a listed name
   * has no number; otherwise it holds each listed name's number once, in
   * increasing order.
   */
  lemma ListedPiecesSpec(names: seq<string>, marker: string)
    ensures ListedPieces(names, marker).Err? <==> exists k :: 0 <= k < |names| && ReadName(names[k], marker) == Unnumbered
    ensures ListedPieces(names, marker).Err? ==> ListedPieces(names, marker).error == AttributeError
    ensures ListedPieces(names, marker).Ok? ==> Increasing(ListedPieces(names, marker).value)
    ensures ListedPieces(names, marker).Ok? ==> forall p :: p in ListedPieces(names, marker).value <==>
      exists k :: 0 <= k < |names| && ReadName(names[k], marker) == Numbered(p)
  {
    var rs := ReadNames(names, marker);
    CollectFails(rs);
    if Collect(rs).Ok? {
      CollectNumbers(rs);
      forall p
        ensures Numbered(p) in rs <==> exists k :: 0 <= k < |names| && ReadName(names[k], marker) == Numbered(p)
      {
        if Numbered(p) in rs {
          var k :| 0 <= k < |rs| && rs[k] == Numbered(p);
        }
      }
    } else {
      var k :| 0 <= k < |rs| && rs[k] == Unnumbered;
    }
  }

  /** `StackNumber` of each name. */
  function StackNumbers(names: seq<string>): (ns: seq<Option<nat>>)
    ensures |ns| == |names| && forall k :: 0 <= k < |names| ==> ns[k] == StackNumber(names[k])
  {
    seq(|names|, k requires 0 <= k < |names| => StackNumber(names[k]))
  }

  /** The names numbered `p` by `ns`, in order. */
  function GroupedBy(names: seq<string>, ns: seq<Option<nat>>, p: nat): (r: seq<string>)
    requires |ns| == |names|
    ensures forall k :: 0 <= k < |r| ==> r[k] in names
  {
    if |names| == 0 then []
    else
      var n := |names| - 1;
      GroupedBy(names[..n], ns[..n], p) + (if ns[n] == Some(p) then [names[n]] else [])
  }

  /** The stack names of piece `p`, in the order the file lists them. */
  function Grouped(names: seq<string>, p: nat): seq<string> {
    GroupedBy(names, StackNumbers(names), p)
  }

  /** Piece `p`'s group holds the names numbered `p`, and only those. */
  lemma {:induction false} GroupedExactly(names: seq<string>, ns: seq<Option<nat>>, p: nat)
    requires |ns| == |names| && forall j :: 0 <= j < |names| ==> ns[j] == StackNumber(names[j])
    ensures forall k :: 0 <= k < |GroupedBy(names, ns, p)| ==> StackNumber(GroupedBy(names, ns, p)[k]) == Some(p)
    ensures forall j :: 0 <= j < |names| && ns[j] == Some(p) ==> names[j] in GroupedBy(names, ns, p)
  {
    if |names| > 0 {
      var n := |names| - 1;
      GroupedExactly(names[..n], ns[..n], p);
      assert forall j :: 0 <= j < n ==> names[..n][j] == names[j];
    }
  }

  /** A piece no name of the prefix is numbered has no stacks in it yet. */
  lemma {:induction false} GroupedAbsent(names: seq<string>, ns: seq<Option<nat>>, p: nat)
    requires |ns| == |names| && Some(p) !in ns
    ensures GroupedBy(names, ns, p) == []
  {
    if |names| > 0 {
      var n := |names| - 1;
      assert ns == ns[..n] + [ns[n]];
      GroupedAbsent(names[..n], ns[..n], p);
    }
  }

  function KeysOf(groups: seq<(nat, seq<string>)>): (r: seq<nat>)
    ensures |r| == |groups| && forall k :: 0 <= k < |r| ==> r[k] == groups[k].0
  {
    seq(|groups|, k requires 0 <= k < |groups| => groups[k].0)
  }

  /**
   * `LIFReader.list_pieces()` over the stack names in file order: names
   * opening with `piece_<n>` grouped by `n` in the order read, the groups by
   * increasing `n`; other names are skipped.
   */
  method ListStackPieces(names: seq<string>) returns (r: seq<(nat, seq<string>)>)
    ensures Increasing(KeysOf(r))
    ensures forall p :: p in KeysOf(r) <==> exists k :: 0 <= k < |names| && StackNumber(names[k]) == Some(p)
    ensures forall k :: 0 <= k < |r| ==> r[k].1 == Grouped(names, r[k].0)
  {
    ghost var ns := StackNumbers(names);
    var pieces: map<nat, seq<string>> := map[];
    var order: seq<nat> := [];
    for k := 0 to |names|
      invariant forall p :: p in pieces <==> p in order
      invariant forall p :: p in order <==> Some(p) in ns[..k]
      invariant forall p :: p in pieces ==> pieces[p] == GroupedBy(names[..k], ns[..k], p)
    {
      assert names[..k + 1][..k] == names[..k] && ns[..k + 1] == ns[..k] + [ns[k]];
      var piece := StackNumber(names[k]);
      if piece.Some? {
        var p := piece.value;
        if p !in pieces {
          GroupedAbsent(names[..k], ns[..k], p);
          order := order + [p];
          pieces := pieces[p := []];
        }
        pieces := pieces[p := pieces[p] + [names[k]]];
      }
    }
    assert names[..|names|] == names && ns[..|names|] == ns;
    var keys := SortedSet(order);
    r := seq(|keys|, i requires 0 <= i < |keys| => (keys[i], pieces[keys[i]]));
    assert KeysOf(r) == keys;
    forall p
      ensures p in keys <==> exists k :: 0 <= k < |names| && StackNumber(names[k]) == Some(p)
    {
      if p in keys {
        var k :| 0 <= k < |ns| && ns[k] == Some(p);
      }
    }
  }

  // The saved analysis

  /** `f'{stem}_piece_{piece}_analysis.json'`. */
  function StateName(stem: string, piece: nat): (r: string)
    ensures EndsWith(r, ".json")
  {
    stem + "_piece_" + Show(piece) + "_analysis.json"
  }

  /** A reader's path: the parent directory's components and the last name. */
  datatype ReaderPath = ReaderPath(parent: seq<string>, name: string)

  datatype ReaderKind = Lif | Processed

  /**
   * `save_path()`: a directory named after the `.lif` file beside it, or
   * the processed directory itself.
   */
  function SavePath(kind: ReaderKind, path: ReaderPath): (r: seq<string>)
    ensures |r| == |path.parent| + 1 && r[..|path.parent|] == path.parent
  {
    match kind
    case Lif => path.parent + [Stem(path.name)]
    case Processed => path.parent + [path.name]
  }

  /** `state_filename(piece)`: the piece's analysis file in the save directory. */
  function StateFilename(kind: ReaderKind, path: ReaderPath, piece: nat): (r: seq<string>)
    ensures |r| > 0 && r[..|r| - 1] == SavePath(kind, path)
    ensures r[|r| - 1] == StateName(Stem(path.name), piece)
  {
    SavePath(kind, path) + [StateName(Stem(path.name), piece)]
  }

  /** Different pieces are saved to different files. */
  lemma StateFilenameInjective(kind: ReaderKind, path: ReaderPath, a: nat, b: nat)
    requires StateFilename(kind, path, a) == StateFilename(kind, path, b)
    ensures a == b
  {
    var stem := Stem(path.name);
    var x := StateName(stem, a);
    var y := StateName(stem, b);
    assert x == y by {
      var r := StateFilename(kind, path, a);
      assert r[|r| - 1] == x;
    }
    var lead := |stem| + |"_piece_"|;
    var tail := |"_analysis.json"|;
    assert |Show(a)| == |Show(b)|;
    assert Show(a) == x[lead..|x| - tail];
    assert Show(b) == y[lead..|y| - tail];
    ShowInjective(a, b);
  }

  /** The stem of a state file is the name without its `.json`. */
  lemma StateNameStem(stem: string, piece: nat)
    ensures Stem(StateName(stem, piece)) == stem + "_piece_" + Show(piece) + "_analysis"
  {
    var body := stem + "_piece_" + Show(piece) + "_analysis";
    var name := StateName(stem, piece);
    assert name == body + ".json";
    var d := LastDot(name);
    assert name[|body|] == '.';
    assert d.value == |body| by {
      forall k | |body| < k < |name|
        ensures name[k] != '.'
      {
        assert name[k] == ".json"[k - |body|];
      }
    }
    assert name[..|body|] == body;
  }

  /**
   * A state file's stem carries its piece number where the processed reader
   * looks for one, and `list_pieces` skips the file because it is `.json`.
   */
  lemma StateNameNumbered(stem: string, piece: nat)
    requires forall k :: 0 <= k < |stem| ==> stem[k] != '\n'
    ensures ListedNumber(StateName(stem, piece), Marker) == Some(piece)
    ensures !Listed(StateName(stem, piece), Marker)
  {
    StateNameStem(stem, piece);
    var prefix := stem + "_";
    var suffix := "_analysis";
    assert stem + "_piece_" + Show(piece) + suffix == prefix + Marker + Show(piece) + suffix;
    forall j | 0 <= j < |suffix|
      ensures !MatchesAt(suffix, Marker, j)
    {
      if j + |Marker| < |suffix| {
        assert suffix[j..j + |Marker|][0] == suffix[j];
      }
    }
    PieceNumberShown(prefix, Marker, piece, suffix);
  }
}
