# cochleogram core, modelled in Dafny

cochleogram is a tool for annotating confocal images of cochlear pieces. A
piece is made of image tiles (stacks of z-slices). On each piece the user
draws, for each hair-cell row (IHC, OHC1, OHC2, OHC3), a spiral and a set of
cells. Each of these is a `Points` curve: a list of nodes, a start node, and
exclusion spans along the spline through the nodes. This project models:

- `util.py`:
  - `get_region`, `argnearest` and `shortest_path`, the greedy node ordering;
  - `smooth_epochs`, the merging of index intervals;
  - `list_pieces` name parsing.
- `model.py`:
  - `Points`, as a class whose methods update `x`, `y`, `i` and `exclude`;
  - `Tile`, as a class with coordinate maps and a saved extent;
  - `Piece`: construction, the union extent, `merge_tiles` onto an array
    canvas, saving and restoring state, and clearing a row.
- `readers.py`:
  - the z-alignment both `load_piece` methods apply to a piece's tiles;
  - both `list_pieces` parsers;
  - `save_path` and `state_filename`.

The modules follow the program:

- `Geometry`: points, squared distances, `argnearest`.
- `Paths`: `shortest_path` and `get_region`.
- `Epochs`: `smooth_epochs`.
- `Curves`: `Points`.
- `Volumes`: image stacks, `np.round`, `np.ceil`, `np.pad` on z, and `Tile`.
- `Mosaic`: `merge_tiles`.
- `Specimens`: `Piece`.
- `Names`: the readers' name parsing and file names.
- `Readers`: the z-alignment.
- `Wrappers`: `Option`, `Result`, the Python errors, and a pass/fail outcome.

Coordinates are Dafny `real`s. A NaN coordinate is the `NaN` case of a `Num`
datatype. Distances are compared squared. The square root is monotone, so
every comparison and every argmin is the same. An exception the source
raises is an `Err` or `Fail` value, named by its Python class. The state a
raising method leaves behind is part of its contract.

Tiles carry the six-element extent `[xlb, xub, ylb, yub, zlb, zub]` that
readers.py indexes (`t.extent[4]`, `t.extent[5]`). The extent is built from
`info` lower and upper corners. The voxel size is a single field, which
model.py reads as `info["scaling"]` and readers.py as `info["voxel_size"]`.

## Model

| member | source | states |
|---|---|---|
| Geometry.ArgNearest | cochleogram/util.py:47-51 | None exactly for no samples; otherwise an index whose distance to the point is least, and strictly less than that of every earlier index (numpy's first minimum) |
| Geometry.ArgNearestOfMember | cochleogram/util.py:47-51 | a point that is one of the samples is snapped to an index holding that very point |
| Geometry.Dist2Zero | cochleogram/util.py:50 | the squared distance is never negative and is zero exactly between equal points |
| Paths.Zip | cochleogram/util.py:96 | `list(zip(x, y))` has the shorter list's length and pairs coordinates position by position |
| Paths.WalkPermutation | cochleogram/util.py:96-103 | the greedy path is a permutation of the nodes: every node exactly once |
| Paths.WalkStart | cochleogram/util.py:99-100 | the path starts at the node popped first |
| Paths.WalkGreedy | cochleogram/util.py:98-102 | every step of the path goes to a node at least as near as any node visited later |
| Paths.WalkNearest | cochleogram/util.py:98-102 | for any later position b, the node after position a is no farther from node a than node b is |
| Paths.DuplicateKept | cochleogram/util.py:96-103 | a permutation of nodes with two equal points also has two equal points |
| Paths.WalkRepeats | cochleogram/util.py:98-102 | the greedy path puts coincident nodes side by side: the next node after one copy is at distance 0 |
| Paths.WalkUnfold | cochleogram/util.py:98-102 | one iteration: node k popped, the walk continues from the argmin of the remaining nodes |
| Paths.GreedyOrder | cochleogram/util.py:96-103 | the loop returns `IndexError` exactly for a start index `list.pop` rejects with two or more nodes, otherwise the greedy walk from the normalised start |
| Paths.ShortestPath | cochleogram/util.py:88-103 | `shortest_path(x, y, i)` is the greedy walk over `zip(x, y)` or the `IndexError` of the first pop |
| Paths.Region | cochleogram/util.py:14-23 | `get_region` fails exactly when the spline has no samples (argmin of nothing) |
| Paths.RegionBetweenSnaps | cochleogram/util.py:18-22 | the region is the samples from the lower to the upper snapped index, half-open, and is empty exactly when both ends snap to one sample |
| Paths.RegionSymmetric | cochleogram/util.py:20-21 | swapping start and end gives the same region |
| Epochs.Sort | cochleogram/util.py:239 | an ascending permutation of its input |
| Epochs.SortColumns | cochleogram/util.py:239 | `sort(axis=0)` sorts the start column and the end column each on its own |
| Epochs.SortColumnsCoverage | cochleogram/util.py:239 | sorting the columns separately keeps every row valid and covers exactly the points and the unit steps (`q` to `q + 1`) the input covered |
| Epochs.CoverCountByColumns | cochleogram/util.py:239 | the number of valid intervals holding p is the starts at most p minus the ends before p, a count sorting cannot change |
| Epochs.StepCountByColumns | cochleogram/util.py:239 | the number of valid intervals straddling the step from q to q + 1 is the starts at most q minus the ends at most q, a count sorting cannot change |
| Epochs.RunEnd | cochleogram/util.py:244-247 | the inner loop stops at the first row starting after the running end; the run `[lb, ub]` covers exactly the points and unit steps of the absorbed rows |
| Epochs.Advance | cochleogram/util.py:242-248 | emitting one run keeps the outer loop's invariant: ordered, disjoint output covering the points and unit steps of the rows consumed |
| Epochs.SmoothEpochs | cochleogram/util.py:225-249 | empty in, empty out; the result is strictly ordered and disjoint, no longer than the input, built from input endpoints, and for valid intervals covers exactly the input's points and the unit steps between them, so it is the union of the intervals as closed ranges of reals |
| Epochs.OverlapExample | cochleogram/util.py:226-235 | any result meeting that contract for `[0, 5]` and `[3, 8]` is `[[0, 8]]` |
| Epochs.AdjacentExample | cochleogram/util.py:246 | rows that only touch at neighbouring indices stay apart (`2 >= 3` is false): any result meeting the contract for `[0, 2]` and `[3, 5]` is those two rows |
| Curves.OrderedNodes | cochleogram/model.py:54-71 | `get_nodes` fails exactly for a start index `pop` rejects, and otherwise returns a permutation of the nodes |
| Curves.Samples | cochleogram/model.py:73-80 | `interpolate` raises `get_nodes`' `IndexError` exactly when the start index is refused; otherwise it gives no samples for three nodes or fewer, and for more it is the spline fit of the ordered nodes, raising whatever the fit raises |
| Curves.CoincidentNodesFail | cochleogram/model.py:73-80 | with more than three nodes, two of them equal, `interpolate` raises under a fit that refuses equal neighbouring nodes, as `splprep`'s input check does |
| Curves.Snap | cochleogram/model.py:120-126 | `nearest_point` succeeds exactly when the path has samples, and then returns a sample no farther from the point than any other |
| Curves.SnapSample | cochleogram/model.py:120-126 | a sample of the path snaps to itself |
| Curves.Kept | cochleogram/model.py:136-145 | one span of `update_exclude` contributes at most itself, re-snapped, with two distinct endpoints on the path |
| Curves.RevalidatedOnPath | cochleogram/model.py:134-146 | after `update_exclude` every span has distinct endpoints that are path samples; with no path nothing survives |
| Curves.RevalidatedConcat | cochleogram/model.py:134-146 | re-validation works span by span and keeps their order |
| Curves.RevalidatedIdempotent | cochleogram/model.py:134-146 | re-validating twice against the same path changes nothing more |
| Curves.FindNode | cochleogram/model.py:104-111 | `find_node` returns a nearest node that lies strictly within the threshold, or `ValueError` |
| Curves.NodeGrid | cochleogram/model.py:105-107 | the coordinate arrays broadcast: equal lengths pair up, a one-element side is repeated, any other mismatch raises `ValueError`; for equal lengths the points are the nodes |
| Curves.FindNodeIn | cochleogram/model.py:104-111 | `find_node` on the two coordinate lists: only `ValueError`s, an index below the broadcast length whose point is within the threshold, and for equal lengths `FindNode` over the nodes |
| Curves.HasNodeIffSomeWithin | cochleogram/model.py:97-111 | `has_node` holds exactly when some node lies strictly within the threshold |
| Curves.AddedNodeIsHit | cochleogram/model.py:88-95 | once a point is a node, adding it again with any positive threshold is a no-op |
| Curves.MissIsNew | cochleogram/model.py:88-95 | a point that is not hit is not already a node |
| Curves.AddThenRemove | cochleogram/model.py:88-118 | after a new point is added, `remove_node` at it finds the appended position and popping it restores the old nodes |
| Curves.ZipWithout | cochleogram/model.py:115-116 | popping the same index from x and y pops that node |
| Curves.ZipAppend | cochleogram/model.py:92-93 | appending to x and y appends that node |
| Curves.MaskNaN | cochleogram/model.py:83 | `isnan(x) \| isnan(y)` broadcasts (equal lengths or a length-1 side, otherwise `ValueError`) and marks exactly the pairs with a NaN |
| Curves.Select | cochleogram/model.py:84-85 | boolean indexing succeeds only on an array whose length matches the mask |
| Curves.MaskedAssign | cochleogram/model.py:82-86 | `set_nodes` never touches `i` or `exclude`, and on success leaves x and y equally long |
| Curves.UnmaskedPairs | cochleogram/model.py:83-85 | masking both columns with their joint NaN mask keeps exactly the finite pairs, in order |
| Curves.MaskedLengths | cochleogram/model.py:83-85 | the masked columns are equally long |
| Curves.Restored | cochleogram/model.py:181-191 | a successful `set_state` leaves x and y equally long and `exclude` as saved, or empty when missing |
| Curves.StateRoundTrip | cochleogram/model.py:173-191 | `set_state(get_state())` restores the same curve whatever the current one is |
| Curves.RestoredDropsNaN | cochleogram/model.py:181-191 | restoring equally long columns succeeds and keeps exactly the finite pairs, in order |
| Curves.AllSpanIndices | cochleogram/model.py:162-166 | one valid index range per span, in order, inside the samples |
| Curves.FirstContaining | cochleogram/model.py:150-158 | the first range containing the clicked sample, and None exactly when no range contains it |
| Curves.FirstContainingAt | cochleogram/model.py:150-158 | the range a left-to-right scan stops at is the first containing one |
| Curves.FindSpan | cochleogram/model.py:151-158 | the search loop returns the first containing range |
| Curves.ExcludeRemovedSpec | cochleogram/model.py:148-158 | when the clicked sample lies in some span's range exactly one span is removed and nothing is added; otherwise the list is unchanged |
| Curves.RemoveSpan | cochleogram/model.py:148-158 | the loop computes the spans left after the click |
| Curves.SpanIndexList | cochleogram/model.py:162-166 | the index loop computes each span's sorted pair of snapped indices |
| Curves.SpansAt | cochleogram/model.py:169 | each merged range is written back as the samples at its two ends |
| Curves.MergedInRange | cochleogram/model.py:168-169 | merged ranges built from in-range endpoints still index the samples |
| Curves.SimplifiedBy | cochleogram/model.py:168-169 | `smooth_epochs`' guarantees make the merged ranges ordered, disjoint, in range and covering exactly the old spans' samples and the steps between neighbouring samples |
| Curves.MergeSpans | cochleogram/model.py:160-171 | the work of `simplify_exclude`: merged ranges as `Simplified` promises, written back as spans |
| Curves.Points.constructor | cochleogram/model.py:24-28 | the curve holds the given x, y, i and exclusions |
| Curves.Points.GetNodes | cochleogram/model.py:54-71 | returns `OrderedNodes` of the current fields |
| Curves.Points.Interpolate | cochleogram/model.py:73-80 | returns `Samples` of the current fields, including the fit's error |
| Curves.Points.NearestPoint | cochleogram/model.py:120-126 | returns the snap of the point onto the current samples |
| Curves.Points.UpdateExclude | cochleogram/model.py:134-146 | only `exclude` changes, to the re-validated list |
| Curves.Points.AddNode | cochleogram/model.py:88-95 | NaN raises `ValueError` and changes nothing; a hit of `find_node` on the two lists changes nothing; otherwise, including when `has_node` swallows the broadcast `ValueError` of lists of unequal length, the point is appended to x and y and the exclusions are re-validated; equal lengths stay equal, and then the nodes gain exactly the point |
| Curves.Points.RemoveNode | cochleogram/model.py:113-118 | `find_node`'s `ValueError` changes nothing; an index past x raises `IndexError` with nothing changed; an index past y raises `IndexError` after x was popped; otherwise both lists are popped and the exclusions re-validated; on equal lengths the found node is removed |
| Curves.Points.RemoveAt | cochleogram/model.py:115-117 | pops index k from both lists and re-validates; equal lengths stay equal and then node k is removed |
| Curves.Points.AddExclude | cochleogram/model.py:128-132 | a failed snap raises and changes nothing; otherwise the snapped span is appended |
| Curves.Points.RemoveExclude | cochleogram/model.py:148-158 | interpolation errors and an empty path raise and change nothing; otherwise the first span containing the click is removed |
| Curves.Points.SimplifyExclude | cochleogram/model.py:160-171 | errors raise and change nothing; otherwise the spans become the merged ranges written back as samples |
| Curves.Points.GetState | cochleogram/model.py:173-179 | restoring the saved state gives back the current fields |
| Curves.Points.SetState | cochleogram/model.py:181-191 | outcome and new fields are those of `Restored`, including the partial update when `i` is missing |
| Curves.Points.SetNodes | cochleogram/model.py:82-86 | outcome and new fields are those of `MaskedAssign` |
| Volumes.RoundHalfEven | cochleogram/readers.py:89 | `np.round`: within half of the input, ties to even, non-negative for non-negative input |
| Volumes.Ceil | cochleogram/readers.py:87 | `int(np.ceil(r))`: the least integer not below r |
| Volumes.PadZ | cochleogram/readers.py:93-94 | `np.pad` on z keeps the other axes and adds pb + pt slices |
| Volumes.PadZContents | cochleogram/readers.py:93-94 | the padded stack holds the original slices from offset pb on and zeros elsewhere |
| Volumes.ChainedIn | cochleogram/model.py:214-215 | a chained comparison reads the upper bound only when the lower test passes; a missing bound raises `IndexError` |
| Volumes.Tile.constructor | cochleogram/model.py:202-211 | the tile keeps info, image and source, and its extent is the box info spans |
| Volumes.Tile.Contains | cochleogram/model.py:213-216 | a closed box test on the extent; with two bounds or fewer it raises `IndexError` |
| Volumes.Tile.ToIndicesDelta | cochleogram/model.py:248-256 | raises `ValueError` exactly for an axis other than x, y or z |
| Volumes.Tile.IndicesOfCoords | cochleogram/model.py:224-246 | `to_indices(to_coords(i)) == i` |
| Volumes.Tile.CoordsOfIndices | cochleogram/model.py:224-246 | `to_coords(to_indices(p)) == p` |
| Volumes.Tile.RoundTripXY | cochleogram/model.py:224-246 | the two-column forms are inverse to each other as well |
| Volumes.Tile.DeltaOfDisplacement | cochleogram/model.py:236-256 | a displacement moves the indices by its `to_indices_delta` on each axis |
| Volumes.Tile.GetState | cochleogram/model.py:274-275 | the saved state holds the extent |
| Volumes.Tile.SetState | cochleogram/model.py:277-278 | the extent is replaced, or `KeyError` leaves it |
| Mosaic.MinCorner | cochleogram/model.py:352 | the componentwise least corner, attained on each axis |
| Mosaic.MaxCorner | cochleogram/model.py:353 | the componentwise greatest corner, attained on each axis |
| Mosaic.LayoutOf | cochleogram/model.py:352-359 | the canvas lies below every tile's lower corner and uses the first tile's positive voxel size |
| Mosaic.Cells | cochleogram/model.py:356-358 | a non-empty range spans a non-negative number of voxels |
| Mosaic.SliceBound | cochleogram/model.py:365 | a slice bound normalised as Python does lies within the axis |
| Mosaic.OffsetsNonNegative | cochleogram/model.py:363 | every tile's offset from the merged lower corner is non-negative |
| Mosaic.NonSquareRejected | cochleogram/model.py:366 | a tile with different x and y sizes inside the canvas does not broadcast onto its swapped slot |
| Mosaic.PaintedBlank | cochleogram/model.py:360-366 | a voxel no tile covers keeps the fill value 0 |
| Mosaic.PaintedLastWins | cochleogram/model.py:362-366 | where slots overlap, the voxel holds what the last covering tile wrote |
| Mosaic.SwapXY | cochleogram/model.py:374 | `swapaxes(0, 1)`: the transposed shape and values |
| Mosaic.Blank | cochleogram/model.py:360 | a fresh all-zero canvas of the given size with three channels |
| Mosaic.Paste | cochleogram/model.py:366 | one paste turns the canvas after k tiles into the canvas after k + 1 |
| Mosaic.PasteAll | cochleogram/model.py:362-366 | the paste loop succeeds exactly when every tile broadcasts, and then holds every tile painted in order |
| Mosaic.Merge | cochleogram/model.py:351-375 | the `ValueError` numpy raises, or the merged placement and image as `Merged` defines them |
| Mosaic.MergedCanvas | cochleogram/model.py:351-375 | the canvas painted with every tile and read back with x and y swapped is the merged image |
| Specimens.LabelsListed | cochleogram/model.py:309 | every row label is one of the four keys |
| Specimens.ColumnMin | cochleogram/model.py:345 | the least value of a column, attained by some row |
| Specimens.ColumnMax | cochleogram/model.py:346 | the greatest value of a column, attained by some row |
| Specimens.UnionExtent | cochleogram/model.py:343-349 | `vstack` errors for no rows, ragged rows or short rows; otherwise a box holding every tile's x and y bounds |
| Specimens.UnionTight | cochleogram/model.py:343-349 | each bound of the union box is some tile's bound |
| Specimens.SaveGroup | cochleogram/model.py:380-381 | each row's saved state is its curve's `get_state` |
| Specimens.RestoreGroup | cochleogram/model.py:385-388 | restoring the first k rows leaves later rows untouched |
| Specimens.RestoreTiles | cochleogram/model.py:389-390 | restoring the first k tiles leaves later tiles untouched |
| Specimens.GroupFailSticks | cochleogram/model.py:385-388 | after a failed row the loop's result no longer changes |
| Specimens.TilesFailStick | cochleogram/model.py:389-390 | after a failed tile the loop's result no longer changes |
| Specimens.TileDocAt | cochleogram/model.py:379 | with distinct stems each tile's entry holds its extent |
| Specimens.GroupRestored | cochleogram/model.py:377-388 | restoring a saved group brings back every row |
| Specimens.TilesRestored | cochleogram/model.py:377-390 | restoring saved tiles brings back every extent when stems are distinct |
| Specimens.PieceRoundTrip | cochleogram/model.py:377-390 | `set_state(get_state())` into any piece with the same tiles gives back the saved piece when stems are distinct |
| Specimens.MissingLabel | cochleogram/model.py:384-388 | a missing label fails the restore and leaves that row and all cells untouched |
| Specimens.ClearAsWritten | cochleogram/model.py:410-414 | as written, clearing raises `TypeError` and changes nothing |
| Specimens.Clear | cochleogram/model.py:410-414 | clearing with arrays empties x and y and keeps `i` and the exclusions |
| Specimens.ClearedFields | cochleogram/model.py:82-86 | `set_nodes` with empty lists raises `TypeError`; with empty arrays it empties the curve |
| Specimens.NewGroup | cochleogram/model.py:309-311 | one fresh, empty curve per row, none shared |
| Specimens.SetRow | cochleogram/model.py:385-388 | one pass of the row loop advances `RestoreGroup` by one label |
| Specimens.SetGroup | cochleogram/model.py:385-388 | the row loop's outcome and new curves are those of `RestoreGroup` |
| Specimens.SetTile | cochleogram/model.py:389-390 | one pass of the tile loop advances `RestoreTiles` by one tile |
| Specimens.SetTiles | cochleogram/model.py:389-390 | the tile loop's outcome and new extents are those of `RestoreTiles`; images unchanged |
| Specimens.Piece.constructor | cochleogram/model.py:305-311 | the piece keeps tiles, path and number and has a fresh empty curve per row and group |
| Specimens.Piece.GetImageExtent | cochleogram/model.py:343-349 | succeeds exactly for a non-empty rectangular set of extents with four bounds, and then holds every tile's x and y bounds |
| Specimens.Piece.MergeTiles | cochleogram/model.py:351-375 | `Merge` of the tiles' data, as a fresh tile whose source is the piece's path |
| Specimens.Piece.GetState | cochleogram/model.py:377-382 | restoring the saved state gives back the piece's current state |
| Specimens.Piece.SetGroups | cochleogram/model.py:385-388 | spirals then cells restored as `RestoreGroups` says; tiles untouched |
| Specimens.Piece.SetState | cochleogram/model.py:384-390 | outcome and new state are those of `RestorePiece`, including partial updates; images unchanged |
| Specimens.Piece.ClearCells | cochleogram/model.py:410-411 | the corrected behaviour (see "## Findings"): the row's cells are emptied, keeping `i` and the exclusions; as written the source raises `TypeError` and changes nothing |
| Specimens.Piece.ClearSpiral | cochleogram/model.py:413-414 | the corrected behaviour (see "## Findings"): the row's spiral is emptied, keeping `i` and the exclusions; as written the source raises `TypeError` and changes nothing |
| Names.Show | cochleogram/readers.py:107 | `str(n)` is a non-empty run of digits |
| Names.ShowValue | cochleogram/readers.py:107 | reading back what `str` wrote gives the number |
| Names.ShowInjective | cochleogram/readers.py:107 | different numbers are written differently |
| Names.RunEnd | cochleogram/readers.py:113 | a greedy `\d+` stops at the first non-digit |
| Names.LastCandidate | cochleogram/readers.py:113 | the greedy `.*` backs off to the last match start on the first line |
| Names.PieceNumberShown | cochleogram/readers.py:113-118 | the number written after the marker is read back, whatever precedes it on the line |
| Names.LastMarkerWins | cochleogram/readers.py:113 | in `piece_1_piece_2` the greedy `.*` makes the number 2 |
| Names.StackNumber | cochleogram/readers.py:58-62 | a stack name matches exactly when it opens with `piece_` and a digit |
| Names.StackNumberShown | cochleogram/readers.py:58-62 | `piece_<n>` followed by a non-digit belongs to piece n |
| Names.LastDot | cochleogram/readers.py:118 | the position of the last dot, or None when there is none |
| Names.Stem | cochleogram/readers.py:118 | `Path.stem` is a prefix of the name |
| Names.SortedSet | cochleogram/readers.py:120 | `sorted(set(s))` is strictly increasing and holds exactly the values of s |
| Names.IncreasingUnique | cochleogram/readers.py:120 | two strictly increasing lists with the same values are equal |
| Names.ReadName | cochleogram/readers.py:114-118 | a name is passed over exactly when the glob does not yield it or it is a `.json` file |
| Names.CollectFails | cochleogram/readers.py:114-119 | the loop fails exactly when a listed name has no number, with `AttributeError` |
| Names.CollectNumbers | cochleogram/readers.py:114-119 | otherwise it collects exactly the numbers of the listed names |
| Names.ReadOne | cochleogram/readers.py:115-118 | one pass of the loop reads one name as `ReadName` says |
| Names.ListPieces | cochleogram/readers.py:112-120 | `ProcessedReader.list_pieces` (marker `piece_`), and `util.list_pieces` (marker `piece `), compute `ListedPieces` |
| Names.ListedPiecesSpec | cochleogram/util.py:214-222 | fails with `AttributeError` exactly when a listed name has no number; otherwise each listed number once, increasing |
| Names.GroupedExactly | cochleogram/readers.py:60-63 | piece p's group holds the names numbered p and only those |
| Names.GroupedAbsent | cochleogram/readers.py:60-63 | a number no name carries has no group members |
| Names.ListStackPieces | cochleogram/readers.py:57-66 | `LIFReader.list_pieces`: keys strictly increasing, exactly the numbers of matching names, each with its names in file order |
| Names.StateName | cochleogram/readers.py:107 | the state file name ends in `.json` |
| Names.SavePath | cochleogram/readers.py:103-104 | the save directory is one entry below the file's parent |
| Names.StateFilename | cochleogram/readers.py:165-166 | the state file lies in the save directory under `<stem>_piece_<n>_analysis.json` |
| Names.StateFilenameInjective | cochleogram/readers.py:106-107 | different pieces are saved to different files |
| Names.StateNameStem | cochleogram/readers.py:107 | the stem of a state file is its name without `.json` |
| Names.StateNameNumbered | cochleogram/readers.py:112-120 | a state file's stem carries its piece number, and `list_pieces` skips it as `.json` |
| Readers.PlanZ | cochleogram/readers.py:79-90 | the padding plan raises `IndexError` exactly for no tiles or an extent without z bounds |
| Readers.FirstRefused | cochleogram/readers.py:92-94 | the first tile with a negative width, before which every width is non-negative |
| Readers.PadTile | cochleogram/readers.py:92-95 | one pass pads tile k's stack and sets its z bounds, nothing else |
| Readers.PadTiles | cochleogram/readers.py:92-95 | the loop pads the tiles up to the first refused one, and raises there |
| Readers.AlignZ | cochleogram/readers.py:79-95 | the padding step in place: outcome, stacks and extents are those of `Aligned` |
| Readers.CeilSteps | cochleogram/readers.py:87 | the grid depth is the fewest slices that reach from `z_min` to `z_max` |
| Readers.NearestLine | cochleogram/readers.py:89 | the rounded offset puts a lower bound within half a slice of its grid line |
| Readers.PlanSpansRange | cochleogram/readers.py:84-87 | the plan's grid spans its z range with the fewest slices |
| Readers.PlanCoversTiles | cochleogram/readers.py:85-86 | every tile's z bounds lie within the grid's |
| Readers.PlanAligns | cochleogram/readers.py:89 | each stack's first slice lands within half a slice of its recorded lower bound |
| Readers.PlanBelowNonNegative | cochleogram/readers.py:85-89 | no stack is padded by a negative count below |
| Readers.AlignedOutcome | cochleogram/readers.py:89-94 | the step succeeds exactly when the plan succeeds and every top padding is non-negative; the only other failure is `np.pad`'s `ValueError` |
| Readers.AlignedUniform | cochleogram/readers.py:90-95 | after success every stack has the grid's depth and every extent keeps x and y and takes the grid's z bounds |
| Readers.AlignedContents | cochleogram/readers.py:94 | after success each stack holds its slices unchanged from its bottom padding on |
| Readers.PadZNothing | cochleogram/readers.py:94 | padding by nothing leaves a stack as it is |
| Readers.PlanOnGrid | cochleogram/readers.py:85-90 | tiles already on one grid are planned no padding |
| Readers.AlignedOnGrid | cochleogram/readers.py:79-95 | aligning tiles already on one grid changes nothing |
| Readers.PadsNothing | cochleogram/readers.py:90-95 | a plan with no padding whose bounds are the tiles' own refuses no tile and leaves every stack and extent as it is |
| Readers.AlignIdempotent | cochleogram/readers.py:79-95 | aligning aligned tiles changes nothing |

## Left out

- I/O is not modelled: reading `.lif`, `.npy`, `.json` and pickle files, `Path.glob` over a directory (a list of names stands in for it), `LifFile`, writing state, and the logging.
- The tile files `load_piece` selects and the `load_cochlea` wrappers are not modelled. `Piece.from_path` and `Cochlea` are outside this model.
- `Points.expand_nodes`, `Tile.map`, `Tile.get_image`, `Tile.nuclei_template`, `Piece.guess_cells` and the other image helpers in util.py are outside this model.
- The spline (`splprep`/`splev`) is an opaque function parameter of each curve, `fit`, which returns samples or an error. The `degree`, `smoothing` and `resolution` arguments of `interpolate` are folded into it. Of fitpack's input checks only the refusal of equal neighbouring nodes is stated, as the hypothesis `RejectsRepeats` of `Curves.CoincidentNodesFail`; the other conditions under which `splprep` raises are not modelled.
- `updated` events and the debug prints in `set_state` have no effect on the model.
- The default hit thresholds (2.5e-6 for `add_node`, 25e-6 for `remove_node`) are not fixed: the threshold is a parameter.
- Curves.Points.AddNode: models the finiteness test as a NaN test. Infinite coordinates are not modelled.
- The `astype('i')` 32-bit casts in `merge_tiles` and the padding are not modelled. The integers are unbounded.
- Floating-point rounding is not modelled: coordinates and bounds are exact reals.
- Voxel sizes are assumed positive where the source divides by them, as `requires`: each tile's own voxel size for its coordinate maps, and only the first tile's for `merge_tiles` and the padding. A zero voxel size there would give numpy's infinities or NaNs, which the model does not represent.
- Regular-expression digits are the ASCII digits. Python's `\d` also matches other Unicode decimal digits.
- `Volumes.Tile.constructor`: builds the six-element extent that readers.py's tiles carry. model.py:210 builds only the x and y bounds, which would make the padding's `t.extent[4]` raise.
- `Readers.AlignZ`: models the padding only. The `model.Piece(tiles, piece)` call after it passes two arguments to the three-argument constructor, which is modelled instead as `Specimens.Piece.constructor`.
- `Specimens.PieceRoundTrip`: the round trip is stated for tiles with distinct stems. Tiles sharing a stem share one entry of the saved map, and the last one wins.
- `Mosaic.NonSquareRejected`: the failure is shown for a non-square tile whose slot lies inside the canvas. Other non-square cases follow numpy broadcasting as `Fits` defines it.
- `Curves.Points.GetState`, `Volumes.Tile.GetState` and `Specimens.Piece.GetState` (through `SavePiece`): return the state as values. In the source the returned lists alias the curve's own `x`, `y` and `exclude` lists and each tile's own `extent` list, so a later in-place change to the curve or tile shows through a saved state.
- In the source, `ProcessedReader.state_filename` is defined twice and the second definition wins. Both build the same path, so `Names.StateFilename` models one.
- The `except Exception` in `LIFReader.list_pieces` is modelled as skipping names that do not match. Python's limit on the length of integer strings is not modelled: from Python 3.11 on, `int()` of a run longer than 4300 digits raises `ValueError`, which `LIFReader.list_pieces` swallows, skipping that stack, while `Names.StackNumber` returns its number.
- `Specimens.Piece.ClearCells` and `Specimens.Piece.ClearSpiral`: the row is a `Label`, one of the four keys. A key outside them, such as the `'tiles'` the presenter can pass, makes `self.cells[...]` raise `KeyError` in the source, and is not representable here.
- `Mosaic.Merge`, `Mosaic.Blank` and `Specimens.Piece.MergeTiles`: the canvas assumes NumPy older than 1.24, where `np.float` is `float`. On newer NumPy, model.py:360 raises `AttributeError` for every call with at least one tile.

## Findings

| source | as written | input that shows it | evidently intended | confidence | as-written member | corrected member |
|---|---|---|---|---|---|---|
| cochleogram/model.py:410-414 | `clear_cells` and `clear_spiral` call `set_nodes([], [])` with Python lists, and `set_nodes` indexes them with a numpy mask (`x[~m]`), which raises `TypeError` | `clear_cells('IHC')` on any piece | the row's nodes become empty, with `i` and the exclusions kept | not executed | Specimens.ClearAsWritten | Specimens.Clear, Specimens.Piece.ClearCells, Specimens.Piece.ClearSpiral |
