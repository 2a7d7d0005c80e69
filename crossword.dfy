/**
 * The crossword grid and its slots (crossword.go).
 *
 * A grid is a rectangle of cells, open (`_` in the structure file) or
 * blocked. A slot (`Variable`) is a maximal run of at least two open cells
 * along a row (across) or a column (down); it records its anchor (first
 * cell), direction, length and cells, the words it may still take (its
 * domain) and, for every other slot it crosses, the crossing cell keyed by
 * that slot's anchor.
 */
module Crossword {
  import opened Wrappers
  import opened Text
  import Lexicon

  /** A cell: row `x`, column `y`. */
  datatype Point = Point(x: int, y: int)

  /** `ACROSS` (0) and `DOWN` (1). */
  datatype Direction = Across | Down

  datatype Variable = Variable(
    coordinates: Point,            // anchor: the first cell
    direction: Direction,
    length: nat,
    cells: seq<Point>,
    domain: seq<string>,           // words the slot may still take
    neighbors: map<Point, Point>)  // anchor of a crossing slot -> crossing cell

  /** Go's zero `Variable{}`. */
  const ZeroVariable: Variable := Variable(Point(0, 0), Across, 0, [], [], map[])

  // ---------------------------------------------------------------------
  // The occupancy grid, as a value, and the slots a scan of it yields.
  // ---------------------------------------------------------------------

  /** A grid read row by row: `true` is an open cell. */
  type Grid = seq<seq<bool>>

  /** Cell (r, c) exists and is open; cells outside the grid count as blocked. */
  predicate Open(g: Grid, r: int, c: int) {
    0 <= r < |g| && 0 <= c < |g[r]| && g[r][c]
  }

  /** `len(structure[0])`. */
  function Width(g: Grid): nat {
    if |g| == 0 then 0 else |g[0]|
  }

  /** Open cells in row r at columns a..b-1. */
  ghost predicate OpenSpan(g: Grid, r: int, a: int, b: int) {
    forall k :: a <= k < b ==> Open(g, r, k)
  }

  /** Open cells in column c at rows a..b-1. */
  ghost predicate OpenColumnSpan(g: Grid, c: int, a: int, b: int) {
    forall k :: a <= k < b ==> Open(g, k, c)
  }

  /** Number of consecutive open cells rightwards from (r, c). */
  function RunAcross(g: Grid, r: int, c: int): nat
    decreases (if 0 <= r < |g| then |g[r]| else 0) - c
  {
    if Open(g, r, c) then 1 + RunAcross(g, r, c + 1) else 0
  }

  /** Number of consecutive open cells downwards from (r, c). */
  function RunDown(g: Grid, r: int, c: int): nat
    decreases |g| - r
  {
    if Open(g, r, c) then 1 + RunDown(g, r + 1, c) else 0
  }

  /** An across slot starts at (r, c): an open cell with no open cell on its left and an open one on its right. */
  predicate StartsAcross(g: Grid, r: int, c: int) {
    Open(g, r, c) && !Open(g, r, c - 1) && RunAcross(g, r, c) > 1
  }

  /** A down slot starts at (r, c). */
  predicate StartsDown(g: Grid, r: int, c: int) {
    Open(g, r, c) && !Open(g, r - 1, c) && RunDown(g, r, c) > 1
  }

  /** The k-th cell of a slot anchored at p. */
  function Step(p: Point, dir: Direction, k: int): Point {
    if dir == Across then Point(p.x, p.y + k) else Point(p.x + k, p.y)
  }

  /** The cells of a slot: `length` consecutive cells from the anchor. */
  function CellsFrom(anchor: Point, dir: Direction, length: nat): seq<Point> {
    seq(length, k => Step(anchor, dir, k))
  }

  /**
   * The `Variable` that ComputeVariables appends for a run: no neighbours
   * yet and, by InitDomain, every word of its length.
   */
  function NewSlot(anchor: Point, dir: Direction, length: nat, allWords: map<nat, seq<string>>): Variable {
    Variable(anchor, dir, length, CellsFrom(anchor, dir, length), Lexicon.WordsOfLength(allWords, length), map[])
  }

  /** The slots anchored at (r, c): the across one first, then the down one. */
  function CellSlots(g: Grid, r: int, c: int, allWords: map<nat, seq<string>>): seq<Variable> {
    (if StartsAcross(g, r, c) then [NewSlot(Point(r, c), Across, RunAcross(g, r, c), allWords)] else [])
    + (if StartsDown(g, r, c) then [NewSlot(Point(r, c), Down, RunDown(g, r, c), allWords)] else [])
  }

  /** The slots anchored in row r at the columns before c. */
  function RowSlots(g: Grid, r: int, c: nat, allWords: map<nat, seq<string>>): seq<Variable> {
    if c == 0 then [] else RowSlots(g, r, c - 1, allWords) + CellSlots(g, r, c - 1, allWords)
  }

  /** The slots anchored in the rows before r. */
  function GridSlots(g: Grid, r: nat, allWords: map<nat, seq<string>>): seq<Variable> {
    if r == 0 then [] else GridSlots(g, r - 1, allWords) + RowSlots(g, r - 1, Width(g), allWords)
  }

  /** Scanning one more row appends that row's slots to what the scan holds so far. */
  lemma GridSlotsStep(g: Grid, row: nat, start: seq<Variable>, acc: seq<Variable>, allWords: map<nat, seq<string>>)
    requires acc == start + GridSlots(g, row, allWords)
    ensures acc + RowSlots(g, row, Width(g), allWords) == start + GridSlots(g, row + 1, allWords)
  {
  }

  /** Every slot of the grid in scan order: row-major anchors, across before down. */
  function ScanSlots(g: Grid, allWords: map<nat, seq<string>>): seq<Variable> {
    GridSlots(g, |g|, allWords)
  }

  /** The contents of a 2-D array as a grid value. */
  ghost function Snapshot(a: array2<bool>): (g: Grid)
    reads a
    ensures |g| == a.Length0 && Width(g) == (if a.Length0 == 0 then 0 else a.Length1)
    ensures forall r :: 0 <= r < |g| ==> |g[r]| == a.Length1
    ensures forall r, c :: 0 <= r < a.Length0 && 0 <= c < a.Length1 ==> g[r][c] == a[r, c]
  {
    seq(a.Length0, r requires 0 <= r < a.Length0 reads a =>
      seq(a.Length1, c requires 0 <= c < a.Length1 reads a => a[r, c]))
  }

  // ---------------------------------------------------------------------
  // What the two working grids of ComputeVariables hold mid-scan.
  // ---------------------------------------------------------------------

  /**
   * The across copy at cell (r', c'), for the cells the scan at (row, col)
   * has not passed: it is cleared where an across run that started before
   * column `col` of row `row` runs through.
   */
  ghost function CopyAhead(g: Grid, row: int, col: int, r': int, c': int): bool {
    Open(g, r', c') && !(r' == row && col > 0 && OpenSpan(g, row, col - 1, c' + 1))
  }

  /**
   * The caller's grid at (r', c') once the down scan has handled the cells
   * before (row, col): every cell below the top of a vertical run whose top
   * has been handled is cleared. In column c' the handled rows are those
   * before `top`.
   */
  ghost function GridAt(g: Grid, row: int, col: int, r': int, c': int): bool {
    var top := if c' < col then row + 1 else row;
    Open(g, r', c') && !(top > 0 && r' > 0 && OpenColumnSpan(g, c', (if r' < top then r' else top) - 1, r' + 1))
  }

  /** A run of open cells ending at a blocked cell has the length RunAcross gives. */
  lemma {:induction false} RunAcrossExact(g: Grid, r: int, c: int, i: int)
    requires c <= i && OpenSpan(g, r, c, i) && !Open(g, r, i)
    ensures RunAcross(g, r, c) == i - c
    decreases i - c
  {
    if c < i {
      assert Open(g, r, c);
      RunAcrossExact(g, r, c + 1, i);
    }
  }

  /** The same for columns. */
  lemma {:induction false} RunDownExact(g: Grid, r: int, c: int, j: int)
    requires r <= j && OpenColumnSpan(g, c, r, j) && !Open(g, j, c)
    ensures RunDown(g, r, c) == j - r
    decreases j - r
  {
    if r < j {
      assert Open(g, r, c);
      RunDownExact(g, r + 1, c, j);
    }
  }

  /** At the cell the scan has reached, the copy is open exactly where an across run starts. */
  lemma CopyAtAnchor(g: Grid, row: int, col: int)
    requires col >= 0
    ensures CopyAhead(g, row, col, row, col) == (Open(g, row, col) && !Open(g, row, col - 1))
  {
    if col > 0 && Open(g, row, col - 1) && Open(g, row, col) {
      assert OpenSpan(g, row, col - 1, col + 1);
    }
  }

  /** Rightwards of the start of an across run, the copy still reads the grid. */
  lemma CopyAlongRun(g: Grid, row: int, col: int, c': int)
    requires Open(g, row, col) && !Open(g, row, col - 1) && col <= c'
    ensures CopyAhead(g, row, col, row, c') == Open(g, row, c')
  {
    if col > 0 {
      assert !OpenSpan(g, row, col - 1, c' + 1) by { assert !Open(g, row, col - 1); }
    }
  }

  /** At the cell the scan has reached, the grid is open exactly where a down run starts. */
  lemma GridAtAnchor(g: Grid, row: int, col: int)
    requires row >= 0
    ensures GridAt(g, row, col, row, col) == (Open(g, row, col) && !Open(g, row - 1, col))
  {
    if row > 0 && Open(g, row - 1, col) && Open(g, row, col) {
      assert OpenColumnSpan(g, col, row - 1, row + 1);
    }
  }

  /** Below the start of a down run, the grid has not been cleared yet. */
  lemma GridAlongRun(g: Grid, row: int, col: int, r': int)
    requires Open(g, row, col) && !Open(g, row - 1, col) && row <= r'
    ensures GridAt(g, row, col, r', col) == Open(g, r', col)
  {
    if row > 0 {
      assert !OpenColumnSpan(g, col, row - 1, r' + 1) by { assert !Open(g, row - 1, col); }
    }
  }

  /** Finishing a row of the down scan is starting the next. */
  lemma GridAfterRow(g: Grid, row: int, width: int, r': int, c': int)
    requires 0 <= c' < width
    ensures GridAt(g, row, width, r', c') == GridAt(g, row + 1, 0, r', c')
  {
  }

  /** Once every row is handled, a cell stays open only where the cell above it is blocked. */
  lemma GridAfterScan(g: Grid, r: int, c: int)
    requires 0 <= r < |g| && 0 <= c < |g[r]| && (r > 0 ==> c < |g[r - 1]|)
    ensures GridAt(g, |g|, 0, r, c) == (g[r][c] && !(r > 0 && g[r - 1][c]))
  {
    if r > 0 && g[r][c] && g[r - 1][c] {
      assert OpenColumnSpan(g, c, r - 1, r + 1);
    } else if r > 0 && g[r][c] {
      assert !OpenColumnSpan(g, c, r - 1, r + 1) by { assert !Open(g, r - 1, c); }
    }
  }

  /** After an across run starting at (row, col) and ending before column i is cleared, the copy matches the scan at col + 1. */
  lemma CopyAfterRun(g: Grid, row: int, col: int, i: int, c': int)
    requires Open(g, row, col) && !Open(g, row, col - 1)
    requires col < i && OpenSpan(g, row, col, i) && !Open(g, row, i)
    requires col < c'
    ensures CopyAhead(g, row, col + 1, row, c') == (if c' < i then false else CopyAhead(g, row, col, row, c'))
  {
    if c' >= i {
      assert !OpenSpan(g, row, col, c' + 1) by { assert !Open(g, row, i); }
      if col > 0 {
        assert !OpenSpan(g, row, col - 1, c' + 1) by { assert !Open(g, row, col - 1); }
      }
    } else {
      assert OpenSpan(g, row, col, c' + 1);
    }
  }

  /** Where no across run starts at (row, col), the copy already matches the scan at col + 1. */
  lemma CopyWithoutRun(g: Grid, row: int, col: int, c': int)
    requires !(Open(g, row, col) && !Open(g, row, col - 1))
    requires col < c'
    ensures CopyAhead(g, row, col + 1, row, c') == CopyAhead(g, row, col, row, c')
  {
    if !Open(g, row, col) {
      assert !OpenSpan(g, row, col, c' + 1) by { assert !Open(g, row, col); }
      if col > 0 {
        assert !OpenSpan(g, row, col - 1, c' + 1) by { assert !Open(g, row, col); }
      }
    } else {
      assert col > 0 && Open(g, row, col - 1);
      assert OpenSpan(g, row, col - 1, c' + 1) <==> OpenSpan(g, row, col, c' + 1);
    }
  }

  /** After a down run from (row, col) to row j - 1 is cleared, the grid matches the scan at col + 1. */
  lemma GridAfterRun(g: Grid, row: int, col: int, j: int, r': int)
    requires row >= 0 && Open(g, row, col) && !Open(g, row - 1, col)
    requires row < j && OpenColumnSpan(g, col, row, j) && !Open(g, j, col)
    ensures GridAt(g, row, col + 1, r', col) == (if row < r' < j then false else GridAt(g, row, col, r', col))
  {
    if r' > row {
      if r' < j {
        assert OpenColumnSpan(g, col, row, r' + 1);
      } else {
        assert !OpenColumnSpan(g, col, row, r' + 1) by { assert !Open(g, j, col); }
        if row > 0 {
          assert !OpenColumnSpan(g, col, row - 1, r' + 1) by { assert !Open(g, row - 1, col); }
        }
      }
    }
  }

  /** Where no down run starts at (row, col), the grid already matches the scan at col + 1. */
  lemma GridWithoutRun(g: Grid, row: int, col: int, r': int)
    requires row >= 0 && !(Open(g, row, col) && !Open(g, row - 1, col))
    ensures GridAt(g, row, col + 1, r', col) == GridAt(g, row, col, r', col)
  {
    if r' > row {
      if !Open(g, row, col) {
        assert !OpenColumnSpan(g, col, row, r' + 1) by { assert !Open(g, row, col); }
        if row > 0 {
          assert !OpenColumnSpan(g, col, row - 1, r' + 1) by { assert !Open(g, row, col); }
        }
      } else {
        assert row > 0 && Open(g, row - 1, col);
        assert OpenColumnSpan(g, col, row - 1, r' + 1) <==> OpenColumnSpan(g, col, row, r' + 1);
      }
    }
  }

  // ---------------------------------------------------------------------
  // Searches over slots (crossword.go:122-136, 156-224).
  // ---------------------------------------------------------------------

  /** The first cell of `a` that also lies in `b`, if any. */
  function FirstShared(a: seq<Point>, b: seq<Point>): Option<Point> {
    if a == [] then None
    else if a[0] in b then Some(a[0])
    else FirstShared(a[1..], b)
  }

  /** FirstShared finds nothing exactly when no cell is shared, and otherwise the earliest shared cell of `a`. */
  lemma {:induction false} FirstSharedSpec(a: seq<Point>, b: seq<Point>)
    ensures FirstShared(a, b).None? <==> forall k :: 0 <= k < |a| ==> a[k] !in b
    ensures FirstShared(a, b).Some? ==>
      exists k :: (0 <= k < |a| && a[k] == FirstShared(a, b).value && FirstShared(a, b).value in b
                   && forall j :: 0 <= j < k ==> a[j] !in b)
  {
    if a != [] && a[0] !in b {
      FirstSharedSpec(a[1..], b);
      assert forall k :: 1 <= k < |a| ==> a[k] == a[1..][k - 1];
      if FirstShared(a, b).Some? {
        var k :| 0 <= k < |a[1..]| && a[1..][k] == FirstShared(a, b).value
          && FirstShared(a, b).value in b && forall j :: 0 <= j < k ==> a[1..][j] !in b;
        assert a[k + 1] == FirstShared(a, b).value;
      }
    }
  }

  /**
   * Overlaps (crossword.go:125-136): nothing when the two anchors are equal
   * (even for an across and a down slot sharing their anchor cell);
   * otherwise the first cell of v1 that v2 also covers, or nothing.
   */
  function Overlaps(v1: Variable, v2: Variable): (r: Option<Point>)
    ensures v1.coordinates == v2.coordinates ==> r == None
    ensures v1.coordinates != v2.coordinates ==> (r.None? <==> forall k :: 0 <= k < |v1.cells| ==> v1.cells[k] !in v2.cells)
    ensures r.Some? ==> exists k :: 0 <= k < |v1.cells| && v1.cells[k] == r.value && r.value in v2.cells
                                    && forall j :: 0 <= j < k ==> v1.cells[j] !in v2.cells
  {
    FirstSharedSpec(v1.cells, v2.cells);
    if v1.coordinates != v2.coordinates then FirstShared(v1.cells, v2.cells) else None
  }

  /** Position of the first occurrence of p in `cells`, or -1. */
  function IndexIn(cells: seq<Point>, p: Point): (i: int)
    ensures -1 <= i < |cells|
    ensures i == -1 <==> p !in cells
    ensures i >= 0 ==> cells[i] == p && p !in cells[..i]
  {
    if cells == [] then -1
    else if cells[0] == p then 0
    else
      var i := IndexIn(cells[1..], p);
      assert i >= 0 ==> cells[..i + 1] == [cells[0]] + cells[1..][..i];
      if i == -1 then -1 else i + 1
  }

  /**
   * IndexOfCell (crossword.go:217-224): the position of p in the slot's
   * word, i.e. the first i with `Cells[i] == p`, or -1 when p is not a cell
   * of the slot.
   */
  function IndexOfCell(v: Variable, p: Point): (i: int)
    ensures -1 <= i < |v.cells|
    ensures i == -1 <==> p !in v.cells
    ensures i >= 0 ==> v.cells[i] == p && p !in v.cells[..i]
  {
    IndexIn(v.cells, p)
  }

  /**
   * GetVariable (crossword.go:207-214): a copy of the first slot anchored at
   * p, or the zero Variable when no slot is.
   */
  function GetVariable(vars: seq<Variable>, p: Point): (v: Variable)
    ensures (forall i :: 0 <= i < |vars| ==> vars[i].coordinates != p) ==> v == ZeroVariable
    ensures forall i :: 0 <= i < |vars| && vars[i].coordinates == p && AnchorAbsent(vars, p, i) ==> v == vars[i]
  {
    var i := AnchorIndex(vars, p);
    if i < |vars| then vars[i] else ZeroVariable
  }

  /** No slot before position n is anchored at p. */
  predicate AnchorAbsent(vars: seq<Variable>, p: Point, n: int) {
    forall j :: 0 <= j < n && j < |vars| ==> vars[j].coordinates != p
  }

  /** The position of the first slot anchored at p, or |vars| when there is none. */
  function AnchorIndex(vars: seq<Variable>, p: Point): (i: nat)
    ensures i <= |vars| && AnchorAbsent(vars, p, i)
    ensures i < |vars| ==> vars[i].coordinates == p
  {
    if vars == [] then 0
    else if vars[0].coordinates == p then 0
    else
      var i := AnchorIndex(vars[1..], p);
      assert forall j :: 1 <= j < |vars| ==> vars[j] == vars[1..][j - 1];
      i + 1
  }

  /** Two finite sets, one inside the other, of equal size are equal. */
  lemma SubsetOfSameSize<T>(a: set<T>, b: set<T>)
    requires a <= b && |a| == |b|
    ensures a == b
  {
    if a != b {
      var x :| x in b && x !in a;
      assert a <= b - {x};
      assert |b - {x}| == |b| - 1;
      SubsetCardinality(a, b - {x});
    }
  }

  /** A subset is no larger. */
  lemma {:induction false} SubsetCardinality<T>(a: set<T>, b: set<T>)
    requires a <= b
    ensures |a| <= |b|
    decreases |a|
  {
    if a != {} {
      var x :| x in a;
      SubsetCardinality(a - {x}, b - {x});
    }
  }

  /** The field-by-field comparison of Equals for the neighbour maps. */
  predicate SameNeighbors(m1: map<Point, Point>, m2: map<Point, Point>) {
    |m1| == |m2| && forall k :: k in m1 ==> k in m2 && m1[k] == m2[k]
  }

  /**
   * Equals (crossword.go:156-204): compares anchor, direction, length, the
   * cells and the domain element by element, and the neighbour maps by size
   * and lookups. It holds exactly when the two slots are the same value.
   */
  function Equals(v1: Variable, v2: Variable): (r: bool)
    ensures r <==> v1 == v2
  {
    var same :=
      && v1.coordinates == v2.coordinates
      && v1.direction == v2.direction
      && v1.length == v2.length
      && |v1.cells| == |v2.cells| && (forall i :: 0 <= i < |v1.cells| ==> v1.cells[i] == v2.cells[i])
      && |v1.domain| == |v2.domain| && (forall i :: 0 <= i < |v1.domain| ==> v1.domain[i] == v2.domain[i])
      && SameNeighbors(v1.neighbors, v2.neighbors);
    if same then
      assert v1.neighbors.Keys <= v2.neighbors.Keys;
      SubsetOfSameSize(v1.neighbors.Keys, v2.neighbors.Keys);
      assert v1.neighbors == v2.neighbors;
      assert v1.cells == v2.cells && v1.domain == v2.domain;
      true
    else
      false
  }

  /**
   * The neighbour map InitNeighbors builds from the slots `vs`: for every
   * slot v1 overlaps, its anchor maps to the overlap cell; a later slot with
   * the same anchor overwrites an earlier one.
   */
  function NeighborsFrom(v1: Variable, vs: seq<Variable>): map<Point, Point>
    decreases |vs|
  {
    if vs == [] then map[]
    else
      var m := NeighborsFrom(v1, vs[..|vs| - 1]);
      var w := vs[|vs| - 1];
      match Overlaps(v1, w)
      case Some(p) => m[w.coordinates := p]
      case None => m
  }

  /** The global `Structure` and `Variables` of crossword.go:27-30. */
  class Crossword {
    var structure: array2<bool>
    var variables: seq<Variable>

    /** No grid and no slots yet. */
    constructor ()
      ensures structure.Length0 == 0 && structure.Length1 == 0 && variables == []
    {
      structure := new bool[0, 0];
      variables := [];
    }

    /**
     * The string-to-grid part of NewCrossword (crossword.go:39-54), given the
     * file's text: one row per line, as wide as the first line, a cell open
     * exactly when its character is `_`. A line shorter than the first one
     * would be indexed out of range; longer lines are cut to that width.
     */
    method NewCrossword(data: string)
      requires forall r :: 0 <= r < |Split(data, '\n')| ==> |Split(data, '\n')[r]| >= |Split(data, '\n')[0]|
      modifies this`structure
      ensures fresh(structure)
      ensures structure.Length0 == |Split(data, '\n')| && structure.Length1 == |Split(data, '\n')[0]|
      ensures forall r, c :: 0 <= r < structure.Length0 && 0 <= c < structure.Length1 ==>
        structure[r, c] == (Split(data, '\n')[r][c] == '_')
    {
      var lines := Split(data, '\n');
      var height := |lines|;
      var width := |lines[0]|;
      var grid := new bool[height, width];
      for row := 0 to height
        invariant forall r, c :: 0 <= r < row && 0 <= c < width ==> grid[r, c] == (lines[r][c] == '_')
      {
        var cells := lines[row];
        for col := 0 to width
          invariant forall r, c :: 0 <= r < row && 0 <= c < width ==> grid[r, c] == (lines[r][c] == '_')
          invariant forall c :: 0 <= c < col ==> grid[row, c] == (lines[row][c] == '_')
        {
          if cells[col] == '_' {
            grid[row, col] := true;
          } else {
            grid[row, col] := false;
          }
        }
      }
      structure := grid;
    }

    /**
     * copy2DSlice (crossword.go:227-236): a fresh grid with the same cells.
     */
    static method Copy2DSlice(s: array2<bool>) returns (copy: array2<bool>)
      ensures fresh(copy) && copy.Length0 == s.Length0 && copy.Length1 == s.Length1
      ensures forall r, c :: 0 <= r < s.Length0 && 0 <= c < s.Length1 ==> copy[r, c] == s[r, c]
    {
      copy := new bool[s.Length0, s.Length1];
      for i := 0 to s.Length0
        invariant forall r, c :: 0 <= r < i && 0 <= c < s.Length1 ==> copy[r, c] == s[r, c]
      {
        for j := 0 to s.Length1
          invariant forall r, c :: 0 <= r < i && 0 <= c < s.Length1 ==> copy[r, c] == s[r, c]
          invariant forall c :: 0 <= c < j ==> copy[i, c] == s[i, c]
        {
          copy[i, j] := s[i, j];
        }
      }
    }

    /**
     * ComputeVariables (crossword.go:59-120). Scans the cells in row-major
     * order. Across runs are read from a private copy of the grid, in which
     * each run clears its cells after the first; down runs are read from the
     * caller's grid itself, in which each run clears its cells below the
     * top. A run of two or more cells is appended as a new slot whose domain
     * is every word of its length. Hence the slots appended are exactly
     * ScanSlots of the grid as it was, and afterwards the caller's grid keeps
     * an open cell only where no open cell is directly above it.
     */
    method ComputeVariables(grid: array2<bool>, allWords: map<nat, seq<string>>)
      requires grid.Length0 > 0
      modifies this`variables, grid
      ensures variables == old(variables) + ScanSlots(old(Snapshot(grid)), allWords)
      ensures forall r, c :: 0 <= r < grid.Length0 && 0 <= c < grid.Length1 ==>
        grid[r, c] == (old(grid[r, c]) && !(r > 0 && old(grid[r - 1, c])))
    {
      var height, width := grid.Length0, grid.Length1;
      var copy := Copy2DSlice(grid);
      ghost var g := Snapshot(grid);
      assert g == old(Snapshot(grid));
      assert Width(g) == width;
      for row := 0 to height
        invariant variables == old(variables) + GridSlots(g, row, allWords)
        invariant forall r', c' :: row <= r' < height && 0 <= c' < width ==> copy[r', c'] == Open(g, r', c')
        invariant forall r', c' :: 0 <= r' < height && 0 <= c' < width ==> grid[r', c'] == GridAt(g, row, 0, r', c')
      {
        ghost var before := variables;
        ScanRow(grid, copy, g, row, allWords);
        GridSlotsStep(g, row, old(variables), before, allWords);
      }
      forall r, c | 0 <= r < height && 0 <= c < width
        ensures grid[r, c] == (g[r][c] && !(r > 0 && g[r - 1][c]))
      {
        GridAfterScan(g, r, c);
      }
    }

    /** The column loop of ComputeVariables (crossword.go:64-117) over row `row`. */
    method ScanRow(grid: array2<bool>, copy: array2<bool>, ghost g: Grid, row: nat, allWords: map<nat, seq<string>>)
      requires copy != grid && copy.Length0 == grid.Length0 && copy.Length1 == grid.Length1
      requires |g| == grid.Length0 && Width(g) == grid.Length1 && forall r :: 0 <= r < |g| ==> |g[r]| == grid.Length1
      requires row < grid.Length0
      requires forall c' :: 0 <= c' < copy.Length1 ==> copy[row, c'] == Open(g, row, c')
      requires forall r', c' :: 0 <= r' < grid.Length0 && 0 <= c' < grid.Length1 ==> grid[r', c'] == GridAt(g, row, 0, r', c')
      modifies this`variables, grid, copy
      ensures variables == old(variables) + RowSlots(g, row, Width(g), allWords)
      ensures forall r', c' :: 0 <= r' < copy.Length0 && 0 <= c' < copy.Length1 && r' != row ==> copy[r', c'] == old(copy[r', c'])
      ensures forall r', c' :: 0 <= r' < grid.Length0 && 0 <= c' < grid.Length1 ==> grid[r', c'] == GridAt(g, row + 1, 0, r', c')
    {
      var height, width := grid.Length0, grid.Length1;
      for col := 0 to width
        invariant variables == old(variables) + RowSlots(g, row, col, allWords)
        invariant forall r', c' :: 0 <= r' < height && 0 <= c' < width && r' != row ==> copy[r', c'] == old(copy[r', c'])
        invariant forall c' :: col <= c' < width ==> copy[row, c'] == CopyAhead(g, row, col, row, c')
        invariant forall r', c' :: 0 <= r' < height && 0 <= c' < width ==> grid[r', c'] == GridAt(g, row, col, r', c')
      {
        ScanAcross(copy, g, row, col, allWords);
        ScanDown(grid, g, row, col, allWords);
      }
      forall r', c' | 0 <= r' < height && 0 <= c' < width
        ensures grid[r', c'] == GridAt(g, row + 1, 0, r', c')
      {
        GridAfterRow(g, row, width, r', c');
      }
    }

    /**
     * The across half of ComputeVariables' loop body (crossword.go:65-88)
     * at (row, col): a run is read rightwards from `copy`, its cells after
     * the first are cleared there, and it becomes a slot when at least two
     * cells long.
     */
    method ScanAcross(copy: array2<bool>, ghost g: Grid, row: nat, col: nat, allWords: map<nat, seq<string>>)
      requires |g| == copy.Length0 && forall r :: 0 <= r < |g| ==> |g[r]| == copy.Length1
      requires row < copy.Length0 && col < copy.Length1
      requires forall c' :: col <= c' < copy.Length1 ==> copy[row, c'] == CopyAhead(g, row, col, row, c')
      modifies this`variables, copy
      ensures variables == old(variables) + (if StartsAcross(g, row, col) then [NewSlot(Point(row, col), Across, RunAcross(g, row, col), allWords)] else [])
      ensures forall r', c' :: 0 <= r' < copy.Length0 && 0 <= c' < copy.Length1 && r' != row ==> copy[r', c'] == old(copy[r', c'])
      ensures forall c' :: col < c' < copy.Length1 ==> copy[row, c'] == CopyAhead(g, row, col + 1, row, c')
    {
      var width := copy.Length1;
      CopyAtAnchor(g, row, col);
      var cells: seq<Point> := [];
      if copy[row, col] {
        cells := cells + [Point(row, col)];
        var length := 1;
        var i := col + 1;
        while i < width && copy[row, i]
          modifies copy
          invariant col + 1 <= i <= width
          invariant length == i - col && cells == CellsFrom(Point(row, col), Across, length)
          invariant OpenSpan(g, row, col, i)
          invariant forall r', c' :: 0 <= r' < copy.Length0 && 0 <= c' < width && r' != row ==> copy[r', c'] == old(copy[r', c'])
          invariant forall c' :: col < c' < width ==> copy[row, c'] == (if c' < i then false else CopyAhead(g, row, col, row, c'))
        {
          CopyAlongRun(g, row, col, i);
          length := length + 1;
          cells := cells + [Point(row, i)];
          copy[row, i] := false;
          i := i + 1;
        }
        if i < width {
          CopyAlongRun(g, row, col, i);
        }
        RunAcrossExact(g, row, col, i);
        forall c' | col < c' < width
          ensures copy[row, c'] == CopyAhead(g, row, col + 1, row, c')
        {
          CopyAfterRun(g, row, col, i, c');
        }
        if length > 1 {
          variables := variables + [Variable(Point(row, col), Across, length, cells, Lexicon.WordsOfLength(allWords, length), map[])];
        }
      } else {
        forall c' | col < c' < width
          ensures copy[row, c'] == CopyAhead(g, row, col + 1, row, c')
        {
          CopyWithoutRun(g, row, col, c');
        }
      }
    }

    /**
     * The down half of ComputeVariables' loop body (crossword.go:90-116) at
     * (row, col): a run is read downwards from the caller's grid, its cells
     * below the top are cleared there, and it becomes a slot when at least
     * two cells long.
     */
    method ScanDown(grid: array2<bool>, ghost g: Grid, row: nat, col: nat, allWords: map<nat, seq<string>>)
      requires |g| == grid.Length0 && forall r :: 0 <= r < |g| ==> |g[r]| == grid.Length1
      requires row < grid.Length0 && col < grid.Length1
      requires forall r', c' :: 0 <= r' < grid.Length0 && 0 <= c' < grid.Length1 ==> grid[r', c'] == GridAt(g, row, col, r', c')
      modifies this`variables, grid
      ensures variables == old(variables) + (if StartsDown(g, row, col) then [NewSlot(Point(row, col), Down, RunDown(g, row, col), allWords)] else [])
      ensures forall r', c' :: 0 <= r' < grid.Length0 && 0 <= c' < grid.Length1 ==> grid[r', c'] == GridAt(g, row, col + 1, r', c')
    {
      var height, width := grid.Length0, grid.Length1;
      GridAtAnchor(g, row, col);
      var cells: seq<Point> := [];
      if grid[row, col] {
        cells := cells + [Point(row, col)];
        var length := 1;
        var j := row + 1;
        while j < height && grid[j, col]
          modifies grid
          invariant row + 1 <= j <= height
          invariant length == j - row && cells == CellsFrom(Point(row, col), Down, length)
          invariant OpenColumnSpan(g, col, row, j)
          invariant forall r', c' :: 0 <= r' < height && 0 <= c' < width ==>
            grid[r', c'] == (if c' == col && row < r' < j then false else GridAt(g, row, col, r', c'))
        {
          GridAlongRun(g, row, col, j);
          length := length + 1;
          cells := cells + [Point(j, col)];
          grid[j, col] := false;
          j := j + 1;
        }
        if j < height {
          GridAlongRun(g, row, col, j);
        }
        RunDownExact(g, row, col, j);
        forall r', c' | 0 <= r' < height && 0 <= c' < width
          ensures grid[r', c'] == GridAt(g, row, col + 1, r', c')
        {
          if c' == col {
            GridAfterRun(g, row, col, j, r');
          }
        }
        if length > 1 {
          variables := variables + [Variable(Point(row, col), Down, length, cells, Lexicon.WordsOfLength(allWords, length), map[])];
        }
      } else {
        forall r', c' | 0 <= r' < height && 0 <= c' < width
          ensures grid[r', c'] == GridAt(g, row, col + 1, r', c')
        {
          if c' == col {
            GridWithoutRun(g, row, col, r');
          }
        }
      }
    }

    /**
     * InitNeighbors (crossword.go:139-146) on slot i: its neighbour map is
     * rebuilt from every slot it overlaps, keyed by that slot's anchor.
     */
    method InitNeighbors(i: nat)
      requires i < |variables|
      modifies this`variables
      ensures variables == old(variables)[i := old(variables)[i].(neighbors := NeighborsFrom(old(variables)[i], old(variables)))]
    {
      ghost var vs := variables;
      variables := variables[i := variables[i].(neighbors := map[])];
      for j := 0 to |variables|
        invariant variables == vs[i := vs[i].(neighbors := NeighborsFrom(vs[i], vs[..j]))]
      {
        var v := variables[j];
        assert Overlaps(variables[i], v) == Overlaps(vs[i], vs[j]);
        assert vs[..j + 1][..j] == vs[..j];
        var overlap := Overlaps(variables[i], v);
        if overlap.Some? {
          variables := variables[i := variables[i].(neighbors := variables[i].neighbors[v.coordinates := overlap.value])];
        }
      }
      assert vs[..|vs|] == vs;
    }

    /**
     * InitDomain (crossword.go:151-154) on slot i: its domain becomes a copy
     * of every word of its length.
     */
    method InitDomain(i: nat, allWords: map<nat, seq<string>>)
      requires i < |variables|
      modifies this`variables
      ensures variables == old(variables)[i := old(variables)[i].(domain := Lexicon.WordsOfLength(allWords, old(variables)[i].length))]
    {
      variables := variables[i := variables[i].(domain := Lexicon.WordsOfLength(allWords, variables[i].length))];
    }
  }
}
