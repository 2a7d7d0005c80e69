/**
 * What the slot scan of ComputeVariables and the overlap bookkeeping of
 * InitNeighbors guarantee: the scan yields exactly the maximal runs of two
 * or more open cells, in row-major order of their anchors with the across
 * slot before the down slot; no cell lies in two slots of one direction;
 * two slots of a scan cross in at most one cell, which Overlaps finds from
 * either side; and a neighbour map holds exactly the overlapping slots.
 */
module CrosswordFacts {
  import opened Wrappers
  import Lexicon
  import opened Crossword

  /** Every row is as wide as the first one (a grid NewCrossword accepts). */
  ghost predicate Rectangular(g: Grid) {
    forall r :: 0 <= r < |g| ==> |g[r]| == Width(g)
  }

  ghost predicate OpenAt(g: Grid, p: Point) {
    Open(g, p.x, p.y)
  }

  /** v covers a run of two or more open cells that cannot be extended at either end. */
  ghost predicate MaximalRun(g: Grid, v: Variable) {
    && v.length > 1
    && v.cells == CellsFrom(v.coordinates, v.direction, v.length)
    && (forall k :: 0 <= k < v.length ==> OpenAt(g, Step(v.coordinates, v.direction, k)))
    && !OpenAt(g, Step(v.coordinates, v.direction, -1))
    && !OpenAt(g, Step(v.coordinates, v.direction, v.length))
  }

  /** A slot as ComputeVariables leaves it: a maximal run, every word of its length, no neighbours yet. */
  ghost predicate IsSlot(g: Grid, v: Variable, allWords: map<nat, seq<string>>) {
    MaximalRun(g, v) && v.domain == Lexicon.WordsOfLength(allWords, v.length) && v.neighbors == map[]
  }

  /** v is the slot CellSlots produces at (r, c). */
  ghost predicate SlotAt(g: Grid, r: int, c: int, v: Variable, allWords: map<nat, seq<string>>) {
    || (StartsAcross(g, r, c) && v == NewSlot(Point(r, c), Across, RunAcross(g, r, c), allWords))
    || (StartsDown(g, r, c) && v == NewSlot(Point(r, c), Down, RunDown(g, r, c), allWords))
  }

  /** A run of open cells starting at (r, c) stops at a blocked cell. */
  lemma {:induction false} RunAcrossSpan(g: Grid, r: int, c: int)
    ensures OpenSpan(g, r, c, c + RunAcross(g, r, c)) && !Open(g, r, c + RunAcross(g, r, c))
    decreases (if 0 <= r < |g| then |g[r]| else 0) - c
  {
    if Open(g, r, c) {
      RunAcrossSpan(g, r, c + 1);
    }
  }

  lemma {:induction false} RunDownSpan(g: Grid, r: int, c: int)
    ensures OpenColumnSpan(g, c, r, r + RunDown(g, r, c)) && !Open(g, r + RunDown(g, r, c), c)
    decreases |g| - r
  {
    if Open(g, r, c) {
      RunDownSpan(g, r + 1, c);
    }
  }

  /** The slot produced at (r, c) is a maximal run anchored there. */
  lemma SlotAtIsSlot(g: Grid, r: int, c: int, v: Variable, allWords: map<nat, seq<string>>)
    requires SlotAt(g, r, c, v, allWords)
    ensures IsSlot(g, v, allWords) && v.coordinates == Point(r, c)
  {
    if StartsAcross(g, r, c) && v == NewSlot(Point(r, c), Across, RunAcross(g, r, c), allWords) {
      RunAcrossSpan(g, r, c);
    } else {
      RunDownSpan(g, r, c);
    }
  }

  /** A maximal run anchored at (r, c) is the slot produced there. */
  lemma SlotIsSlotAt(g: Grid, v: Variable, allWords: map<nat, seq<string>>)
    requires IsSlot(g, v, allWords)
    ensures SlotAt(g, v.coordinates.x, v.coordinates.y, v, allWords)
  {
    var r, c := v.coordinates.x, v.coordinates.y;
    assert OpenAt(g, Step(v.coordinates, v.direction, 0));
    if v.direction == Across {
      assert OpenSpan(g, r, c, c + v.length) by {
        forall k | c <= k < c + v.length ensures Open(g, r, k) {
          assert OpenAt(g, Step(v.coordinates, v.direction, k - c));
        }
      }
      RunAcrossExact(g, r, c, c + v.length);
    } else {
      assert OpenColumnSpan(g, c, r, r + v.length) by {
        forall k | r <= k < r + v.length ensures Open(g, k, c) {
          assert OpenAt(g, Step(v.coordinates, v.direction, k - r));
        }
      }
      RunDownExact(g, r, c, r + v.length);
    }
  }

  /** The slots produced at one cell are exactly the SlotAt ones. */
  lemma CellSlotsMembers(g: Grid, r: int, c: int, v: Variable, allWords: map<nat, seq<string>>)
    ensures v in CellSlots(g, r, c, allWords) <==> SlotAt(g, r, c, v, allWords)
  {
  }

  lemma {:induction false} RowSlotsMembers(g: Grid, r: int, c: nat, allWords: map<nat, seq<string>>)
    ensures forall v :: v in RowSlots(g, r, c, allWords) <==> exists c' :: 0 <= c' < c && SlotAt(g, r, c', v, allWords)
  {
    if c > 0 {
      var before, cs := RowSlots(g, r, c - 1, allWords), CellSlots(g, r, c - 1, allWords);
      assert RowSlots(g, r, c, allWords) == before + cs;
      RowSlotsMembers(g, r, c - 1, allWords);
      forall v | v in before + cs
        ensures exists c' :: 0 <= c' < c && SlotAt(g, r, c', v, allWords)
      {
        if v in cs {
          CellSlotsMembers(g, r, c - 1, v, allWords);
        } else {
          assert v in before;
          var c' :| 0 <= c' < c - 1 && SlotAt(g, r, c', v, allWords);
        }
      }
      forall v | exists c' :: 0 <= c' < c && SlotAt(g, r, c', v, allWords)
        ensures v in before + cs
      {
        var c' :| 0 <= c' < c && SlotAt(g, r, c', v, allWords);
        if c' == c - 1 {
          CellSlotsMembers(g, r, c - 1, v, allWords);
          assert v in cs;
        } else {
          assert v in before;
        }
      }
    }
  }

  lemma {:induction false} GridSlotsMembers(g: Grid, rows: nat, allWords: map<nat, seq<string>>)
    ensures forall v :: v in GridSlots(g, rows, allWords) <==>
      exists r, c :: 0 <= r < rows && 0 <= c < Width(g) && SlotAt(g, r, c, v, allWords)
  {
    if rows > 0 {
      GridSlotsMembers(g, rows - 1, allWords);
      RowSlotsMembers(g, rows - 1, Width(g), allWords);
      forall v
        ensures v in GridSlots(g, rows, allWords) <==>
          exists r, c :: 0 <= r < rows && 0 <= c < Width(g) && SlotAt(g, r, c, v, allWords)
      {
        if v in RowSlots(g, rows - 1, Width(g), allWords) {
          var c :| 0 <= c < Width(g) && SlotAt(g, rows - 1, c, v, allWords);
        }
        if exists r, c :: 0 <= r < rows && 0 <= c < Width(g) && SlotAt(g, r, c, v, allWords) {
          var r, c :| 0 <= r < rows && 0 <= c < Width(g) && SlotAt(g, r, c, v, allWords);
          if r == rows - 1 {
            assert v in RowSlots(g, rows - 1, Width(g), allWords);
          } else {
            assert v in GridSlots(g, rows - 1, allWords);
          }
        }
      }
    }
  }

  /**
   * Soundness and completeness of the scan: on a rectangular grid, the
   * slots ComputeVariables appends are exactly the maximal runs of two or
   * more open cells, each with every word of its length as its domain.
   */
  lemma ScanSlotsExact(g: Grid, allWords: map<nat, seq<string>>)
    requires Rectangular(g)
    ensures forall v :: v in ScanSlots(g, allWords) <==> IsSlot(g, v, allWords)
  {
    GridSlotsMembers(g, |g|, allWords);
    forall v | v in ScanSlots(g, allWords)
      ensures IsSlot(g, v, allWords)
    {
      var r, c :| 0 <= r < |g| && 0 <= c < Width(g) && SlotAt(g, r, c, v, allWords);
      SlotAtIsSlot(g, r, c, v, allWords);
    }
    forall v | IsSlot(g, v, allWords)
      ensures v in ScanSlots(g, allWords)
    {
      SlotIsSlotAt(g, v, allWords);
      assert OpenAt(g, Step(v.coordinates, v.direction, 0));
    }
  }

  // ---------------------------------------------------------------------
  // Scan order.
  // ---------------------------------------------------------------------

  /** Anchor a comes strictly before anchor b in row-major order, or they share it and a is the across slot. */
  predicate Before(a: Variable, b: Variable) {
    var p, q := a.coordinates, b.coordinates;
    p.x < q.x || (p.x == q.x && p.y < q.y) || (p == q && a.direction == Across && b.direction == Down)
  }

  ghost predicate Ordered(s: seq<Variable>) {
    forall i, j :: 0 <= i < j < |s| ==> Before(s[i], s[j])
  }

  lemma OrderedConcat(a: seq<Variable>, b: seq<Variable>)
    requires Ordered(a) && Ordered(b)
    requires forall x, y :: x in a && y in b ==> Before(x, y)
    ensures Ordered(a + b)
  {
    forall i, j | 0 <= i < j < |a + b|
      ensures Before((a + b)[i], (a + b)[j])
    {
      if j < |a| {
        assert (a + b)[i] == a[i] && (a + b)[j] == a[j];
      } else if i >= |a| {
        assert (a + b)[i] == b[i - |a|] && (a + b)[j] == b[j - |a|];
      } else {
        assert (a + b)[i] in a && (a + b)[j] in b;
      }
    }
  }

  /** At one cell, the across slot comes before the down slot, both anchored there. */
  lemma CellSlotsOrdered(g: Grid, r: int, c: int, allWords: map<nat, seq<string>>)
    ensures Ordered(CellSlots(g, r, c, allWords))
    ensures forall v :: v in CellSlots(g, r, c, allWords) ==> v.coordinates == Point(r, c)
  {
  }

  /** Slots anchored at cell (r, c) may follow slots anchored earlier in row r. */
  lemma OrderedAppendCell(before: seq<Variable>, cs: seq<Variable>, r: int, c: nat)
    requires Ordered(before) && Ordered(cs)
    requires forall x :: x in before ==> x.coordinates.x == r && 0 <= x.coordinates.y < c
    requires forall y :: y in cs ==> y.coordinates == Point(r, c)
    ensures Ordered(before + cs)
    ensures forall v :: v in before + cs ==> v.coordinates.x == r && 0 <= v.coordinates.y < c + 1
  {
    OrderedConcat(before, cs);
  }

  /** The slots of a row come in column order, all anchored in that row. */
  lemma {:induction false} RowSlotsOrdered(g: Grid, r: int, c: nat, allWords: map<nat, seq<string>>)
    ensures Ordered(RowSlots(g, r, c, allWords))
    ensures forall v :: v in RowSlots(g, r, c, allWords) ==> v.coordinates.x == r && 0 <= v.coordinates.y < c
  {
    if c > 0 {
      var before, cs := RowSlots(g, r, c - 1, allWords), CellSlots(g, r, c - 1, allWords);
      assert RowSlots(g, r, c, allWords) == before + cs;
      RowSlotsOrdered(g, r, c - 1, allWords);
      CellSlotsOrdered(g, r, c - 1, allWords);
      OrderedAppendCell(before, cs, r, c - 1);
    }
  }

  /** The slots of row `rows` may follow the slots of the rows above it. */
  lemma OrderedAppendRow(before: seq<Variable>, row: seq<Variable>, rows: nat)
    requires Ordered(before) && Ordered(row)
    requires forall x :: x in before ==> 0 <= x.coordinates.x < rows
    requires forall y :: y in row ==> y.coordinates.x == rows
    ensures Ordered(before + row)
    ensures forall v :: v in before + row ==> 0 <= v.coordinates.x < rows + 1
  {
    OrderedConcat(before, row);
  }

  /** The slots of the first rows come in row-major order. */
  lemma {:induction false} GridSlotsOrdered(g: Grid, rows: nat, allWords: map<nat, seq<string>>)
    ensures Ordered(GridSlots(g, rows, allWords))
    ensures forall v :: v in GridSlots(g, rows, allWords) ==> 0 <= v.coordinates.x < rows
  {
    if rows > 0 {
      var before, row := GridSlots(g, rows - 1, allWords), RowSlots(g, rows - 1, Width(g), allWords);
      assert GridSlots(g, rows, allWords) == before + row;
      GridSlotsOrdered(g, rows - 1, allWords);
      RowSlotsOrdered(g, rows - 1, Width(g), allWords);
      assert Ordered(before);
      assert Ordered(row);
      assert forall x :: x in before ==> 0 <= x.coordinates.x < rows - 1;
      assert forall y :: y in row ==> y.coordinates.x == rows - 1;
      OrderedAppendRow(before, row, rows - 1);
    }
  }

  /**
   * The scan order: anchors strictly increase in row-major order, and a
   * cell that anchors both an across and a down slot yields the across one
   * first. In particular no slot is produced twice.
   */
  lemma ScanSlotsOrdered(g: Grid, allWords: map<nat, seq<string>>)
    ensures Ordered(ScanSlots(g, allWords))
    ensures forall i, j :: 0 <= i < j < |ScanSlots(g, allWords)| ==> ScanSlots(g, allWords)[i] != ScanSlots(g, allWords)[j]
  {
    GridSlotsOrdered(g, |g|, allWords);
  }

  // ---------------------------------------------------------------------
  // Cells, anchors and crossings.
  // ---------------------------------------------------------------------

  /** The first column of the horizontal stretch of open cells through (r, c). */
  ghost function LeftEnd(g: Grid, r: int, c: int): int
    decreases c
  {
    if c > 0 && Open(g, r, c - 1) then LeftEnd(g, r, c - 1) else c
  }

  /** The first row of the vertical stretch of open cells through (r, c). */
  ghost function TopEnd(g: Grid, r: int, c: int): int
    decreases r
  {
    if r > 0 && Open(g, r - 1, c) then TopEnd(g, r - 1, c) else r
  }

  /** Every cell of a maximal run leads back to the run's anchor. */
  lemma {:induction false} AnchorOfCell(g: Grid, v: Variable, k: nat)
    requires MaximalRun(g, v) && k < v.length
    ensures var p := Step(v.coordinates, v.direction, k);
      v.coordinates == (if v.direction == Across then Point(p.x, LeftEnd(g, p.x, p.y)) else Point(TopEnd(g, p.x, p.y), p.y))
  {
    assert OpenAt(g, Step(v.coordinates, v.direction, k));
    if k > 0 {
      AnchorOfCell(g, v, k - 1);
      assert OpenAt(g, Step(v.coordinates, v.direction, k - 1));
    } else {
      assert !OpenAt(g, Step(v.coordinates, v.direction, -1));
    }
  }

  /** No cell belongs to two slots of one direction. */
  lemma ScanSlotsDisjoint(g: Grid, allWords: map<nat, seq<string>>)
    requires Rectangular(g)
    ensures var s := ScanSlots(g, allWords);
      forall i, j, p :: 0 <= i < j < |s| && s[i].direction == s[j].direction && p in s[i].cells ==> p !in s[j].cells
  {
    var s := ScanSlots(g, allWords);
    ScanSlotsExact(g, allWords);
    ScanSlotsOrdered(g, allWords);
    forall i, j, p | 0 <= i < j < |s| && s[i].direction == s[j].direction && p in s[i].cells
      ensures p !in s[j].cells
    {
      assert IsSlot(g, s[i], allWords) && IsSlot(g, s[j], allWords);
      if p in s[j].cells {
        var k :| 0 <= k < |s[i].cells| && s[i].cells[k] == p;
        var k' :| 0 <= k' < |s[j].cells| && s[j].cells[k'] == p;
        AnchorOfCell(g, s[i], k);
        AnchorOfCell(g, s[j], k');
        assert false;
      }
    }
  }

  /** When two cell lists share at most one cell, the first shared cell is the same from either side. */
  lemma FirstSharedSymmetric(a: seq<Point>, b: seq<Point>)
    requires forall p, q :: p in a && p in b && q in a && q in b ==> p == q
    ensures FirstShared(a, b) == FirstShared(b, a)
  {
    FirstSharedSpec(a, b);
    FirstSharedSpec(b, a);
    var ab, ba := FirstShared(a, b), FirstShared(b, a);
    if ab.Some? {
      assert ab.value in b;
      assert ba.Some?;
    } else if ba.Some? {
      assert false;
    }
  }

  /**
   * Two slots of a scan cross in at most one cell; Overlaps gives the same
   * answer in both directions, and slots that overlap run in different
   * directions.
   */
  lemma ScanOverlapsSymmetric(g: Grid, allWords: map<nat, seq<string>>, i: nat, j: nat)
    requires Rectangular(g)
    requires i < |ScanSlots(g, allWords)| && j < |ScanSlots(g, allWords)|
    ensures var s := ScanSlots(g, allWords);
      Overlaps(s[i], s[j]) == Overlaps(s[j], s[i])
      && (Overlaps(s[i], s[j]).Some? ==> s[i].direction != s[j].direction)
  {
    var s := ScanSlots(g, allWords);
    ScanSlotsExact(g, allWords);
    ScanSlotsDisjoint(g, allWords);
    var v, w := s[i], s[j];
    assert IsSlot(g, v, allWords) && IsSlot(g, w, allWords);
    if v.coordinates != w.coordinates {
      if v.direction == w.direction {
        assert i != j;
        assert forall k :: 0 <= k < |v.cells| ==> v.cells[k] !in w.cells by {
          forall k | 0 <= k < |v.cells| ensures v.cells[k] !in w.cells {
            assert v.cells[k] in v.cells;
          }
        }
        assert forall k :: 0 <= k < |w.cells| ==> w.cells[k] !in v.cells;
      } else {
        forall p, q | p in v.cells && p in w.cells && q in v.cells && q in w.cells
          ensures p == q
        {
          var a := if v.direction == Across then v else w;
          var d := if v.direction == Across then w else v;
          assert p.x == a.coordinates.x && q.x == a.coordinates.x;
          assert p.y == d.coordinates.y && q.y == d.coordinates.y;
        }
        FirstSharedSymmetric(v.cells, w.cells);
      }
    }
  }

  // ---------------------------------------------------------------------
  // Neighbour maps.
  // ---------------------------------------------------------------------

  /**
   * The keys of the neighbour map of v1 are exactly the anchors of the
   * slots v1 overlaps; v1's own anchor is never one of them.
   */
  lemma {:induction false} NeighborsFromKeys(v1: Variable, vs: seq<Variable>)
    ensures forall k :: k in NeighborsFrom(v1, vs) <==>
      exists j :: 0 <= j < |vs| && vs[j].coordinates == k && Overlaps(v1, vs[j]).Some?
    ensures v1.coordinates !in NeighborsFrom(v1, vs)
    decreases |vs|
  {
    if vs != [] {
      var front := vs[..|vs| - 1];
      NeighborsFromKeys(v1, front);
      assert forall j :: 0 <= j < |front| ==> front[j] == vs[j];
      assert vs == front + [vs[|vs| - 1]];
    }
  }

  /** The position of the last slot in `vs` anchored at k that v1 overlaps, or -1. */
  function LastOverlap(v1: Variable, vs: seq<Variable>, k: Point): (j: int)
    ensures -1 <= j < |vs|
    ensures j >= 0 ==> vs[j].coordinates == k && Overlaps(v1, vs[j]).Some?
    ensures forall j' :: j < j' < |vs| ==> !(vs[j'].coordinates == k && Overlaps(v1, vs[j']).Some?)
    decreases |vs|
  {
    if vs == [] then -1
    else if vs[|vs| - 1].coordinates == k && Overlaps(v1, vs[|vs| - 1]).Some? then |vs| - 1
    else LastOverlap(v1, vs[..|vs| - 1], k)
  }

  /**
   * Each neighbour entry maps a slot's anchor to the cell Overlaps finds
   * for the last slot in `vs` with that anchor that v1 overlaps (a later
   * slot with the same anchor overwrites an earlier one), a cell both slots
   * cover.
   */
  lemma {:induction false} NeighborsFromValues(v1: Variable, vs: seq<Variable>)
    ensures forall k :: k in NeighborsFrom(v1, vs) <==> LastOverlap(v1, vs, k) >= 0
    ensures forall k :: k in NeighborsFrom(v1, vs) ==>
      Overlaps(v1, vs[LastOverlap(v1, vs, k)]) == Some(NeighborsFrom(v1, vs)[k])
    ensures forall k :: k in NeighborsFrom(v1, vs) ==>
      NeighborsFrom(v1, vs)[k] in v1.cells && NeighborsFrom(v1, vs)[k] in vs[LastOverlap(v1, vs, k)].cells
    decreases |vs|
  {
    if vs != [] {
      var front := vs[..|vs| - 1];
      NeighborsFromValues(v1, front);
      assert forall j :: 0 <= j < |front| ==> front[j] == vs[j];
      forall k | k in NeighborsFrom(v1, vs)
        ensures NeighborsFrom(v1, vs)[k] in v1.cells
      {
        var p := NeighborsFrom(v1, vs)[k];
        assert LastOverlap(v1, vs, k) >= 0;
        var w := vs[LastOverlap(v1, vs, k)];
        assert Overlaps(v1, w) == Some(p);
        var kk :| 0 <= kk < |v1.cells| && v1.cells[kk] == p && p in w.cells;
      }
    }
  }
}
