/**
 * A grid where one cell starts both an across and a down slot: the 2 x 2
 * grid of open cells. Its four slots are the across and down slots at
 * (0, 0), the down slot at (0, 1) and the across slot at (1, 0). The across
 * slot at (1, 0) crosses the down slot at (0, 0) in cell (1, 0), and its
 * neighbour map keys that crossing by the anchor (0, 0). GetVariable of
 * that anchor is the across slot at (0, 0), which does not contain (1, 0).
 */
module SharedAnchor {
  import opened Wrappers
  import opened Crossword
  import Generate

  const Open2: Grid := [[true, true], [true, true]]

  const Words2: map<nat, seq<string>> := map[2 := ["at"]]

  const Square: seq<Variable> := [
    Variable(Point(0, 0), Across, 2, [Point(0, 0), Point(0, 1)], ["at"], map[]),
    Variable(Point(0, 0), Down, 2, [Point(0, 0), Point(1, 0)], ["at"], map[]),
    Variable(Point(0, 1), Down, 2, [Point(0, 1), Point(1, 1)], ["at"], map[]),
    Variable(Point(1, 0), Across, 2, [Point(1, 0), Point(1, 1)], ["at"], map[])
  ]

  /** The neighbour map InitNeighbors gives the across slot at (1, 0). */
  const Crossings3: map<Point, Point> := map[Point(0, 0) := Point(1, 0), Point(0, 1) := Point(1, 1)]

  /** The slots built at the three anchors of the grid. */
  lemma SquareCells()
    ensures CellSlots(Open2, 0, 0, Words2) == Square[..2]
    ensures CellSlots(Open2, 0, 1, Words2) == Square[2..3]
    ensures CellSlots(Open2, 1, 0, Words2) == Square[3..]
    ensures CellSlots(Open2, 1, 1, Words2) == []
  {
    assert RunAcross(Open2, 0, 2) == 0 && RunAcross(Open2, 1, 2) == 0;
    assert RunDown(Open2, 2, 0) == 0 && RunDown(Open2, 2, 1) == 0;
    assert CellsFrom(Point(0, 0), Across, 2) == [Point(0, 0), Point(0, 1)];
    assert CellsFrom(Point(0, 0), Down, 2) == [Point(0, 0), Point(1, 0)];
    assert CellsFrom(Point(0, 1), Down, 2) == [Point(0, 1), Point(1, 1)];
    assert CellsFrom(Point(1, 0), Across, 2) == [Point(1, 0), Point(1, 1)];
  }

  /** The scan of the grid finds these four slots, in this order. */
  lemma SquareScan()
    ensures ScanSlots(Open2, Words2) == Square
  {
    SquareCells();
    assert RowSlots(Open2, 0, 2, Words2) == Square[..3];
    assert RowSlots(Open2, 1, 2, Words2) == Square[3..];
    assert GridSlots(Open2, 2, Words2) == Square[..3] + Square[3..];
  }

  /** Neighbour maps of four slots, built one slot at a time. */
  lemma NeighborsOfFour(v: Variable, vs: seq<Variable>)
    requires |vs| == 4
    requires Overlaps(v, vs[0]) == None && Overlaps(v, vs[3]) == None
    requires Overlaps(v, vs[1]) == Some(Point(1, 0)) && vs[1].coordinates == Point(0, 0)
    requires Overlaps(v, vs[2]) == Some(Point(1, 1)) && vs[2].coordinates == Point(0, 1)
    ensures NeighborsFrom(v, vs) == map[Point(0, 0) := Point(1, 0), Point(0, 1) := Point(1, 1)]
  {
    assert vs[..1][..0] == [] && vs[..2][..1] == vs[..1] && vs[..3][..2] == vs[..2] && vs[..4][..3] == vs[..3] && vs[..4] == vs;
    assert NeighborsFrom(v, vs[..1]) == map[];
    assert NeighborsFrom(v, vs[..2]) == map[Point(0, 0) := Point(1, 0)];
    assert NeighborsFrom(v, vs[..3]) == map[Point(0, 0) := Point(1, 0), Point(0, 1) := Point(1, 1)];
  }

  /** The neighbours of the across slot at (1, 0): the two down slots, keyed by their anchors. */
  lemma SquareNeighbors()
    ensures NeighborsFrom(Square[3], Square) == Crossings3
  {
    assert Overlaps(Square[3], Square[0]) == None;
    assert Overlaps(Square[3], Square[1]) == Some(Point(1, 0));
    assert Overlaps(Square[3], Square[2]) == Some(Point(1, 1));
    assert Overlaps(Square[3], Square[3]) == None;
    NeighborsOfFour(Square[3], Square);
  }

  /** An arc whose look-up finds a slot without the crossing cell is out of range for every word. */
  lemma MissedCrossingUndefined(v1: Variable, vars: seq<Variable>, lexicon: map<nat, seq<Lexicon.Layer>>, k: Point)
    requires v1.domain != [] && k in v1.neighbors
    requires IndexOfCell(GetVariable(vars, k), v1.neighbors[k]) == -1
    ensures !Generate.ArcsDefinedByAnchor(v1, vars, lexicon)
  {
    assert !Generate.ArcFitsByAnchor(v1.domain[0], v1, vars, lexicon, k);
  }

  /**
   * As written, AC3 on the across slot at (1, 0) looks up the across slot at
   * (0, 0) for the crossing in (1, 0), where `IndexOfCell` is -1: the look-up
   * `Lexicon[2][-1]` is out of range whatever the lexicon. Looked up by
   * anchor and opposite direction, the neighbour is the down slot at (0, 0),
   * where the crossing is its cell 1.
   */
  lemma AnchorLookupMissesCrossing(lexicon: map<nat, seq<Lexicon.Layer>>)
    ensures ScanSlots(Open2, Words2) == Square
    ensures NeighborsFrom(Square[3], Square) == Crossings3
    ensures var v1 := Square[3].(neighbors := Crossings3);
      && GetVariable(Square, Point(0, 0)) == Square[0]
      && IndexOfCell(Square[0], Point(1, 0)) == -1
      && !Generate.ArcsDefinedByAnchor(v1, Square, lexicon)
      && Generate.Crossing(Square, v1, Point(0, 0)) == Square[1]
      && IndexOfCell(Square[1], Point(1, 0)) == 1
  {
    SquareScan();
    SquareNeighbors();
    var v1 := Square[3].(neighbors := Crossings3);
    SquareLookups(v1);
    MissedCrossingUndefined(v1, Square, lexicon, Point(0, 0));
  }

  /** Where the two look-ups land for anchor (0, 0), seen from an across slot of row 1. */
  lemma SquareLookups(v1: Variable)
    requires v1.direction == Across
    ensures GetVariable(Square, Point(0, 0)) == Square[0]
    ensures IndexOfCell(Square[0], Point(1, 0)) == -1
    ensures Generate.Crossing(Square, v1, Point(0, 0)) == Square[1]
    ensures IndexOfCell(Square[1], Point(1, 0)) == 1
  {
    assert Square[0].coordinates == Point(0, 0) && Square[0].direction == Across;
    assert Square[1].coordinates == Point(0, 0) && Square[1].direction == Down;
  }
}
