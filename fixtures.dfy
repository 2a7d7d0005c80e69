/**
 * The scenario of crossword_test.go (TestVariables): a 5x5 grid and a
 * three-length word list, the seven slots the scan finds and the neighbour
 * maps InitNeighbors then gives them.
 */
module Fixtures {
  import opened Wrappers
  import opened Crossword
  import opened Lexicon
  import Generate

  const Words: map<nat, seq<string>> := map[2 := ["at"], 3 := ["cat", "bat", "rat", "tab"], 5 := ["arabs"]]

  const Grid5: Grid := [
    [false, true, true, true, false],
    [true, false, true, true, true],
    [true, false, true, true, false],
    [true, true, true, false, false],
    [false, false, true, false, false]
  ]

  const ThreeLetters: seq<string> := ["cat", "bat", "rat", "tab"]

  /** The slots as ComputeVariables leaves them (no neighbours yet). */
  const Scanned: seq<Variable> := [
    Variable(Point(0, 1), Across, 3, [Point(0, 1), Point(0, 2), Point(0, 3)], ThreeLetters, map[]),
    Variable(Point(0, 2), Down, 5, [Point(0, 2), Point(1, 2), Point(2, 2), Point(3, 2), Point(4, 2)], ["arabs"], map[]),
    Variable(Point(0, 3), Down, 3, [Point(0, 3), Point(1, 3), Point(2, 3)], ThreeLetters, map[]),
    Variable(Point(1, 0), Down, 3, [Point(1, 0), Point(2, 0), Point(3, 0)], ThreeLetters, map[]),
    Variable(Point(1, 2), Across, 3, [Point(1, 2), Point(1, 3), Point(1, 4)], ThreeLetters, map[]),
    Variable(Point(2, 2), Across, 2, [Point(2, 2), Point(2, 3)], ["at"], map[]),
    Variable(Point(3, 0), Across, 3, [Point(3, 0), Point(3, 1), Point(3, 2)], ThreeLetters, map[])
  ]

  /** The neighbour maps the test expects, slot by slot. */
  const WantNeighbors: seq<map<Point, Point>> := [
    map[Point(0, 2) := Point(0, 2), Point(0, 3) := Point(0, 3)],
    map[Point(0, 1) := Point(0, 2), Point(1, 2) := Point(1, 2), Point(2, 2) := Point(2, 2), Point(3, 0) := Point(3, 2)],
    map[Point(0, 1) := Point(0, 3), Point(1, 2) := Point(1, 3), Point(2, 2) := Point(2, 3)],
    map[Point(3, 0) := Point(3, 0)],
    map[Point(0, 2) := Point(1, 2), Point(0, 3) := Point(1, 3)],
    map[Point(0, 2) := Point(2, 2), Point(0, 3) := Point(2, 3)],
    map[Point(0, 2) := Point(3, 2), Point(1, 0) := Point(3, 0)]
  ]

  /** The length of the across run from every cell of the test grid. */
  lemma AcrossRuns()
    ensures RunAcross(Grid5, 0, 0) == 0
    ensures RunAcross(Grid5, 0, 1) == 3
    ensures RunAcross(Grid5, 0, 2) == 2
    ensures RunAcross(Grid5, 0, 3) == 1
    ensures RunAcross(Grid5, 0, 4) == 0
    ensures RunAcross(Grid5, 1, 0) == 1
    ensures RunAcross(Grid5, 1, 1) == 0
    ensures RunAcross(Grid5, 1, 2) == 3
    ensures RunAcross(Grid5, 1, 3) == 2
    ensures RunAcross(Grid5, 1, 4) == 1
    ensures RunAcross(Grid5, 2, 0) == 1
    ensures RunAcross(Grid5, 2, 1) == 0
    ensures RunAcross(Grid5, 2, 2) == 2
    ensures RunAcross(Grid5, 2, 3) == 1
    ensures RunAcross(Grid5, 2, 4) == 0
    ensures RunAcross(Grid5, 3, 0) == 3
    ensures RunAcross(Grid5, 3, 1) == 2
    ensures RunAcross(Grid5, 3, 2) == 1
    ensures RunAcross(Grid5, 3, 3) == 0
    ensures RunAcross(Grid5, 3, 4) == 0
    ensures RunAcross(Grid5, 4, 0) == 0
    ensures RunAcross(Grid5, 4, 1) == 0
    ensures RunAcross(Grid5, 4, 2) == 1
    ensures RunAcross(Grid5, 4, 3) == 0
    ensures RunAcross(Grid5, 4, 4) == 0
  {
    assert RunAcross(Grid5, 0, 5) == 0;
    assert RunAcross(Grid5, 0, 4) == 0;
    assert RunAcross(Grid5, 0, 3) == 1;
    assert RunAcross(Grid5, 0, 2) == 2;
    assert RunAcross(Grid5, 0, 1) == 3;
    assert RunAcross(Grid5, 0, 0) == 0;
    assert RunAcross(Grid5, 1, 5) == 0;
    assert RunAcross(Grid5, 1, 4) == 1;
    assert RunAcross(Grid5, 1, 3) == 2;
    assert RunAcross(Grid5, 1, 2) == 3;
    assert RunAcross(Grid5, 1, 1) == 0;
    assert RunAcross(Grid5, 1, 0) == 1;
    assert RunAcross(Grid5, 2, 5) == 0;
    assert RunAcross(Grid5, 2, 4) == 0;
    assert RunAcross(Grid5, 2, 3) == 1;
    assert RunAcross(Grid5, 2, 2) == 2;
    assert RunAcross(Grid5, 2, 1) == 0;
    assert RunAcross(Grid5, 2, 0) == 1;
    assert RunAcross(Grid5, 3, 5) == 0;
    assert RunAcross(Grid5, 3, 4) == 0;
    assert RunAcross(Grid5, 3, 3) == 0;
    assert RunAcross(Grid5, 3, 2) == 1;
    assert RunAcross(Grid5, 3, 1) == 2;
    assert RunAcross(Grid5, 3, 0) == 3;
    assert RunAcross(Grid5, 4, 5) == 0;
    assert RunAcross(Grid5, 4, 4) == 0;
    assert RunAcross(Grid5, 4, 3) == 0;
    assert RunAcross(Grid5, 4, 2) == 1;
    assert RunAcross(Grid5, 4, 1) == 0;
    assert RunAcross(Grid5, 4, 0) == 0;
  }

  /** The length of the down run from every cell of the test grid. */
  lemma DownRuns()
    ensures RunDown(Grid5, 0, 0) == 0
    ensures RunDown(Grid5, 0, 1) == 1
    ensures RunDown(Grid5, 0, 2) == 5
    ensures RunDown(Grid5, 0, 3) == 3
    ensures RunDown(Grid5, 0, 4) == 0
    ensures RunDown(Grid5, 1, 0) == 3
    ensures RunDown(Grid5, 1, 1) == 0
    ensures RunDown(Grid5, 1, 2) == 4
    ensures RunDown(Grid5, 1, 3) == 2
    ensures RunDown(Grid5, 1, 4) == 1
    ensures RunDown(Grid5, 2, 0) == 2
    ensures RunDown(Grid5, 2, 1) == 0
    ensures RunDown(Grid5, 2, 2) == 3
    ensures RunDown(Grid5, 2, 3) == 1
    ensures RunDown(Grid5, 2, 4) == 0
    ensures RunDown(Grid5, 3, 0) == 1
    ensures RunDown(Grid5, 3, 1) == 1
    ensures RunDown(Grid5, 3, 2) == 2
    ensures RunDown(Grid5, 3, 3) == 0
    ensures RunDown(Grid5, 3, 4) == 0
    ensures RunDown(Grid5, 4, 0) == 0
    ensures RunDown(Grid5, 4, 1) == 0
    ensures RunDown(Grid5, 4, 2) == 1
    ensures RunDown(Grid5, 4, 3) == 0
    ensures RunDown(Grid5, 4, 4) == 0
  {
    assert RunDown(Grid5, 5, 0) == 0;
    assert RunDown(Grid5, 4, 0) == 0;
    assert RunDown(Grid5, 3, 0) == 1;
    assert RunDown(Grid5, 2, 0) == 2;
    assert RunDown(Grid5, 1, 0) == 3;
    assert RunDown(Grid5, 0, 0) == 0;
    assert RunDown(Grid5, 5, 1) == 0;
    assert RunDown(Grid5, 4, 1) == 0;
    assert RunDown(Grid5, 3, 1) == 1;
    assert RunDown(Grid5, 2, 1) == 0;
    assert RunDown(Grid5, 1, 1) == 0;
    assert RunDown(Grid5, 0, 1) == 1;
    assert RunDown(Grid5, 5, 2) == 0;
    assert RunDown(Grid5, 4, 2) == 1;
    assert RunDown(Grid5, 3, 2) == 2;
    assert RunDown(Grid5, 2, 2) == 3;
    assert RunDown(Grid5, 1, 2) == 4;
    assert RunDown(Grid5, 0, 2) == 5;
    assert RunDown(Grid5, 5, 3) == 0;
    assert RunDown(Grid5, 4, 3) == 0;
    assert RunDown(Grid5, 3, 3) == 0;
    assert RunDown(Grid5, 2, 3) == 1;
    assert RunDown(Grid5, 1, 3) == 2;
    assert RunDown(Grid5, 0, 3) == 3;
    assert RunDown(Grid5, 5, 4) == 0;
    assert RunDown(Grid5, 4, 4) == 0;
    assert RunDown(Grid5, 3, 4) == 0;
    assert RunDown(Grid5, 2, 4) == 0;
    assert RunDown(Grid5, 1, 4) == 1;
    assert RunDown(Grid5, 0, 4) == 0;
  }

  /** The cells of the seven slots of the test grid. */
  lemma CellsFixture()
    ensures CellsFrom(Point(0, 1), Across, 3) == [Point(0, 1), Point(0, 2), Point(0, 3)]
    ensures CellsFrom(Point(0, 2), Down, 5) == [Point(0, 2), Point(1, 2), Point(2, 2), Point(3, 2), Point(4, 2)]
    ensures CellsFrom(Point(0, 3), Down, 3) == [Point(0, 3), Point(1, 3), Point(2, 3)]
    ensures CellsFrom(Point(1, 0), Down, 3) == [Point(1, 0), Point(2, 0), Point(3, 0)]
    ensures CellsFrom(Point(1, 2), Across, 3) == [Point(1, 2), Point(1, 3), Point(1, 4)]
    ensures CellsFrom(Point(2, 2), Across, 2) == [Point(2, 2), Point(2, 3)]
    ensures CellsFrom(Point(3, 0), Across, 3) == [Point(3, 0), Point(3, 1), Point(3, 2)]
  {
    assert CellsFrom(Point(0, 1), Across, 3) == [Point(0, 1), Point(0, 2), Point(0, 3)] by {
      var cs := CellsFrom(Point(0, 1), Across, 3);
      assert cs[0] == Point(0, 1) && cs[1] == Point(0, 2) && cs[2] == Point(0, 3);
    }
    assert CellsFrom(Point(0, 2), Down, 5) == [Point(0, 2), Point(1, 2), Point(2, 2), Point(3, 2), Point(4, 2)] by {
      var cs := CellsFrom(Point(0, 2), Down, 5);
      assert cs[0] == Point(0, 2) && cs[1] == Point(1, 2) && cs[2] == Point(2, 2) && cs[3] == Point(3, 2) && cs[4] == Point(4, 2);
    }
    assert CellsFrom(Point(0, 3), Down, 3) == [Point(0, 3), Point(1, 3), Point(2, 3)] by {
      var cs := CellsFrom(Point(0, 3), Down, 3);
      assert cs[0] == Point(0, 3) && cs[1] == Point(1, 3) && cs[2] == Point(2, 3);
    }
    assert CellsFrom(Point(1, 0), Down, 3) == [Point(1, 0), Point(2, 0), Point(3, 0)] by {
      var cs := CellsFrom(Point(1, 0), Down, 3);
      assert cs[0] == Point(1, 0) && cs[1] == Point(2, 0) && cs[2] == Point(3, 0);
    }
    assert CellsFrom(Point(1, 2), Across, 3) == [Point(1, 2), Point(1, 3), Point(1, 4)] by {
      var cs := CellsFrom(Point(1, 2), Across, 3);
      assert cs[0] == Point(1, 2) && cs[1] == Point(1, 3) && cs[2] == Point(1, 4);
    }
    assert CellsFrom(Point(2, 2), Across, 2) == [Point(2, 2), Point(2, 3)] by {
      var cs := CellsFrom(Point(2, 2), Across, 2);
      assert cs[0] == Point(2, 2) && cs[1] == Point(2, 3);
    }
    assert CellsFrom(Point(3, 0), Across, 3) == [Point(3, 0), Point(3, 1), Point(3, 2)] by {
      var cs := CellsFrom(Point(3, 0), Across, 3);
      assert cs[0] == Point(3, 0) && cs[1] == Point(3, 1) && cs[2] == Point(3, 2);
    }
  }

  /** Each slot the scan builds for the test grid is the one the test lists. */
  lemma NewSlotsFixture()
    ensures NewSlot(Point(0, 1), Across, 3, Words) == Scanned[0]
    ensures NewSlot(Point(0, 2), Down, 5, Words) == Scanned[1]
    ensures NewSlot(Point(0, 3), Down, 3, Words) == Scanned[2]
    ensures NewSlot(Point(1, 0), Down, 3, Words) == Scanned[3]
    ensures NewSlot(Point(1, 2), Across, 3, Words) == Scanned[4]
    ensures NewSlot(Point(2, 2), Across, 2, Words) == Scanned[5]
    ensures NewSlot(Point(3, 0), Across, 3, Words) == Scanned[6]
  {
    assert WordsOfLength(Words, 2) == ["at"];
    assert WordsOfLength(Words, 3) == ThreeLetters;
    assert WordsOfLength(Words, 5) == ["arabs"];
    CellsFixture();
  }

  lemma RowFixture0()
    ensures RowSlots(Grid5, 0, 5, Words) == Scanned[0..3]
  {
    AcrossRuns();
    DownRuns();
    NewSlotsFixture();
    assert CellSlots(Grid5, 0, 0, Words) == Scanned[0..0];
    assert RowSlots(Grid5, 0, 1, Words) == Scanned[0..0];
    assert CellSlots(Grid5, 0, 1, Words) == Scanned[0..1];
    assert RowSlots(Grid5, 0, 2, Words) == Scanned[0..1];
    assert CellSlots(Grid5, 0, 2, Words) == Scanned[1..2];
    assert RowSlots(Grid5, 0, 3, Words) == Scanned[0..2];
    assert CellSlots(Grid5, 0, 3, Words) == Scanned[2..3];
    assert RowSlots(Grid5, 0, 4, Words) == Scanned[0..3];
    assert CellSlots(Grid5, 0, 4, Words) == Scanned[3..3];
    assert RowSlots(Grid5, 0, 5, Words) == Scanned[0..3];
  }

  lemma RowFixture1()
    ensures RowSlots(Grid5, 1, 5, Words) == Scanned[3..5]
  {
    AcrossRuns();
    DownRuns();
    NewSlotsFixture();
    assert CellSlots(Grid5, 1, 0, Words) == Scanned[3..4];
    assert RowSlots(Grid5, 1, 1, Words) == Scanned[3..4];
    assert CellSlots(Grid5, 1, 1, Words) == Scanned[4..4];
    assert RowSlots(Grid5, 1, 2, Words) == Scanned[3..4];
    assert CellSlots(Grid5, 1, 2, Words) == Scanned[4..5];
    assert RowSlots(Grid5, 1, 3, Words) == Scanned[3..5];
    assert CellSlots(Grid5, 1, 3, Words) == Scanned[5..5];
    assert RowSlots(Grid5, 1, 4, Words) == Scanned[3..5];
    assert CellSlots(Grid5, 1, 4, Words) == Scanned[5..5];
    assert RowSlots(Grid5, 1, 5, Words) == Scanned[3..5];
  }

  lemma RowFixture2()
    ensures RowSlots(Grid5, 2, 5, Words) == Scanned[5..6]
  {
    AcrossRuns();
    DownRuns();
    NewSlotsFixture();
    assert CellSlots(Grid5, 2, 0, Words) == Scanned[5..5];
    assert RowSlots(Grid5, 2, 1, Words) == Scanned[5..5];
    assert CellSlots(Grid5, 2, 1, Words) == Scanned[5..5];
    assert RowSlots(Grid5, 2, 2, Words) == Scanned[5..5];
    assert CellSlots(Grid5, 2, 2, Words) == Scanned[5..6];
    assert RowSlots(Grid5, 2, 3, Words) == Scanned[5..6];
    assert CellSlots(Grid5, 2, 3, Words) == Scanned[6..6];
    assert RowSlots(Grid5, 2, 4, Words) == Scanned[5..6];
    assert CellSlots(Grid5, 2, 4, Words) == Scanned[6..6];
    assert RowSlots(Grid5, 2, 5, Words) == Scanned[5..6];
  }

  lemma RowFixture3()
    ensures RowSlots(Grid5, 3, 5, Words) == Scanned[6..7]
  {
    AcrossRuns();
    DownRuns();
    NewSlotsFixture();
    assert CellSlots(Grid5, 3, 0, Words) == Scanned[6..7];
    assert RowSlots(Grid5, 3, 1, Words) == Scanned[6..7];
    assert CellSlots(Grid5, 3, 1, Words) == Scanned[7..7];
    assert RowSlots(Grid5, 3, 2, Words) == Scanned[6..7];
    assert CellSlots(Grid5, 3, 2, Words) == Scanned[7..7];
    assert RowSlots(Grid5, 3, 3, Words) == Scanned[6..7];
    assert CellSlots(Grid5, 3, 3, Words) == Scanned[7..7];
    assert RowSlots(Grid5, 3, 4, Words) == Scanned[6..7];
    assert CellSlots(Grid5, 3, 4, Words) == Scanned[7..7];
    assert RowSlots(Grid5, 3, 5, Words) == Scanned[6..7];
  }

  lemma RowFixture4()
    ensures RowSlots(Grid5, 4, 5, Words) == Scanned[7..7]
  {
    AcrossRuns();
    DownRuns();
    NewSlotsFixture();
    assert CellSlots(Grid5, 4, 0, Words) == Scanned[7..7];
    assert RowSlots(Grid5, 4, 1, Words) == Scanned[7..7];
    assert CellSlots(Grid5, 4, 1, Words) == Scanned[7..7];
    assert RowSlots(Grid5, 4, 2, Words) == Scanned[7..7];
    assert CellSlots(Grid5, 4, 2, Words) == Scanned[7..7];
    assert RowSlots(Grid5, 4, 3, Words) == Scanned[7..7];
    assert CellSlots(Grid5, 4, 3, Words) == Scanned[7..7];
    assert RowSlots(Grid5, 4, 4, Words) == Scanned[7..7];
    assert CellSlots(Grid5, 4, 4, Words) == Scanned[7..7];
    assert RowSlots(Grid5, 4, 5, Words) == Scanned[7..7];
  }

  /** One more row of the scan: the rows so far are a prefix of `s`, and the new row is the next stretch of it. */
  lemma GridStep(g: Grid, rows: nat, s: seq<Variable>, a: nat, b: nat)
    requires a <= b <= |s|
    requires GridSlots(g, rows, Words) == s[..a]
    requires RowSlots(g, rows, Width(g), Words) == s[a..b]
    ensures GridSlots(g, rows + 1, Words) == s[..b]
    ensures b == |s| ==> GridSlots(g, rows + 1, Words) == s
  {
    assert s[..a] + s[a..b] == s[..b];
    assert b == |s| ==> s[..b] == s;
  }

  /** The scan of the test grid finds the seven slots the test lists, in its order. */
  lemma ScanFixture()
    ensures ScanSlots(Grid5, Words) == Scanned
  {
    assert Width(Grid5) == 5;
    RowFixture0();
    GridStep(Grid5, 0, Scanned, 0, 3);
    RowFixture1();
    GridStep(Grid5, 1, Scanned, 3, 5);
    RowFixture2();
    GridStep(Grid5, 2, Scanned, 5, 6);
    RowFixture3();
    GridStep(Grid5, 3, Scanned, 6, 7);
    RowFixture4();
    GridStep(Grid5, 4, Scanned, 7, 7);
  }

  /** The anchors of the seven slots. */
  lemma ScannedAnchors()
    ensures Scanned[0].coordinates == Point(0, 1)
    ensures Scanned[1].coordinates == Point(0, 2)
    ensures Scanned[2].coordinates == Point(0, 3)
    ensures Scanned[3].coordinates == Point(1, 0)
    ensures Scanned[4].coordinates == Point(1, 2)
    ensures Scanned[5].coordinates == Point(2, 2)
    ensures Scanned[6].coordinates == Point(3, 0)
  {
  }

  /** The anchor and the cells of every slot of the scan. */
  lemma ScannedShape()
    ensures Scanned[0].coordinates == Point(0, 1) && Scanned[0].cells == [Point(0, 1), Point(0, 2), Point(0, 3)]
    ensures Scanned[1].coordinates == Point(0, 2) && Scanned[1].cells == [Point(0, 2), Point(1, 2), Point(2, 2), Point(3, 2), Point(4, 2)]
    ensures Scanned[2].coordinates == Point(0, 3) && Scanned[2].cells == [Point(0, 3), Point(1, 3), Point(2, 3)]
    ensures Scanned[3].coordinates == Point(1, 0) && Scanned[3].cells == [Point(1, 0), Point(2, 0), Point(3, 0)]
    ensures Scanned[4].coordinates == Point(1, 2) && Scanned[4].cells == [Point(1, 2), Point(1, 3), Point(1, 4)]
    ensures Scanned[5].coordinates == Point(2, 2) && Scanned[5].cells == [Point(2, 2), Point(2, 3)]
    ensures Scanned[6].coordinates == Point(3, 0) && Scanned[6].cells == [Point(3, 0), Point(3, 1), Point(3, 2)]
  {
  }

  /** What Overlaps finds between slot 0 of the test and each slot. */
  lemma OverlapsFixture0()
    ensures Overlaps(Scanned[0], Scanned[0]) == None
    ensures Overlaps(Scanned[0], Scanned[1]) == Some(Point(0, 2))
    ensures Overlaps(Scanned[0], Scanned[2]) == Some(Point(0, 3))
    ensures Overlaps(Scanned[0], Scanned[3]) == None
    ensures Overlaps(Scanned[0], Scanned[4]) == None
    ensures Overlaps(Scanned[0], Scanned[5]) == None
    ensures Overlaps(Scanned[0], Scanned[6]) == None
  {
    ScannedShape();
    SharedFixture0();
  }

  /** The cells that slot 0 of the test shares with each other slot. */
  lemma SharedFixture0()
    ensures FirstShared([Point(0, 1), Point(0, 2), Point(0, 3)], [Point(0, 2), Point(1, 2), Point(2, 2), Point(3, 2), Point(4, 2)]) == Some(Point(0, 2))
    ensures FirstShared([Point(0, 1), Point(0, 2), Point(0, 3)], [Point(0, 3), Point(1, 3), Point(2, 3)]) == Some(Point(0, 3))
    ensures FirstShared([Point(0, 1), Point(0, 2), Point(0, 3)], [Point(1, 0), Point(2, 0), Point(3, 0)]) == None
    ensures FirstShared([Point(0, 1), Point(0, 2), Point(0, 3)], [Point(1, 2), Point(1, 3), Point(1, 4)]) == None
    ensures FirstShared([Point(0, 1), Point(0, 2), Point(0, 3)], [Point(2, 2), Point(2, 3)]) == None
    ensures FirstShared([Point(0, 1), Point(0, 2), Point(0, 3)], [Point(3, 0), Point(3, 1), Point(3, 2)]) == None
  {
  }

  /** One more slot of the scan adds its anchor to the neighbour map when it overlaps v1. */
  lemma NeighborsStep(v1: Variable, vs: seq<Variable>, k: nat, m: map<Point, Point>)
    requires 0 < k <= |vs| && NeighborsFrom(v1, vs[..k - 1]) == m
    ensures NeighborsFrom(v1, vs[..k]) == match Overlaps(v1, vs[k - 1])
      case Some(p) => m[vs[k - 1].coordinates := p]
      case None => m
  {
    assert vs[..k][..k - 1] == vs[..k - 1];
  }

  lemma NeighborsFixture0()
    ensures NeighborsFrom(Scanned[0], Scanned) == WantNeighbors[0]
  {
    OverlapsFixture0();
    ScannedAnchors();
    NeighborsChain0(Scanned[0], Scanned);
  }

  /** The neighbour map of slot 0, from what Overlaps finds against each slot. */
  lemma NeighborsChain0(v1: Variable, vs: seq<Variable>)
    requires |vs| == 7
    requires Overlaps(v1, vs[0]) == None
    requires Overlaps(v1, vs[1]) == Some(Point(0, 2)) && vs[1].coordinates == Point(0, 2)
    requires Overlaps(v1, vs[2]) == Some(Point(0, 3)) && vs[2].coordinates == Point(0, 3)
    requires Overlaps(v1, vs[3]) == None
    requires Overlaps(v1, vs[4]) == None
    requires Overlaps(v1, vs[5]) == None
    requires Overlaps(v1, vs[6]) == None
    ensures NeighborsFrom(v1, vs) == map[Point(0, 2) := Point(0, 2), Point(0, 3) := Point(0, 3)]
  {
    assert vs[..0] == [];
    NeighborsStep(v1, vs, 1, map[]);
    ghost var m1: map<Point, Point> := map[];
    NeighborsStep(v1, vs, 2, m1);
    ghost var m2: map<Point, Point> := map[Point(0, 2) := Point(0, 2)];
    NeighborsStep(v1, vs, 3, m2);
    ghost var m3: map<Point, Point> := map[Point(0, 2) := Point(0, 2), Point(0, 3) := Point(0, 3)];
    NeighborsStep(v1, vs, 4, m3);
    ghost var m4: map<Point, Point> := map[Point(0, 2) := Point(0, 2), Point(0, 3) := Point(0, 3)];
    NeighborsStep(v1, vs, 5, m4);
    ghost var m5: map<Point, Point> := map[Point(0, 2) := Point(0, 2), Point(0, 3) := Point(0, 3)];
    NeighborsStep(v1, vs, 6, m5);
    ghost var m6: map<Point, Point> := map[Point(0, 2) := Point(0, 2), Point(0, 3) := Point(0, 3)];
    NeighborsStep(v1, vs, 7, m6);
    assert vs[..7] == vs;
  }

  /** What Overlaps finds between slot 1 of the test and each slot. */
  lemma OverlapsFixture1()
    ensures Overlaps(Scanned[1], Scanned[0]) == Some(Point(0, 2))
    ensures Overlaps(Scanned[1], Scanned[1]) == None
    ensures Overlaps(Scanned[1], Scanned[2]) == None
    ensures Overlaps(Scanned[1], Scanned[3]) == None
    ensures Overlaps(Scanned[1], Scanned[4]) == Some(Point(1, 2))
    ensures Overlaps(Scanned[1], Scanned[5]) == Some(Point(2, 2))
    ensures Overlaps(Scanned[1], Scanned[6]) == Some(Point(3, 2))
  {
    ScannedShape();
    SharedFixture1();
  }

  /** The cells that slot 1 of the test shares with each other slot. */
  lemma SharedFixture1()
    ensures FirstShared([Point(0, 2), Point(1, 2), Point(2, 2), Point(3, 2), Point(4, 2)], [Point(0, 1), Point(0, 2), Point(0, 3)]) == Some(Point(0, 2))
    ensures FirstShared([Point(0, 2), Point(1, 2), Point(2, 2), Point(3, 2), Point(4, 2)], [Point(0, 3), Point(1, 3), Point(2, 3)]) == None
    ensures FirstShared([Point(0, 2), Point(1, 2), Point(2, 2), Point(3, 2), Point(4, 2)], [Point(1, 0), Point(2, 0), Point(3, 0)]) == None
    ensures FirstShared([Point(0, 2), Point(1, 2), Point(2, 2), Point(3, 2), Point(4, 2)], [Point(1, 2), Point(1, 3), Point(1, 4)]) == Some(Point(1, 2))
    ensures FirstShared([Point(0, 2), Point(1, 2), Point(2, 2), Point(3, 2), Point(4, 2)], [Point(2, 2), Point(2, 3)]) == Some(Point(2, 2))
    ensures FirstShared([Point(0, 2), Point(1, 2), Point(2, 2), Point(3, 2), Point(4, 2)], [Point(3, 0), Point(3, 1), Point(3, 2)]) == Some(Point(3, 2))
  {
  }

  lemma NeighborsFixture1()
    ensures NeighborsFrom(Scanned[1], Scanned) == WantNeighbors[1]
  {
    OverlapsFixture1();
    ScannedAnchors();
    NeighborsChain1(Scanned[1], Scanned);
  }

  /** The neighbour map of slot 1, from what Overlaps finds against each slot. */
  lemma NeighborsChain1(v1: Variable, vs: seq<Variable>)
    requires |vs| == 7
    requires Overlaps(v1, vs[0]) == Some(Point(0, 2)) && vs[0].coordinates == Point(0, 1)
    requires Overlaps(v1, vs[1]) == None
    requires Overlaps(v1, vs[2]) == None
    requires Overlaps(v1, vs[3]) == None
    requires Overlaps(v1, vs[4]) == Some(Point(1, 2)) && vs[4].coordinates == Point(1, 2)
    requires Overlaps(v1, vs[5]) == Some(Point(2, 2)) && vs[5].coordinates == Point(2, 2)
    requires Overlaps(v1, vs[6]) == Some(Point(3, 2)) && vs[6].coordinates == Point(3, 0)
    ensures NeighborsFrom(v1, vs) == map[Point(0, 1) := Point(0, 2), Point(1, 2) := Point(1, 2), Point(2, 2) := Point(2, 2), Point(3, 0) := Point(3, 2)]
  {
    assert vs[..0] == [];
    NeighborsStep(v1, vs, 1, map[]);
    ghost var m1: map<Point, Point> := map[Point(0, 1) := Point(0, 2)];
    NeighborsStep(v1, vs, 2, m1);
    ghost var m2: map<Point, Point> := map[Point(0, 1) := Point(0, 2)];
    NeighborsStep(v1, vs, 3, m2);
    ghost var m3: map<Point, Point> := map[Point(0, 1) := Point(0, 2)];
    NeighborsStep(v1, vs, 4, m3);
    ghost var m4: map<Point, Point> := map[Point(0, 1) := Point(0, 2)];
    NeighborsStep(v1, vs, 5, m4);
    ghost var m5: map<Point, Point> := map[Point(0, 1) := Point(0, 2), Point(1, 2) := Point(1, 2)];
    NeighborsStep(v1, vs, 6, m5);
    ghost var m6: map<Point, Point> := map[Point(0, 1) := Point(0, 2), Point(1, 2) := Point(1, 2), Point(2, 2) := Point(2, 2)];
    NeighborsStep(v1, vs, 7, m6);
    assert vs[..7] == vs;
  }

  /** What Overlaps finds between slot 2 of the test and each slot. */
  lemma OverlapsFixture2()
    ensures Overlaps(Scanned[2], Scanned[0]) == Some(Point(0, 3))
    ensures Overlaps(Scanned[2], Scanned[1]) == None
    ensures Overlaps(Scanned[2], Scanned[2]) == None
    ensures Overlaps(Scanned[2], Scanned[3]) == None
    ensures Overlaps(Scanned[2], Scanned[4]) == Some(Point(1, 3))
    ensures Overlaps(Scanned[2], Scanned[5]) == Some(Point(2, 3))
    ensures Overlaps(Scanned[2], Scanned[6]) == None
  {
    ScannedShape();
    SharedFixture2();
  }

  /** The cells that slot 2 of the test shares with each other slot. */
  lemma SharedFixture2()
    ensures FirstShared([Point(0, 3), Point(1, 3), Point(2, 3)], [Point(0, 1), Point(0, 2), Point(0, 3)]) == Some(Point(0, 3))
    ensures FirstShared([Point(0, 3), Point(1, 3), Point(2, 3)], [Point(0, 2), Point(1, 2), Point(2, 2), Point(3, 2), Point(4, 2)]) == None
    ensures FirstShared([Point(0, 3), Point(1, 3), Point(2, 3)], [Point(1, 0), Point(2, 0), Point(3, 0)]) == None
    ensures FirstShared([Point(0, 3), Point(1, 3), Point(2, 3)], [Point(1, 2), Point(1, 3), Point(1, 4)]) == Some(Point(1, 3))
    ensures FirstShared([Point(0, 3), Point(1, 3), Point(2, 3)], [Point(2, 2), Point(2, 3)]) == Some(Point(2, 3))
    ensures FirstShared([Point(0, 3), Point(1, 3), Point(2, 3)], [Point(3, 0), Point(3, 1), Point(3, 2)]) == None
  {
  }

  lemma NeighborsFixture2()
    ensures NeighborsFrom(Scanned[2], Scanned) == WantNeighbors[2]
  {
    OverlapsFixture2();
    ScannedAnchors();
    NeighborsChain2(Scanned[2], Scanned);
  }

  /** The neighbour map of slot 2, from what Overlaps finds against each slot. */
  lemma NeighborsChain2(v1: Variable, vs: seq<Variable>)
    requires |vs| == 7
    requires Overlaps(v1, vs[0]) == Some(Point(0, 3)) && vs[0].coordinates == Point(0, 1)
    requires Overlaps(v1, vs[1]) == None
    requires Overlaps(v1, vs[2]) == None
    requires Overlaps(v1, vs[3]) == None
    requires Overlaps(v1, vs[4]) == Some(Point(1, 3)) && vs[4].coordinates == Point(1, 2)
    requires Overlaps(v1, vs[5]) == Some(Point(2, 3)) && vs[5].coordinates == Point(2, 2)
    requires Overlaps(v1, vs[6]) == None
    ensures NeighborsFrom(v1, vs) == map[Point(0, 1) := Point(0, 3), Point(1, 2) := Point(1, 3), Point(2, 2) := Point(2, 3)]
  {
    assert vs[..0] == [];
    NeighborsStep(v1, vs, 1, map[]);
    ghost var m1: map<Point, Point> := map[Point(0, 1) := Point(0, 3)];
    NeighborsStep(v1, vs, 2, m1);
    ghost var m2: map<Point, Point> := map[Point(0, 1) := Point(0, 3)];
    NeighborsStep(v1, vs, 3, m2);
    ghost var m3: map<Point, Point> := map[Point(0, 1) := Point(0, 3)];
    NeighborsStep(v1, vs, 4, m3);
    ghost var m4: map<Point, Point> := map[Point(0, 1) := Point(0, 3)];
    NeighborsStep(v1, vs, 5, m4);
    ghost var m5: map<Point, Point> := map[Point(0, 1) := Point(0, 3), Point(1, 2) := Point(1, 3)];
    NeighborsStep(v1, vs, 6, m5);
    ghost var m6: map<Point, Point> := map[Point(0, 1) := Point(0, 3), Point(1, 2) := Point(1, 3), Point(2, 2) := Point(2, 3)];
    NeighborsStep(v1, vs, 7, m6);
    assert vs[..7] == vs;
  }

  /** What Overlaps finds between slot 3 of the test and each slot. */
  lemma OverlapsFixture3()
    ensures Overlaps(Scanned[3], Scanned[0]) == None
    ensures Overlaps(Scanned[3], Scanned[1]) == None
    ensures Overlaps(Scanned[3], Scanned[2]) == None
    ensures Overlaps(Scanned[3], Scanned[3]) == None
    ensures Overlaps(Scanned[3], Scanned[4]) == None
    ensures Overlaps(Scanned[3], Scanned[5]) == None
    ensures Overlaps(Scanned[3], Scanned[6]) == Some(Point(3, 0))
  {
    ScannedShape();
    SharedFixture3();
  }

  /** The cells that slot 3 of the test shares with each other slot. */
  lemma SharedFixture3()
    ensures FirstShared([Point(1, 0), Point(2, 0), Point(3, 0)], [Point(0, 1), Point(0, 2), Point(0, 3)]) == None
    ensures FirstShared([Point(1, 0), Point(2, 0), Point(3, 0)], [Point(0, 2), Point(1, 2), Point(2, 2), Point(3, 2), Point(4, 2)]) == None
    ensures FirstShared([Point(1, 0), Point(2, 0), Point(3, 0)], [Point(0, 3), Point(1, 3), Point(2, 3)]) == None
    ensures FirstShared([Point(1, 0), Point(2, 0), Point(3, 0)], [Point(1, 2), Point(1, 3), Point(1, 4)]) == None
    ensures FirstShared([Point(1, 0), Point(2, 0), Point(3, 0)], [Point(2, 2), Point(2, 3)]) == None
    ensures FirstShared([Point(1, 0), Point(2, 0), Point(3, 0)], [Point(3, 0), Point(3, 1), Point(3, 2)]) == Some(Point(3, 0))
  {
  }

  lemma NeighborsFixture3()
    ensures NeighborsFrom(Scanned[3], Scanned) == WantNeighbors[3]
  {
    OverlapsFixture3();
    ScannedAnchors();
    NeighborsChain3(Scanned[3], Scanned);
  }

  /** The neighbour map of slot 3, from what Overlaps finds against each slot. */
  lemma NeighborsChain3(v1: Variable, vs: seq<Variable>)
    requires |vs| == 7
    requires Overlaps(v1, vs[0]) == None
    requires Overlaps(v1, vs[1]) == None
    requires Overlaps(v1, vs[2]) == None
    requires Overlaps(v1, vs[3]) == None
    requires Overlaps(v1, vs[4]) == None
    requires Overlaps(v1, vs[5]) == None
    requires Overlaps(v1, vs[6]) == Some(Point(3, 0)) && vs[6].coordinates == Point(3, 0)
    ensures NeighborsFrom(v1, vs) == map[Point(3, 0) := Point(3, 0)]
  {
    assert vs[..0] == [];
    NeighborsStep(v1, vs, 1, map[]);
    ghost var m1: map<Point, Point> := map[];
    NeighborsStep(v1, vs, 2, m1);
    ghost var m2: map<Point, Point> := map[];
    NeighborsStep(v1, vs, 3, m2);
    ghost var m3: map<Point, Point> := map[];
    NeighborsStep(v1, vs, 4, m3);
    ghost var m4: map<Point, Point> := map[];
    NeighborsStep(v1, vs, 5, m4);
    ghost var m5: map<Point, Point> := map[];
    NeighborsStep(v1, vs, 6, m5);
    ghost var m6: map<Point, Point> := map[];
    NeighborsStep(v1, vs, 7, m6);
    assert vs[..7] == vs;
  }

  /** What Overlaps finds between slot 4 of the test and each slot. */
  lemma OverlapsFixture4()
    ensures Overlaps(Scanned[4], Scanned[0]) == None
    ensures Overlaps(Scanned[4], Scanned[1]) == Some(Point(1, 2))
    ensures Overlaps(Scanned[4], Scanned[2]) == Some(Point(1, 3))
    ensures Overlaps(Scanned[4], Scanned[3]) == None
    ensures Overlaps(Scanned[4], Scanned[4]) == None
    ensures Overlaps(Scanned[4], Scanned[5]) == None
    ensures Overlaps(Scanned[4], Scanned[6]) == None
  {
    ScannedShape();
    SharedFixture4();
  }

  /** The cells that slot 4 of the test shares with each other slot. */
  lemma SharedFixture4()
    ensures FirstShared([Point(1, 2), Point(1, 3), Point(1, 4)], [Point(0, 1), Point(0, 2), Point(0, 3)]) == None
    ensures FirstShared([Point(1, 2), Point(1, 3), Point(1, 4)], [Point(0, 2), Point(1, 2), Point(2, 2), Point(3, 2), Point(4, 2)]) == Some(Point(1, 2))
    ensures FirstShared([Point(1, 2), Point(1, 3), Point(1, 4)], [Point(0, 3), Point(1, 3), Point(2, 3)]) == Some(Point(1, 3))
    ensures FirstShared([Point(1, 2), Point(1, 3), Point(1, 4)], [Point(1, 0), Point(2, 0), Point(3, 0)]) == None
    ensures FirstShared([Point(1, 2), Point(1, 3), Point(1, 4)], [Point(2, 2), Point(2, 3)]) == None
    ensures FirstShared([Point(1, 2), Point(1, 3), Point(1, 4)], [Point(3, 0), Point(3, 1), Point(3, 2)]) == None
  {
  }

  lemma NeighborsFixture4()
    ensures NeighborsFrom(Scanned[4], Scanned) == WantNeighbors[4]
  {
    OverlapsFixture4();
    ScannedAnchors();
    NeighborsChain4(Scanned[4], Scanned);
  }

  /** The neighbour map of slot 4, from what Overlaps finds against each slot. */
  lemma NeighborsChain4(v1: Variable, vs: seq<Variable>)
    requires |vs| == 7
    requires Overlaps(v1, vs[0]) == None
    requires Overlaps(v1, vs[1]) == Some(Point(1, 2)) && vs[1].coordinates == Point(0, 2)
    requires Overlaps(v1, vs[2]) == Some(Point(1, 3)) && vs[2].coordinates == Point(0, 3)
    requires Overlaps(v1, vs[3]) == None
    requires Overlaps(v1, vs[4]) == None
    requires Overlaps(v1, vs[5]) == None
    requires Overlaps(v1, vs[6]) == None
    ensures NeighborsFrom(v1, vs) == map[Point(0, 2) := Point(1, 2), Point(0, 3) := Point(1, 3)]
  {
    assert vs[..0] == [];
    NeighborsStep(v1, vs, 1, map[]);
    ghost var m1: map<Point, Point> := map[];
    NeighborsStep(v1, vs, 2, m1);
    ghost var m2: map<Point, Point> := map[Point(0, 2) := Point(1, 2)];
    NeighborsStep(v1, vs, 3, m2);
    ghost var m3: map<Point, Point> := map[Point(0, 2) := Point(1, 2), Point(0, 3) := Point(1, 3)];
    NeighborsStep(v1, vs, 4, m3);
    ghost var m4: map<Point, Point> := map[Point(0, 2) := Point(1, 2), Point(0, 3) := Point(1, 3)];
    NeighborsStep(v1, vs, 5, m4);
    ghost var m5: map<Point, Point> := map[Point(0, 2) := Point(1, 2), Point(0, 3) := Point(1, 3)];
    NeighborsStep(v1, vs, 6, m5);
    ghost var m6: map<Point, Point> := map[Point(0, 2) := Point(1, 2), Point(0, 3) := Point(1, 3)];
    NeighborsStep(v1, vs, 7, m6);
    assert vs[..7] == vs;
  }

  /** What Overlaps finds between slot 5 of the test and each slot. */
  lemma OverlapsFixture5()
    ensures Overlaps(Scanned[5], Scanned[0]) == None
    ensures Overlaps(Scanned[5], Scanned[1]) == Some(Point(2, 2))
    ensures Overlaps(Scanned[5], Scanned[2]) == Some(Point(2, 3))
    ensures Overlaps(Scanned[5], Scanned[3]) == None
    ensures Overlaps(Scanned[5], Scanned[4]) == None
    ensures Overlaps(Scanned[5], Scanned[5]) == None
    ensures Overlaps(Scanned[5], Scanned[6]) == None
  {
    ScannedShape();
    SharedFixture5();
  }

  /** The cells that slot 5 of the test shares with each other slot. */
  lemma SharedFixture5()
    ensures FirstShared([Point(2, 2), Point(2, 3)], [Point(0, 1), Point(0, 2), Point(0, 3)]) == None
    ensures FirstShared([Point(2, 2), Point(2, 3)], [Point(0, 2), Point(1, 2), Point(2, 2), Point(3, 2), Point(4, 2)]) == Some(Point(2, 2))
    ensures FirstShared([Point(2, 2), Point(2, 3)], [Point(0, 3), Point(1, 3), Point(2, 3)]) == Some(Point(2, 3))
    ensures FirstShared([Point(2, 2), Point(2, 3)], [Point(1, 0), Point(2, 0), Point(3, 0)]) == None
    ensures FirstShared([Point(2, 2), Point(2, 3)], [Point(1, 2), Point(1, 3), Point(1, 4)]) == None
    ensures FirstShared([Point(2, 2), Point(2, 3)], [Point(3, 0), Point(3, 1), Point(3, 2)]) == None
  {
  }

  lemma NeighborsFixture5()
    ensures NeighborsFrom(Scanned[5], Scanned) == WantNeighbors[5]
  {
    OverlapsFixture5();
    ScannedAnchors();
    NeighborsChain5(Scanned[5], Scanned);
  }

  /** The neighbour map of slot 5, from what Overlaps finds against each slot. */
  lemma NeighborsChain5(v1: Variable, vs: seq<Variable>)
    requires |vs| == 7
    requires Overlaps(v1, vs[0]) == None
    requires Overlaps(v1, vs[1]) == Some(Point(2, 2)) && vs[1].coordinates == Point(0, 2)
    requires Overlaps(v1, vs[2]) == Some(Point(2, 3)) && vs[2].coordinates == Point(0, 3)
    requires Overlaps(v1, vs[3]) == None
    requires Overlaps(v1, vs[4]) == None
    requires Overlaps(v1, vs[5]) == None
    requires Overlaps(v1, vs[6]) == None
    ensures NeighborsFrom(v1, vs) == map[Point(0, 2) := Point(2, 2), Point(0, 3) := Point(2, 3)]
  {
    assert vs[..0] == [];
    NeighborsStep(v1, vs, 1, map[]);
    ghost var m1: map<Point, Point> := map[];
    NeighborsStep(v1, vs, 2, m1);
    ghost var m2: map<Point, Point> := map[Point(0, 2) := Point(2, 2)];
    NeighborsStep(v1, vs, 3, m2);
    ghost var m3: map<Point, Point> := map[Point(0, 2) := Point(2, 2), Point(0, 3) := Point(2, 3)];
    NeighborsStep(v1, vs, 4, m3);
    ghost var m4: map<Point, Point> := map[Point(0, 2) := Point(2, 2), Point(0, 3) := Point(2, 3)];
    NeighborsStep(v1, vs, 5, m4);
    ghost var m5: map<Point, Point> := map[Point(0, 2) := Point(2, 2), Point(0, 3) := Point(2, 3)];
    NeighborsStep(v1, vs, 6, m5);
    ghost var m6: map<Point, Point> := map[Point(0, 2) := Point(2, 2), Point(0, 3) := Point(2, 3)];
    NeighborsStep(v1, vs, 7, m6);
    assert vs[..7] == vs;
  }

  /** What Overlaps finds between slot 6 of the test and each slot. */
  lemma OverlapsFixture6()
    ensures Overlaps(Scanned[6], Scanned[0]) == None
    ensures Overlaps(Scanned[6], Scanned[1]) == Some(Point(3, 2))
    ensures Overlaps(Scanned[6], Scanned[2]) == None
    ensures Overlaps(Scanned[6], Scanned[3]) == Some(Point(3, 0))
    ensures Overlaps(Scanned[6], Scanned[4]) == None
    ensures Overlaps(Scanned[6], Scanned[5]) == None
    ensures Overlaps(Scanned[6], Scanned[6]) == None
  {
    ScannedShape();
    SharedFixture6();
  }

  /** The cells that slot 6 of the test shares with each other slot. */
  lemma SharedFixture6()
    ensures FirstShared([Point(3, 0), Point(3, 1), Point(3, 2)], [Point(0, 1), Point(0, 2), Point(0, 3)]) == None
    ensures FirstShared([Point(3, 0), Point(3, 1), Point(3, 2)], [Point(0, 2), Point(1, 2), Point(2, 2), Point(3, 2), Point(4, 2)]) == Some(Point(3, 2))
    ensures FirstShared([Point(3, 0), Point(3, 1), Point(3, 2)], [Point(0, 3), Point(1, 3), Point(2, 3)]) == None
    ensures FirstShared([Point(3, 0), Point(3, 1), Point(3, 2)], [Point(1, 0), Point(2, 0), Point(3, 0)]) == Some(Point(3, 0))
    ensures FirstShared([Point(3, 0), Point(3, 1), Point(3, 2)], [Point(1, 2), Point(1, 3), Point(1, 4)]) == None
    ensures FirstShared([Point(3, 0), Point(3, 1), Point(3, 2)], [Point(2, 2), Point(2, 3)]) == None
  {
  }

  lemma NeighborsFixture6()
    ensures NeighborsFrom(Scanned[6], Scanned) == WantNeighbors[6]
  {
    OverlapsFixture6();
    ScannedAnchors();
    NeighborsChain6(Scanned[6], Scanned);
  }

  /** The neighbour map of slot 6, from what Overlaps finds against each slot. */
  lemma NeighborsChain6(v1: Variable, vs: seq<Variable>)
    requires |vs| == 7
    requires Overlaps(v1, vs[0]) == None
    requires Overlaps(v1, vs[1]) == Some(Point(3, 2)) && vs[1].coordinates == Point(0, 2)
    requires Overlaps(v1, vs[2]) == None
    requires Overlaps(v1, vs[3]) == Some(Point(3, 0)) && vs[3].coordinates == Point(1, 0)
    requires Overlaps(v1, vs[4]) == None
    requires Overlaps(v1, vs[5]) == None
    requires Overlaps(v1, vs[6]) == None
    ensures NeighborsFrom(v1, vs) == map[Point(0, 2) := Point(3, 2), Point(1, 0) := Point(3, 0)]
  {
    assert vs[..0] == [];
    NeighborsStep(v1, vs, 1, map[]);
    ghost var m1: map<Point, Point> := map[];
    NeighborsStep(v1, vs, 2, m1);
    ghost var m2: map<Point, Point> := map[Point(0, 2) := Point(3, 2)];
    NeighborsStep(v1, vs, 3, m2);
    ghost var m3: map<Point, Point> := map[Point(0, 2) := Point(3, 2)];
    NeighborsStep(v1, vs, 4, m3);
    ghost var m4: map<Point, Point> := map[Point(0, 2) := Point(3, 2), Point(1, 0) := Point(3, 0)];
    NeighborsStep(v1, vs, 5, m4);
    ghost var m5: map<Point, Point> := map[Point(0, 2) := Point(3, 2), Point(1, 0) := Point(3, 0)];
    NeighborsStep(v1, vs, 6, m5);
    ghost var m6: map<Point, Point> := map[Point(0, 2) := Point(3, 2), Point(1, 0) := Point(3, 0)];
    NeighborsStep(v1, vs, 7, m6);
    assert vs[..7] == vs;
  }

  /** InitNeighbors on each of the seven slots gives the neighbour maps the test lists. */
  lemma NeighborsFixture()
    ensures forall i :: 0 <= i < |Scanned| ==> NeighborsFrom(Scanned[i], Scanned) == WantNeighbors[i]
  {
    forall i | 0 <= i < |Scanned|
      ensures NeighborsFrom(Scanned[i], Scanned) == WantNeighbors[i]
    {
      if i == 0 { NeighborsFixture0(); }
      else if i == 1 { NeighborsFixture1(); }
      else if i == 2 { NeighborsFixture2(); }
      else if i == 3 { NeighborsFixture3(); }
      else if i == 4 { NeighborsFixture4(); }
      else if i == 5 { NeighborsFixture5(); }
      else { NeighborsFixture6(); }
    }
  }

  /** The seven slots after InitNeighbors. */
  const Linked: seq<Variable> := [
    Scanned[0].(neighbors := WantNeighbors[0]), Scanned[1].(neighbors := WantNeighbors[1]),
    Scanned[2].(neighbors := WantNeighbors[2]), Scanned[3].(neighbors := WantNeighbors[3]),
    Scanned[4].(neighbors := WantNeighbors[4]), Scanned[5].(neighbors := WantNeighbors[5]),
    Scanned[6].(neighbors := WantNeighbors[6])
  ]

  /** Every slot's first word, as the search picks them. */
  const FirstPicks: map<nat, string> := map[0 := "cat", 1 := "arabs", 2 := "cat", 3 := "cat", 4 := "cat", 5 := "at", 6 := "cat"]

  /** The first word of every slot's domain. */
  lemma LinkedFirstWords(slots: seq<Variable>)
    requires slots == Linked
    ensures |slots| == 7
    ensures forall i :: 0 <= i < 7 ==> slots[i].domain != [] && i in FirstPicks && slots[i].domain[0] == FirstPicks[i]
  {
    assert slots[0].domain == ThreeLetters && slots[1].domain == ["arabs"] && slots[2].domain == ThreeLetters;
    assert slots[3].domain == ThreeLetters && slots[4].domain == ThreeLetters && slots[5].domain == ["at"];
    assert slots[6].domain == ThreeLetters;
    forall i | 0 <= i < 7
      ensures slots[i].domain != [] && i in FirstPicks && slots[i].domain[0] == FirstPicks[i]
    {
      if i == 0 {} else if i == 1 {} else if i == 2 {} else if i == 3 {} else if i == 4 {} else if i == 5 {} else {}
    }
  }

  /** Seven slots whose first words are FirstPicks: every slot has a word, and taking the first ones gives FirstPicks. */
  lemma FirstPicksFixture(slots: seq<Variable>)
    requires |slots| == 7
    requires forall i :: 0 <= i < 7 ==> slots[i].domain != [] && i in FirstPicks && slots[i].domain[0] == FirstPicks[i]
    ensures Generate.NoEmptyDomain(slots, map[])
    ensures Generate.FirstWords(slots, map[]) == FirstPicks
  {
    FirstPicksKeys();
    FirstWordsAre(slots, FirstPicks);
  }

  /** When every slot's first word is the one `want` gives it, FirstWords of no assignment is `want`. */
  lemma FirstWordsAre(slots: seq<Variable>, want: map<nat, string>)
    requires want.Keys == Generate.Indices(|slots|)
    requires forall i :: 0 <= i < |slots| ==> slots[i].domain != [] && slots[i].domain[0] == want[i]
    ensures Generate.NoEmptyDomain(slots, map[])
    ensures Generate.FirstWords(slots, map[]) == want
  {
    Generate.FirstWordsAt(slots, map[]);
  }

  /** FirstPicks has an entry for each of the seven slots. */
  lemma FirstPicksKeys()
    ensures FirstPicks.Keys == Generate.Indices(7)
  {
    assert Generate.Indices(7) == {0, 1, 2, 3, 4, 5, 6};
  }

  /**
   * From the empty assignment, the search on the test grid gives every slot
   * the first word of its domain (see CrossingFixture for what that breaks).
   */
  lemma SearchFixture(slots: seq<Variable>)
    requires slots == Linked
    ensures Generate.Search(slots, map[]) == Some(FirstPicks)
  {
    LinkedFirstWords(slots);
    FirstPicksFixture(slots);
    var none: map<nat, string> := map[];
    assert none.Keys <= Generate.Indices(|slots|);
    Generate.SearchTakesFirstWords(slots, none);
  }

  /** The answer of SearchFixture puts 't' (slot 0) and 'c' (slot 2) into their shared cell (0, 3). */
  lemma CrossingFixture(slots: seq<Variable>)
    requires slots == Linked
    ensures |slots| == 7 && slots[0].cells[2] == slots[2].cells[0] == Point(0, 3)
    ensures FirstPicks[0][2] == 't' && FirstPicks[2][0] == 'c'
  {
  }
}
