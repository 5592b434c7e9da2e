/**
  The load-time configuration of the game (constants.ts): board size, speed
  ramp, starting snake and heading, level threshold and the obstacle catalogue.
 */
module Constants {
  import opened Types

  /** The board is `BoardSize` by `BoardSize` cells. */
  const BoardSize: int := 20

  /** Tick interval in milliseconds at the start of a round. */
  const InitialSpeed: int := 150

  /** The tick interval never drops below this. */
  const MinSpeed: int := 50

  /** Each food eaten shortens the tick interval by this much. */
  const SpeedDecrement: int := 3

  /** Head first, body trailing straight down below it. */
  const InitialSnake: seq<Coordinate> :=
    [Coordinate(10, 10), Coordinate(10, 11), Coordinate(10, 12)]

  const InitialDirection: Direction := Up

  /** Every this many points the level goes up by one. */
  const ScorePerLevel: int := 5

  /** Level 2: four pillars. */
  const Pillars: seq<Coordinate> :=
    [ Coordinate(5, 5), Coordinate(14, 5), Coordinate(5, 14), Coordinate(14, 14) ]

  /** Level 3: two horizontal beams. */
  const Beams: seq<Coordinate> :=
    [ Coordinate(4, 7), Coordinate(5, 7), Coordinate(6, 7), Coordinate(7, 7), Coordinate(8, 7),
      Coordinate(11, 12), Coordinate(12, 12), Coordinate(13, 12), Coordinate(14, 12), Coordinate(15, 12) ]

  /** Level 4: a box with a gap in the middle of every side, listed side by side. */
  const BoxTop: seq<Coordinate> :=
    [ Coordinate(4, 4), Coordinate(5, 4), Coordinate(6, 4), Coordinate(7, 4), Coordinate(8, 4),
      Coordinate(11, 4), Coordinate(12, 4), Coordinate(13, 4), Coordinate(14, 4), Coordinate(15, 4) ]
  const BoxBottom: seq<Coordinate> :=
    [ Coordinate(4, 15), Coordinate(5, 15), Coordinate(6, 15), Coordinate(7, 15), Coordinate(8, 15),
      Coordinate(11, 15), Coordinate(12, 15), Coordinate(13, 15), Coordinate(14, 15), Coordinate(15, 15) ]
  const BoxLeft: seq<Coordinate> :=
    [ Coordinate(4, 5), Coordinate(4, 6), Coordinate(4, 13), Coordinate(4, 14) ]
  const BoxRight: seq<Coordinate> :=
    [ Coordinate(15, 5), Coordinate(15, 6), Coordinate(15, 13), Coordinate(15, 14) ]
  const Box: seq<Coordinate> := BoxTop + BoxBottom + BoxLeft + BoxRight

  /** Level 5: scattered rocks around a blocked centre. */
  const Rocks: seq<Coordinate> :=
    [ Coordinate(2, 2), Coordinate(3, 3), Coordinate(17, 2), Coordinate(16, 3),
      Coordinate(2, 17), Coordinate(3, 16), Coordinate(17, 17), Coordinate(16, 16),
      Coordinate(9, 9), Coordinate(10, 9), Coordinate(9, 10), Coordinate(10, 10),
      Coordinate(6, 10), Coordinate(13, 10), Coordinate(10, 6), Coordinate(10, 13) ]

  /** Obstacle layout of level `i + 1` at index `i`; level 1 is an open field. */
  const LevelConfigs: seq<seq<Coordinate>> := [[], Pillars, Beams, Box, Rocks]

  /** The wall test of the tick: a cell is on the board. */
  predicate InBounds(c: Coordinate)
  {
    0 <= c.x < BoardSize && 0 <= c.y < BoardSize
  }

  /** Three distinct on-board cells, head at (10, 10), each segment one row below the previous. */
  lemma InitialSnakeShape()
    ensures |InitialSnake| == 3 && InitialSnake[0] == Coordinate(10, 10)
    ensures Distinct(InitialSnake)
    ensures forall c :: c in InitialSnake ==> InBounds(c)
    ensures forall i :: 0 < i < |InitialSnake| ==>
      InitialSnake[i] == Coordinate(InitialSnake[i - 1].x, InitialSnake[i - 1].y + 1)
  {
  }

  /** Five layouts, the first of them empty. */
  lemma LevelCatalogShape()
    ensures |LevelConfigs| == 5
    ensures LevelConfigs[0] == []
  {
  }

  /** Every obstacle of every layout lies on the board. */
  lemma LayoutsInBounds()
    ensures forall k, c :: 0 <= k < |LevelConfigs| && c in LevelConfigs[k] ==> InBounds(c)
  {
  }

  /** Joining two duplicate-free lists with no cell in common keeps them duplicate-free. */
  lemma DistinctAppend(a: seq<Coordinate>, b: seq<Coordinate>)
    requires Distinct(a) && Distinct(b)
    requires forall i, j :: 0 <= i < |a| && 0 <= j < |b| ==> a[i] != b[j]
    ensures Distinct(a + b)
  {
    forall i, j | 0 <= i < j < |a + b|
      ensures (a + b)[i] != (a + b)[j]
    {
      if j < |a| {
        assert (a + b)[i] == a[i] && (a + b)[j] == a[j];
      } else if i < |a| {
        assert (a + b)[i] == a[i] && (a + b)[j] == b[j - |a|];
      } else {
        assert (a + b)[i] == b[i - |a|] && (a + b)[j] == b[j - |a|];
      }
    }
  }

  /** Each side of the box is duplicate-free. */
  lemma BoxSidesDistinct()
    ensures Distinct(BoxTop) && Distinct(BoxBottom) && Distinct(BoxLeft) && Distinct(BoxRight)
  {
  }

  /** The top and bottom rows lie on rows 4 and 15, the sides strictly between them. */
  lemma BoxSidesApart()
    ensures forall i :: 0 <= i < |BoxTop| ==> BoxTop[i].y == 4
    ensures forall i :: 0 <= i < |BoxBottom| ==> BoxBottom[i].y == 15
    ensures forall i :: 0 <= i < |BoxLeft| ==> BoxLeft[i].x == 4 && 5 <= BoxLeft[i].y <= 14
    ensures forall i :: 0 <= i < |BoxRight| ==> BoxRight[i].x == 15 && 5 <= BoxRight[i].y <= 14
  {
  }

  /** The box is duplicate-free because its four sides are, and they share no cell. */
  lemma BoxDistinct()
    ensures Distinct(Box)
  {
    BoxSidesDistinct();
    BoxSidesApart();
    DistinctAppend(BoxTop, BoxBottom);
    var tb := BoxTop + BoxBottom;
    assert forall i :: 0 <= i < |tb| ==> tb[i].y == 4 || tb[i].y == 15;
    DistinctAppend(tb, BoxLeft);
    var tbl := tb + BoxLeft;
    assert forall i :: 0 <= i < |tbl| ==> tbl[i].y == 4 || tbl[i].y == 15 || tbl[i].x == 4;
    DistinctAppend(tbl, BoxRight);
  }

  /** No layout lists the same cell twice. */
  lemma LayoutsDistinct()
    ensures forall k :: 0 <= k < |LevelConfigs| ==> Distinct(LevelConfigs[k])
  {
    assert Distinct(Pillars);
    assert Distinct(Beams);
    assert Distinct(Rocks);
    BoxDistinct();
  }

  /** The speed ramp goes downward and has room to move. */
  lemma SpeedConstantsSane()
    ensures 0 < MinSpeed <= InitialSpeed
    ensures SpeedDecrement > 0
    ensures ScorePerLevel > 0
  {
  }
}
