/**
  Sessions driven by a stream of events: timer ticks (which only fire while
  playing), direction requests from the panel or the keyboard, and panel
  buttons. Each tick and each new round carries the cell the food loop lands
  on; a stream naming a cell the loop could not return is rejected.
 */
module Play {
  import opened Types
  import opened Constants
  import opened Engine
  import opened Invariants

  datatype Event =
    | Timer(spot: Coordinate)
    | Arrow(d: Direction)
    | Key(key: string)
    | Button(action: Action, spot: Coordinate)

  /**
    One event. The timer is armed only while playing, so a timer event in any
    other status changes nothing. The result is `None` when the event's food
    cell is not one the placement loop could have chosen.
   */
  function Apply(s: Session, e: Event): (r: Option<Session>)
    requires Inv(s)
    ensures r.Some? ==> Inv(r.value)
    ensures r.Some? ==> r.value.highScore >= s.highScore
    // outside a running round only a button does anything
    ensures s.status != Playing && !e.Button? ==> r == Some(s)
    // a round is paused or ended only from a running round
    ensures r.Some? && r.value.status == Paused ==> s.status == Playing || s.status == Paused
    ensures r.Some? && r.value.status == GameOver ==> s.status == Playing || s.status == GameOver
    ensures r.Some? && r.value.status == Idle ==> s.status == Idle
  {
    match e
    case Timer(spot) =>
      if s.status != Playing then Some(s)
      else if SpotOk(s, spot) then TickInv(s, spot); Some(Tick(s, spot))
      else None
    case Arrow(d) => Some(Turn(s, d))
    case Key(key) => Some(HandleKey(s, key))
    case Button(a, spot) =>
      if a == Pause then Some(HandleAction(s, a, spot))
      else if FreeCell(spot, InitialSnake, Obstacles(1)) then
        ResetGameInv(s, spot); Some(HandleAction(s, a, spot))
      else None
  }

  /** A stream of events, stopping at the first impossible one. */
  function Run(s: Session, es: seq<Event>): (r: Option<Session>)
    requires Inv(s)
    ensures r.Some? ==> Inv(r.value)
    ensures r.Some? ==> r.value.highScore >= s.highScore
    decreases |es|
  {
    if |es| == 0 then Some(s)
    else
      match Apply(s, es[0])
      case None => None
      case Some(t) => Run(t, es[1..])
  }

  /* ------------------------------------------------------------- scenarios */

  /** From a fresh round the first tick never collides: the snake heads away from its body. */
  lemma FirstTickFromReset(s: Session, spot: Coordinate, next: Coordinate)
    requires FreeCell(spot, InitialSnake, Obstacles(1))
    ensures !Collides(ResetGame(s, spot))
    ensures SpotOk(ResetGame(s, spot), next) ==> Tick(ResetGame(s, spot), next).status == Playing
  {
  }

  /** `n` timer ticks in a row, each naming the same food cell. */
  function Ticks(n: nat, spot: Coordinate): (es: seq<Event>)
    ensures |es| == n
    ensures forall i :: 0 <= i < n ==> es[i] == Timer(spot)
  {
    if n == 0 then [] else [Timer(spot)] + Ticks(n - 1, spot)
  }

  /** The starting snake moved straight up so that its head is on row `h`. */
  function Climbed(spot: Coordinate, h: int): Session
  {
    Session([Coordinate(10, h), Coordinate(10, h + 1), Coordinate(10, h + 2)],
            spot, Up, Playing, 0, 0, InitialSpeed, 1, false)
  }

  /** The food is not in column 10 above the starting head. */
  predicate OffThePath(spot: Coordinate)
  {
    !(spot.x == 10 && spot.y < 10)
  }

  lemma ClimbedInv(spot: Coordinate, h: int)
    requires FreeCell(spot, InitialSnake, Obstacles(1)) && OffThePath(spot)
    requires 0 <= h <= 10
    ensures Inv(Climbed(spot, h))
  {
  }

  /** `k` ticks straight up from row `h` leave the head on row `h - k`, still playing. */
  lemma {:induction false} ClimbRun(spot: Coordinate, h: int, k: nat)
    requires FreeCell(spot, InitialSnake, Obstacles(1)) && OffThePath(spot)
    requires k <= h <= 10
    ensures Inv(Climbed(spot, h)) && Run(Climbed(spot, h), Ticks(k, spot)) == Some(Climbed(spot, h - k))
    decreases k
  {
    ClimbedInv(spot, h);
    if k > 0 {
      var s := Climbed(spot, h);
      assert Tick(s, spot) == Climbed(spot, h - 1);
      ClimbedInv(spot, h - 1);
      ClimbRun(spot, h - 1, k - 1);
    }
  }

  /** From row `h`, tick `h + 1` is the one that leaves the board. */
  lemma {:induction false} ClimbToWall(spot: Coordinate, h: int)
    requires FreeCell(spot, InitialSnake, Obstacles(1)) && OffThePath(spot)
    requires 0 <= h <= 10
    ensures Inv(Climbed(spot, h)) && Run(Climbed(spot, h), Ticks(h + 1, spot)) == Some(EndGame(Climbed(spot, 0)))
    decreases h
  {
    ClimbedInv(spot, h);
    var s := Climbed(spot, h);
    if h == 0 {
      assert Apply(s, Timer(spot)) == Some(EndGame(s));
    } else {
      assert Tick(s, spot) == Climbed(spot, h - 1);
      ClimbToWall(spot, h - 1);
    }
  }

  /** Pressing Start on the freshly loaded page gives the starting snake with its head on row 10. */
  lemma StartFromBoot(spot: Coordinate, es: seq<Event>)
    requires FreeCell(spot, InitialSnake, Obstacles(1)) && OffThePath(spot)
    ensures Inv(Boot) && Inv(Climbed(spot, 10))
    ensures Run(Boot, [Button(Start, spot)] + es) == Run(Climbed(spot, 10), es)
  {
    BootInv();
    ClimbedInv(spot, 10);
    assert Apply(Boot, Button(Start, spot)) == Some(Climbed(spot, 10));
    assert ([Button(Start, spot)] + es)[1..] == es;
  }

  /**
    Starting fresh and never turning, with no food in the way: ten ticks take
    the head from (10, 10) to (10, 0) and the round goes on; the eleventh hits
    the wall and ends it with the snake where it was.
   */
  lemma WallOnEleventhTick(spot: Coordinate)
    requires FreeCell(spot, InitialSnake, Obstacles(1)) && OffThePath(spot)
    ensures Inv(Boot)
    ensures forall k :: 0 <= k <= 10 ==>
      Run(Boot, [Button(Start, spot)] + Ticks(k, spot)) == Some(Climbed(spot, 10 - k))
    ensures Run(Boot, [Button(Start, spot)] + Ticks(11, spot)) == Some(EndGame(Climbed(spot, 0)))
    ensures EndGame(Climbed(spot, 0)).status == GameOver
    ensures EndGame(Climbed(spot, 0)).snake == Climbed(spot, 0).snake
  {
    BootInv();
    forall k | 0 <= k <= 10
      ensures Run(Boot, [Button(Start, spot)] + Ticks(k, spot)) == Some(Climbed(spot, 10 - k))
    {
      StartFromBoot(spot, Ticks(k, spot));
      ClimbRun(spot, 10, k);
    }
    StartFromBoot(spot, Ticks(11, spot));
    ClimbToWall(spot, 10);
  }

  /**
    The head can come to rest on an obstacle: food placed while on level 1 may
    sit where a level-2 pillar stands, and eating it is what raises the level.
    The snake has seven segments, (5, 6) down to (5, 12): three to start and one
    per food of score 4.
   */
  lemma HeadMayLandOnNewObstacle()
    ensures var s := Session(seq(7, i => Coordinate(5, 6 + i)),
                             Coordinate(5, 5), Up, Playing, 4, 0, SpeedAfterFoods(4), 1, false);
      && Inv(s)
      && SpotOk(s, Coordinate(0, 0))
      && Tick(s, Coordinate(0, 0)).status == Playing
      && Tick(s, Coordinate(0, 0)).snake[0] in Obstacles(Tick(s, Coordinate(0, 0)).level)
  {
    var s := Session(seq(7, i => Coordinate(5, 6 + i)),
                     Coordinate(5, 5), Up, Playing, 4, 0, SpeedAfterFoods(4), 1, false);
    var h := Coordinate(5, 5);
    assert LevelAfterFoods(4) == 1;
    assert Obstacles(1) == [] && Obstacles(2) == Pillars;
    assert NextHead(s) == h && h !in s.snake;
    assert Eats(s) && !Collides(s);
    assert Coordinate(0, 0) !in [h] + s.snake && Coordinate(0, 0) !in Pillars;
    assert Tick(s, Coordinate(0, 0)).level == 2;
    assert Tick(s, Coordinate(0, 0)).snake[0] == h && h in Pillars;
  }
}
