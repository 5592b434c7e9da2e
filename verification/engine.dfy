/**
  The game-state engine of App.tsx as pure transitions over one `Session`
  record: the level lookup, the food-placement constraint, the tick (move,
  ordered collision checks, growth or shift, progression), the direction
  handlers with their per-tick lock, the control-panel actions and the state
  part of the game-over handler.
 */
module Engine {
  import opened Types
  import opened Constants

  /**
    Everything the engine reads and writes. `directionLock` is set when a
    direction change is accepted and cleared by the next tick that commits a
    move, so at most one change is taken per tick.
   */
  datatype Session = Session(
    snake: seq<Coordinate>,
    food: Coordinate,
    direction: Direction,
    status: Status,
    score: nat,
    highScore: nat,
    speed: int,
    level: int,
    directionLock: bool)

  /** The session at page load: idle, the starting snake, food at (5, 5). */
  const Boot: Session :=
    Session(InitialSnake, Coordinate(5, 5), InitialDirection, Idle, 0, 0, InitialSpeed, 1, false)

  /* ---------------------------------------------------------------- levels */

  /**
    The obstacle layout of a level. Levels past the end of the catalogue keep
    the last (hardest) layout.
   */
  function Obstacles(level: int): (r: seq<Coordinate>)
    requires level >= 1
    ensures r in LevelConfigs
    ensures level <= |LevelConfigs| ==> r == LevelConfigs[level - 1]
    ensures level >= |LevelConfigs| ==> r == LevelConfigs[|LevelConfigs| - 1]
  {
    LevelConfigs[Min(level - 1, |LevelConfigs| - 1)]
  }

  /** Every level at or beyond the catalogue's length shares the last layout. */
  lemma ObstaclesClampToLast(level: int)
    requires level >= |LevelConfigs|
    ensures Obstacles(level) == Obstacles(|LevelConfigs|) == Rocks
  {
  }

  /* --------------------------------------------------------- food placement */

  /** A cell the food may occupy: on the board, off the snake, off the obstacles. */
  predicate FreeCell(c: Coordinate, snake: seq<Coordinate>, obstacles: seq<Coordinate>)
  {
    InBounds(c) && c !in snake && c !in obstacles
  }

  ghost predicate HasFreeCell(snake: seq<Coordinate>, obstacles: seq<Coordinate>)
  {
    exists c :: FreeCell(c, snake, obstacles)
  }

  /**
    Food placement keeps only the outcome of the random rejection loop: some
    free cell. The loop terminates exactly when such a cell exists.
   */
  ghost function SpawnFood(snake: seq<Coordinate>, level: int): (food: Coordinate)
    requires level >= 1
    requires HasFreeCell(snake, Obstacles(level))
    ensures InBounds(food)
    ensures food !in snake
    ensures food !in Obstacles(level)
  {
    var c :| FreeCell(c, snake, Obstacles(level)); c
  }

  /** A new round can always place its food: the level-1 board is empty apart from the snake. */
  lemma ResetFoodExists()
    ensures HasFreeCell(InitialSnake, Obstacles(1))
  {
    assert FreeCell(Coordinate(0, 0), InitialSnake, Obstacles(1));
  }

  /* ------------------------------------------------------------ progression */

  /** The level once the score goes from `score` to `score + 1`. */
  function LevelAfterFood(score: nat, level: int): (r: int)
    ensures r == level || r == level + 1
    ensures r == level + 1 <==> (score + 1) % ScorePerLevel == 0
  {
    var newScore := score + 1;
    if newScore > 0 && newScore % ScorePerLevel == 0 then level + 1 else level
  }

  /** The tick interval after one more food: faster, but never below `MinSpeed`. */
  function SpeedAfterFood(speed: int): (r: int)
    ensures r >= MinSpeed
    ensures r <= Max(speed, MinSpeed)
    ensures speed > MinSpeed ==> r < speed
    ensures speed >= MinSpeed + SpeedDecrement ==> r == speed - SpeedDecrement
    ensures speed - SpeedDecrement <= MinSpeed ==> r == MinSpeed
  {
    Max(MinSpeed, speed - SpeedDecrement)
  }

  /* ------------------------------------------------------------------ ticks */

  /** The cell one step from `c` in heading `d`; `y` grows downward. */
  function Step(c: Coordinate, d: Direction): Coordinate
  {
    match d
    case Up => Coordinate(c.x, c.y - 1)
    case Down => Coordinate(c.x, c.y + 1)
    case Left => Coordinate(c.x - 1, c.y)
    case Right => Coordinate(c.x + 1, c.y)
  }

  /** A step always leaves the cell, and stepping back the other way returns to it. */
  lemma StepThenReverse(c: Coordinate, d: Direction)
    ensures Step(c, d) != c
    ensures Step(Step(c, d), Reverse(d)) == c
  {
  }

  /** The tick has a head to move and a level that indexes the catalogue. */
  predicate Ready(s: Session)
  {
    |s.snake| > 0 && s.level >= 1
  }

  function NextHead(s: Session): Coordinate
    requires Ready(s)
  {
    Step(s.snake[0], s.direction)
  }

  /** The move is fatal: off the board, into an obstacle, or into any current segment. */
  predicate Collides(s: Session)
    requires Ready(s)
  {
    var h := NextHead(s);
    !InBounds(h) || h in Obstacles(s.level) || h in s.snake
  }

  predicate Eats(s: Session)
    requires Ready(s)
  {
    NextHead(s) == s.food
  }

  /**
    `spot` is a possible result of the food loop for this tick: it is
    constrained only when the tick eats, and then it must be free of the
    grown snake and of the obstacles of the level reached.
   */
  predicate SpotOk(s: Session, spot: Coordinate)
    requires Ready(s)
  {
    !Collides(s) && Eats(s) ==>
      FreeCell(spot, [NextHead(s)] + s.snake, Obstacles(LevelAfterFood(s.score, s.level)))
  }

  /**
    Whenever the grown snake leaves a cell free on the level reached, the
    cell the food loop chooses is an acceptable `spot` for the eating tick.
   */
  lemma SpawnFoodFitsTick(s: Session)
    requires Ready(s) && !Collides(s) && Eats(s)
    requires HasFreeCell([NextHead(s)] + s.snake, Obstacles(LevelAfterFood(s.score, s.level)))
    ensures SpotOk(s, SpawnFood([NextHead(s)] + s.snake, LevelAfterFood(s.score, s.level)))
  {
  }

  /** The state part of the game-over handler: stop, and keep the best score. */
  function EndGame(s: Session): (r: Session)
    ensures r.status == GameOver
    ensures r.highScore >= s.highScore && r.highScore >= s.score
    ensures r.highScore == s.highScore || r.highScore == s.score
    ensures r == s.(status := GameOver, highScore := r.highScore)
  {
    s.(status := GameOver, highScore := if s.score > s.highScore then s.score else s.highScore)
  }

  /**
    One tick of the game loop. The wall, obstacle and self checks run in that
    order and each ends the round with the snake as it was. Otherwise the head
    is prepended; eating keeps the tail and advances score, level, speed and
    food, while any other move drops the tail.
   */
  function Tick(s: Session, spot: Coordinate): (r: Session)
    requires Ready(s)
    requires SpotOk(s, spot)
    ensures Ready(r)
    ensures !InBounds(NextHead(s)) ==> r == EndGame(s)
    ensures NextHead(s) in Obstacles(s.level) ==> r == EndGame(s)
    ensures NextHead(s) in s.snake ==> r == EndGame(s)
    // a committed move: new head, lock released, heading and status kept
    ensures !Collides(s) ==>
      && r.snake[0] == NextHead(s)
      && !r.directionLock
      && r.direction == s.direction
      && r.status == s.status
      && r.highScore == s.highScore
    // a plain move: every segment takes the cell of the one ahead of it
    ensures !Collides(s) && !Eats(s) ==>
      && |r.snake| == |s.snake|
      && (forall i :: 0 < i < |r.snake| ==> r.snake[i] == s.snake[i - 1])
      && r.food == s.food && r.score == s.score && r.level == s.level && r.speed == s.speed
    // eating: the whole old body stays, and the progression advances
    ensures !Collides(s) && Eats(s) ==>
      && |r.snake| == |s.snake| + 1
      && r.snake[1..] == s.snake
      && r.score == s.score + 1
      && (r.level == s.level + 1 <==> r.score % ScorePerLevel == 0)
      && (r.level == s.level || r.level == s.level + 1)
      && r.speed == Max(MinSpeed, s.speed - SpeedDecrement)
      && r.food == spot
      && InBounds(r.food) && r.food !in r.snake && r.food !in Obstacles(r.level)
  {
    var head := NextHead(s);
    if !InBounds(head) then EndGame(s)
    else if head in Obstacles(s.level) then EndGame(s)
    else if head in s.snake then EndGame(s)
    else
      var grown := [head] + s.snake;
      if head == s.food then
        s.(snake := grown,
           score := s.score + 1,
           level := LevelAfterFood(s.score, s.level),
           speed := SpeedAfterFood(s.speed),
           food := spot,
           directionLock := false)
      else
        s.(snake := grown[..|grown| - 1], directionLock := false)
  }

  /* ------------------------------------------------------------------ input */

  /**
    The control-panel direction handler: ignored unless playing with the lock
    clear, and ignored when it would reverse the snake onto itself.
   */
  function Turn(s: Session, d: Direction): (r: Session)
    ensures s.status == Playing && !s.directionLock && d != Reverse(s.direction) ==>
      r == s.(direction := d, directionLock := true)
    ensures !(s.status == Playing && !s.directionLock && d != Reverse(s.direction)) ==>
      r == s
  {
    if s.status != Playing || s.directionLock then s
    else if IsOpposite(d, s.direction) then s
    else s.(direction := d, directionLock := true)
  }

  /** The arrow keys the keyboard handler reacts to; any other key is ignored. */
  function KeyDirection(key: string): Option<Direction>
  {
    if key == "ArrowUp" then Some(Up)
    else if key == "ArrowDown" then Some(Down)
    else if key == "ArrowLeft" then Some(Left)
    else if key == "ArrowRight" then Some(Right)
    else None
  }

  /**
    The keyboard handler, which phrases the reversal rule per key ("up unless
    heading down"). It agrees with the control-panel handler on every key.
   */
  function HandleKey(s: Session, key: string): (r: Session)
    ensures KeyDirection(key).None? ==> r == s
    ensures KeyDirection(key).Some? ==> r == Turn(s, KeyDirection(key).value)
  {
    if s.status != Playing then s
    else if s.directionLock then s
    else
      match KeyDirection(key)
      case None => s
      case Some(d) =>
        if s.direction != Reverse(d) then s.(direction := d, directionLock := true) else s
  }

  /* ---------------------------------------------------------------- actions */

  /**
    A new round: the starting snake and heading, score 0, level 1, initial
    speed, playing, lock clear and fresh food; only the best score survives.
   */
  function ResetGame(s: Session, spot: Coordinate): (r: Session)
    requires FreeCell(spot, InitialSnake, Obstacles(1))
    ensures r.snake == InitialSnake && r.direction == InitialDirection
    ensures r.score == 0 && r.level == 1 && r.speed == InitialSpeed
    ensures r.status == Playing && !r.directionLock
    ensures r.highScore == s.highScore
    ensures InBounds(r.food) && r.food !in r.snake && r.food !in Obstacles(r.level)
  {
    Session(InitialSnake, spot, InitialDirection, Playing, 0, s.highScore, InitialSpeed, 1, false)
  }

  /** The cell the food loop chooses for a new round is an acceptable `spot` for `ResetGame`. */
  lemma SpawnFoodFitsReset()
    ensures HasFreeCell(InitialSnake, Obstacles(1))
    ensures FreeCell(SpawnFood(InitialSnake, 1), InitialSnake, Obstacles(1))
  {
    ResetFoodExists();
  }

  /**
    The control-panel actions. Start and Reset both begin a new round; Pause
    turns a running round into a paused one and any other status into playing.
   */
  function HandleAction(s: Session, a: Action, spot: Coordinate): (r: Session)
    requires a != Pause ==> FreeCell(spot, InitialSnake, Obstacles(1))
    ensures a != Pause ==> r == ResetGame(s, spot)
    ensures a == Pause ==> r == s.(status := r.status)
    ensures a == Pause ==> (r.status == Paused <==> s.status == Playing)
    ensures a == Pause ==> r.status == Paused || r.status == Playing
  {
    match a
    case Start => ResetGame(s, spot)
    case Reset => ResetGame(s, spot)
    case Pause => s.(status := if s.status == Playing then Paused else Playing)
  }

  /** Pausing twice gives back a running or a paused round unchanged. */
  lemma PauseTwice(s: Session, spot: Coordinate)
    requires s.status == Playing || s.status == Paused
    ensures HandleAction(HandleAction(s, Pause, spot), Pause, spot) == s
  {
  }
}
