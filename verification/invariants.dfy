/**
  What every transition of the engine keeps: a non-empty, duplicate-free,
  on-board snake, one segment longer than the starting snake per food eaten;
  food on a free cell; level and speed fixed by the number of
  foods eaten this round (the score). Plus the closed forms of the speed and
  level ramps, and the guarantee the direction lock exists for.
 */
module Invariants {
  import opened Types
  import opened Constants
  import opened Engine

  /* --------------------------------------------------------- reference ramps */

  /** The tick interval after `n` foods of a round, one food at a time. */
  function SpeedAfterFoods(n: nat): (r: int)
    ensures MinSpeed <= r <= InitialSpeed
    ensures n > 0 && r > MinSpeed ==> r < InitialSpeed
  {
    if n == 0 then InitialSpeed else SpeedAfterFood(SpeedAfterFoods(n - 1))
  }

  /** The level after `n` foods of a round, one food at a time. */
  function LevelAfterFoods(n: nat): (r: int)
    ensures 1 <= r <= n + 1
  {
    if n == 0 then 1 else LevelAfterFood(n - 1, LevelAfterFoods(n - 1))
  }

  /** After `n` foods the tick interval is `max(MinSpeed, InitialSpeed - n * SpeedDecrement)`. */
  lemma {:induction false} SpeedClosedForm(n: nat)
    ensures SpeedAfterFoods(n) == Max(MinSpeed, InitialSpeed - n * SpeedDecrement)
  {
    if n > 0 {
      SpeedClosedForm(n - 1);
    }
  }

  /** After `n` foods the level is one more than the completed blocks of `ScorePerLevel`. */
  lemma {:induction false} LevelClosedForm(n: nat)
    ensures LevelAfterFoods(n) == 1 + n / ScorePerLevel
  {
    if n > 0 {
      LevelClosedForm(n - 1);
    }
  }

  /* -------------------------------------------------------------- invariant */

  /** The snake starts at three segments and grows by one per food, so its length tracks the score. */
  ghost predicate Inv(s: Session)
  {
    && |s.snake| > 0
    && |s.snake| == |InitialSnake| + s.score
    && Distinct(s.snake)
    && (forall c :: c in s.snake ==> InBounds(c))
    && s.level == LevelAfterFoods(s.score)
    && s.speed == SpeedAfterFoods(s.score)
    && FreeCell(s.food, s.snake, Obstacles(s.level))
  }

  lemma BootInv()
    ensures Inv(Boot)
  {
    InitialSnakeShape();
  }

  lemma ResetGameInv(s: Session, spot: Coordinate)
    requires FreeCell(spot, InitialSnake, Obstacles(1))
    ensures Inv(ResetGame(s, spot))
  {
    InitialSnakeShape();
  }

  /** A move that keeps the length: the new head, then all but the last old segment. */
  lemma ShiftInv(s: Session, spot: Coordinate)
    requires Inv(s) && SpotOk(s, spot)
    requires !Collides(s) && !Eats(s)
    ensures Inv(Tick(s, spot))
  {
    var h := NextHead(s);
    var body := s.snake[..|s.snake| - 1];
    var r := Tick(s, spot);
    assert r.snake == [h] + body;
    forall i, j | 0 <= i < j < |r.snake|
      ensures r.snake[i] != r.snake[j]
    {
      if i == 0 {
        assert r.snake[j] == s.snake[j - 1];
      } else {
        assert r.snake[i] == s.snake[i - 1] && r.snake[j] == s.snake[j - 1];
      }
    }
    assert forall c :: c in body ==> c in s.snake;
  }

  /** Eating keeps the whole old body, and the ramps advance by one food. */
  lemma GrowInv(s: Session, spot: Coordinate)
    requires Inv(s) && SpotOk(s, spot)
    requires !Collides(s) && Eats(s)
    ensures Inv(Tick(s, spot))
  {
    var r := Tick(s, spot);
    assert r.snake == [NextHead(s)] + s.snake;
    forall i, j | 0 <= i < j < |r.snake|
      ensures r.snake[i] != r.snake[j]
    {
      if i == 0 {
        assert r.snake[j] == s.snake[j - 1];
      } else {
        assert r.snake[i] == s.snake[i - 1] && r.snake[j] == s.snake[j - 1];
      }
    }
  }

  /** Every tick keeps the invariant: a collision leaves the body and food as they were. */
  lemma TickInv(s: Session, spot: Coordinate)
    requires Inv(s) && SpotOk(s, spot)
    ensures Inv(Tick(s, spot))
  {
    if Collides(s) {
    } else if Eats(s) {
      GrowInv(s, spot);
    } else {
      ShiftInv(s, spot);
    }
  }

  /** Under the invariant the speed always follows the closed form of the score. */
  lemma InvSpeedAndLevel(s: Session)
    requires Inv(s)
    ensures s.speed == Max(MinSpeed, InitialSpeed - s.score * SpeedDecrement)
    ensures s.level == 1 + s.score / ScorePerLevel
  {
    SpeedClosedForm(s.score);
    LevelClosedForm(s.score);
  }

  /* ---------------------------------------------------------- direction lock */

  /** Apply a burst of direction requests that arrive between two ticks. */
  function Turns(s: Session, ds: seq<Direction>): (r: Session)
    ensures r == s.(direction := r.direction, directionLock := r.directionLock)
    decreases |ds|
  {
    if |ds| == 0 then s else Turns(Turn(s, ds[0]), ds[1..])
  }

  /**
    However many requests arrive between two ticks, the heading never ends up
    the reverse of `d`, the heading the last tick moved in: at most one
    request is taken, and that one is not a reversal.
   */
  lemma {:induction false} TurnsNeverReverse(s: Session, ds: seq<Direction>, d: Direction)
    requires s.direction == d || (s.directionLock && s.direction != Reverse(d))
    ensures Turns(s, ds).direction != Reverse(d)
    ensures Turns(s, ds).direction == d || Turns(s, ds).directionLock
    decreases |ds|
  {
    if |ds| > 0 {
      TurnsNeverReverse(Turn(s, ds[0]), ds[1..], d);
    }
  }
}
