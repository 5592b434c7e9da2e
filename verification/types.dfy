/**
  The value types the snake engine works with: grid cells, headings, the
  game status and the control-panel actions, plus the small integer helpers
  (`Math.max`, `Math.min`) the engine's arithmetic uses.
 */
module Types {

  /** A grid cell. Column `x` grows to the right, row `y` grows downward. */
  datatype Coordinate = Coordinate(x: int, y: int)

  datatype Direction = Up | Down | Left | Right

  datatype Status = Idle | Playing | Paused | GameOver

  /** The three buttons of the control panel. */
  datatype Action = Start | Pause | Reset

  datatype Option<T> = None | Some(value: T)

  /** No cell occurs twice. */
  predicate Distinct(cells: seq<Coordinate>)
  {
    forall i, j :: 0 <= i < j < |cells| ==> cells[i] != cells[j]
  }

  function Max(a: int, b: int): (r: int)
    ensures r >= a && r >= b
    ensures r == a || r == b
  {
    if a >= b then a else b
  }

  function Min(a: int, b: int): (r: int)
    ensures r <= a && r <= b
    ensures r == a || r == b
  {
    if a <= b then a else b
  }

  /** The heading along the same axis with the opposite sign. */
  function Reverse(d: Direction): (r: Direction)
    ensures r != d
  {
    match d
    case Up => Down
    case Down => Up
    case Left => Right
    case Right => Left
  }

  /**
    The reversal test of the direction-change handler: `newDir` is refused
    when it points straight back along the current heading.
   */
  predicate IsOpposite(newDir: Direction, current: Direction)
  {
    || (newDir == Up && current == Down)
    || (newDir == Down && current == Up)
    || (newDir == Left && current == Right)
    || (newDir == Right && current == Left)
  }

  /** The four-case reversal test is exactly "is the reverse heading", read either way round. */
  lemma OppositeIsReverse(newDir: Direction, current: Direction)
    ensures IsOpposite(newDir, current) <==> newDir == Reverse(current)
    ensures IsOpposite(newDir, current) <==> current == Reverse(newDir)
    ensures IsOpposite(newDir, current) <==> IsOpposite(current, newDir)
  {
  }
}
