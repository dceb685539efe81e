/**
 * The grid model: a 33 x 33 board whose cells are either walls or open, the
 * coordinates on it, and the robots that stand on it.
 *
 * Cells with both coordinates odd are rooms, the only places a robot or the
 * target occupies; every other cell lies between rooms (or on the outer ring)
 * and is open or a wall.
 */
module Grid {

  /** Side length of the board (GRID_SIZE). */
  const GridSize: int := 33

  datatype Position = Position(x: int, y: int)

  /** A robot remembers its own colour besides its position. */
  datatype Robot = Robot(color: string, pos: Position)

  /**
   * Value view of the board: g[y][x] is the IsWall flag of cell (x, y),
   * row-major as the source indexes Board[y][x].
   */
  type Grid = seq<seq<bool>>

  predicate WellFormed(g: Grid)
  {
    |g| == GridSize && forall y :: 0 <= y < GridSize ==> |g[y]| == GridSize
  }

  predicate InBounds(p: Position)
  {
    0 <= p.x < GridSize && 0 <= p.y < GridSize
  }

  /** A room cell: on the board with both coordinates odd, so strictly inside the outer ring. */
  predicate IsRoom(p: Position)
  {
    InBounds(p) && p.x % 2 == 1 && p.y % 2 == 1
  }

  function IsWall(g: Grid, p: Position): bool
    requires WellFormed(g) && InBounds(p)
  {
    g[p.y][p.x]
  }
}
