/**
 * Geometry of the puzzle board: integer cell positions, the four move
 * directions and the edge of the square grid the scene draws.
 */
module Grid {

  /** Number of rows and of columns of the board (`gridSize` of the scene). */
  const GridSize: int := 8

  /** A cell, by row (top to bottom) and column (left to right). */
  datatype Pos = Pos(row: int, col: int)

  datatype Direction = Up | Down | Left | Right

  /** The cell lies on the board: no coordinate below 0 or at least GridSize. */
  predicate InBounds(p: Pos) {
    0 <= p.row < GridSize && 0 <= p.col < GridSize
  }

  function Abs(x: int): nat {
    if x < 0 then -x else x
  }

  /** Number of orthogonal steps between two cells. */
  function Distance(p: Pos, q: Pos): nat {
    Abs(p.row - q.row) + Abs(p.col - q.col)
  }

  /**
   * The cell one step from p in direction d: left and right change the
   * column, up and down change the row (the direction `switch` shared by
   * the player move and the box push).
   */
  function Neighbour(p: Pos, d: Direction): (q: Pos)
    ensures Distance(p, q) == 1
    ensures d == Left || d == Right ==> q.row == p.row
    ensures d == Up || d == Down ==> q.col == p.col
    ensures d == Left || d == Up ==> q.row + q.col < p.row + p.col
    ensures d == Right || d == Down ==> q.row + q.col > p.row + p.col
  {
    match d
    case Left => Pos(p.row, p.col - 1)
    case Right => Pos(p.row, p.col + 1)
    case Up => Pos(p.row - 1, p.col)
    case Down => Pos(p.row + 1, p.col)
  }
}
