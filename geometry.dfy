/** Board geometry shared by the whole engine: the 4x4 grid, its cells and the four move directions. */
module Geometry {

  /** Side length of the square board. */
  const BoardSize: int := 4

  /** Number of tile slots kept by a board (one per cell). */
  const SlotCount: int := 16

  /** Largest tile exponent; a tile of value 11 shows 2^11 = 2048. */
  const MaxTileValue: int := 11

  /** A grid position; coordinates are plain integers so that out-of-range positions can be expressed. */
  datatype Cell = Cell(x: int, y: int)

  predicate InBounds(c: Cell) {
    0 <= c.x < BoardSize && 0 <= c.y < BoardSize
  }

  /** The four axis directions a move can take, as (dx, dy) unit steps. */
  datatype Dir = Left | Up | Right | Down

  function Dx(d: Dir): int {
    match d
    case Left => -1
    case Right => 1
    case _ => 0
  }

  function Dy(d: Dir): int {
    match d
    case Up => -1
    case Down => 1
    case _ => 0
  }

  /** The cell one step from c in direction d. */
  function Step(c: Cell, d: Dir): Cell {
    Cell(c.x + Dx(d), c.y + Dy(d))
  }

  /** The cell k steps from c in direction d. */
  function Advance(c: Cell, d: Dir, k: int): (r: Cell)
    ensures k == 0 ==> r == c
  {
    match d
    case Left => Cell(c.x - k, c.y)
    case Right => Cell(c.x + k, c.y)
    case Up => Cell(c.x, c.y - k)
    case Down => Cell(c.x, c.y + k)
  }

  /** How many steps q lies from p along direction d (negative when q is behind p). */
  function Along(p: Cell, q: Cell, d: Dir): int {
    match d
    case Left => p.x - q.x
    case Right => q.x - p.x
    case Up => p.y - q.y
    case Down => q.y - p.y
  }

  /** q lies on the ray that starts at p and runs in direction d (p itself included). */
  predicate OnRay(p: Cell, q: Cell, d: Dir) {
    0 <= Along(p, q, d) && q == Advance(p, d, Along(p, q, d))
  }

  lemma StepIsAdvance(c: Cell, d: Dir, k: int)
    ensures Step(Advance(c, d, k), d) == Advance(c, d, k + 1)
  {
  }
}
