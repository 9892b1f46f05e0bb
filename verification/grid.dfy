/** The playing field: a grid of `Cols` x `Rows` cells, the four directions of
    travel and the one-cell step in each of them. Coordinates are whole cells;
    the game's pixel coordinates are these multiplied by the cell size. */
module Grid {

  /** Number of columns (`blocksX`). */
  const Cols: int := 40
  /** Number of rows (`blocksY`). */
  const Rows: int := 16

  datatype Cell = Cell(x: int, y: int)

  /** The head is inside the field exactly when neither wall test fires. */
  predicate InGrid(c: Cell) {
    0 <= c.x < Cols && 0 <= c.y < Rows
  }

  /** A cell a random draw can produce: `Math.floor(Math.random() * blocks)`
      always lies in `[0, blocks)`. */
  type GridCell = c: Cell | InGrid(c) witness Cell(0, 0)

  /** Integer ceiling of `a / b`, the `Math.ceil` of the centre computation. */
  function CeilDiv(a: nat, b: nat): (q: nat)
    requires b > 0
    ensures b * q >= a
    ensures q == 0 || b * (q - 1) < a
  {
    (a + b - 1) / b
  }

  /** Where the head starts: one cell left of and above the middle. */
  function Center(): (c: GridCell)
    ensures c == Cell(19, 7)
  {
    Cell(CeilDiv(Cols, 2) - 1, CeilDiv(Rows, 2) - 1)
  }

  datatype Direction = Up | Down | Left | Right

  /** The direction that would turn the snake back into its neck. */
  function Opposite(d: Direction): (o: Direction)
    ensures o != d
  {
    match d
    case Right => Left
    case Left => Right
    case Up => Down
    case Down => Up
  }

  /** The head's position after one move; `y` grows downwards as on a canvas. */
  function Step(c: Cell, d: Direction): (r: Cell)
    ensures Distance(c, r) == 1
  {
    match d
    case Up => c.(y := c.y - 1)
    case Down => c.(y := c.y + 1)
    case Right => c.(x := c.x + 1)
    case Left => c.(x := c.x - 1)
  }

  function Abs(n: int): nat {
    if n < 0 then -n else n
  }

  /** Number of single-cell moves between two cells. */
  function Distance(a: Cell, b: Cell): nat {
    Abs(a.x - b.x) + Abs(a.y - b.y)
  }

  /** Stepping in a direction and then in its opposite returns to the start. */
  lemma StepThenOpposite(c: Cell, d: Direction)
    ensures Step(Step(c, d), Opposite(d)) == c
  {}

  /** Different directions lead to different cells: a step determines its direction. */
  lemma StepInjective(c: Cell, d: Direction, e: Direction)
    ensures Step(c, d) == Step(c, e) <==> d == e
  {}
}
