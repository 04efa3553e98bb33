/** Integer grid cells (`Vector2i` in the client, a pair of ints in the server). */
module Geometry {
  datatype Cell = Cell(x: int, y: int) {
    function Plus(d: Cell): Cell {
      Cell(x + d.x, y + d.y)
    }

    function Minus(d: Cell): Cell {
      Cell(x - d.x, y - d.y)
    }

    function Times(k: int): Cell {
      Cell(x * k, y * k)
    }
  }

  const UP := Cell(0, -1)
  const DOWN := Cell(0, 1)
  const LEFT := Cell(-1, 0)
  const RIGHT := Cell(1, 0)

  // The order in which bomb.gd lists its four rays.
  const DIRECTIONS: seq<Cell> := [UP, DOWN, LEFT, RIGHT]

  /** The finite set of cells of a `rows` by `cols` grid; x is the column and y the row. */
  function Rect(rows: nat, cols: nat): set<Cell> {
    set x, y | 0 <= x < cols && 0 <= y < rows :: Cell(x, y)
  }
}
