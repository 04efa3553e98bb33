/** The server's blast test: a cross of cells, probed at the four corners of a player's box. */
module Blast {
  import opened Geometry

  const CELL_SIZE := 16.0
  const HALF_SIZE := 5.0

  predicate IsPlayerInExplosion(pcx: int, pcy: int, bombX: int, bombY: int, radius: int) {
    if pcx == bombX && pcy == bombY then true
    else if pcx == bombX && pcy >= bombY - radius && pcy <= bombY + radius then true
    else if pcy == bombY && pcx >= bombX - radius && pcx <= bombX + radius then true
    else false
  }

  /** The cell `k` steps away from `b` in direction `d`. */
  function Step(b: Cell, d: Cell, k: int): Cell {
    b.Plus(d.Times(k))
  }

  /** The cross read as a picture: the centre, and up to `radius` steps along each of the four directions. */
  ghost predicate InCross(c: Cell, b: Cell, radius: int) {
    c == b || exists d, k: int :: d in DIRECTIONS && 1 <= k <= radius && c == Step(b, d, k)
  }

  lemma CrossIsFourArms(c: Cell, b: Cell, radius: int)
    ensures IsPlayerInExplosion(c.x, c.y, b.x, b.y, radius) <==> InCross(c, b, radius)
  {
    if IsPlayerInExplosion(c.x, c.y, b.x, b.y, radius) && c != b {
      var d := if c.x == b.x then if c.y < b.y then UP else DOWN else if c.x < b.x then LEFT else RIGHT;
      var k := if c.x == b.x then if c.y < b.y then b.y - c.y else c.y - b.y
               else if c.x < b.x then b.x - c.x else c.x - b.x;
      assert d in DIRECTIONS && 1 <= k <= radius && c == Step(b, d, k);
    }
  }

  /** The cell that holds a pixel position. */
  function CellAt(px: real, py: real): Cell {
    Cell((px / CELL_SIZE).Floor, (py / CELL_SIZE).Floor)
  }

  function Corners(x: real, y: real): seq<(real, real)> {
    [(x - HALF_SIZE, y - HALF_SIZE), (x + HALF_SIZE, y - HALF_SIZE),
     (x - HALF_SIZE, y + HALF_SIZE), (x + HALF_SIZE, y + HALF_SIZE)]
  }

  predicate PointHit(px: real, py: real, bombX: int, bombY: int, radius: int) {
    var c := CellAt(px, py);
    IsPlayerInExplosion(c.x, c.y, bombX, bombY, radius)
  }

  /** Some corner of the player's box lies in the cross. */
  predicate CornerHit(x: real, y: real, bombX: int, bombY: int, radius: int) {
    exists i | 0 <= i < 4 :: PointHit(Corners(x, y)[i].0, Corners(x, y)[i].1, bombX, bombY, radius)
  }

  /** Some point of the player's closed box lies in the cross. */
  ghost predicate BoxHit(x: real, y: real, bombX: int, bombY: int, radius: int) {
    exists px, py ::
      && x - HALF_SIZE <= px <= x + HALF_SIZE
      && y - HALF_SIZE <= py <= y + HALF_SIZE
      && PointHit(px, py, bombX, bombY, radius)
  }

  /** A closed interval shorter than a cell meets only the cells of its two ends. */
  lemma ShortIntervalMeetsTwoCells(v: real, p: real)
    requires v - HALF_SIZE <= p <= v + HALF_SIZE
    ensures var f := (p / CELL_SIZE).Floor;
            f == ((v - HALF_SIZE) / CELL_SIZE).Floor || f == ((v + HALF_SIZE) / CELL_SIZE).Floor
  {
    assert (v - HALF_SIZE) / CELL_SIZE <= p / CELL_SIZE <= (v + HALF_SIZE) / CELL_SIZE
                                    <= (v - HALF_SIZE) / CELL_SIZE + 0.625;
  }

  /** Probing four corners misses nothing and adds nothing, wherever the player stands. */
  lemma CornerTestIsExact(x: real, y: real, bombX: int, bombY: int, radius: int)
    ensures CornerHit(x, y, bombX, bombY, radius) <==> BoxHit(x, y, bombX, bombY, radius)
  {
    var corners := Corners(x, y);
    if BoxHit(x, y, bombX, bombY, radius) {
      var px, py :|
        && x - HALF_SIZE <= px <= x + HALF_SIZE
        && y - HALF_SIZE <= py <= y + HALF_SIZE
        && PointHit(px, py, bombX, bombY, radius);
      ShortIntervalMeetsTwoCells(x, px);
      ShortIntervalMeetsTwoCells(y, py);
      var i := (if (px / CELL_SIZE).Floor == ((x - HALF_SIZE) / CELL_SIZE).Floor then 0 else 1)
             + (if (py / CELL_SIZE).Floor == ((y - HALF_SIZE) / CELL_SIZE).Floor then 0 else 2);
      assert CellAt(corners[i].0, corners[i].1) == CellAt(px, py);
      assert PointHit(corners[i].0, corners[i].1, bombX, bombY, radius);
    }
    if CornerHit(x, y, bombX, bombY, radius) {
      var i :| 0 <= i < 4 && PointHit(corners[i].0, corners[i].1, bombX, bombY, radius);
      assert x - HALF_SIZE <= corners[i].0 <= x + HALF_SIZE;
    }
  }

  /** The loop over the corners, with its early exit. */
  method CheckCorners(x: real, y: real, bombX: int, bombY: int, radius: int) returns (hit: bool)
    ensures hit <==> BoxHit(x, y, bombX, bombY, radius)
    ensures hit <==> CornerHit(x, y, bombX, bombY, radius)
  {
    var corners := Corners(x, y);
    hit := false;
    var i := 0;
    while i < 4
      invariant 0 <= i <= 4
      invariant !hit
      invariant forall j | 0 <= j < i :: !PointHit(corners[j].0, corners[j].1, bombX, bombY, radius)
    {
      var cx := (corners[i].0 / CELL_SIZE).Floor;
      var cy := (corners[i].1 / CELL_SIZE).Floor;
      if IsPlayerInExplosion(cx, cy, bombX, bombY, radius) {
        hit := true;
        assert PointHit(corners[i].0, corners[i].1, bombX, bombY, radius);
        break;
      }
      i := i + 1;
    }
    CornerTestIsExact(x, y, bombX, bombY, radius);
  }
}
