/** Grids as the client stores them: two-dimensional arrays of item references, read and written cell by cell. */
module GridArrays {
  import opened Wrappers
  import opened Geometry
  import opened Shapes
  import opened Bags
  import Boosts

  class Item {
    const path: string
    const base: Shape
    const boost: Boosts.Boost
    var runtimeShape: Shape
    var turns: QuarterTurns
    var gridPos: Cell

    constructor (path: string, base: Shape, boost: Boosts.Boost)
      ensures this.path == path && this.base == base && this.boost == boost
      ensures runtimeShape == base && turns == 0 && gridPos == Cell(-1, -1)
    {
      this.path, this.base, this.boost := path, base, boost;
      runtimeShape, turns, gridPos := base, 0, Cell(-1, -1);
    }

    /** The runtime shape is the resource's shape after the turns on record. */
    ghost predicate InStep()
      reads this
    {
      runtimeShape == Turned(base, turns)
    }

    /** One quarter turn; the recorded angle wraps after four. */
    method RotateItem()
      modifies `runtimeShape, `turns
      ensures runtimeShape == Rotate(old(runtimeShape)) && turns == if old(turns) < 3 then old(turns) + 1 else 0
      ensures old(InStep()) && (old(turns) < 3 || base == [] || Normalized(base)) ==> InStep()
    {
      if turns < 3 || base == [] || Normalized(base) {
        TurnsWrap(base, turns);
      }
      runtimeShape := TurnedCells(runtimeShape);
      turns := (turns + 1) % 4;
    }
  }

  /** The loops of rotateItem that build the new shape. */
  method TurnedCells(shape: Shape) returns (newShape: Shape)
    ensures newShape == Rotate(shape)
  {
    newShape := [];
    var n := 0;
    while n < |shape|
      invariant 0 <= n <= |shape| && |newShape| == n
      invariant forall i | 0 <= i < n :: newShape[i] == Turn(shape[i])
    {
      newShape := newShape + [Cell(-shape[n].y, shape[n].x)];
      n := n + 1;
    }
    assert newShape == TurnAll(shape);
    var d := Minima(newShape);
    MinimaAreUnique(newShape, d.x);
    MinimaAreUnique(newShape, d.y);
    ghost var turned := newShape;
    n := 0;
    while n < |newShape|
      invariant 0 <= n <= |newShape| == |turned|
      invariant forall i | 0 <= i < |turned| :: newShape[i] == if i < n then turned[i].Minus(d) else turned[i]
    {
      newShape := newShape[n := newShape[n].Minus(d)];
      n := n + 1;
    }
    assert newShape == Shift(turned, d);
  }

  /** The loop that finds both running minima. */
  method Minima(s: Shape) returns (d: Cell)
    ensures IsMinX(s, d.x) && IsMinY(s, d.y)
  {
    var minX, minY := 0, 0;
    var n := 0;
    while n < |s|
      invariant 0 <= n <= |s|
      invariant IsMinX(s[..n], minX) && IsMinY(s[..n], minY)
    {
      assert s[..n + 1][n] == s[n] && forall i | 0 <= i < n :: s[..n + 1][i] == s[..n][i];
      if s[n].x < minX { minX := s[n].x; }
      if s[n].y < minY { minY := s[n].y; }
      n := n + 1;
    }
    assert s[..n] == s;
    d := Cell(minX, minY);
  }

  ghost function Area(a: array2<Item?>): set<Cell> {
    Rect(a.Length0, a.Length1)
  }

  /** The array as a map from occupied cells to items. */
  ghost function Contents(a: array2<Item?>): Grid<Item>
    reads a
  {
    map c | c in Area(a) && a[c.y, c.x] != null :: a[c.y, c.x]
  }

  ghost function Only(i: Item?): set<Item> {
    if i == null then {} else {i}
  }

  method IsSpaceAvailableInGrid(data: array2<Item?>, origin: Cell, shape: Shape, ignoreItem: Item?) returns (ok: bool)
    ensures ok <==> FitsAt(Contents(data), Area(data), shape, origin, Only(ignoreItem))
  {
    var n := 0;
    while n < |shape|
      invariant 0 <= n <= |shape|
      invariant forall i | 0 <= i < n ::
        var c := origin.Plus(shape[i]);
        c in Area(data) && (data[c.y, c.x] == null || data[c.y, c.x] == ignoreItem)
    {
      var target := origin.Plus(shape[n]);
      assert target in Footprint(shape, origin);
      if target.x < 0 || target.x >= data.Length1 || target.y < 0 || target.y >= data.Length0 {
        return false;
      }
      var existing := data[target.y, target.x];
      if existing != null && existing != ignoreItem {
        assert target in Contents(data);
        return false;
      }
      n := n + 1;
    }
    return true;
  }

  /** Write an item on every cell of its footprint that exists. */
  method Write(data: array2<Item?>, item: Item, shape: Shape, origin: Cell)
    modifies data
    ensures Contents(data) == Put(old(Contents(data)), Footprint(shape, origin) * Area(data), item)
  {
    ghost var before := Contents(data);
    var n := 0;
    PutNothing(before, shape, origin, Area(data), item);
    while n < |shape|
      invariant 0 <= n <= |shape|
      invariant Contents(data) == Put(before, Footprint(shape[..n], origin) * Area(data), item)
    {
      PutOneMore(before, shape, n, origin, Area(data), item);
      var c := origin.Plus(shape[n]);
      if c.y >= 0 && c.y < data.Length0 && c.x >= 0 && c.x < data.Length1 {
        WriteCell(data, c, item);
      }
      n := n + 1;
    }
    assert shape[..n] == shape;
  }

  method WriteCell(data: array2<Item?>, c: Cell, item: Item)
    requires c in Area(data)
    modifies data
    ensures Contents(data) == old(Contents(data))[c := item]
  {
    data[c.y, c.x] := item;
  }

  lemma PutNothing<I>(g: Grid<I>, shape: Shape, origin: Cell, area: set<Cell>, i: I)
    ensures Put(g, Footprint(shape[..0], origin) * area, i) == g
  {
  }

  lemma PutOneMore<I>(g: Grid<I>, shape: Shape, n: nat, origin: Cell, area: set<Cell>, i: I)
    requires n < |shape|
    ensures var c, done := origin.Plus(shape[n]), Put(g, Footprint(shape[..n], origin) * area, i);
      Put(g, Footprint(shape[..n + 1], origin) * area, i) == if c in area then done[c := i] else done
  {
    FootprintGrows(shape[..n + 1], origin);
    assert shape[..n + 1][..n] == shape[..n];
  }

  /** Clear every cell that refers to the item. */
  method Erase(data: array2<Item?>, item: Item)
    modifies data
    ensures Contents(data) == Without(old(Contents(data)), item)
  {
    ghost var before := Contents(data);
    for r := 0 to data.Length0
      invariant forall i, j | 0 <= i < data.Length0 && 0 <= j < data.Length1 ::
        data[i, j] == if i < r && old(data[i, j]) == item then null else old(data[i, j])
    {
      for c := 0 to data.Length1
        invariant forall i, j | 0 <= i < data.Length0 && 0 <= j < data.Length1 ::
          data[i, j] == if (i < r || (i == r && j < c)) && old(data[i, j]) == item then null else old(data[i, j])
      {
        if data[r, c] == item {
          data[r, c] := null;
        }
      }
    }
  }

  /** Row by row, left to right, the first origin that fits. */
  method FindSpace(data: array2<Item?>, shape: Shape, ignoreItem: Item?) returns (found: Option<Cell>)
    ensures IsFirstFit(Contents(data), Area(data), shape, Only(ignoreItem), found)
  {
    ghost var g, area, only := Contents(data), Area(data), Only(ignoreItem);
    ghost var fits := (c: Cell) => FitsAt(g, area, shape, c, only);
    for r := 0 to data.Length0
      invariant forall c | c in area && c.y < r :: !fits(c)
    {
      for col := 0 to data.Length1
        invariant forall c | c in area && Before(c, Cell(col, r)) :: !fits(c)
      {
        var ok := IsSpaceAvailableInGrid(data, Cell(col, r), shape, ignoreItem);
        assert fits(Cell(col, r)) <==> ok;
        if ok {
          return Some(Cell(col, r));
        }
        forall c | c in area && Before(c, Cell(col + 1, r)) ensures !fits(c) {
          assert Before(c, Cell(col, r)) || c == Cell(col, r);
        }
      }
    }
    return None;
  }

  /** Whether the item is on the grid, found by scanning. */
  method Has(data: array2<Item?>, item: Item) returns (has: bool)
    ensures has <==> CellsOf(Contents(data), item) != {}
  {
    for r := 0 to data.Length0
      invariant forall c | c in CellsOf(Contents(data), item) :: c.y >= r
    {
      for col := 0 to data.Length1
        invariant forall c | c in CellsOf(Contents(data), item) :: !Before(c, Cell(col, r))
      {
        if data[r, col] == item {
          assert Cell(col, r) in CellsOf(Contents(data), item);
          return true;
        }
      }
    }
    assert CellsOf(Contents(data), item) == {};
    return false;
  }

  /* Lists of the items a grid shows */

  ghost predicate NoRepeats<T>(s: seq<T>) {
    forall i, j | 0 <= i < j < |s| :: s[i] != s[j]
  }

  ghost function Shown<I>(g: Grid<I>): set<I> {
    set c | c in g :: g[c]
  }

  lemma ShownIff<I>(g: Grid<I>, i: I)
    ensures i in Shown(g) <==> CellsOf(g, i) != {}
  {
    if i in Shown(g) {
      var c :| c in g && g[c] == i;
      assert c in CellsOf(g, i);
    }
    if CellsOf(g, i) != {} {
      var c :| c in CellsOf(g, i);
    }
  }

  /** Reading the grid row by row, left to right, one comes to `a` before any cell of `b`. */
  ghost predicate SeenBefore<I>(g: Grid<I>, a: I, b: I) {
    exists c | c in g && g[c] == a :: forall c' | c' in g && g[c'] == b :: Before(c, c')
  }

  ghost predicate InReadingOrder<I>(g: Grid<I>, items: seq<I>, from: nat) {
    forall k, l | from <= k < l < |items| :: SeenBefore(g, items[k], items[l])
  }

  ghost predicate MetBefore<I>(g: Grid<I>, i: I, cur: Cell) {
    exists c | c in g && Before(c, cur) :: g[c] == i
  }

  /** How far a scan has come that has reached `cur` and has appended to the items before `from`. */
  ghost predicate Collected<I>(g: Grid<I>, items: seq<I>, from: nat, cur: Cell) {
    && (forall c | c in g && Before(c, cur) :: g[c] in items)
    && (forall k | from <= k < |items| :: MetBefore(g, items[k], cur))
    && InReadingOrder(g, items, from)
  }

  lemma CollectedNothing<I>(g: Grid<I>, items: seq<I>)
    requires forall c | c in g :: c.x >= 0 && c.y >= 0
    ensures Collected(g, items, |items|, Cell(0, 0))
  {
  }

  /** The scan moves on over the cells from `cur` up to `next`, of which the grid has at most `cur`. */
  lemma CollectedOnwards<I>(g: Grid<I>, items: seq<I>, from: nat, cur: Cell, next: Cell)
    requires Collected(g, items, from, cur) && (cur in g ==> g[cur] in items)
    requires forall c | c in g :: Before(c, next) <==> Before(c, cur) || c == cur
    ensures Collected(g, items, from, next)
  {
    forall k | from <= k < |items| ensures MetBefore(g, items[k], next) {
      assert MetBefore(g, items[k], cur);
      var c :| c in g && Before(c, cur) && g[c] == items[k];
    }
  }

  lemma CollectedNewcomer<I>(g: Grid<I>, items: seq<I>, from: nat, cur: Cell, next: Cell)
    requires Collected(g, items, from, cur) && cur in g && g[cur] !in items
    requires forall c | c in g :: Before(c, next) <==> Before(c, cur) || c == cur
    ensures Collected(g, items + [g[cur]], from, next)
  {
    var items' := items + [g[cur]];
    forall k | from <= k < |items'| ensures MetBefore(g, items'[k], next) {
      if k < |items| {
        assert MetBefore(g, items[k], cur);
        var c :| c in g && Before(c, cur) && g[c] == items[k];
      }
    }
    forall k | from <= k < |items| ensures SeenBefore(g, items[k], g[cur]) {
      assert MetBefore(g, items[k], cur);
      var c :| c in g && Before(c, cur) && g[c] == items[k];
      assert forall c' | c' in g && g[c'] == g[cur] :: !Before(c', cur) && Before(c, c');
    }
  }

  /** Scan a grid and append every item not met before. */
  method Collect(data: array2<Item?>, already: seq<Item>) returns (items: seq<Item>)
    requires NoRepeats(already)
    ensures NoRepeats(items) && already <= items
    ensures Boosts.Elements(items) == Boosts.Elements(already) + Shown(Contents(data))
    ensures InReadingOrder(Contents(data), items, |already|)
  {
    items := already;
    ghost var g := Contents(data);
    CollectedNothing(g, items);
    for r := 0 to data.Length0
      invariant NoRepeats(items) && already <= items
      invariant forall i | i in items :: i in already || i in Shown(g)
      invariant Collected(g, items, |already|, Cell(0, r))
    {
      for col := 0 to data.Length1
        invariant NoRepeats(items) && already <= items
        invariant forall i | i in items :: i in already || i in Shown(g)
        invariant Collected(g, items, |already|, Cell(col, r))
      {
        var it := data[r, col];
        ghost var cur, next := Cell(col, r), Cell(col + 1, r);
        if it != null && it !in items {
          assert cur in g && g[cur] == it;
          CollectedNewcomer(g, items, |already|, cur, next);
          items := items + [it];
        } else {
          CollectedOnwards(g, items, |already|, cur, next);
        }
      }
      CollectedOnwards(g, items, |already|, Cell(data.Length1, r), Cell(0, r + 1));
    }
    assert forall c | c in g :: g[c] in items;
  }
}
