/** A backpack as a value: two grids of item handles and what is known of each item. */
module Bags {
  import opened Wrappers
  import opened Geometry
  import opened Shapes

  type Grid<I> = map<Cell, I>

  /** Rows and columns of the main grid and of the insurance grid. */
  datatype Dims = Dims(rows: nat, cols: nat, specialRows: nat, specialCols: nat) {
    function Area(special: bool): set<Cell> {
      if special then Rect(specialRows, specialCols) else Rect(rows, cols)
    }
  }

  /** An item's current shape and the origin it was last placed at. */
  datatype Info = Info(shape: Shape, pos: Cell) {
    function Cells(): set<Cell> {
      Footprint(shape, pos)
    }
  }

  datatype Bag<I> = Bag(main: Grid<I>, special: Grid<I>, info: map<I, Info>) {
    function Side(isSpecial: bool): Grid<I> {
      if isSpecial then special else main
    }
  }

  /* Grid operations */

  ghost function CellsOf<I>(g: Grid<I>, i: I): set<Cell> {
    set c | c in g && g[c] == i
  }

  /** Every cell lies in the area and is free or already `ignored`'s. */
  ghost predicate Fits<I>(g: Grid<I>, area: set<Cell>, cells: set<Cell>, ignored: set<I>) {
    forall c | c in cells :: c in area && (c in g ==> g[c] in ignored)
  }

  ghost function Put<I>(g: Grid<I>, cells: set<Cell>, i: I): Grid<I> {
    g + map c | c in cells :: i
  }

  ghost function Without<I>(g: Grid<I>, i: I): Grid<I> {
    map c | c in g && g[c] != i :: g[c]
  }

  /** Row by row, left to right. */
  predicate Before(c: Cell, d: Cell) {
    c.y < d.y || (c.y == d.y && c.x < d.x)
  }

  ghost predicate FitsAt<I>(g: Grid<I>, area: set<Cell>, shape: Shape, origin: Cell, ignored: set<I>) {
    Fits(g, area, Footprint(shape, origin), ignored)
  }

  /** What a search over the area's cells finds: the first origin in reading order that fits, if any does. */
  ghost predicate IsFirstFit<I>(g: Grid<I>, area: set<Cell>, shape: Shape, ignored: set<I>, found: Option<Cell>) {
    match found
    case Some(o) =>
      && o in area && FitsAt(g, area, shape, o, ignored)
      && forall c | c in area && Before(c, o) :: !FitsAt(g, area, shape, c, ignored)
    case None => forall c | c in area :: !FitsAt(g, area, shape, c, ignored)
  }

  /** Fitting, offset by offset: each lands on the grid, on a cell that is free or already an ignored item's. */
  lemma FitsMeans<I>(g: Grid<I>, rows: nat, cols: nat, shape: Shape, o: Cell, ignored: set<I>)
    ensures FitsAt(g, Rect(rows, cols), shape, o, ignored) <==> forall k | 0 <= k < |shape| ::
      var x, y := o.x + shape[k].x, o.y + shape[k].y;
      0 <= x < cols && 0 <= y < rows && (Cell(x, y) in g ==> g[Cell(x, y)] in ignored)
  {
    var cells := Footprint(shape, o);
    assert forall k | 0 <= k < |shape| ::
      o.Plus(shape[k]) == Cell(o.x + shape[k].x, o.y + shape[k].y) && o.Plus(shape[k]) in cells;
    assert forall c | c in cells :: exists k | 0 <= k < |shape| :: o.Plus(shape[k]) == c;
  }

  /** The search finds something if anything on the grid fits, and of all that fits the topmost, and of those the
      leftmost. */
  lemma FirstFitMeans<I>(g: Grid<I>, rows: nat, cols: nat, shape: Shape, ignored: set<I>, found: Option<Cell>)
    requires IsFirstFit(g, Rect(rows, cols), shape, ignored, found)
    ensures found.None? <==>
      forall x, y | 0 <= x < cols && 0 <= y < rows :: !FitsAt(g, Rect(rows, cols), shape, Cell(x, y), ignored)
    ensures found.Some? ==>
      var o := found.value;
      && 0 <= o.x < cols && 0 <= o.y < rows && FitsAt(g, Rect(rows, cols), shape, o, ignored)
      && forall x, y | 0 <= x < cols && 0 <= y < rows && FitsAt(g, Rect(rows, cols), shape, Cell(x, y), ignored) ::
           o.y < y || (o.y == y && o.x <= x)
  {
  }

  /** The origin lies in the shape's bounding box, as it does for every normalized shape. */
  ghost predicate BoxHoldsOrigin(shape: Shape) {
    && (exists i :: 0 <= i < |shape| && shape[i].x <= 0) && (exists i :: 0 <= i < |shape| && shape[i].x >= 0)
    && (exists i :: 0 <= i < |shape| && shape[i].y <= 0) && (exists i :: 0 <= i < |shape| && shape[i].y >= 0)
  }

  ghost predicate LegalOriginsAreSearched(shape: Shape) {
    forall rows: nat, cols: nat, o | Footprint(shape, o) <= Rect(rows, cols) :: o in Rect(rows, cols)
  }

  /** Searching only origins inside the grid misses no legal placement exactly for such shapes. */
  lemma SearchIsCompleteIff(shape: Shape)
    requires shape != []
    ensures LegalOriginsAreSearched(shape) <==> BoxHoldsOrigin(shape)
  {
    if BoxHoldsOrigin(shape) {
      forall rows: nat, cols: nat, o | Footprint(shape, o) <= Rect(rows, cols) ensures o in Rect(rows, cols) {
        InBoxInGrid(shape, rows, cols, o);
      }
    }
    if LegalOriginsAreSearched(shape) {
      var left, right, top, bottom := Extremes(shape);
      var o := Cell(-shape[left].x, -shape[top].y);
      var w, h := shape[right].x - shape[left].x + 1, shape[bottom].y - shape[top].y + 1;
      forall c | c in Footprint(shape, o) ensures c in Rect(h, w) {
        var i :| 0 <= i < |shape| && c == o.Plus(shape[i]);
      }
      assert o in Rect(h, w);
      assert shape[left].x <= 0 <= shape[right].x && shape[top].y <= 0 <= shape[bottom].y;
    }
  }

  lemma InBoxInGrid(shape: Shape, rows: nat, cols: nat, o: Cell)
    requires BoxHoldsOrigin(shape) && Footprint(shape, o) <= Rect(rows, cols)
    ensures o in Rect(rows, cols)
  {
    forall i | 0 <= i < |shape| ensures o.Plus(shape[i]) in Rect(rows, cols) {
      assert o.Plus(shape[i]) in Footprint(shape, o);
    }
    var l :| 0 <= l < |shape| && shape[l].x <= 0;
    var r :| 0 <= r < |shape| && shape[r].x >= 0;
    var t :| 0 <= t < |shape| && shape[t].y <= 0;
    var b :| 0 <= b < |shape| && shape[b].y >= 0;
    assert o.x + shape[l].x >= 0 && o.x + shape[r].x < cols && o.y + shape[t].y >= 0 && o.y + shape[b].y < rows;
  }

  /** When the search gives up on such a shape, there is no room anywhere. */
  lemma NoFirstFitMeansNoRoom<I>(g: Grid<I>, rows: nat, cols: nat, shape: Shape, ignored: set<I>, o: Cell)
    requires BoxHoldsOrigin(shape) && IsFirstFit(g, Rect(rows, cols), shape, ignored, None)
    ensures !FitsAt(g, Rect(rows, cols), shape, o, ignored)
  {
    if FitsAt(g, Rect(rows, cols), shape, o, ignored) {
      InBoxInGrid(shape, rows, cols, o);
    }
  }

  /* The invariant */

  /** The item is on exactly this grid, on exactly these cells. */
  ghost predicate Sits<I>(g: Grid<I>, other: Grid<I>, i: I, cells: set<Cell>) {
    CellsOf(g, i) == cells && CellsOf(other, i) == {}
  }

  ghost predicate WellPlaced<I>(b: Bag<I>, i: I)
    requires i in b.info
  {
    Sits(b.main, b.special, i, b.info[i].Cells()) || Sits(b.special, b.main, i, b.info[i].Cells())
  }

  ghost predicate Ok<I>(d: Dims, b: Bag<I>) {
    && b.main.Keys <= d.Area(false) && b.special.Keys <= d.Area(true)
    && (forall c | c in b.main :: b.main[c] in b.info)
    && (forall c | c in b.special :: b.special[c] in b.info)
    && (forall i | i in b.info :: WellPlaced(b, i))
  }

  /** The same, except that `i` itself may have been turned since it was placed, as it is in the middle of a drag. */
  ghost predicate OkBut<I>(d: Dims, b: Bag<I>, i: I) {
    && b.main.Keys <= d.Area(false) && b.special.Keys <= d.Area(true)
    && (forall c | c in b.main :: b.main[c] in b.info)
    && (forall c | c in b.special :: b.special[c] in b.info)
    && (forall j | j in b.info && j != i :: WellPlaced(b, j))
  }

  /* Backpack operations */

  /** placeItem and placeItemInSpecial: cells outside the grid are skipped, cells in use are overwritten. */
  ghost function PlaceAt<I>(d: Dims, b: Bag<I>, i: I, shape: Shape, origin: Cell, special: bool): Bag<I> {
    var cells := Footprint(shape, origin) * d.Area(special);
    var info := b.info[i := Info(shape, origin)];
    if special then Bag(b.main, Put(b.special, cells, i), info) else Bag(Put(b.main, cells, i), b.special, info)
  }

  ghost function Remove<I>(b: Bag<I>, i: I): Bag<I> {
    Bag(Without(b.main, i), Without(b.special, i), b.info - {i})
  }

  ghost predicate CanPlace<I>(d: Dims, b: Bag<I>, i: I, shape: Shape, origin: Cell, special: bool) {
    FitsAt(b.Side(special), d.Area(special), shape, origin, {i})
  }

  /** Which grid is asked, how large it is, and which cells count as free. */
  lemma CanPlaceMeans<I>(d: Dims, b: Bag<I>, i: I, shape: Shape, o: Cell, special: bool)
    ensures CanPlace(d, b, i, shape, o, special) <==> forall k | 0 <= k < |shape| ::
      var x, y := o.x + shape[k].x, o.y + shape[k].y;
      if special
      then 0 <= x < d.specialCols && 0 <= y < d.specialRows && (Cell(x, y) in b.special ==> b.special[Cell(x, y)] == i)
      else 0 <= x < d.cols && 0 <= y < d.rows && (Cell(x, y) in b.main ==> b.main[Cell(x, y)] == i)
  {
    if special {
      FitsMeans(b.special, d.specialRows, d.specialCols, shape, o, {i});
    } else {
      FitsMeans(b.main, d.rows, d.cols, shape, o, {i});
    }
  }

  /** Everyone but `i` is exactly where it was. */
  ghost predicate OthersUntouched<I>(b: Bag<I>, b': Bag<I>, i: I) {
    && (forall j | j in b.info && j != i :: j in b'.info && b'.info[j] == b.info[j])
    && (forall j | j in b.info && j != i :: CellsOf(b'.main, j) == CellsOf(b.main, j))
    && (forall j | j in b.info && j != i :: CellsOf(b'.special, j) == CellsOf(b.special, j))
  }

  /** A checked placement adds the footprint to the item's cells and takes nothing from anybody. */
  lemma PutWhereItFits<I>(g: Grid<I>, area: set<Cell>, cells: set<Cell>, i: I)
    requires Fits(g, area, cells, {i})
    ensures var g' := Put(g, cells * area, i);
      && g'.Keys == g.Keys + cells
      && CellsOf(g', i) == CellsOf(g, i) + cells
      && forall j | j != i :: CellsOf(g', j) == CellsOf(g, j)
  {
    assert cells * area == cells;
    var g' := Put(g, cells, i);
    forall j | j != i ensures CellsOf(g', j) == CellsOf(g, j) {
      assert forall c | c in cells && c in g :: g[c] == i;
    }
  }

  /** All that a checked placement does, whether or not the item was in the bag before. */
  lemma PlaceEffect<I>(d: Dims, b: Bag<I>, i: I, shape: Shape, origin: Cell, special: bool)
    requires OkBut(d, b, i) && CanPlace(d, b, i, shape, origin, special)
    ensures var b' := PlaceAt(d, b, i, shape, origin, special);
      && OthersUntouched(b, b', i)
      && CellsOf(b'.Side(special), i) == CellsOf(b.Side(special), i) + Footprint(shape, origin)
      && CellsOf(b'.Side(!special), i) == CellsOf(b.Side(!special), i)
      && (Ok(d, b') <==> WellPlaced(b', i))
  {
    var b' := PlaceAt(d, b, i, shape, origin, special);
    PutWhereItFits(b.Side(special), d.Area(special), Footprint(shape, origin), i);
    assert OthersUntouched(b, b', i);
    OkIfEachIsWellPlaced(d, b, b', i);
  }

  /** Only `i` moved, onto cells of the area: all is well exactly if `i` is. */
  lemma OkIfEachIsWellPlaced<I>(d: Dims, b: Bag<I>, b': Bag<I>, i: I)
    requires OkBut(d, b, i) && OthersUntouched(b, b', i) && i in b'.info && b'.info.Keys <= b.info.Keys + {i}
    requires b'.main.Keys <= d.Area(false) && b'.special.Keys <= d.Area(true)
    requires forall c | c in b'.main :: b'.main[c] == i || (c in b.main && b'.main[c] == b.main[c])
    requires forall c | c in b'.special :: b'.special[c] == i || (c in b.special && b'.special[c] == b.special[c])
    ensures Ok(d, b') <==> WellPlaced(b', i)
  {
    OthersStayWellPlaced(d, b, b', i);
  }

  lemma OthersStayWellPlaced<I>(d: Dims, b: Bag<I>, b': Bag<I>, i: I)
    requires OkBut(d, b, i) && OthersUntouched(b, b', i) && b'.info.Keys <= b.info.Keys + {i}
    ensures forall j | j in b'.info && j != i :: WellPlaced(b', j)
  {
    forall j | j in b'.info && j != i ensures WellPlaced(b', j) {
      assert WellPlaced(b, j);
    }
  }

  lemma PlaceNewKeepsOk<I>(d: Dims, b: Bag<I>, i: I, shape: Shape, origin: Cell, special: bool)
    requires Ok(d, b) && i !in b.info && CanPlace(d, b, i, shape, origin, special)
    ensures var b' := PlaceAt(d, b, i, shape, origin, special);
      && Ok(d, b') && OthersUntouched(b, b', i)
      && Sits(b'.Side(special), b'.Side(!special), i, Footprint(shape, origin))
  {
    PlaceEffect(d, b, i, shape, origin, special);
    assert CellsOf(b.main, i) == {} && CellsOf(b.special, i) == {};
  }

  lemma RemoveKeepsOk<I>(d: Dims, b: Bag<I>, i: I)
    requires OkBut(d, b, i)
    ensures var b' := Remove(b, i);
      && Ok(d, b') && OthersUntouched(b, b', i) && CellsOf(b'.main, i) == {} && CellsOf(b'.special, i) == {}
  {
    var b' := Remove(b, i);
    forall j | j in b.info && j != i
      ensures CellsOf(b'.main, j) == CellsOf(b.main, j) && CellsOf(b'.special, j) == CellsOf(b.special, j)
    {
    }
  }

  lemma PutBackOnGrid<I>(g: Grid<I>, area: set<Cell>, i: I)
    requires g.Keys <= area
    ensures Put(Without(g, i), CellsOf(g, i) * area, i) == g
  {
    assert CellsOf(g, i) * area == CellsOf(g, i);
  }

  lemma NothingToRemove<I>(g: Grid<I>, i: I)
    requires CellsOf(g, i) == {}
    ensures Without(g, i) == g
  {
    assert forall c | c in g && g[c] == i :: c in CellsOf(g, i);
  }

  /** Taking an item up and putting it back where it was changes nothing. */
  lemma PutBackRestores<I>(d: Dims, b: Bag<I>, i: I, special: bool)
    requires Ok(d, b) && i in b.info && Sits(b.Side(special), b.Side(!special), i, b.info[i].Cells())
    ensures PlaceAt(d, Remove(b, i), i, b.info[i].shape, b.info[i].pos, special) == b
  {
    PutBackOnGrid(b.Side(special), d.Area(special), i);
    NothingToRemove(b.Side(!special), i);
    assert (b.info - {i})[i := b.info[i]] == b.info;
  }

  /* tryAddItem */

  /** The main grid first, then the insurance grid. */
  ghost predicate IsAddResult<I>(d: Dims, b: Bag<I>, shape: Shape, main: Option<Cell>, special: Option<Cell>) {
    && IsFirstFit(b.main, d.Area(false), shape, {}, main)
    && (main.None? ==> IsFirstFit(b.special, d.Area(true), shape, {}, special))
  }

  ghost function Add<I>(d: Dims, b: Bag<I>, i: I, shape: Shape, main: Option<Cell>, special: Option<Cell>): Bag<I> {
    match main
    case Some(o) => PlaceAt(d, b, i, shape, o, false)
    case None =>
      match special
      case Some(o) => PlaceAt(d, b, i, shape, o, true)
      case None => b
  }

  /** An item new to both grids ends up where its search found room, on exactly its footprint, and taking it out again
      gives both grids back. */
  lemma AddPutsItThere<I>(d: Dims, b: Bag<I>, i: I, shape: Shape, main: Option<Cell>, special: Option<Cell>)
    requires CellsOf(b.main, i) == {} && CellsOf(b.special, i) == {} && IsAddResult(d, b, shape, main, special)
    ensures var b' := Add(d, b, i, shape, main, special);
      && (main.Some? ==>
            && i in b'.info && b'.info[i].shape == shape && b'.info[i].pos == main.value
            && Sits(b'.main, b'.special, i, Footprint(shape, main.value)))
      && (main.None? && special.Some? ==>
            && i in b'.info && b'.info[i].shape == shape && b'.info[i].pos == special.value
            && Sits(b'.special, b'.main, i, Footprint(shape, special.value)))
      && Without(b'.main, i) == b.main && Without(b'.special, i) == b.special && b'.info - {i} == b.info - {i}
      && (main.None? && special.None? ==> b' == b)
  {
    NothingToRemove(b.main, i);
    NothingToRemove(b.special, i);
    if main.Some? {
      PutWhereItFits(b.main, d.Area(false), Footprint(shape, main.value), i);
      TakenOutAgain(b.main, Footprint(shape, main.value) * d.Area(false), i);
    } else if special.Some? {
      PutWhereItFits(b.special, d.Area(true), Footprint(shape, special.value), i);
      TakenOutAgain(b.special, Footprint(shape, special.value) * d.Area(true), i);
    }
  }

  lemma TakenOutAgain<I>(g: Grid<I>, cells: set<Cell>, i: I)
    requires CellsOf(g, i) == {} && forall c | c in cells :: c !in g
    ensures Without(Put(g, cells, i), i) == g
  {
    NothingToRemove(g, i);
  }

  lemma AddKeepsOk<I>(d: Dims, b: Bag<I>, i: I, shape: Shape, main: Option<Cell>, special: Option<Cell>)
    requires Ok(d, b) && i !in b.info && IsAddResult(d, b, shape, main, special)
    ensures Ok(d, Add(d, b, i, shape, main, special)) && OthersUntouched(b, Add(d, b, i, shape, main, special), i)
  {
    if main.Some? {
      PlaceNewKeepsOk(d, b, i, shape, main.value, false);
    } else if special.Some? {
      PlaceNewKeepsOk(d, b, i, shape, special.value, true);
    }
  }

  /** For shapes whose box holds the origin, an item is refused exactly when it fits nowhere in either grid. */
  lemma AddIsComplete<I>(d: Dims, b: Bag<I>, shape: Shape, main: Option<Cell>, special: Option<Cell>)
    requires BoxHoldsOrigin(shape) && IsAddResult(d, b, shape, main, special)
    ensures main.None? <==> forall o :: !FitsAt(b.main, d.Area(false), shape, o, {})
    ensures main.None? && special.None? <==>
      forall o :: !FitsAt(b.main, d.Area(false), shape, o, {}) && !FitsAt(b.special, d.Area(true), shape, o, {})
  {
    if main.None? {
      forall o ensures !FitsAt(b.main, d.Area(false), shape, o, {}) {
        NoFirstFitMeansNoRoom(b.main, d.rows, d.cols, shape, {}, o);
      }
      if special.None? {
        forall o ensures !FitsAt(b.special, d.Area(true), shape, o, {}) {
          NoFirstFitMeansNoRoom(b.special, d.specialRows, d.specialCols, shape, {}, o);
        }
      }
    }
  }

  /* The insurance-slot menu */

  ghost predicate InSpecial<I>(b: Bag<I>, i: I) {
    CellsOf(b.special, i) != {}
  }

  /** `found` is what the search of the other grid finds once the item has been taken up. */
  ghost predicate IsMoveResult<I>(d: Dims, b: Bag<I>, i: I, found: Option<Cell>)
    requires i in b.info
  {
    var to := !InSpecial(b, i);
    IsFirstFit(Remove(b, i).Side(to), d.Area(to), b.info[i].shape, {i}, found)
  }

  ghost function MenuMove<I>(d: Dims, b: Bag<I>, i: I, found: Option<Cell>): Bag<I>
    requires i in b.info
  {
    var to := !InSpecial(b, i);
    match found
    case Some(o) => PlaceAt(d, Remove(b, i), i, b.info[i].shape, o, to)
    case None => PlaceAt(d, Remove(b, i), i, b.info[i].shape, b.info[i].pos, !to)
  }

  /** All or nothing: either the item now sits on the other grid and nobody else moved, or nothing changed at all,
      and then, for a shape whose box holds the origin, because it fits nowhere there. */
  lemma MenuMoveIsAtomic<I>(d: Dims, b: Bag<I>, i: I, found: Option<Cell>)
    requires Ok(d, b) && i in b.info && IsMoveResult(d, b, i, found)
    ensures var to, b' := !InSpecial(b, i), MenuMove(d, b, i, found);
      && Ok(d, b')
      && (found.Some? ==> OthersUntouched(b, b', i)
                          && Sits(b'.Side(to), b'.Side(!to), i, Footprint(b.info[i].shape, found.value)))
      && (found.None? ==> b' == b)
      && (found.None? && BoxHoldsOrigin(b.info[i].shape) ==>
            forall o :: !FitsAt(b.Side(to), d.Area(to), b.info[i].shape, o, {i}))
  {
    var to := !InSpecial(b, i);
    var b1 := Remove(b, i);
    var shape := b.info[i].shape;
    RemoveKeepsOk(d, b, i);
    assert shape != [] ==> b.info[i].pos.Plus(shape[0]) in b.info[i].Cells();
    assert WellPlaced(b, i);
    match found {
      case Some(o) =>
        PlaceNewKeepsOk(d, b1, i, shape, o, to);
      case None =>
        PutBackRestores(d, b, i, !to);
        if BoxHoldsOrigin(shape) {
          forall o ensures !FitsAt(b.Side(to), d.Area(to), shape, o, {i}) {
            var rows := if to then d.specialRows else d.rows;
            var cols := if to then d.specialCols else d.cols;
            NoFirstFitMeansNoRoom(b1.Side(to), rows, cols, shape, {i}, o);
            assert forall c | c in b1.Side(to) :: c in b.Side(to) && b.Side(to)[c] == b1.Side(to)[c];
          }
        }
    }
  }

  /* Whole runs */

  datatype Op<I> =
    | Drop(item: I, shape: Shape, origin: Cell, isSpecial: bool)
    | TryAdd(item: I, shape: Shape, main: Option<Cell>, special: Option<Cell>)
    | Move(item: I, found: Option<Cell>)
    | TurnInHand(item: I)
    | Discard(item: I)

  /** The checks the backpack makes, and the results its searches return. tryAddItem makes a new item; a drop may
      be of an item that is in the backpack already. */
  ghost predicate Checked<I>(d: Dims, b: Bag<I>, op: Op<I>) {
    match op
    case Drop(i, shape, o, special) => CanPlace(d, b, i, shape, o, special)
    case TryAdd(i, shape, main, special) => i !in b.info && IsAddResult(d, b, shape, main, special)
    case Move(i, found) => i in b.info && IsMoveResult(d, b, i, found)
    case TurnInHand(i) => i in b.info
    case Discard(_) => true
  }

  /** A drop leaves none of the item's old cells outside its new footprint. A turn while the item is dragged leaves
      the cells alone, so the turned shape has to cover the same ones. */
  ghost predicate Clean<I>(b: Bag<I>, op: Op<I>) {
    && (op.Drop? ==>
          && CellsOf(b.Side(op.isSpecial), op.item) <= Footprint(op.shape, op.origin)
          && CellsOf(b.Side(!op.isSpecial), op.item) == {})
    && (op.TurnInHand? && op.item in b.info ==> TurnedInfo(b.info[op.item]).Cells() == b.info[op.item].Cells())
  }

  ghost function TurnedInfo(x: Info): Info {
    x.(shape := Rotate(x.shape))
  }

  ghost function Next<I>(d: Dims, b: Bag<I>, op: Op<I>): Bag<I>
    requires Checked(d, b, op)
  {
    match op
    case Drop(i, shape, o, special) => PlaceAt(d, b, i, shape, o, special)
    case TryAdd(i, shape, main, special) => Add(d, b, i, shape, main, special)
    case Move(i, found) => MenuMove(d, b, i, found)
    case TurnInHand(i) => b.(info := b.info[i := TurnedInfo(b.info[i])])
    case Discard(i) => Remove(b, i)
  }

  /** Nobody but the operation's own item moves, and all stays well exactly if the operation is clean. */
  lemma StepKeepsOkIff<I>(d: Dims, b: Bag<I>, op: Op<I>)
    requires Ok(d, b) && Checked(d, b, op)
    ensures Ok(d, Next(d, b, op)) <==> Clean(b, op)
    ensures OthersUntouched(b, Next(d, b, op), op.item)
  {
    match op
    case Drop(i, shape, o, special) =>
      PlaceEffect(d, b, i, shape, o, special);
      PlaceAgainKeepsOkIff(d, b, i, shape, o, special);
    case TryAdd(i, shape, main, special) => AddKeepsOk(d, b, i, shape, main, special);
    case Move(i, found) => MenuMoveIsAtomic(d, b, i, found);
    case TurnInHand(i) => TurnInPlaceKeepsOkIff(d, b, i);
    case Discard(i) => RemoveKeepsOk(d, b, i);
  }

  /* What each operation does for its own item: where it is afterwards, or that it is not there any more */

  lemma DropMeans<I>(d: Dims, b: Bag<I>, i: I, shape: Shape, o: Cell, isSpecial: bool)
    requires Ok(d, b) && Checked(d, b, Drop(i, shape, o, isSpecial))
    ensures var b' := Next(d, b, Drop(i, shape, o, isSpecial));
      && i in b'.info && b'.info[i].shape == shape && b'.info[i].pos == o
      && CellsOf(b'.main, i) == CellsOf(b.main, i) + (if isSpecial then {} else Footprint(shape, o))
      && CellsOf(b'.special, i) == CellsOf(b.special, i) + (if isSpecial then Footprint(shape, o) else {})
  {
    PlaceEffect(d, b, i, shape, o, isSpecial);
  }

  lemma TryAddMeans<I>(d: Dims, b: Bag<I>, i: I, shape: Shape, main: Option<Cell>, special: Option<Cell>)
    requires Ok(d, b) && Checked(d, b, TryAdd(i, shape, main, special))
    ensures var b' := Next(d, b, TryAdd(i, shape, main, special));
      if main.Some? then
        && i in b'.info && b'.info[i].shape == shape && b'.info[i].pos == main.value
        && Sits(b'.main, b'.special, i, Footprint(shape, main.value))
      else if special.Some? then
        && i in b'.info && b'.info[i].shape == shape && b'.info[i].pos == special.value
        && Sits(b'.special, b'.main, i, Footprint(shape, special.value))
      else b' == b
  {
    assert CellsOf(b.main, i) == {} && CellsOf(b.special, i) == {};
    AddPutsItThere(d, b, i, shape, main, special);
  }

  lemma MoveMeans<I>(d: Dims, b: Bag<I>, i: I, found: Option<Cell>)
    requires Ok(d, b) && Checked(d, b, Move(i, found))
    ensures var b' := Next(d, b, Move(i, found));
      if found.None? then b' == b
      else
        && i in b'.info && b'.info[i].shape == b.info[i].shape && b'.info[i].pos == found.value
        && (if CellsOf(b.special, i) == {} then Sits(b'.special, b'.main, i, b'.info[i].Cells())
            else Sits(b'.main, b'.special, i, b'.info[i].Cells()))
  {
    MenuMoveIsAtomic(d, b, i, found);
  }

  lemma TurnAndDiscardMean<I>(d: Dims, b: Bag<I>, i: I)
    requires Ok(d, b)
    ensures i in b.info ==>
      var b' := Next(d, b, TurnInHand(i));
      && b'.main == b.main && b'.special == b.special && i in b'.info
      && b'.info[i].pos == b.info[i].pos && b'.info[i].shape == Rotate(b.info[i].shape)
    ensures var b' := Next(d, b, Discard(i));
      i !in b'.info && CellsOf(b'.main, i) == {} && CellsOf(b'.special, i) == {}
  {
    RemoveKeepsOk(d, b, i);
  }

  /** Only items that are in the bag already can be dropped or turned uncleanly. */
  lemma NewcomersAreClean<I>(d: Dims, b: Bag<I>, op: Op<I>)
    requires Ok(d, b) && op.item !in b.info
    ensures Clean(b, op)
  {
    assert CellsOf(b.main, op.item) == {} && CellsOf(b.special, op.item) == {};
  }

  /** The bags a run goes through, one more than its operations. */
  ghost predicate IsRun<I>(d: Dims, bags: seq<Bag<I>>, ops: seq<Op<I>>) {
    && |bags| == |ops| + 1
    && bags[0] == Bag(map[], map[], map[])
    && forall k | 0 <= k < |ops| :: Checked(d, bags[k], ops[k]) && bags[k + 1] == Next(d, bags[k], ops[k])
  }

  /** After every operation of every run in which drops and turns of items in the bag are clean, each item sits on
      exactly its own cells of exactly one grid, and only the operation's own item has moved. */
  lemma {:induction false} BackpackIsAlwaysOk<I>(d: Dims, bags: seq<Bag<I>>, ops: seq<Op<I>>, k: nat)
    requires IsRun(d, bags, ops) && k <= |ops|
    requires forall n | 0 <= n < |ops| :: ops[n].item in bags[n].info ==> Clean(bags[n], ops[n])
    ensures Ok(d, bags[k])
    ensures k > 0 ==> OthersUntouched(bags[k - 1], bags[k], ops[k - 1].item)
  {
    if k > 0 {
      BackpackIsAlwaysOk(d, bags, ops, k - 1);
      if ops[k - 1].item !in bags[k - 1].info {
        NewcomersAreClean(d, bags[k - 1], ops[k - 1]);
      }
      StepKeepsOkIff(d, bags[k - 1], ops[k - 1]);
    }
  }

  /** The first operation that is not clean ends it: right after it the backpack is no longer well formed. */
  lemma FirstUncleanStepBreaks<I>(d: Dims, bags: seq<Bag<I>>, ops: seq<Op<I>>, k: nat)
    requires IsRun(d, bags, ops) && k < |ops| && !Clean(bags[k], ops[k])
    requires forall n | 0 <= n < k :: Clean(bags[n], ops[n])
    ensures Ok(d, bags[k]) && !Ok(d, bags[k + 1])
  {
    assert forall n | 0 <= n < k :: bags[..k + 1][n] == bags[n] && ops[..k][n] == ops[n];
    BackpackIsAlwaysOk(d, bags[..k + 1], ops[..k], k);
    StepKeepsOkIff(d, bags[k], ops[k]);
  }

  /* Unchecked overwriting */

  /** Placing an item that is already in the bag, as a drop inside the same backpack does before the old cells are
      cleared, keeps the bag well formed exactly when its old cells lie inside the new footprint. */
  lemma PlaceAgainKeepsOkIff<I>(d: Dims, b: Bag<I>, i: I, shape: Shape, origin: Cell, special: bool)
    requires OkBut(d, b, i) && CanPlace(d, b, i, shape, origin, special)
    ensures Ok(d, PlaceAt(d, b, i, shape, origin, special))
       <==> CellsOf(b.Side(special), i) <= Footprint(shape, origin) && CellsOf(b.Side(!special), i) == {}
  {
    PlaceEffect(d, b, i, shape, origin, special);
  }

  /** An item that has not been turned since it was placed can so be dropped cleanly only where it already is. */
  lemma DropInsideOwnBackpackIff<I>(d: Dims, b: Bag<I>, i: I, origin: Cell, special: bool)
    requires Ok(d, b) && i in b.info && b.info[i].shape != [] && CanPlace(d, b, i, b.info[i].shape, origin, special)
    ensures Ok(d, PlaceAt(d, b, i, b.info[i].shape, origin, special))
       <==> special == InSpecial(b, i) && origin == b.info[i].pos
  {
    var shape, pos := b.info[i].shape, b.info[i].pos;
    PlaceAgainKeepsOkIff(d, b, i, shape, origin, special);
    assert pos.Plus(shape[0]) in b.info[i].Cells();
    assert WellPlaced(b, i);
    if special == InSpecial(b, i) && Footprint(shape, pos) <= Footprint(shape, origin) {
      ContainedFootprintIsSamePlace(shape, pos, origin);
    }
  }

  /** Turning an item while it is dragged leaves its cells alone, so if the drag is then abandoned the bag stays
      well formed exactly when the turned shape covers the same cells. */
  lemma TurnInPlaceKeepsOkIff<I>(d: Dims, b: Bag<I>, i: I)
    requires Ok(d, b) && i in b.info
    ensures var b' := b.(info := b.info[i := TurnedInfo(b.info[i])]);
      && OthersUntouched(b, b', i)
      && (Ok(d, b') <==> TurnedInfo(b.info[i]).Cells() == b.info[i].Cells())
  {
    var turned := TurnedInfo(b.info[i]);
    var b' := b.(info := b.info[i := turned]);
    TurnedKeepsSize(b.info[i].shape, 1, 0, b.info[i].pos, b.info[i].pos);
    assert Turned(b.info[i].shape, 1) == turned.shape by { TurnedStep(b.info[i].shape, 0); }
    assert WellPlaced(b, i);
    OthersStayWellPlaced(d, b, b', i);
  }
}
