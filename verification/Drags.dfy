/** Dragging an item from one container to another: place at the target first, then clear the source. */
module Drags {
  import opened Geometry
  import opened Shapes
  import opened Bags
  import opened GridArrays
  import opened Backpacks

  class DragCoordinator {
    var draggedItem: Item?
    var sourceContainer: Container?

    constructor ()
      ensures draggedItem == null && sourceContainer == null
    {
      draggedItem, sourceContainer := null, null;
    }

    method BeginDrag(item: Item, source: Container?)
      modifies this
      ensures draggedItem == item && sourceContainer == source
    {
      draggedItem, sourceContainer := item, source;
    }

    method EndDrag()
      modifies this
      ensures draggedItem == null && sourceContainer == null
    {
      draggedItem, sourceContainer := null, null;
    }

    /** All of a successful transfer or none of it. Only a backpack has an insurance grid to ask for. It goes through
        exactly if every cell of the item's footprint exists on the grid asked for and is free or the item's own. Then
        nobody else moves, the target is well formed unless it is a backpack that shows the item outside its new
        footprint, and, if the source held the item, the two containers have made the step of a legal drag. */
    method Transfer(target: Container?, gridPos: Cell, isSpecial: bool) returns (ok: bool)
      requires target != null ==> target.Valid()
      requires sourceContainer != null ==> sourceContainer.Valid()
      requires target != null && sourceContainer != null && target != sourceContainer ==>
        Grids(target) !! Grids(sourceContainer)
      modifies this, (if draggedItem == null then {} else {draggedItem})`gridPos
      modifies if target == null then {} else {target} + Grids(target)
      modifies if sourceContainer == null then {} else {sourceContainer} + Grids(sourceContainer)
      ensures ok <==>
        old(draggedItem != null && target != null && target.Accepts(draggedItem, gridPos, isSpecial))
      ensures ok <==>
        && old(draggedItem) != null && target != null
        && var i := old(draggedItem);
           CanPlace(target.d, old(target.View()), i, i.runtimeShape, gridPos, isSpecial && !target.loot)
      ensures !ok ==>
        && unchanged(this)
        && (target != null ==> target.View() == old(target.View()))
        && (sourceContainer != null ==> sourceContainer.View() == old(sourceContainer.View()))
      ensures ok ==> draggedItem == null && sourceContainer == null
      ensures ok ==>
        var i := old(draggedItem);
        target.View() == Lay(target.loot, target.d, old(target.View()), i, i.runtimeShape, gridPos,
                             isSpecial && !target.loot)
      ensures ok && old(sourceContainer) != null && old(sourceContainer) != target ==>
        old(sourceContainer).View() == Remove(old(sourceContainer.View()), old(draggedItem))
      ensures ok && OkBut(target.d, old(target.View()), old(draggedItem)) ==>
        var i, b, special := old(draggedItem), old(target.View()), isSpecial && !target.loot;
        && OthersUntouched(b, target.View(), i) && i.gridPos == gridPos
        && Footprint(i.runtimeShape, gridPos)
           <= CellsOf(if special then Contents(target.specialGridData) else Contents(target.gridData), i)
        && (Ok(target.d, target.View()) <==>
              target.loot || (CellsOf(b.Side(special), i) <= Footprint(i.runtimeShape, gridPos)
                              && CellsOf(b.Side(!special), i) == {}))
      ensures ok && old(sourceContainer) != null && old(draggedItem) in old(sourceContainer.items) ==>
        var source, i := old(sourceContainer), old(draggedItem);
        var g := Drag(i, i.runtimeShape, source, target, gridPos, isSpecial && !target.loot);
        && Legal(old(WorldOf(sourceContainer, target)), g)
        && WorldOf(source, target) == After(old(WorldOf(sourceContainer, target)), g)
    {
      if draggedItem != null && target != null {
        target.AcceptsIffCanPlace(draggedItem, gridPos, isSpecial);
      }
      ghost var item, source := draggedItem, sourceContainer;
      ghost var s := if source == null then NOWHERE else PlaceOf(source);
      ghost var t := if target == null then NOWHERE else PlaceOf(target);
      ok := Transact(target, gridPos, isSpecial);
      if ok && OkBut(target.d, old(target.View()), item) {
        TransferKeepsOkIff(target.loot, target.d, old(target.View()), item, item.runtimeShape, gridPos,
                           isSpecial && !target.loot);
      }
      if ok && source != null && item in old(sourceContainer.items) {
        TransferIsDrag(source, target, s, t, PlaceOf(source), PlaceOf(target),
                       Drag(item, item.runtimeShape, source, target, gridPos, isSpecial && !target.loot));
      }
    }

    method Transact(target: Container?, gridPos: Cell, isSpecial: bool) returns (ok: bool)
      requires target != null ==> target.Valid()
      requires sourceContainer != null ==> sourceContainer.Valid()
      requires target != null && sourceContainer != null && target != sourceContainer ==>
        Grids(target) !! Grids(sourceContainer)
      modifies this, (if draggedItem == null then {} else {draggedItem})`gridPos
      modifies if target == null then {} else {target} + Grids(target)
      modifies if sourceContainer == null then {} else {sourceContainer} + Grids(sourceContainer)
      ensures ok <==>
        old(draggedItem != null && target != null && target.Accepts(draggedItem, gridPos, isSpecial))
      ensures !ok ==>
        && unchanged(this)
        && (target != null ==> target.View() == old(target.View()))
        && (sourceContainer != null ==> sourceContainer.View() == old(sourceContainer.View()))
      ensures ok ==> draggedItem == null && sourceContainer == null
      ensures ok ==>
        var i := old(draggedItem);
        target.View() == Lay(target.loot, target.d, old(target.View()), i, i.runtimeShape, gridPos,
                             isSpecial && !target.loot)
      ensures ok && old(sourceContainer) != null && old(sourceContainer) != target ==>
        old(sourceContainer).View() == Remove(old(sourceContainer.View()), old(draggedItem))
    {
      if draggedItem == null || target == null {
        return false;
      }
      var item, special := draggedItem, isSpecial && !target.loot;
      var canPlace := target.CanPlaceItem(item, gridPos, isSpecial);
      if !canPlace {
        return false;
      }
      Commit(target, sourceContainer, item, gridPos, special);
      ghost var b := target.View();
      EndDrag();
      assert target.View() == b;
      return true;
    }
  }

  /** Place on the target, then clear the source, if there is one. */
  method Commit(target: Container, source: Container?, item: Item, gridPos: Cell, special: bool)
    requires target.Valid() && (special ==> !target.loot) && (source != null ==> source.Valid())
    requires source != null && target != source ==> Grids(target) !! Grids(source)
    modifies target, Grids(target), item`gridPos
    modifies if source == null then {} else {source} + Grids(source)
    ensures target.View() == Lay(target.loot, target.d, old(target.View()), item, item.runtimeShape, gridPos, special)
    ensures source != null && source != target ==> source.View() == Remove(old(source.View()), item)
  {
    if source == null {
      PlaceOn(target, item, gridPos, special);
    } else if source == target {
      PlaceOn(target, item, gridPos, special);
      ClearAllButPlaced(target, item, gridPos);
    } else {
      MoveAcross(target, source, item, gridPos, special);
    }
  }

  method PlaceOn(target: Container, item: Item, gridPos: Cell, special: bool)
    requires target.Valid() && (special ==> !target.loot)
    modifies target, Grids(target), item`gridPos
    ensures target.View() == Lay(target.loot, target.d, old(target.View()), item, item.runtimeShape, gridPos, special)
    ensures item in target.items && item.gridPos == gridPos
  {
    if special {
      target.PlaceItemInSpecial(item, gridPos);
    } else {
      target.PlaceItem(item, gridPos);
    }
    assert target.View().info[item] == Info(item.runtimeShape, gridPos);
  }

  method MoveAcross(target: Container, source: Container, item: Item, gridPos: Cell, special: bool)
    requires target.Valid() && source.Valid() && (special ==> !target.loot)
    requires target != source && Grids(target) !! Grids(source)
    modifies target, source, Grids(target), Grids(source), item`gridPos
    ensures target.View() == Lay(target.loot, target.d, old(target.View()), item, item.runtimeShape, gridPos, special)
    ensures source.View() == Remove(old(source.View()), item)
  {
    PlaceElsewhere(target, source, item, gridPos, special);
    source.RemoveItem(item);
  }

  /** Placing on the target changes nothing at the source but what it knows of the item's own position. */
  method PlaceElsewhere(target: Container, source: Container, item: Item, gridPos: Cell, special: bool)
    requires target.Valid() && source.Valid() && (special ==> !target.loot)
    requires target != source && Grids(target) !! Grids(source)
    modifies target, Grids(target), item`gridPos
    ensures target.View() == Lay(target.loot, target.d, old(target.View()), item, item.runtimeShape, gridPos, special)
    ensures Remove(source.View(), item) == Remove(old(source.View()), item)
  {
    ghost var b := source.View();
    PlaceOn(target, item, gridPos, special);
    assert Contents(source.gridData) == b.main;
    assert Contents(source.specialGridData) == b.special;
    assert forall j | j in source.items && j != item ::
      j.runtimeShape == old(j.runtimeShape) && j.gridPos == old(j.gridPos);
    RemoveForgets(b, source.View(), item);
  }

  /** The branch for a move inside one container: note every cell that refers to the item, clear them all, write the
      noted ones again. The cells noted include the old ones, so nothing has been cleared. */
  method ClearAllButPlaced(container: Container, item: Item, gridPos: Cell)
    requires container.Valid() && item in container.items && item.gridPos == gridPos
    modifies container, Grids(container), item`gridPos
    ensures container.View() == old(container.View())
  {
    ghost var b := container.View();
    var newCells := CellsHolding(container.gridData, item);
    var newSpecialCells := CellsHolding(container.specialGridData, item);
    container.RemoveItem(item);
    WriteCells(container.gridData, newCells, item);
    WriteCells(container.specialGridData, newSpecialCells, item);
    PutBack(b.main, newCells, item);
    PutBack(b.special, newSpecialCells, item);
    assert Contents(container.gridData) == b.main && Contents(container.specialGridData) == b.special;
    item.gridPos := gridPos;
    container.items := container.items + {item};
    assert container.Infos() == b.info;
  }

  ghost function Grids(c: Container): set<object> {
    {c.gridData, c.specialGridData}
  }

  ghost predicate Lists(s: seq<Cell>, all: set<Cell>) {
    forall c :: c in s <==> c in all
  }

  lemma PutBack<I>(g: Grid<I>, cells: seq<Cell>, i: I)
    requires Lists(cells, CellsOf(g, i))
    ensures Put(Without(g, i), Listed(cells), i) == g
  {
    assert Listed(cells) == CellsOf(g, i);
  }

  ghost function Listed(cells: seq<Cell>): set<Cell> {
    set c | c in cells
  }

  lemma RemoveForgets<I>(b: Bag<I>, b': Bag<I>, i: I)
    requires b'.main == b.main && b'.special == b.special && b'.info.Keys == b.info.Keys
    requires forall j | j in b.info && j != i :: b'.info[j] == b.info[j]
    ensures Remove(b', i) == Remove(b, i)
  {
  }

  method CellsHolding(data: array2<Item?>, item: Item) returns (cells: seq<Cell>)
    ensures Lists(cells, CellsOf(Contents(data), item))
  {
    cells := [];
    for r := 0 to data.Length0
      invariant forall c :: c in cells <==> c in CellsOf(Contents(data), item) && c.y < r
    {
      for col := 0 to data.Length1
        invariant forall c :: c in cells <==> c in CellsOf(Contents(data), item) && Before(c, Cell(col, r))
      {
        if data[r, col] == item {
          cells := cells + [Cell(col, r)];
        }
      }
    }
  }

  method WriteCells(data: array2<Item?>, cells: seq<Cell>, item: Item)
    requires forall c | c in cells :: c in Area(data)
    modifies data
    ensures Contents(data) == Put(old(Contents(data)), Listed(cells), item)
  {
    var n := 0;
    while n < |cells|
      invariant 0 <= n <= |cells|
      invariant forall i, j | 0 <= i < data.Length0 && 0 <= j < data.Length1 ::
        data[i, j] == if Cell(j, i) in cells[..n] then item else old(data[i, j])
    {
      var c := cells[n];
      assert c in Area(data);
      data[c.y, c.x] := item;
      assert cells[..n + 1] == cells[..n] + [cells[n]];
      n := n + 1;
    }
    assert cells[..n] == cells;
  }

  /* Conservation */

  /** What a successful transfer makes of the target is well formed unless the target is a backpack that still shows
      the item outside its new footprint. */
  lemma TransferKeepsOkIff<I>(loot: bool, d: Dims, b: Bag<I>, i: I, shape: Shape, origin: Cell, special: bool)
    requires OkBut(d, b, i) && CanPlace(d, b, i, shape, origin, special)
    ensures Ok(d, Lay(loot, d, b, i, shape, origin, special))
       <==> loot || (CellsOf(b.Side(special), i) <= Footprint(shape, origin) && CellsOf(b.Side(!special), i) == {})
    ensures var b' := Lay(loot, d, b, i, shape, origin, special);
      && OthersUntouched(b, b', i) && i in b'.info && b'.info[i].shape == shape && b'.info[i].pos == origin
      && CellsOf(b'.Side(special), i)
         == (if loot then {} else CellsOf(b.Side(special), i)) + Footprint(shape, origin)
      && CellsOf(b'.Side(!special), i) == if loot then {} else CellsOf(b.Side(!special), i)
  {
    if loot {
      RemoveKeepsOk(d, b, i);
      var b1 := Remove(b, i);
      assert forall c | c in b1.Side(special) :: c in b.Side(special) && b.Side(special)[c] == b1.Side(special)[c];
      PlaceNewKeepsOk(d, b1, i, shape, origin, special);
    } else {
      PlaceAgainKeepsOkIff(d, b, i, shape, origin, special);
      PlaceEffect(d, b, i, shape, origin, special);
    }
  }

  /** Between two containers nothing is lost and nothing doubled: the target gains exactly the new footprint, the
      source loses exactly the item's cells, however the item was turned on the way, and nobody else moves. */
  lemma TransferAcrossConserves<I>(
    loot: bool, d: Dims, b: Bag<I>, from: Dims, source: Bag<I>, i: I, shape: Shape, origin: Cell, special: bool)
    requires Ok(d, b) && i !in b.info && CanPlace(d, b, i, shape, origin, special) && OkBut(from, source, i)
    ensures var b' := Lay(loot, d, b, i, shape, origin, special);
      && Ok(d, b') && OthersUntouched(b, b', i) && b'.info.Keys == b.info.Keys + {i}
      && Sits(b'.Side(special), b'.Side(!special), i, Footprint(shape, origin))
    ensures var source' := Remove(source, i);
      && Ok(from, source') && OthersUntouched(source, source', i) && source'.info.Keys == source.info.Keys - {i}
      && CellsOf(source'.main, i) == {} && CellsOf(source'.special, i) == {}
  {
    NewcomerIsPlaced(loot, d, b, i, shape, origin, special);
    RemoveKeepsOk(from, source, i);
  }

  lemma NewcomerIsPlaced<I>(loot: bool, d: Dims, b: Bag<I>, i: I, shape: Shape, origin: Cell, special: bool)
    requires Ok(d, b) && i !in b.info && CanPlace(d, b, i, shape, origin, special)
    ensures var b' := Lay(loot, d, b, i, shape, origin, special);
      && Ok(d, b') && OthersUntouched(b, b', i) && b'.info.Keys == b.info.Keys + {i}
      && Sits(b'.Side(special), b'.Side(!special), i, Footprint(shape, origin))
  {
    NothingToRemove(b.main, i);
    NothingToRemove(b.special, i);
    assert Remove(b, i) == b;
    LayKeys(loot, d, b, i, shape, origin, special);
    PlaceNewKeepsOk(d, b, i, shape, origin, special);
  }

  /** A container as a value. */
  datatype Place<I> = Place(d: Dims, loot: bool, bag: Bag<I>)

  /** One finished drag. `shape` is the item's shape when it was let go. */
  datatype Drag<C, I> = Drag(item: I, shape: Shape, source: C, target: C, origin: Cell, isSpecial: bool)

  ghost predicate Holds<C, I>(world: map<C, Place<I>>, c: C, i: I) {
    c in world && i in world[c].bag.info
  }

  /** Every container is well formed and every item is in one container only. */
  ghost predicate Sound<C, I>(world: map<C, Place<I>>) {
    (forall c | c in world :: Ok(world[c].d, world[c].bag)) && Unshared(world)
  }

  ghost predicate Unshared<C, I>(world: map<C, Place<I>>) {
    forall c, c', i | c in world && c' in world && i in world[c].bag.info && i in world[c'].bag.info :: c == c'
  }

  /** The drag starts where the item is and the target accepts it. */
  ghost predicate Legal<C, I>(world: map<C, Place<I>>, g: Drag<C, I>) {
    && Holds(world, g.source, g.item) && g.target in world && (g.isSpecial ==> !world[g.target].loot)
    && CanPlace(world[g.target].d, world[g.target].bag, g.item, g.shape, g.origin, g.isSpecial)
  }

  /** Inside a backpack the old cells are never cleared, so they have to lie under the new ones. */
  ghost predicate Clean<C, I>(world: map<C, Place<I>>, g: Drag<C, I>)
    requires Legal(world, g)
  {
    g.source != g.target || world[g.target].loot ||
    (var b := world[g.target].bag;
     && CellsOf(b.Side(g.isSpecial), g.item) <= Footprint(g.shape, g.origin)
     && CellsOf(b.Side(!g.isSpecial), g.item) == {})
  }

  ghost function After<C, I>(world: map<C, Place<I>>, g: Drag<C, I>): map<C, Place<I>>
    requires Legal(world, g)
  {
    var t, s := world[g.target], world[g.source];
    var placed := world[g.target := t.(bag := Lay(t.loot, t.d, t.bag, g.item, g.shape, g.origin, g.isSpecial))];
    if g.source == g.target then placed else placed[g.source := s.(bag := Remove(s.bag, g.item))]
  }

  /** What a drag makes of each container, and what it leaves alone. */
  lemma AfterAt<C, I>(world: map<C, Place<I>>, g: Drag<C, I>)
    requires Legal(world, g)
    ensures var w, t, s := After(world, g), world[g.target], world[g.source];
      && w.Keys == world.Keys && OthersStay(world, w, g)
      && w[g.target] == t.(bag := Lay(t.loot, t.d, t.bag, g.item, g.shape, g.origin, g.isSpecial))
      && (g.source != g.target ==> w[g.source] == s.(bag := Remove(s.bag, g.item)))
  {
  }

  ghost predicate OthersStay<C, I>(world: map<C, Place<I>>, world': map<C, Place<I>>, g: Drag<C, I>)
    requires world'.Keys == world.Keys
  {
    forall c | c in world && c != g.target && c != g.source :: world'[c] == world[c]
  }

  /** Exactly the dragged item has changed hands: the target holds it, and no other container does. */
  ghost predicate HandsOver<C, I>(world: map<C, Place<I>>, world': map<C, Place<I>>, g: Drag<C, I>) {
    && world'.Keys == world.Keys
    && forall c | c in world ::
      world'[c].bag.info.Keys
      == if c == g.target then world[c].bag.info.Keys + {g.item} else world[c].bag.info.Keys - {g.item}
  }

  lemma HandsOverIfKeysDo<C, I>(world: map<C, Place<I>>, world': map<C, Place<I>>, g: Drag<C, I>)
    requires Unshared(world) && Holds(world, g.source, g.item) && g.target in world
    requires world'.Keys == world.Keys && OthersStay(world, world', g)
    requires world'[g.target].bag.info.Keys == world[g.target].bag.info.Keys + {g.item}
    requires g.source != g.target ==>
      world'[g.source].bag.info.Keys == world[g.source].bag.info.Keys - {g.item}
    ensures HandsOver(world, world', g)
  {
  }

  lemma LayKeys<I>(loot: bool, d: Dims, b: Bag<I>, i: I, shape: Shape, origin: Cell, special: bool)
    ensures Lay(loot, d, b, i, shape, origin, special).info.Keys == b.info.Keys + {i}
  {
  }

  /** Whether clean or not, a drag hands over its own item and nothing else. */
  lemma DragMovesOneItem<C, I>(world: map<C, Place<I>>, g: Drag<C, I>)
    requires Unshared(world) && Legal(world, g)
    ensures Unshared(After(world, g)) && HandsOver(world, After(world, g), g)
  {
    var t, w := world[g.target], After(world, g);
    AfterAt(world, g);
    LayKeys(t.loot, t.d, t.bag, g.item, g.shape, g.origin, g.isSpecial);
    HandsOverIfKeysDo(world, w, g);
    StillUnshared(world, w, g);
  }

  lemma StillUnshared<C, I>(world: map<C, Place<I>>, world': map<C, Place<I>>, g: Drag<C, I>)
    requires Unshared(world) && HandsOver(world, world', g)
    ensures Unshared(world')
  {
    forall c, c', i | c in world' && c' in world' && i in world'[c].bag.info && i in world'[c'].bag.info
      ensures c == c'
    {
      if i != g.item {
        assert Holds(world, c, i) && Holds(world, c', i);
      }
    }
  }

  /** A drag leaves all well exactly if it is clean. */
  lemma DragKeepsSoundIff<C, I>(world: map<C, Place<I>>, g: Drag<C, I>)
    requires Sound(world) && Legal(world, g)
    ensures Sound(After(world, g)) <==> Clean(world, g)
  {
    var t, s, w := world[g.target], world[g.source], After(world, g);
    DragMovesOneItem(world, g);
    AfterAt(world, g);
    SoundIfBothEndsAre(world, w, g);
    if g.source == g.target {
      TransferKeepsOkIff(t.loot, t.d, t.bag, g.item, g.shape, g.origin, g.isSpecial);
    } else {
      TransferAcrossConserves(t.loot, t.d, t.bag, s.d, s.bag, g.item, g.shape, g.origin, g.isSpecial);
    }
  }

  lemma SoundIfBothEndsAre<C, I>(world: map<C, Place<I>>, world': map<C, Place<I>>, g: Drag<C, I>)
    requires Sound(world) && world'.Keys == world.Keys && OthersStay(world, world', g) && Unshared(world')
    requires g.source in world && g.target in world
    ensures Sound(world') <==>
      Ok(world'[g.target].d, world'[g.target].bag) && Ok(world'[g.source].d, world'[g.source].bag)
  {
  }

  /** What a transfer does to source and target is the step of the drag, and the drag is legal. */
  lemma TransferIsDrag<C, I>(source: C, target: C, s: Place<I>, t: Place<I>, s': Place<I>, t': Place<I>, g: Drag<C, I>)
    requires g.source == source && g.target == target && g.item in s.bag.info
    requires source == target ==> s == t && s' == t'
    requires (g.isSpecial ==> !t.loot) && CanPlace(t.d, t.bag, g.item, g.shape, g.origin, g.isSpecial)
    requires t' == t.(bag := Lay(t.loot, t.d, t.bag, g.item, g.shape, g.origin, g.isSpecial))
    requires source != target ==> s' == s.(bag := Remove(s.bag, g.item))
    ensures Legal(map[source := s, target := t], g)
    ensures map[source := s', target := t'] == After(map[source := s, target := t], g)
  {
    var world := map[source := s, target := t];
    assert world[source] == s && world[target] == t;
    AfterAt(world, g);
    TwoPlaces(After(world, g), source, target, s', t');
  }

  lemma TwoPlaces<C, P>(m: map<C, P>, c: C, c': C, p: P, p': P)
    requires m.Keys == {c, c'} && m[c] == p && m[c'] == p'
    ensures map[c := p, c' := p'] == m
  {
  }

  /** The source and the target of a drag as a world of two places, or of one. */
  ghost function WorldOf(source: Container, target: Container): map<Container, Place<Item>>
    reads source, source.gridData, source.specialGridData, source.items
    reads target, target.gridData, target.specialGridData, target.items
  {
    map[source := PlaceOf(source), target := PlaceOf(target)]
  }

  ghost function PlaceOf(c: Container): Place<Item>
    reads c, c.gridData, c.specialGridData, c.items
  {
    Place(c.d, c.loot, c.View())
  }

  ghost const NOWHERE: Place<Item> := Place(Dims(0, 0, 0, 0), false, Bag(map[], map[], map[]))

  ghost function ItemsOf<C, I>(world: map<C, Place<I>>): set<I> {
    set c, i | c in world && i in world[c].bag.info :: i
  }

  /** Over every run of clean drags, items are neither lost nor doubled and every container stays well formed. */
  lemma {:induction false} DragsConserveItems<C, I>(worlds: seq<map<C, Place<I>>>, drags: seq<Drag<C, I>>, k: nat)
    requires |worlds| == |drags| + 1 && Sound(worlds[0]) && k <= |drags|
    requires forall n | 0 <= n < |drags| ::
      Legal(worlds[n], drags[n]) && Clean(worlds[n], drags[n]) && worlds[n + 1] == After(worlds[n], drags[n])
    ensures Sound(worlds[k]) && ItemsOf(worlds[k]) == ItemsOf(worlds[0])
  {
    if k > 0 {
      DragsConserveItems(worlds, drags, k - 1);
      DragKeepsSoundIff(worlds[k - 1], drags[k - 1]);
      DragKeepsItems(worlds[k - 1], drags[k - 1]);
    }
  }

  lemma DragKeepsItems<C, I>(world: map<C, Place<I>>, g: Drag<C, I>)
    requires Sound(world) && Legal(world, g)
    ensures ItemsOf(After(world, g)) == ItemsOf(world)
  {
    DragMovesOneItem(world, g);
    SameItems(world, After(world, g), g);
  }

  lemma SameItems<C, I>(world: map<C, Place<I>>, world': map<C, Place<I>>, g: Drag<C, I>)
    requires HandsOver(world, world', g) && Holds(world, g.source, g.item) && g.target in world
    ensures ItemsOf(world') == ItemsOf(world)
  {
    forall i | i in ItemsOf(world) ensures i in ItemsOf(world') {
      var c :| c in world && i in world[c].bag.info;
      assert Holds(world', if i == g.item then g.target else c, i);
    }
    forall i | i in ItemsOf(world') ensures i in ItemsOf(world) {
      var c :| c in world' && i in world'[c].bag.info;
      assert Holds(world', c, i);
      assert Holds(world, if i == g.item then g.source else c, i);
    }
  }
}
