/** Saving a backpack as a list of entries and loading it back onto empty grids. */
module Layouts {
  import opened Geometry
  import opened Shapes
  import opened Bags

  datatype Entry = Entry(resPath: string, gridPos: Cell, isInsurance: bool, rotated: bool)

  /** An item as a layout sees it. `base` is the shape of the resource it was made from. */
  datatype Piece = Piece(path: string, base: Shape, turns: QuarterTurns, pos: Cell) {
    ghost function Shape(): Shape {
      Turned(base, turns)
    }

    ghost function Cells(): set<Cell> {
      Footprint(Shape(), pos)
    }
  }

  /** is_rotated is a flag: one, two and three quarter turns are saved alike. */
  function EntryOf(p: Piece, isInsurance: bool): Entry {
    Entry(p.path, p.pos, isInsurance, p.turns != 0)
  }

  predicate Saveable(path: string) {
    path != "" && path != "res://"
  }

  /** The resources that still load, with their shapes. */
  type Catalog = map<string, Shape>

  predicate Loads(catalog: Catalog, e: Entry) {
    e.resPath != "" && e.resPath in catalog
  }

  ghost function ReloadedShape(catalog: Catalog, e: Entry): Shape
    requires Loads(catalog, e)
  {
    if e.rotated then Rotate(catalog[e.resPath]) else catalog[e.resPath]
  }

  /** The grid on the given side after loading a layout: every cell is labelled with the entry that won it. */
  ghost function Loaded(d: Dims, catalog: Catalog, layout: seq<Entry>, special: bool): Grid<nat> {
    if layout == [] then map[]
    else
      var n := |layout| - 1;
      var before := Loaded(d, catalog, layout[..n], special);
      var e := layout[n];
      if Loads(catalog, e) && e.isInsurance == special
      then Put(before, Footprint(ReloadedShape(catalog, e), e.gridPos) * d.Area(special), n)
      else before
  }

  lemma LoadedStep(d: Dims, catalog: Catalog, layout: seq<Entry>, n: nat, special: bool)
    requires n < |layout|
    ensures var before, e := Loaded(d, catalog, layout[..n], special), layout[n];
      Loaded(d, catalog, layout[..n + 1], special)
      == if Loads(catalog, e) && e.isInsurance == special
         then Put(before, Footprint(ReloadedShape(catalog, e), e.gridPos) * d.Area(special), n)
         else before
  {
    assert layout[..n + 1][..n] == layout[..n];
  }

  /** The two grids and the pieces on them. */
  datatype Kit<I> = Kit(main: Grid<I>, special: Grid<I>, pieces: map<I, Piece>) {
    function Side(isSpecial: bool): Grid<I> {
      if isSpecial then special else main
    }

    ghost function AsBag(): Bag<I> {
      Bag(main, special, map i | i in pieces :: Info(pieces[i].Shape(), pieces[i].pos))
    }

    /** The items that the scan of both grids meets. */
    ghost predicate Shows(i: I) {
      CellsOf(main, i) != {} || CellsOf(special, i) != {}
    }
  }

  /** `order` lists, once each, the items shown whose path can be saved. */
  ghost predicate IsSaveOrder<I>(kit: Kit<I>, order: seq<I>) {
    && (forall j, k | 0 <= j < k < |order| :: order[j] != order[k])
    && (forall i | i in order :: i in kit.pieces && kit.Shows(i) && Saveable(kit.pieces[i].path))
    && (forall i | i in kit.pieces && kit.Shows(i) && Saveable(kit.pieces[i].path) :: i in order)
  }

  /** What get_backpack_layout_data writes for that order: an item seen on the main grid counts as not insured. */
  ghost function Saved<I>(kit: Kit<I>, order: seq<I>): seq<Entry>
    requires IsSaveOrder(kit, order)
  {
    seq(|order|, k requires 0 <= k < |order| => EntryOf(kit.pieces[order[k]], CellsOf(kit.main, order[k]) == {}))
  }

  /** The loaded grid is the saved one, cell for cell, label `k` standing for the k-th saved item. */
  ghost predicate Rebuilds<I>(loaded: Grid<nat>, g: Grid<I>, order: seq<I>) {
    && loaded.Keys == g.Keys
    && forall c | c in loaded :: loaded[c] < |order| && order[loaded[c]] == g[c]
  }

  /** The item's entry can be read back, and the shape it is read back with covers the cells it was saved on. */
  ghost predicate ReadsBack(catalog: Catalog, p: Piece) {
    && Saveable(p.path) && p.path in catalog
    && Footprint(ReloadedShape(catalog, EntryOf(p, false)), p.pos) == p.Cells()
  }

  /** The catalog never changes a resource's shape, though it may drop resources. */
  ghost predicate StableCatalog<I>(catalog: Catalog, kit: Kit<I>) {
    forall i | i in kit.pieces && kit.pieces[i].path in catalog :: catalog[kit.pieces[i].path] == kit.pieces[i].base
  }

  ghost predicate AllReadBack<I>(catalog: Catalog, kit: Kit<I>) {
    forall i | i in kit.pieces && kit.Shows(i) :: ReadsBack(catalog, kit.pieces[i])
  }

  /** Half a turn and three quarters of one are read back as a quarter turn, which goes unnoticed exactly if the
      shape is as symmetric as the turns that were lost. */
  ghost predicate Survives(base: Shape, turns: QuarterTurns) {
    turns <= 1 || Symmetric(base, turns - 1)
  }

  /** What the item's path, its resource and its turns have to be like. */
  ghost predicate Faithful(catalog: Catalog, p: Piece) {
    Saveable(p.path) && p.path in catalog && Survives(p.base, p.turns)
  }

  /** One item, on its own, is read back onto its cells exactly if its turns survive. */
  lemma ReadsBackIffFaithful(catalog: Catalog, p: Piece)
    requires p.path in catalog ==> catalog[p.path] == p.base
    ensures ReadsBack(catalog, p) <==> Faithful(catalog, p)
  {
    TurnedStep(p.base, 0);
    if p.turns >= 2 && Saveable(p.path) && p.path in catalog {
      SameCellsIffSameFootprint(Rotate(p.base), p.Shape(), p.pos);
      TurnedLikeOnceIff(p.base, p.turns - 1);
    }
  }

  ghost predicate AllFaithful<I>(catalog: Catalog, kit: Kit<I>) {
    forall i | i in kit.pieces && kit.Shows(i) :: Faithful(catalog, kit.pieces[i])
  }

  lemma AllReadBackIffFaithful<I>(catalog: Catalog, kit: Kit<I>)
    requires StableCatalog(catalog, kit)
    ensures AllReadBack(catalog, kit) <==> AllFaithful(catalog, kit)
  {
    forall i | i in kit.pieces ensures ReadsBack(catalog, kit.pieces[i]) <==> Faithful(catalog, kit.pieces[i]) {
      ReadsBackIffFaithful(catalog, kit.pieces[i]);
    }
  }

  /** Saving and loading gives both grids back exactly when every item shown is faithful. */
  lemma RoundTripIff<I>(d: Dims, catalog: Catalog, kit: Kit<I>, order: seq<I>)
    requires Ok(d, kit.AsBag()) && IsSaveOrder(kit, order) && StableCatalog(catalog, kit)
    ensures && Rebuilds(Loaded(d, catalog, Saved(kit, order), false), kit.main, order)
            && Rebuilds(Loaded(d, catalog, Saved(kit, order), true), kit.special, order)
       <==> AllFaithful(catalog, kit)
  {
    AllReadBackIffFaithful(catalog, kit);
    RebuildsIffAllReadBack(d, catalog, kit, order);
  }

  lemma RebuildsIffAllReadBack<I>(d: Dims, catalog: Catalog, kit: Kit<I>, order: seq<I>)
    requires Ok(d, kit.AsBag()) && IsSaveOrder(kit, order) && StableCatalog(catalog, kit)
    ensures && Rebuilds(Loaded(d, catalog, Saved(kit, order), false), kit.main, order)
            && Rebuilds(Loaded(d, catalog, Saved(kit, order), true), kit.special, order)
       <==> AllReadBack(catalog, kit)
  {
    if AllReadBack(catalog, kit) {
      ReadSideRebuilds(d, catalog, kit, order, false);
      ReadSideRebuilds(d, catalog, kit, order, true);
    }
    if Rebuilds(Loaded(d, catalog, Saved(kit, order), false), kit.main, order) {
      RebuiltSideReadsBack(d, catalog, kit, order, false);
    }
    if Rebuilds(Loaded(d, catalog, Saved(kit, order), true), kit.special, order) {
      RebuiltSideReadsBack(d, catalog, kit, order, true);
    }
  }

  lemma RebuiltSideReadsBack<I>(d: Dims, catalog: Catalog, kit: Kit<I>, order: seq<I>, side: bool)
    requires Ok(d, kit.AsBag()) && IsSaveOrder(kit, order) && StableCatalog(catalog, kit)
    requires Rebuilds(Loaded(d, catalog, Saved(kit, order), side), kit.Side(side), order)
    ensures forall i | i in kit.pieces && CellsOf(kit.Side(side), i) != {} :: ReadsBack(catalog, kit.pieces[i])
  {
    forall i | i in kit.pieces && CellsOf(kit.Side(side), i) != {} ensures ReadsBack(catalog, kit.pieces[i]) {
      var c :| c in CellsOf(kit.Side(side), i);
      RebuiltReadsBack(d, catalog, kit, order, side, c);
    }
  }

  lemma ReadSideRebuilds<I>(d: Dims, catalog: Catalog, kit: Kit<I>, order: seq<I>, side: bool)
    requires Ok(d, kit.AsBag()) && IsSaveOrder(kit, order) && AllReadBack(catalog, kit)
    ensures Rebuilds(Loaded(d, catalog, Saved(kit, order), side), kit.Side(side), order)
  {
    var layout := Saved(kit, order);
    forall k | 0 <= k < |order|
      ensures EntryAdds(d, catalog, layout[k], side, CellsOf(kit.Side(side), order[k]))
    {
      ReadEntryAdds(d, catalog, kit, order, k, side);
    }
    LoadingLabels(d, catalog, kit.Side(side), order, layout, |order|, side);
    assert layout[..|order|] == layout;
    forall c | c in kit.Side(side) ensures kit.Side(side)[c] in order {
      ShownIsSaved(d, catalog, kit, order, side, c);
    }
    AllLabelled(Loaded(d, catalog, layout, side), kit.Side(side), order);
  }

  lemma ShownIsSaved<I>(d: Dims, catalog: Catalog, kit: Kit<I>, order: seq<I>, side: bool, c: Cell)
    requires Ok(d, kit.AsBag()) && IsSaveOrder(kit, order) && AllReadBack(catalog, kit) && c in kit.Side(side)
    ensures kit.Side(side)[c] in order
  {
    var i := kit.Side(side)[c];
    assert c in CellsOf(kit.Side(side), i);
    assert i in kit.AsBag().info;
  }

  lemma AllLabelled<I>(loaded: Grid<nat>, g: Grid<I>, order: seq<I>)
    requires Labels(loaded, g, order, |order|) && forall c | c in g :: g[c] in order
    ensures Rebuilds(loaded, g, order)
  {
    assert order[..|order|] == order;
  }

  /** The loaded grid shows exactly the cells of the first `n` items. */
  ghost predicate Labels<I>(loaded: Grid<nat>, g: Grid<I>, order: seq<I>, n: nat)
    requires n <= |order|
  {
    && (forall c :: c in loaded <==> c in g && g[c] in order[..n])
    && (forall c | c in loaded :: loaded[c] < n && order[loaded[c]] == g[c])
  }

  /** The next entry labels all its item's cells, or, if its item has none here, nothing. */
  lemma LabelStep<I>(loaded: Grid<nat>, loaded': Grid<nat>, g: Grid<I>, order: seq<I>, n: nat, here: bool)
    requires n < |order| && Labels(loaded, g, order, n)
    requires if here then loaded' == Put(loaded, CellsOf(g, order[n]), n)
             else loaded' == loaded && CellsOf(g, order[n]) == {}
    ensures Labels(loaded', g, order, n + 1)
  {
    assert order[..n + 1] == order[..n] + [order[n]];
    assert forall c | c in g && g[c] == order[n] :: c in CellsOf(g, order[n]);
  }

  /** How the entry of a piece that reads back is read. */
  lemma ReadEntry(catalog: Catalog, p: Piece, isInsurance: bool)
    requires ReadsBack(catalog, p)
    ensures var e := EntryOf(p, isInsurance);
      Loads(catalog, e) && e.gridPos == p.pos && Footprint(ReloadedShape(catalog, e), p.pos) == p.Cells()
  {
  }

  /** What an entry adds on one side is the given set of cells: all of its item's, or none. */
  ghost predicate EntryAdds(d: Dims, catalog: Catalog, e: Entry, side: bool, cells: set<Cell>) {
    if Loads(catalog, e) && e.isInsurance == side
    then Footprint(ReloadedShape(catalog, e), e.gridPos) * d.Area(side) == cells
    else cells == {}
  }

  lemma ReadEntryAdds<I>(d: Dims, catalog: Catalog, kit: Kit<I>, order: seq<I>, n: nat, side: bool)
    requires Ok(d, kit.AsBag()) && IsSaveOrder(kit, order) && AllReadBack(catalog, kit) && n < |order|
    ensures EntryAdds(d, catalog, Saved(kit, order)[n], side, CellsOf(kit.Side(side), order[n]))
  {
    var i := order[n];
    assert i in order;
    ReadEntry(catalog, kit.pieces[i], CellsOf(kit.main, i) == {});
    SittingCells(d, kit, i);
  }

  lemma {:induction false} LoadingLabels<I>(
    d: Dims, catalog: Catalog, g: Grid<I>, order: seq<I>, layout: seq<Entry>, n: nat, side: bool)
    requires |layout| == |order| && n <= |order|
    requires forall k | 0 <= k < |order| :: EntryAdds(d, catalog, layout[k], side, CellsOf(g, order[k]))
    ensures Labels(Loaded(d, catalog, layout[..n], side), g, order, n)
    decreases n
  {
    if n > 0 {
      LoadingLabels(d, catalog, g, order, layout, n - 1, side);
      LoadedStep(d, catalog, layout, n - 1, side);
      LabelEntry(d, catalog, g, order, layout[n - 1], Loaded(d, catalog, layout[..n - 1], side),
                 Loaded(d, catalog, layout[..n], side), n - 1, side);
    }
  }

  lemma LabelEntry<I>(d: Dims, catalog: Catalog, g: Grid<I>, order: seq<I>, e: Entry, loaded: Grid<nat>,
                      loaded': Grid<nat>, n: nat, side: bool)
    requires n < |order| && Labels(loaded, g, order, n) && EntryAdds(d, catalog, e, side, CellsOf(g, order[n]))
    requires loaded' == if Loads(catalog, e) && e.isInsurance == side
                        then Put(loaded, Footprint(ReloadedShape(catalog, e), e.gridPos) * d.Area(side), n)
                        else loaded
    ensures Labels(loaded', g, order, n + 1)
  {
    LabelStep(loaded, loaded', g, order, n, Loads(catalog, e) && e.isInsurance == side);
  }

  /** A shown item's cells are its piece's, on the side its entry names, and none on the other. */
  lemma SittingCells<I>(d: Dims, kit: Kit<I>, i: I)
    requires Ok(d, kit.AsBag()) && i in kit.pieces && kit.Shows(i)
    ensures var side := CellsOf(kit.main, i) == {};
      && CellsOf(kit.Side(side), i) == kit.pieces[i].Cells() && CellsOf(kit.Side(!side), i) == {}
      && kit.pieces[i].Cells() * d.Area(side) == kit.pieces[i].Cells()
  {
    assert WellPlaced(kit.AsBag(), i);
  }

  /** The entry writes the cell on that side. */
  ghost predicate Writes(d: Dims, catalog: Catalog, e: Entry, side: bool, c: Cell) {
    && e.resPath != "" && e.resPath in catalog && e.isInsurance == side
    && (if side then 0 <= c.x < d.specialCols && 0 <= c.y < d.specialRows else 0 <= c.x < d.cols && 0 <= c.y < d.rows)
    && c in Footprint(if e.rotated then Rotate(catalog[e.resPath]) else catalog[e.resPath], e.gridPos)
  }

  /** Of all entries that write a cell, in the order of the list, the last one wins it. */
  lemma {:induction false} LastWriterWins(d: Dims, catalog: Catalog, layout: seq<Entry>, side: bool, c: Cell)
    ensures var g := Loaded(d, catalog, layout, side);
      && (c in g <==> exists k | 0 <= k < |layout| :: Writes(d, catalog, layout[k], side, c))
      && (c in g ==> g[c] < |layout| && Writes(d, catalog, layout[g[c]], side, c)
                     && forall k | g[c] < k < |layout| :: !Writes(d, catalog, layout[k], side, c))
  {
    if layout != [] {
      var n := |layout| - 1;
      LastWriterWins(d, catalog, layout[..n], side, c);
      LoadedStep(d, catalog, layout, n, side);
      assert layout[..n + 1] == layout && forall k | 0 <= k < n :: layout[..n][k] == layout[k];
    }
  }

  /** A label can only come from its own entry's footprint. */
  lemma {:induction false} LabelsComeFromFootprints(d: Dims, catalog: Catalog, layout: seq<Entry>, side: bool, c: Cell)
    requires c in Loaded(d, catalog, layout, side)
    ensures var k := Loaded(d, catalog, layout, side)[c];
      && k < |layout| && Loads(catalog, layout[k]) && layout[k].isInsurance == side
      && c in Footprint(ReloadedShape(catalog, layout[k]), layout[k].gridPos)
  {
    var n := |layout| - 1;
    if c in Loaded(d, catalog, layout[..n], side)
       && Loaded(d, catalog, layout, side)[c] == Loaded(d, catalog, layout[..n], side)[c] {
      LabelsComeFromFootprints(d, catalog, layout[..n], side, c);
    }
  }

  lemma RebuiltReadsBack<I>(d: Dims, catalog: Catalog, kit: Kit<I>, order: seq<I>, side: bool, c: Cell)
    requires Ok(d, kit.AsBag()) && IsSaveOrder(kit, order) && StableCatalog(catalog, kit)
    requires Rebuilds(Loaded(d, catalog, Saved(kit, order), side), kit.Side(side), order)
    requires c in kit.Side(side) && kit.Side(side)[c] in kit.pieces
    ensures ReadsBack(catalog, kit.pieces[kit.Side(side)[c]])
  {
    var g, layout := kit.Side(side), Saved(kit, order);
    var loaded := Loaded(d, catalog, layout, side);
    var i, k := g[c], loaded[c];
    var p, e := kit.pieces[i], layout[k];
    assert order[k] == i;
    LabelsComeFromFootprints(d, catalog, layout, side, c);
    var again := Footprint(ReloadedShape(catalog, e), p.pos);
    assert c in CellsOf(g, i);
    SittingCells(d, kit, i);
    forall c' | c' in p.Cells() ensures c' in again {
      assert c' in CellsOf(g, i);
      LabelsComeFromFootprints(d, catalog, layout, side, c');
      assert order[loaded[c']] == i;
    }
    TurnedKeepsSize(p.base, p.turns, if e.rotated then 1 else 0, p.pos, p.pos);
    TurnedStep(p.base, 0);
    SubsetOfSameSize(p.Cells(), again);
  }

  lemma SubsetOfSameSize<T>(a: set<T>, b: set<T>)
    requires a <= b && |a| == |b|
    ensures a == b
  {
    assert |b - a| == |b| - |a|;
  }

  /** An oblong shape turned by half a turn comes back lying across its old cells. */
  lemma HalfTurnedOblongIsLost(catalog: Catalog, p: Piece, w: int, h: int)
    requires BoxIs(p.base, w, h) && w != h && p.turns == 2 && (p.path in catalog ==> catalog[p.path] == p.base)
    ensures !Faithful(catalog, p)
  {
    RotateOfBox(p.base, w, h);
    TwoTurnsOfBox(p.base, w, h);
    TurnedStep(p.base, 0);
    TurnedStep(p.base, 1);
    BoxesDiffer(Rotate(p.base), p.Shape(), p.pos, w, h);
    ReadsBackIffFaithful(catalog, p);
  }

  lemma BoxesDiffer(across: Shape, half: Shape, pos: Cell, w: int, h: int)
    requires BoxIs(across, h, w) && BoxIs(half, w, h) && w != h
    ensures Footprint(across, pos) != Footprint(half, pos)
  {
    var i :| 0 <= i < |half| && if h > w then half[i].y == h else half[i].x == w;
    assert pos.Plus(half[i]) in Footprint(half, pos);
    assert pos.Plus(half[i]) !in Footprint(across, pos);
  }

  /** Such a shape in use: the long ammunition, a bar of two cells. */
  lemma HalfTurnedBarIsLost(catalog: Catalog, p: Piece)
    requires |p.base| == 2 && p.base[0] == Cell(0, 0) && p.base[1] == Cell(0, 1)
    requires p.turns == 2 && (p.path in catalog ==> catalog[p.path] == p.base)
    ensures !Faithful(catalog, p)
  {
    BarIsOblong(p.base);
    HalfTurnedOblongIsLost(catalog, p, 0, 1);
  }

  lemma BarIsOblong(bar: Shape)
    requires |bar| == 2 && bar[0] == Cell(0, 0) && bar[1] == Cell(0, 1)
    ensures BoxIs(bar, 0, 1)
  {
  }
}
