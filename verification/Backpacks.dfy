/** Containers of shaped items: the in-game backpack with its insurance slots, and the loot grid. */
module Backpacks {
  import opened Wrappers
  import opened Geometry
  import opened Shapes
  import opened Bags
  import opened GridArrays
  import opened Layouts
  import Boosts

  /** What placing does: the loot grid first takes the item off its cells, the backpack does not. */
  ghost function Lay<I>(loot: bool, d: Dims, b: Bag<I>, i: I, shape: Shape, origin: Cell, special: bool): Bag<I> {
    PlaceAt(d, if loot then Remove(b, i) else b, i, shape, origin, special)
  }

  class Container {
    const d: Dims
    const gridData: array2<Item?>
    const specialGridData: array2<Item?>
    const loot: bool
    ghost var items: set<Item>

    ghost predicate Valid() {
      && gridData.Length0 == d.rows && gridData.Length1 == d.cols
      && specialGridData.Length0 == d.specialRows && specialGridData.Length1 == d.specialCols
      && gridData != specialGridData
      && (loot ==> d.specialRows == 0)
    }

    ghost function View(): Bag<Item>
      reads this, gridData, specialGridData, items
    {
      Bag(Contents(gridData), Contents(specialGridData), Infos())
    }

    ghost function Infos(): map<Item, Info>
      reads this, items
    {
      map i | i in items :: Info(i.runtimeShape, i.gridPos)
    }

    constructor (d: Dims, loot: bool)
      requires loot ==> d.specialRows == 0
      ensures Valid() && fresh(gridData) && fresh(specialGridData) && this.d == d && this.loot == loot
      ensures View() == Bag(map[], map[], map[])
    {
      this.d, this.loot, items := d, loot, {};
      gridData := new Item?[d.rows, d.cols]((r, c) => null);
      specialGridData := new Item?[d.specialRows, d.specialCols]((r, c) => null);
    }

    /** The item may be put there: offset by offset, on the insurance grid if that is asked for and there is one, else
        on the main grid, each cell exists and is free or the item's own. */
    ghost predicate Accepts(item: Item, origin: Cell, isSpecial: bool)
      requires Valid()
      reads this, gridData, specialGridData, item
    {
      forall k | 0 <= k < |item.runtimeShape| ::
        var x, y := origin.x + item.runtimeShape[k].x, origin.y + item.runtimeShape[k].y;
        if isSpecial && !loot
        then 0 <= x < specialGridData.Length1 && 0 <= y < specialGridData.Length0
             && (specialGridData[y, x] == null || specialGridData[y, x] == item)
        else 0 <= x < gridData.Length1 && 0 <= y < gridData.Length0
             && (gridData[y, x] == null || gridData[y, x] == item)
    }

    lemma AcceptsIffCanPlace(item: Item, origin: Cell, isSpecial: bool)
      requires Valid()
      ensures Accepts(item, origin, isSpecial)
         <==> CanPlace(d, View(), item, item.runtimeShape, origin, isSpecial && !loot)
    {
      if isSpecial && !loot {
        FitsMeans(Contents(specialGridData), d.specialRows, d.specialCols, item.runtimeShape, origin, {item});
      } else {
        FitsMeans(Contents(gridData), d.rows, d.cols, item.runtimeShape, origin, {item});
      }
    }

    method CanPlaceItem(item: Item, origin: Cell, isSpecial: bool) returns (ok: bool)
      requires Valid()
      ensures ok <==> Accepts(item, origin, isSpecial)
      ensures ok <==> CanPlace(d, View(), item, item.runtimeShape, origin, isSpecial && !loot)
    {
      AcceptsIffCanPlace(item, origin, isSpecial);
      if isSpecial && !loot {
        ok := IsSpaceAvailableInGrid(specialGridData, origin, item.runtimeShape, item);
      } else {
        ok := IsSpaceAvailableInGrid(gridData, origin, item.runtimeShape, item);
      }
    }

    method PlaceItem(item: Item, origin: Cell)
      requires Valid()
      modifies this, gridData, specialGridData, item`gridPos
      ensures View() == Lay(loot, d, old(View()), item, item.runtimeShape, origin, false)
      ensures items == old(items) + {item} && item.gridPos == origin
      ensures !loot ==>
        && Contents(specialGridData) == old(Contents(specialGridData))
        && Contents(gridData)
           == Put(old(Contents(gridData)), Footprint(item.runtimeShape, origin) * Area(gridData), item)
    {
      if loot {
        RemoveItem(item);
      }
      Register(item, origin, false);
    }

    method PlaceItemInSpecial(item: Item, origin: Cell)
      requires Valid() && !loot
      modifies this, gridData, specialGridData, item`gridPos
      ensures View() == PlaceAt(d, old(View()), item, item.runtimeShape, origin, true)
      ensures items == old(items) + {item} && item.gridPos == origin
      ensures Contents(gridData) == old(Contents(gridData))
      ensures Contents(specialGridData)
           == Put(old(Contents(specialGridData)), Footprint(item.runtimeShape, origin) * Area(specialGridData), item)
    {
      Register(item, origin, true);
    }

    /** The part both placements share: write the cells, then record the position. */
    method Register(item: Item, origin: Cell, special: bool)
      requires Valid()
      modifies this, gridData, specialGridData, item`gridPos
      ensures View() == PlaceAt(d, old(View()), item, item.runtimeShape, origin, special)
      ensures items == old(items) + {item} && item.gridPos == origin
    {
      ghost var b := View();
      if special {
        Write(specialGridData, item, item.runtimeShape, origin);
      } else {
        Write(gridData, item, item.runtimeShape, origin);
      }
      ghost var b1 := View();
      item.gridPos := origin;
      items := items + {item};
      InfoStep(b.info, Infos(), item, Info(item.runtimeShape, origin));
      assert View() == b1.(info := Infos());
    }

    method RemoveItem(item: Item)
      requires Valid()
      modifies this, gridData, specialGridData
      ensures View() == Remove(old(View()), item)
      ensures items == old(items) - {item}
    {
      Erase(gridData, item);
      Erase(specialGridData, item);
      items := items - {item};
    }

    /** The search of the main grid, then of the insurance grid; `main` and `special` are what they found. A new item
        sits where its search found room, on exactly its footprint, and everything else is as it was. */
    method TryAddItem(path: string, base: Shape, boost: Boosts.Boost)
      returns (added: Item?, ghost main: Option<Cell>, ghost special: Option<Cell>)
      requires Valid() && !loot
      modifies this, gridData, specialGridData
      ensures IsAddResult(d, old(View()), base, main, special)
      ensures added == null <==> main.None? && special.None?
      ensures added == null ==> View() == old(View())
      ensures added != null ==>
        && fresh(added) && added.path == path && added.base == base && added.boost == boost
        && View() == Add(d, old(View()), added, base, main, special)
      ensures added != null ==>
        && added in items && added.runtimeShape == base
        && added.gridPos == (if main.Some? then main.value else special.value)
        && (if main.Some?
            then Sits(Contents(gridData), Contents(specialGridData), added, Footprint(base, added.gridPos))
            else Sits(Contents(specialGridData), Contents(gridData), added, Footprint(base, added.gridPos)))
        && Without(Contents(gridData), added) == old(Contents(gridData))
        && Without(Contents(specialGridData), added) == old(Contents(specialGridData))
    {
      added, main, special := AddFirstFit(path, base, boost);
      if added != null {
        ghost var b := old(View());
        assert forall c | c in b.main :: b.main[c] != added;
        assert forall c | c in b.special :: b.special[c] != added;
        AddPutsItThere(d, b, added, base, main, special);
        assert View().info[added] == Info(added.runtimeShape, added.gridPos);
      }
    }

    method AddFirstFit(path: string, base: Shape, boost: Boosts.Boost)
      returns (added: Item?, ghost main: Option<Cell>, ghost special: Option<Cell>)
      requires Valid() && !loot
      modifies this, gridData, specialGridData
      ensures IsAddResult(d, old(View()), base, main, special)
      ensures added == null <==> main.None? && special.None?
      ensures added == null ==> View() == old(View())
      ensures added != null ==>
        && fresh(added) && added.path == path && added.base == base && added.boost == boost
        && View() == Add(d, old(View()), added, base, main, special)
    {
      special := None;
      var inMain := FindSpace(gridData, base, null);
      main := inMain;
      if inMain.Some? {
        added := new Item(path, base, boost);
        assert added !in old(items);
        PlaceItem(added, inMain.value);
        return;
      }
      var inSpecial := FindSpace(specialGridData, base, null);
      special := inSpecial;
      if inSpecial.Some? {
        added := new Item(path, base, boost);
        assert added !in old(items);
        PlaceItemInSpecial(added, inSpecial.value);
        return;
      }
      added := null;
    }

    method OnMenuInsurance(item: Item) returns (ghost found: Option<Cell>)
      requires Valid() && !loot && item in items
      modifies this, gridData, specialGridData, item`gridPos
      ensures IsMoveResult(d, old(View()), item, found)
      ensures View() == MenuMove(d, old(View()), item, found)
    {
      var inInsurance := Has(specialGridData, item);
      var oldPos := item.gridPos;
      RemoveItem(item);
      found := MoveOrPutBack(item, oldPos, !inInsurance);
    }

    /** The search of one grid for an item just taken up, with the rollback to the other. */
    method MoveOrPutBack(item: Item, oldPos: Cell, toSpecial: bool) returns (ghost found: Option<Cell>)
      requires Valid() && !loot
      modifies this, gridData, specialGridData, item`gridPos
      ensures IsFirstFit(old(View()).Side(toSpecial), d.Area(toSpecial), item.runtimeShape, {item}, found)
      ensures View() == PlaceAt(d, old(View()), item, item.runtimeShape,
                                if found.Some? then found.value else oldPos, toSpecial == found.Some?)
    {
      var target;
      if toSpecial {
        target := FindSpace(specialGridData, item.runtimeShape, item);
      } else {
        target := FindSpace(gridData, item.runtimeShape, item);
      }
      found := target;
      var origin := if target.Some? then target.value else oldPos;
      if toSpecial == target.Some? {
        PlaceItemInSpecial(item, origin);
      } else {
        PlaceItem(item, origin);
      }
    }

    /** updateBackpackStats: every item counts once, however many cells it covers. */
    method BackpackBoost() returns (total: Boosts.Boost)
      requires Valid()
      ensures total == Boosts.Total(Shown(View().main) + Shown(View().special), BoostOfItem)
    {
      var found := Collect(gridData, []);
      found := Collect(specialGridData, found);
      assert Boosts.Elements(found) == Shown(View().main) + Shown(View().special);
      total := Boosts.Sum(found, BoostOfItem);
    }

    /** The pieces on the grids, as a layout sees them. */
    ghost function AsKit(): Kit<Item>
      reads this, gridData, specialGridData, items
    {
      Kit(Contents(gridData), Contents(specialGridData),
          map i | i in items :: Piece(i.path, i.base, i.turns, i.gridPos))
    }

    /** While every item's shape is in step with its turns, the layout's view of the bag is the bag. */
    lemma KitIsView()
      requires forall i | i in items :: i.InStep()
      ensures AsKit().AsBag() == View()
    {
    }

    /** What is saved: every item shown whose path can be saved, once, with its position, whether it is only on the
        insurance grid, and whether it is turned. */
    lemma LayoutMeans(layout: seq<Entry>, order: seq<Item>)
      requires Valid() && Shown(View().main) + Shown(View().special) <= items
      requires IsSaveOrder(AsKit(), order) && layout == Saved(AsKit(), order)
      ensures NoRepeats(order) && |layout| == |order|
      ensures forall i | i in order ::
        i in Shown(View().main) + Shown(View().special) && i.path != "" && i.path != "res://"
      ensures forall i | i in Shown(View().main) + Shown(View().special) && i.path != "" && i.path != "res://" ::
        i in order
      ensures forall k | 0 <= k < |order| ::
        && layout[k].resPath == order[k].path && layout[k].gridPos == order[k].gridPos
        && (layout[k].isInsurance <==> order[k] !in Shown(View().main))
        && (layout[k].rotated <==> order[k].turns != 0)
    {
      SavedMeans(AsKit(), order);
      assert forall i | i in items :: AsKit().pieces[i] == Piece(i.path, i.base, i.turns, i.gridPos);
    }

    /** get_backpack_layout_data. `order` lists the items in the order they were written. */
    method GetLayout() returns (layout: seq<Entry>, ghost order: seq<Item>)
      requires Valid() && Shown(View().main) + Shown(View().special) <= items
      ensures IsSaveOrder(AsKit(), order) && layout == Saved(AsKit(), order)
      ensures InScanOrder(AsKit(), order)
    {
      var inMain := Collect(gridData, []);
      var found := Collect(specialGridData, inMain);
      assert forall i | i in found :: i in Boosts.Elements(found);
      layout := ListEntries(inMain, found);
      order := Kept(found);
      KeptIsSaveOrder(AsKit(), inMain, found);
      KeptIsInScanOrder(AsKit(), inMain, found);
      ListedIsSaved(AsKit(), inMain, found, layout);
    }

    /** The entries of the items found, of which the first ones are on the main grid. */
    method ListEntries(inMain: seq<Item>, found: seq<Item>) returns (layout: seq<Entry>)
      requires inMain <= found && NoRepeats(found) && forall i | i in found :: i in items
      ensures IsListed(AsKit(), inMain, Kept(found), layout)
    {
      ghost var kit := AsKit();
      layout := [];
      var n := 0;
      while n < |found|
        invariant 0 <= n <= |found|
        invariant IsListed(kit, inMain, Kept(found[..n]), layout)
      {
        var it := found[n];
        var e := Entry(it.path, it.gridPos, n >= |inMain|, it.turns != 0);
        ListedStep(kit, inMain, found, n, layout, e);
        if it.path != "" && it.path != "res://" {
          layout := layout + [e];
        }
        n := n + 1;
      }
      assert found[..n] == found;
    }

    /** _load_initial_backpack_items, onto empty grids. Entry `k` becomes item `loaded[k]`, or nothing if its
        resource does not load. */
    method LoadLayout(catalog: Catalog, boost: string -> Boosts.Boost, layout: seq<Entry>)
      returns (loaded: seq<Item?>)
      requires Valid() && !loot && View() == Bag(map[], map[], map[])
      modifies this, gridData, specialGridData
      ensures |loaded| == |layout|
      ensures Shows(View(), d, catalog, layout, loaded) && Distinct(loaded)
      ensures AllLoadedFrom(loaded, layout, catalog)
    {
      loaded := [];
      var n := 0;
      assert forall i | i in items :: i in View().info;
      while n < |layout|
        invariant 0 <= n <= |layout| && |loaded| == n
        invariant fresh(items)
        invariant Shows(View(), d, catalog, layout[..n], loaded) && Distinct(loaded)
        invariant AllLoadedFrom(loaded, layout[..n], catalog)
      {
        loaded := LoadNext(catalog, boost, layout[..n], layout[n], loaded);
        OneMore(layout, n);
        n := n + 1;
      }
      assert layout[..n] == layout;
    }

    /** One more entry after the ones loaded before. */
    method LoadNext(catalog: Catalog, boost: string -> Boosts.Boost, before: seq<Entry>, e: Entry, loaded: seq<Item?>)
      returns (loaded': seq<Item?>)
      requires Valid() && !loot && |loaded| == |before|
      requires Shows(View(), d, catalog, before, loaded) && Distinct(loaded) && AllLoadedFrom(loaded, before, catalog)
      modifies this, gridData, specialGridData
      ensures |loaded'| == |loaded| + 1 && fresh(items - old(items))
      ensures Shows(View(), d, catalog, before + [e], loaded') && Distinct(loaded')
      ensures AllLoadedFrom(loaded', before + [e], catalog)
    {
      ghost var b := View();
      var item := LoadEntry(catalog, boost, e);
      LoadingStep(d, catalog, before, e, b, View(), loaded, item);
      loaded' := loaded + [item];
    }

    method LoadEntry(catalog: Catalog, boost: string -> Boosts.Boost, e: Entry) returns (item: Item?)
      requires Valid() && !loot
      modifies this, gridData, specialGridData
      ensures fresh(items - old(items))
      ensures (item != null <==> Loads(catalog, e)) && (item != null ==> fresh(item))
      ensures IsLoadedFrom(item, e, catalog)
      ensures item == null ==> View() == old(View())
      ensures item != null ==>
        View() == PlaceAt(d, old(View()), item, ReloadedShape(catalog, e), e.gridPos, e.isInsurance)
    {
      item := null;
      if e.resPath != "" && e.resPath in catalog {
        item := new Item(e.resPath, catalog[e.resPath], boost(e.resPath));
        if e.rotated {
          item.RotateItem();
        }
        assert View() == old(View());
        if e.isInsurance {
          PlaceItemInSpecial(item, e.gridPos);
        } else {
          PlaceItem(item, e.gridPos);
        }
      }
    }
  }

  /** The item an entry makes: its resource's shape, turned once if the entry says so, at the entry's position; none
      if the path is empty or does not load. */
  ghost predicate IsLoadedFrom(item: Item?, e: Entry, catalog: Catalog)
    reads item
  {
    if e.resPath == "" || e.resPath !in catalog then item == null
    else
      && item != null && item.path == e.resPath && item.base == catalog[e.resPath] && item.gridPos == e.gridPos
      && item.turns == (if e.rotated then 1 else 0)
      && item.runtimeShape == (if e.rotated then Rotate(item.base) else item.base)
  }

  ghost predicate AllLoadedFrom(loaded: seq<Item?>, layout: seq<Entry>, catalog: Catalog)
    reads loaded
  {
    |loaded| == |layout| && forall k | 0 <= k < |layout| :: IsLoadedFrom(loaded[k], layout[k], catalog)
  }

  lemma InfoStep(info: map<Item, Info>, info': map<Item, Info>, item: Item, x: Info)
    requires info'.Keys == info.Keys + {item} && info'[item] == x
    requires forall j | j in info && j != item :: info'[j] == info[j]
    ensures info' == info[item := x]
  {
  }

  /** Loading one more entry keeps both grids in step with their labels. */
  lemma LoadingStep(d: Dims, catalog: Catalog, before: seq<Entry>, e: Entry, b: Bag<Item>, b': Bag<Item>,
                    loaded: seq<Item?>, item: Item?)
    requires |loaded| == |before| && (item != null <==> Loads(catalog, e))
    requires Shows(b, d, catalog, before, loaded)
    requires item == null ==> b' == b
    requires item != null ==> b' == PlaceAt(d, b, item, ReloadedShape(catalog, e), e.gridPos, e.isInsurance)
    ensures Shows(b', d, catalog, before + [e], loaded + [item])
  {
    LoadingOnSide(d, catalog, before, e, b, b', loaded, item, false);
    LoadingOnSide(d, catalog, before, e, b, b', loaded, item, true);
  }

  /** The same, for one grid. */
  lemma LoadingOnSide(d: Dims, catalog: Catalog, before: seq<Entry>, e: Entry, b: Bag<Item>, b': Bag<Item>,
                      loaded: seq<Item?>, item: Item?, side: bool)
    requires |loaded| == |before| && (item != null <==> Loads(catalog, e))
    requires Realizes(b.Side(side), Loaded(d, catalog, before, side), loaded)
    requires item == null ==> b' == b
    requires item != null ==> b' == PlaceAt(d, b, item, ReloadedShape(catalog, e), e.gridPos, e.isInsurance)
    ensures Realizes(b'.Side(side), Loaded(d, catalog, before + [e], side), loaded + [item])
  {
    assert (before + [e])[..|before|] == before;
    var labels := Loaded(d, catalog, before, side);
    if item != null && e.isInsurance == side {
      var cells := Footprint(ReloadedShape(catalog, e), e.gridPos) * d.Area(side);
      RealizesStep(b.Side(side), labels, loaded, cells, item);
    } else {
      RealizesMore(b.Side(side), labels, loaded, item);
    }
  }

  lemma OneMore<T>(s: seq<T>, n: nat)
    requires n < |s|
    ensures s[..n + 1] == s[..n] + [s[n]]
  {
  }

  lemma RealizesMore(g: Grid<Item>, labels: Grid<nat>, loaded: seq<Item?>, item: Item?)
    requires Realizes(g, labels, loaded)
    ensures Realizes(g, labels, loaded + [item])
  {
  }

  lemma RealizesStep(g: Grid<Item>, labels: Grid<nat>, loaded: seq<Item?>, cells: set<Cell>, item: Item)
    requires Realizes(g, labels, loaded)
    ensures Realizes(Put(g, cells, item), Put(labels, cells, |loaded|), loaded + [item])
  {
  }

  /** A grid of items that shows, wherever the labels say `k`, item `loaded[k]`. */
  ghost predicate Realizes(g: Grid<Item>, labels: Grid<nat>, loaded: seq<Item?>) {
    && g.Keys == labels.Keys
    && forall c | c in labels :: labels[c] < |loaded| && loaded[labels[c]] == g[c]
  }

  /** Both grids show exactly what loading the layout writes, `loaded[k]` standing for entry `k`. */
  ghost predicate Shows(b: Bag<Item>, d: Dims, catalog: Catalog, layout: seq<Entry>, loaded: seq<Item?>) {
    && Realizes(b.main, Loaded(d, catalog, layout, false), loaded)
    && Realizes(b.special, Loaded(d, catalog, layout, true), loaded)
  }

  /** Every entry that loads makes an item of its own. */
  ghost predicate Distinct(loaded: seq<Item?>) {
    forall j, k | 0 <= j < k < |loaded| && loaded[k] != null :: loaded[j] != loaded[k]
  }

  /** One grid shows, wherever the other shows the k-th saved item, the k-th loaded one, and nothing else. */
  ghost predicate SameUpToIdentity(g': Grid<Item>, g: Grid<Item>, order: seq<Item>, loaded: seq<Item?>)
    requires |loaded| == |order|
  {
    && g'.Keys == g.Keys
    && forall c | c in g :: exists k | 0 <= k < |order| :: order[k] == g[c] && loaded[k] == g'[c]
  }

  /** What GetLayout saves and LoadLayout reads back onto empty grids rebuilds both grids, cell for cell, exactly when
      every item shown is faithful. */
  lemma ReloadRebuildsIff(d: Dims, catalog: Catalog, kit: Kit<Item>, order: seq<Item>, b': Bag<Item>,
                          loaded: seq<Item?>)
    requires Ok(d, kit.AsBag()) && IsSaveOrder(kit, order) && StableCatalog(catalog, kit)
    requires |loaded| == |order| && Shows(b', d, catalog, Saved(kit, order), loaded) && Distinct(loaded)
    ensures && SameUpToIdentity(b'.main, kit.main, order, loaded)
            && SameUpToIdentity(b'.special, kit.special, order, loaded)
       <==> AllFaithful(catalog, kit)
  {
    RoundTripIff(d, catalog, kit, order);
    RebuiltIffSame(b'.main, kit.main, Loaded(d, catalog, Saved(kit, order), false), order, loaded);
    RebuiltIffSame(b'.special, kit.special, Loaded(d, catalog, Saved(kit, order), true), order, loaded);
  }

  /** Save a backpack and load the layout into a new one of the same dimensions: both grids come back, cell for cell,
      exactly when every item shown is faithful. */
  method SaveAndReload(saved: Container, catalog: Catalog, boost: string -> Boosts.Boost)
    returns (copy: Container, loaded: seq<Item?>, ghost order: seq<Item>)
    requires saved.Valid() && !saved.loot && Ok(saved.d, saved.View())
    requires (forall i | i in saved.items :: i.InStep()) && StableCatalog(catalog, saved.AsKit())
    ensures fresh(copy) && copy.Valid() && copy.d == saved.d && |loaded| == |order| && InScanOrder(saved.AsKit(), order)
    ensures && SameUpToIdentity(copy.View().main, Contents(saved.gridData), order, loaded)
            && SameUpToIdentity(copy.View().special, Contents(saved.specialGridData), order, loaded)
       <==> AllFaithful(catalog, saved.AsKit())
  {
    saved.KitIsView();
    ghost var kit := saved.AsKit();
    OnlyKnownItemsShow(saved.d, saved.View());
    var layout;
    layout, order := saved.GetLayout();
    copy, loaded := Reload(saved.d, catalog, boost, layout);
    ReloadRebuildsIff(saved.d, catalog, kit, order, copy.View(), loaded);
  }

  method Reload(d: Dims, catalog: Catalog, boost: string -> Boosts.Boost, layout: seq<Entry>)
    returns (copy: Container, loaded: seq<Item?>)
    ensures fresh(copy) && copy.Valid() && copy.d == d && |loaded| == |layout|
    ensures Shows(copy.View(), d, catalog, layout, loaded) && Distinct(loaded)
  {
    copy := new Container(d, false);
    loaded := copy.LoadLayout(catalog, boost, layout);
  }

  lemma OnlyKnownItemsShow<I>(d: Dims, b: Bag<I>)
    requires Ok(d, b)
    ensures Shown(b.main) + Shown(b.special) <= b.info.Keys
  {
  }

  lemma RebuiltIffSame(g': Grid<Item>, g: Grid<Item>, labels: Grid<nat>, order: seq<Item>, loaded: seq<Item?>)
    requires |loaded| == |order| && Realizes(g', labels, loaded) && Distinct(loaded)
    ensures Rebuilds(labels, g, order) <==> SameUpToIdentity(g', g, order, loaded)
  {
    if SameUpToIdentity(g', g, order, loaded) {
      forall c | c in labels ensures order[labels[c]] == g[c] {
        var k :| 0 <= k < |order| && order[k] == g[c] && loaded[k] == g'[c];
        assert loaded[labels[c]] == g'[c] && k == labels[c];
      }
    }
  }

  /** The items whose path can be saved, in the order given. */
  ghost function Kept(found: seq<Item>): seq<Item> {
    if found == [] then []
    else
      var n := |found| - 1;
      Kept(found[..n]) + if Saveable(found[n].path) then [found[n]] else []
  }

  lemma {:induction false} KeptIff(found: seq<Item>, i: Item)
    ensures i in Kept(found) <==> i in found && Saveable(i.path)
  {
    if found != [] {
      var n := |found| - 1;
      KeptIff(found[..n], i);
      assert found == found[..n] + [found[n]];
    }
  }

  /** Entry by entry, the layout lists the items. */
  ghost predicate IsListed(kit: Kit<Item>, inMain: seq<Item>, order: seq<Item>, layout: seq<Entry>) {
    && |layout| == |order|
    && forall k | 0 <= k < |order| ::
      order[k] in kit.pieces && layout[k] == EntryOf(kit.pieces[order[k]], order[k] !in inMain)
  }

  lemma SavedMeans<I>(kit: Kit<I>, order: seq<I>)
    requires IsSaveOrder(kit, order) && Shown(kit.main) + Shown(kit.special) <= kit.pieces.Keys
    ensures NoRepeats(order)
    ensures forall i | i in order ::
      && i in Shown(kit.main) + Shown(kit.special)
      && i in kit.pieces && kit.pieces[i].path != "" && kit.pieces[i].path != "res://"
    ensures forall i | i in Shown(kit.main) + Shown(kit.special) ::
      kit.pieces[i].path != "" && kit.pieces[i].path != "res://" ==> i in order
    ensures var layout := Saved(kit, order);
      |layout| == |order| && forall k | 0 <= k < |order| ::
        var p := kit.pieces[order[k]];
        && layout[k].resPath == p.path && layout[k].gridPos == p.pos
        && (layout[k].isInsurance <==> order[k] !in Shown(kit.main)) && (layout[k].rotated <==> p.turns != 0)
  {
    forall i | i in kit.pieces
      ensures i in Shown(kit.main) <==> CellsOf(kit.main, i) != {}
      ensures i in Shown(kit.special) <==> CellsOf(kit.special, i) != {}
    {
      ShownIff(kit.main, i);
      ShownIff(kit.special, i);
    }
  }

  lemma ListedStep(kit: Kit<Item>, inMain: seq<Item>, found: seq<Item>, n: nat, layout: seq<Entry>, e: Entry)
    requires n < |found| && IsListed(kit, inMain, Kept(found[..n]), layout)
    requires inMain <= found && NoRepeats(found) && found[n] in kit.pieces
    requires e == EntryOf(kit.pieces[found[n]], n >= |inMain|)
    ensures IsListed(kit, inMain, Kept(found[..n + 1]), if Saveable(found[n].path) then layout + [e] else layout)
  {
    assert found[..n + 1][..n] == found[..n] && found[..n + 1][n] == found[n];
    InFrontIff(inMain, found, n);
  }

  lemma InFrontIff<T>(front: seq<T>, all: seq<T>, n: nat)
    requires front <= all && NoRepeats(all) && n < |all|
    ensures n < |front| <==> all[n] in front
  {
    if n < |front| {
      assert front[n] == all[n];
    }
  }

  lemma ListedIsSaved(kit: Kit<Item>, inMain: seq<Item>, found: seq<Item>, layout: seq<Entry>)
    requires IsListed(kit, inMain, Kept(found), layout) && IsSaveOrder(kit, Kept(found))
    requires forall i | i in Kept(found) :: i !in inMain <==> CellsOf(kit.main, i) == {}
    ensures layout == Saved(kit, Kept(found))
  {
    assert forall k | 0 <= k < |layout| :: Kept(found)[k] in Kept(found);
  }

  /** Scanning the main grid and then the insurance grid, one comes to `a` first. */
  ghost predicate ComesFirst<I>(kit: Kit<I>, a: I, b: I) {
    SeenBefore(kit.main, a, b) || (CellsOf(kit.main, b) == {} && SeenBefore(kit.special, a, b))
  }

  ghost predicate InScanOrder<I>(kit: Kit<I>, order: seq<I>) {
    forall k, l | 0 <= k < l < |order| :: ComesFirst(kit, order[k], order[l])
  }

  lemma {:induction false} KeptInScanOrder(kit: Kit<Item>, found: seq<Item>)
    requires InScanOrder(kit, found)
    ensures InScanOrder(kit, Kept(found))
  {
    if found != [] {
      var n := |found| - 1;
      var front := Kept(found[..n]);
      KeptInScanOrder(kit, found[..n]);
      forall k | 0 <= k < |front| ensures ComesFirst(kit, front[k], found[n]) {
        KeptIff(found[..n], front[k]);
        var j :| 0 <= j < n && found[j] == front[k];
      }
    }
  }

  lemma ShownComesFirst<I>(g: Grid<I>, a: I, b: I)
    requires a in Shown(g) && b !in Shown(g)
    ensures SeenBefore(g, a, b)
  {
    var c :| c in g && g[c] == a;
    assert forall c' | c' in g && g[c'] == b :: g[c'] in Shown(g);
  }

  lemma FoundInScanOrder(kit: Kit<Item>, inMain: seq<Item>, found: seq<Item>)
    requires inMain <= found && NoRepeats(found) && Boosts.Elements(inMain) == Shown(kit.main)
    requires InReadingOrder(kit.main, inMain, 0) && InReadingOrder(kit.special, found, |inMain|)
    ensures InScanOrder(kit, found)
  {
    forall k, l | 0 <= k < l < |found| ensures ComesFirst(kit, found[k], found[l]) {
      if l < |inMain| {
        assert found[k] == inMain[k] && found[l] == inMain[l];
      } else {
        assert found[l] !in inMain;
        ShownIff(kit.main, found[l]);
        assert found[l] !in Boosts.Elements(inMain);
        if k < |inMain| {
          assert found[k] == inMain[k] && inMain[k] in Boosts.Elements(inMain);
          ShownComesFirst(kit.main, found[k], found[l]);
        }
      }
    }
  }

  lemma KeptIsInScanOrder(kit: Kit<Item>, inMain: seq<Item>, found: seq<Item>)
    requires inMain <= found && NoRepeats(found) && Boosts.Elements(inMain) == Shown(kit.main)
    requires InReadingOrder(kit.main, inMain, 0) && InReadingOrder(kit.special, found, |inMain|)
    ensures InScanOrder(kit, Kept(found))
  {
    FoundInScanOrder(kit, inMain, found);
    KeptInScanOrder(kit, found);
  }

  lemma {:induction false} KeptHasNoRepeats(found: seq<Item>)
    requires NoRepeats(found)
    ensures NoRepeats(Kept(found))
  {
    if found != [] {
      var n := |found| - 1;
      KeptHasNoRepeats(found[..n]);
      KeptIff(found[..n], found[n]);
      assert found[n] !in found[..n];
    }
  }

  lemma KeptIsSaveOrder(kit: Kit<Item>, inMain: seq<Item>, found: seq<Item>)
    requires Boosts.Elements(inMain) == Shown(kit.main) && NoRepeats(found)
    requires Boosts.Elements(found) == Shown(kit.main) + Shown(kit.special) <= kit.pieces.Keys
    requires forall i | i in kit.pieces :: kit.pieces[i].path == i.path
    ensures IsSaveOrder(kit, Kept(found))
    ensures forall i | i in Kept(found) :: i !in inMain <==> CellsOf(kit.main, i) == {}
  {
    KeptHasNoRepeats(found);
    forall i | i in Kept(found)
      ensures i in kit.pieces && kit.Shows(i) && Saveable(kit.pieces[i].path)
      ensures i !in inMain <==> CellsOf(kit.main, i) == {}
    {
      KeptIffShown(kit, inMain, found, i);
    }
    forall i | i in kit.pieces && kit.Shows(i) && Saveable(kit.pieces[i].path) ensures i in Kept(found) {
      KeptIffShown(kit, inMain, found, i);
    }
  }

  lemma KeptIffShown(kit: Kit<Item>, inMain: seq<Item>, found: seq<Item>, i: Item)
    requires Boosts.Elements(inMain) == Shown(kit.main)
    requires Boosts.Elements(found) == Shown(kit.main) + Shown(kit.special)
    ensures i in Kept(found) <==> kit.Shows(i) && Saveable(i.path)
    ensures i in found <==> i in Shown(kit.main) + Shown(kit.special)
    ensures i in inMain <==> CellsOf(kit.main, i) != {}
  {
    KeptIff(found, i);
    ShownIff(kit.main, i);
    ShownIff(kit.special, i);
    assert i in found <==> i in Boosts.Elements(found);
    assert i in inMain <==> i in Boosts.Elements(inMain);
  }

  function BoostOfItem(i: Item): Boosts.Boost {
    i.boost
  }
}
