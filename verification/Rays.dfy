/** The client's explosion: four rays that eat destructible walls as they spread. */
module Rays {
  import opened Geometry
  import Blast

  /** What a ray asks of the map: which cells never give way, and which still hold a breakable wall. */
  datatype Walls = Walls(solid: Cell -> bool, breakable: set<Cell>)

  /** The k-th cell of the ray from `c` burns. */
  ghost predicate Burns(w: Walls, c: Cell, d: Cell, length: int, k: int) {
    && 1 <= k <= length
    && (forall j | 1 <= j <= k :: !w.solid(Blast.Step(c, d, j)))
    && (forall j | 1 <= j < k :: Blast.Step(c, d, j) !in w.breakable)
  }

  ghost function Arm(w: Walls, c: Cell, d: Cell, length: int): set<Cell> {
    set k | 1 <= k <= length && Burns(w, c, d, length, k) :: Blast.Step(c, d, k)
  }

  ghost function Broken(w: Walls, c: Cell, d: Cell, length: int): set<Cell> {
    Arm(w, c, d, length) * w.breakable
  }

  lemma StepsAreDistinct(c: Cell, d: Cell, k: int, d': Cell, k': int)
    requires d in DIRECTIONS && d' in DIRECTIONS && k >= 1 && k' >= 1
    requires Blast.Step(c, d, k) == Blast.Step(c, d', k')
    ensures d == d' && k == k'
  {
  }

  lemma StepLeavesCentre(c: Cell, d: Cell, k: int)
    requires d in DIRECTIONS && k >= 1
    ensures Blast.Step(c, d, k) != c
  {
  }

  /** A ray's own arm depends on the walls only through its own cells. */
  lemma ArmIgnoresOtherCells(w: Walls, gone: set<Cell>, c: Cell, d: Cell, length: int)
    requires forall k: int | 1 <= k <= length :: Blast.Step(c, d, k) !in gone
    ensures Arm(w.(breakable := w.breakable - gone), c, d, length) == Arm(w, c, d, length)
  {
    var w' := w.(breakable := w.breakable - gone);
    forall k | 1 <= k <= length
      ensures Burns(w', c, d, length, k) <==> Burns(w, c, d, length, k)
    {
      assert forall j | 1 <= j < k :: Blast.Step(c, d, j) in w'.breakable <==> Blast.Step(c, d, j) in w.breakable;
    }
  }

  /** No direction breaks more than one wall, and that wall is the far end of the arm. */
  lemma OneWallPerDirection(w: Walls, c: Cell, d: Cell, length: int, e: Cell, k: int)
    requires e in Broken(w, c, d, length)
    requires Burns(w, c, d, length, k)
    ensures exists n: int :: k <= n <= length && e == Blast.Step(c, d, n)
    ensures Blast.Step(c, d, k) in w.breakable ==> Blast.Step(c, d, k) == e
  {
    var n: int :| 1 <= n <= length && Burns(w, c, d, length, n) && e == Blast.Step(c, d, n);
    assert k <= n <= length;
  }

  /** The rays fired one after another, each meeting the walls its predecessors left. */
  ghost function Fire(w: Walls, c: Cell, order: seq<Cell>, length: Cell -> int): (set<Cell>, set<Cell>)
    decreases |order|
  {
    if order == [] then ({}, w.breakable)
    else
      var d := order[0];
      var w' := w.(breakable := w.breakable - Broken(w, c, d, length(d)));
      var later := Fire(w', c, order[1..], length);
      (Arm(w, c, d, length(d)) + later.0, later.1)
  }

  /** All rays read off the map as it was before the explosion. */
  ghost function Simultaneous(w: Walls, c: Cell, dirs: set<Cell>, length: Cell -> int): (set<Cell>, set<Cell>) {
    var effects := set d, e | d in dirs && e in Arm(w, c, d, length(d)) :: e;
    (effects, w.breakable - effects)
  }

  ghost predicate Injective<T>(s: seq<T>) {
    forall i, j | 0 <= i < j < |s| :: s[i] != s[j]
  }

  ghost function Elements<T>(s: seq<T>): set<T> {
    set x | x in s
  }

  /** Whatever order the directions are fired in, the result is the simultaneous one. */
  lemma {:induction false} FiringOrderIsIrrelevant(w: Walls, c: Cell, order: seq<Cell>, length: Cell -> int)
    requires Injective(order) && forall d | d in order :: d in DIRECTIONS
    ensures Fire(w, c, order, length) == Simultaneous(w, c, Elements(order), length)
    decreases |order|
  {
    if order == [] {
      var effects := Simultaneous(w, c, Elements(order), length).0;
      assert forall d :: d !in Elements(order);
      assert forall e :: e !in effects;
      assert effects == {};
      assert w.breakable - effects == w.breakable;
    } else {
      var d, rest := order[0], order[1..];
      var gone := Broken(w, c, d, length(d));
      var w' := w.(breakable := w.breakable - gone);
      FiringOrderIsIrrelevant(w', c, rest, length);
      forall d' | d' in rest
        ensures Arm(w', c, d', length(d')) == Arm(w, c, d', length(d'))
      {
        forall k: int | 1 <= k <= length(d') ensures Blast.Step(c, d', k) !in gone {
          if Blast.Step(c, d', k) in gone {
            var k' :| 1 <= k' <= length(d) && Blast.Step(c, d', k) == Blast.Step(c, d, k');
            StepsAreDistinct(c, d', k, d, k');
            assert false;
          }
        }
        ArmIgnoresOtherCells(w, gone, c, d', length(d'));
      }
      assert Elements(order) == {d} + Elements(rest);
      var all := Simultaneous(w, c, Elements(order), length).0;
      var later := Simultaneous(w, c, Elements(rest), length).0;
      assert all == Arm(w, c, d, length(d)) + later;
      assert Simultaneous(w', c, Elements(rest), length).0 == later;
      assert (w.breakable - gone) - later == w.breakable - all;
      assert Fire(w, c, order, length).0 == all;
      assert Fire(w, c, order, length).1 == w.breakable - all;
    }
  }

  /** Membership in the simultaneous picture, spelled out. */
  lemma BurntCells(w: Walls, c: Cell, dirs: set<Cell>, length: Cell -> int, e: Cell)
    ensures e in Simultaneous(w, c, dirs, length).0
       <==> exists d, k: int :: d in dirs && Burns(w, c, d, length(d), k) && e == Blast.Step(c, d, k)
  {
    if e in Simultaneous(w, c, dirs, length).0 {
      var d :| d in dirs && e in Arm(w, c, d, length(d));
      var k: int :| 1 <= k <= length(d) && Burns(w, c, d, length(d), k) && e == Blast.Step(c, d, k);
    }
    if d, k: int :| d in dirs && Burns(w, c, d, length(d), k) && e == Blast.Step(c, d, k) {
      assert e in Arm(w, c, d, length(d));
    }
  }

  /** The whole picture: the centre, then the four arms. */
  ghost function Effects(w: Walls, c: Cell, length: Cell -> int): set<Cell> {
    {c} + Simultaneous(w, c, Elements(DIRECTIONS), length).0
  }

  /** A cell of a ray is in the picture exactly if that ray burns it. */
  lemma RayCellIff(w: Walls, c: Cell, length: Cell -> int, d: Cell, k: int)
    requires d in DIRECTIONS && k >= 1
    ensures Blast.Step(c, d, k) in Effects(w, c, length) <==> Burns(w, c, d, length(d), k)
  {
    var e := Blast.Step(c, d, k);
    StepLeavesCentre(c, d, k);
    BurntCells(w, c, Elements(DIRECTIONS), length, e);
    if e in Effects(w, c, length) {
      var d', k': int :| d' in Elements(DIRECTIONS) && Burns(w, c, d', length(d'), k') && e == Blast.Step(c, d', k');
      StepsAreDistinct(c, d, k, d', k');
    }
    assert d in Elements(DIRECTIONS);
  }

  lemma CentreIsNoRayCell(w: Walls, c: Cell, length: Cell -> int)
    ensures c !in Simultaneous(w, c, Elements(DIRECTIONS), length).0
  {
    BurntCells(w, c, Elements(DIRECTIONS), length, c);
    if d, k: int :| d in Elements(DIRECTIONS) && Burns(w, c, d, length(d), k) && c == Blast.Step(c, d, k) {
      StepLeavesCentre(c, d, k);
      assert false;
    }
  }

  /** Removing walls, or making solid ones breakable, never protects a cell. */
  lemma FewerWallsNeverShrinkTheBlast(w: Walls, w': Walls, c: Cell, length: Cell -> int)
    requires forall e :: w'.solid(e) ==> w.solid(e)
    requires forall e | e in w'.breakable :: e in w.breakable || w.solid(e)
    ensures Effects(w, c, length) <= Effects(w', c, length)
  {
    forall d, k: int | d in DIRECTIONS && Burns(w, c, d, length(d), k)
      ensures Burns(w', c, d, length(d), k)
    {
      forall j | 1 <= j < k ensures Blast.Step(c, d, j) !in w'.breakable {
        assert !w.solid(Blast.Step(c, d, j));
      }
    }
    forall e | e in Effects(w, c, length) && e != c ensures e in Effects(w', c, length) {
      var d :| d in Elements(DIRECTIONS) && e in Arm(w, c, d, length(d));
      assert e in Arm(w', c, d, length(d));
    }
  }

  /** A burst of some bomb: where it stands and how far it reaches in each direction. */
  datatype Burst = Burst(center: Cell, length: Cell -> int)

  ghost function WallsAfter(w: Walls, bursts: seq<Burst>): Walls {
    if bursts == [] then w
    else
      var before, b := WallsAfter(w, bursts[..|bursts| - 1]), bursts[|bursts| - 1];
      before.(breakable := Simultaneous(before, b.center, Elements(DIRECTIONS), b.length).1)
  }

  /** While a bomb's tween runs, other bombs may burst. Whichever do, and in whatever order, its own blast only
      grows. */
  lemma {:induction false} WaitingNeverShrinksTheBlast(w: Walls, bursts: seq<Burst>, c: Cell, length: Cell -> int)
    ensures WallsAfter(w, bursts).solid == w.solid && WallsAfter(w, bursts).breakable <= w.breakable
    ensures Effects(w, c, length) <= Effects(WallsAfter(w, bursts), c, length)
  {
    if bursts != [] {
      WaitingNeverShrinksTheBlast(w, bursts[..|bursts| - 1], c, length);
      FewerWallsNeverShrinkTheBlast(w, WallsAfter(w, bursts), c, length);
    }
  }

  /** The client never shows fire where the server would not wound. */
  lemma EffectsLieInServerCross(w: Walls, c: Cell, length: Cell -> int, radius: int, e: Cell)
    requires forall d | d in DIRECTIONS :: length(d) <= radius
    requires e in Effects(w, c, length)
    ensures Blast.IsPlayerInExplosion(e.x, e.y, c.x, c.y, radius)
  {
    BurntCells(w, c, Elements(DIRECTIONS), length, e);
    Blast.CrossIsFourArms(e, c, radius);
  }

  /** Nothing cuts an arm short of `radius` steps. */
  ghost predicate Unobstructed(w: Walls, c: Cell, length: Cell -> int, radius: int) {
    forall d | d in Elements(DIRECTIONS) && 1 <= radius ::
      && radius <= length(d)
      && (forall k | 1 <= k <= radius :: !w.solid(Blast.Step(c, d, k)))
      && (forall k | 1 <= k < radius :: Blast.Step(c, d, k) !in w.breakable)
  }

  ghost predicate FillsCross(w: Walls, c: Cell, length: Cell -> int, radius: int) {
    forall e: Cell | Blast.IsPlayerInExplosion(e.x, e.y, c.x, c.y, radius) :: e in Effects(w, c, length)
  }

  /** The server ignores walls, so the two pictures agree exactly when no wall or limit cuts an arm. */
  lemma EffectsFillServerCrossIff(w: Walls, c: Cell, length: Cell -> int, radius: int)
    requires forall d | d in DIRECTIONS :: length(d) <= radius
    ensures FillsCross(w, c, length, radius) <==> Unobstructed(w, c, length, radius)
  {
    if Unobstructed(w, c, length, radius) {
      forall e: Cell | Blast.IsPlayerInExplosion(e.x, e.y, c.x, c.y, radius)
        ensures e in Effects(w, c, length)
      {
        Blast.CrossIsFourArms(e, c, radius);
        BurntCells(w, c, Elements(DIRECTIONS), length, e);
        if e != c {
          var d, k: int :| d in DIRECTIONS && 1 <= k <= radius && e == Blast.Step(c, d, k);
          assert d in Elements(DIRECTIONS);
          assert Burns(w, c, d, length(d), k);
        }
      }
    }
    if FillsCross(w, c, length, radius) {
      forall d | d in Elements(DIRECTIONS) && 1 <= radius
        ensures Burns(w, c, d, length(d), radius)
      {
        ArmEndBurns(w, c, length, radius, d);
      }
    }
  }

  lemma ArmEndBurns(w: Walls, c: Cell, length: Cell -> int, radius: int, d: Cell)
    requires FillsCross(w, c, length, radius)
    requires d in Elements(DIRECTIONS) && 1 <= radius
    ensures Burns(w, c, d, length(d), radius)
  {
    var e := Blast.Step(c, d, radius);
    assert Blast.InCross(e, c, radius) by {
      assert d in DIRECTIONS && 1 <= radius <= radius && e == Blast.Step(c, d, radius);
    }
    Blast.CrossIsFourArms(e, c, radius);
    assert e != c by {
      StepLeavesCentre(c, d, radius);
    }
    assert e in Simultaneous(w, c, Elements(DIRECTIONS), length).0;
    BurntCells(w, c, Elements(DIRECTIONS), length, e);
    var d', k': int :| d' in Elements(DIRECTIONS) && Burns(w, c, d', length(d'), k') && e == Blast.Step(c, d', k');
    StepsAreDistinct(c, d, radius, d', k');
  }

  /** The tile layer whose breakable walls an explosion erases. */
  class WallLayer {
    const solid: Cell -> bool
    var breakable: set<Cell>

    constructor (solid: Cell -> bool, breakable: set<Cell>)
      ensures this.solid == solid && this.breakable == breakable
    {
      this.solid := solid;
      this.breakable := breakable;
    }

    ghost function View(): Walls
      reads this
    {
      Walls(solid, breakable)
    }

    method Destroy(c: Cell)
      modifies this
      ensures breakable == old(breakable) - {c}
    {
      breakable := breakable - {c};
    }
  }

  class Bomb {
    const center: Cell
    const explosionLength: int
    const limits: Cell -> int
    const wallLayer: WallLayer
    var isExploded: bool

    constructor (center: Cell, explosionLength: int, limits: Cell -> int, wallLayer: WallLayer)
      ensures this.center == center && this.explosionLength == explosionLength
      ensures this.limits == limits && this.wallLayer == wallLayer && !isExploded
    {
      this.center := center;
      this.explosionLength := explosionLength;
      this.limits := limits;
      this.wallLayer := wallLayer;
      isExploded := false;
    }

    function LengthOf(d: Cell): int {
      if explosionLength < limits(d) then explosionLength else limits(d)
    }

    /** The fuse and the server may both call this; only the first call starts the tween that ends in DoExplode. */
    method Explode() returns (scheduled: bool)
      modifies this
      ensures isExploded && (scheduled <==> !old(isExploded))
    {
      if isExploded {
        return false;
      }
      isExploded := true;
      return true;
    }

    /** The end of the tween: burns whatever the walls are by then. */
    method DoExplode() returns (effects: seq<Cell>)
      modifies wallLayer
      ensures center in effects
      ensures forall d, k: int | d in DIRECTIONS && k >= 1 ::
        Blast.Step(center, d, k) in effects
        <==> && k <= explosionLength && k <= limits(d)
             && (forall j | 1 <= j <= k :: !wallLayer.solid(Blast.Step(center, d, j)))
             && (forall j | 1 <= j < k :: Blast.Step(center, d, j) !in old(wallLayer.breakable))
      ensures forall e | e in effects :: Blast.IsPlayerInExplosion(e.x, e.y, center.x, center.y, explosionLength)
      ensures forall c ::
        c in wallLayer.breakable <==> c in old(wallLayer.breakable) && (c == center || c !in effects)
      ensures Elements(effects) == Effects(old(wallLayer.View()), center, LengthOf)
      ensures wallLayer.breakable == Simultaneous(old(wallLayer.View()), center, Elements(DIRECTIONS), LengthOf).1
    {
      var rays := FireRays(DIRECTIONS);
      FiringOrderIsIrrelevant(old(wallLayer.View()), center, DIRECTIONS, LengthOf);
      effects := [center] + rays;
      assert Elements(effects) == {center} + Elements(rays);
      forall d, k: int | d in DIRECTIONS && k >= 1
        ensures Blast.Step(center, d, k) in effects <==> Burns(old(wallLayer.View()), center, d, LengthOf(d), k)
      {
        RayCellIff(old(wallLayer.View()), center, LengthOf, d, k);
        assert Blast.Step(center, d, k) in effects <==> Blast.Step(center, d, k) in Elements(effects);
      }
      forall e | e in effects ensures Blast.IsPlayerInExplosion(e.x, e.y, center.x, center.y, explosionLength) {
        assert e in Elements(effects);
        EffectsLieInServerCross(old(wallLayer.View()), center, LengthOf, explosionLength, e);
      }
      CentreIsNoRayCell(old(wallLayer.View()), center, LengthOf);
      assert forall c :: c in effects <==> c in Elements(effects);
    }

    /** The loop over the directions. */
    method FireRays(order: seq<Cell>) returns (effects: seq<Cell>)
      requires forall d | d in order :: d in DIRECTIONS
      modifies wallLayer
      ensures (Elements(effects), wallLayer.breakable) == Fire(old(wallLayer.View()), center, order, LengthOf)
    {
      effects := [];
      ghost var whole := Fire(wallLayer.View(), center, order, LengthOf);
      assert order[0..] == order && Elements(effects) == {};
      var n := 0;
      while n < |order|
        invariant 0 <= n <= |order|
        invariant whole.0 == Elements(effects) + Fire(wallLayer.View(), center, order[n..], LengthOf).0
        invariant whole.1 == Fire(wallLayer.View(), center, order[n..], LengthOf).1
      {
        ghost var before := Elements(effects);
        ghost var w := wallLayer.View();
        assert order[n..][0] == order[n] && order[n..][1..] == order[n + 1..];
        var ray := FireRay(order[n]);
        effects := effects + ray;
        assert Elements(effects) == before + Elements(ray);
        assert wallLayer.View() == w.(breakable := w.breakable - Broken(w, center, order[n], LengthOf(order[n])));
        n := n + 1;
      }
    }

    /** One direction of the nested loop. */
    method FireRay(d: Cell) returns (effects: seq<Cell>)
      requires d in DIRECTIONS
      modifies wallLayer
      ensures Elements(effects) == Arm(old(wallLayer.View()), center, d, LengthOf(d))
      ensures wallLayer.breakable == old(wallLayer.breakable) - Broken(old(wallLayer.View()), center, d, LengthOf(d))
      ensures forall i | 0 <= i < |effects| :: effects[i] == Blast.Step(center, d, i + 1)
      ensures effects == [] || (|effects| <= explosionLength && |effects| <= limits(d))
    {
      effects := [];
      ghost var w0 := wallLayer.View();
      var length := LengthOf(d);
      var i := 1;
      while i <= length
        invariant 1 <= i && (i <= length + 1 || i == 1)
        invariant |effects| == i - 1
        invariant forall j | 0 <= j < |effects| :: effects[j] == Blast.Step(center, d, j + 1)
        invariant forall j | 1 <= j < i :: !w0.solid(Blast.Step(center, d, j))
        invariant forall j | 1 <= j < i :: Blast.Step(center, d, j) !in w0.breakable
        invariant wallLayer.breakable == w0.breakable
      {
        var cell := center.Plus(d.Times(i));
        assert cell == Blast.Step(center, d, i);
        if wallLayer.solid(cell) {
          break;
        }
        if cell in wallLayer.breakable {
          wallLayer.Destroy(cell);
          effects := effects + [cell];
          i := i + 1;
          break;
        }
        effects := effects + [cell];
        i := i + 1;
      }
      ArmFromPrefix(w0, center, d, length, effects);
      assert Broken(w0, center, d, length) == Elements(effects) * w0.breakable;
    }
  }

  /** A list of the first steps of a ray, none blocked before its end and stopped for cause, is the arm. */
  lemma ArmFromPrefix(w: Walls, c: Cell, d: Cell, length: int, cells: seq<Cell>)
    requires forall i | 0 <= i < |cells| :: cells[i] == Blast.Step(c, d, i + 1)
    requires |cells| == 0 || |cells| <= length
    requires forall k | 1 <= k <= |cells| :: !w.solid(Blast.Step(c, d, k))
    requires forall k | 1 <= k < |cells| :: Blast.Step(c, d, k) !in w.breakable
    requires || |cells| >= length
             || w.solid(Blast.Step(c, d, |cells| + 1))
             || (|cells| > 0 && Blast.Step(c, d, |cells|) in w.breakable)
    ensures Elements(cells) == Arm(w, c, d, length)
  {
    forall k: int | 1 <= k <= length ensures Burns(w, c, d, length, k) <==> k <= |cells| {
    }
    forall e | e in Elements(cells) ensures e in Arm(w, c, d, length) {
      var i :| 0 <= i < |cells| && cells[i] == e;
      assert Burns(w, c, d, length, i + 1);
    }
    forall e | e in Arm(w, c, d, length) ensures e in Elements(cells) {
      var k: int :| 1 <= k <= length && Burns(w, c, d, length, k) && e == Blast.Step(c, d, k);
      assert cells[k - 1] == e;
    }
  }
}
