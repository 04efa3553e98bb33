/** Item shapes: lists of cells relative to an origin, and their quarter turns. */
module Shapes {
  import opened Geometry

  type Shape = seq<Cell>

  /** The cells a shape covers when its origin is put at `origin`. */
  function Footprint(shape: Shape, origin: Cell): set<Cell> {
    set i | 0 <= i < |shape| :: origin.Plus(shape[i])
  }

  /** Cells that reach furthest left, right, up and down. */
  lemma {:induction false} Extremes(s: Shape) returns (left: nat, right: nat, top: nat, bottom: nat)
    requires s != []
    ensures left < |s| && right < |s| && top < |s| && bottom < |s|
    ensures forall i | 0 <= i < |s| :: s[left].x <= s[i].x <= s[right].x && s[top].y <= s[i].y <= s[bottom].y
  {
    if |s| == 1 {
      left, right, top, bottom := 0, 0, 0, 0;
    } else {
      var n := |s| - 1;
      left, right, top, bottom := Extremes(s[..n]);
      assert forall i | 0 <= i < n :: s[..n][i] == s[i];
      if s[n].x < s[left].x { left := n; }
      if s[n].x > s[right].x { right := n; }
      if s[n].y < s[top].y { top := n; }
      if s[n].y > s[bottom].y { bottom := n; }
    }
  }

  /** What rotateItem's running minima, which start at 0, arrive at. */
  ghost predicate IsMinX(s: Shape, m: int) {
    m <= 0 && (forall i | 0 <= i < |s| :: m <= s[i].x) && (m == 0 || exists i :: 0 <= i < |s| && s[i].x == m)
  }

  ghost predicate IsMinY(s: Shape, m: int) {
    m <= 0 && (forall i | 0 <= i < |s| :: m <= s[i].y) && (m == 0 || exists i :: 0 <= i < |s| && s[i].y == m)
  }

  lemma MinimaExist(s: Shape)
    ensures exists m :: IsMinX(s, m)
    ensures exists m :: IsMinY(s, m)
  {
    if s == [] {
      assert IsMinX(s, 0) && IsMinY(s, 0);
    } else {
      var left, right, top, bottom := Extremes(s);
      assert IsMinX(s, if s[left].x < 0 then s[left].x else 0);
      assert IsMinY(s, if s[top].y < 0 then s[top].y else 0);
    }
  }

  ghost function MinX(s: Shape): int {
    MinimaExist(s);
    var m :| IsMinX(s, m);
    m
  }

  ghost function MinY(s: Shape): int {
    MinimaExist(s);
    var m :| IsMinY(s, m);
    m
  }

  lemma MinimaAreLeast(s: Shape)
    ensures IsMinX(s, MinX(s)) && IsMinY(s, MinY(s))
  {
    MinimaExist(s);
  }

  lemma MinimaAreUnique(s: Shape, m: int)
    ensures IsMinX(s, m) ==> m == MinX(s)
    ensures IsMinY(s, m) ==> m == MinY(s)
  {
    MinimaAreLeast(s);
  }

  /** Clockwise: (x, y) -> (-y, x). */
  function Turn(c: Cell): Cell {
    Cell(-c.y, c.x)
  }

  function TurnAll(s: Shape): Shape {
    seq(|s|, i requires 0 <= i < |s| => Turn(s[i]))
  }

  function Shift(s: Shape, d: Cell): Shape {
    seq(|s|, i requires 0 <= i < |s| => s[i].Minus(d))
  }

  type QuarterTurns = n: nat | n < 4

  /** One quarter turn, pulled back so that no coordinate is negative. */
  ghost function Rotate(s: Shape): Shape {
    Shift(TurnAll(s), Cell(MinX(TurnAll(s)), MinY(TurnAll(s))))
  }

  ghost function Turned(s: Shape, turns: nat): Shape {
    if turns == 0 then s else Rotate(Turned(s, turns - 1))
  }

  ghost predicate NonNegative(s: Shape) {
    forall i | 0 <= i < |s| :: s[i].x >= 0 && s[i].y >= 0
  }

  /** The bounding box starts at the origin. */
  ghost predicate Normalized(s: Shape) {
    NonNegative(s) && (exists i :: 0 <= i < |s| && s[i].x == 0) && (exists i :: 0 <= i < |s| && s[i].y == 0)
  }

  /** A box w wide and h high, starting at the origin. */
  ghost predicate BoxIs(s: Shape, w: int, h: int) {
    && NonNegative(s)
    && (forall i | 0 <= i < |s| :: s[i].x <= w && s[i].y <= h)
    && (exists i :: 0 <= i < |s| && s[i].x == 0) && (exists i :: 0 <= i < |s| && s[i].y == 0)
    && (exists i :: 0 <= i < |s| && s[i].x == w) && (exists i :: 0 <= i < |s| && s[i].y == h)
  }

  lemma BoxOf(s: Shape) returns (w: int, h: int)
    requires s != [] && Normalized(s)
    ensures BoxIs(s, w, h)
  {
    var left, right, top, bottom := Extremes(s);
    w, h := s[right].x, s[bottom].y;
  }

  lemma MinimaOfTurned(s: Shape, h: int)
    requires NonNegative(s) && (exists i :: 0 <= i < |s| && s[i].x == 0)
    requires (exists i :: 0 <= i < |s| && s[i].y == h) && forall i | 0 <= i < |s| :: s[i].y <= h
    ensures MinX(TurnAll(s)) == -h && MinY(TurnAll(s)) == 0
  {
    var t := TurnAll(s);
    MinimaAreLeast(t);
    var i :| 0 <= i < |s| && s[i].y == h;
    var j :| 0 <= j < |s| && s[j].x == 0;
    assert t[i].x == -h && t[j].y == 0;
    assert forall k | 0 <= k < |s| :: t[k].x >= -h && t[k].y >= 0;
  }

  /** A quarter turn of a normalized shape is a plain reflection of its coordinates in its box. */
  lemma RotateOfBox(s: Shape, w: int, h: int)
    requires BoxIs(s, w, h)
    ensures |Rotate(s)| == |s| && forall i | 0 <= i < |s| :: Rotate(s)[i] == Cell(h - s[i].y, s[i].x)
    ensures BoxIs(Rotate(s), h, w)
  {
    MinimaOfTurned(s, h);
    ReflectedBox(s, Rotate(s), w, h);
  }

  lemma ReflectedBox(s: Shape, r: Shape, w: int, h: int)
    requires BoxIs(s, w, h) && |r| == |s| && forall i | 0 <= i < |s| :: r[i] == Cell(h - s[i].y, s[i].x)
    ensures BoxIs(r, h, w)
  {
    var top :| 0 <= top < |s| && s[top].y == 0;
    var bottom :| 0 <= bottom < |s| && s[bottom].y == h;
    var left :| 0 <= left < |s| && s[left].x == 0;
    var right :| 0 <= right < |s| && s[right].x == w;
    assert r[bottom].x == 0 && r[top].x == h && r[left].y == 0 && r[right].y == w;
  }

  lemma TwoTurnsOfBox(s: Shape, w: int, h: int)
    requires BoxIs(s, w, h)
    ensures var r := Rotate(Rotate(s));
      |r| == |s| && BoxIs(r, w, h) && forall i | 0 <= i < |s| :: r[i] == Cell(w - s[i].x, h - s[i].y)
  {
    var one := Rotate(s);
    RotateOfBox(s, w, h);
    RotateOfBox(one, h, w);
    QuarterReflectionTwice(s, one, Rotate(one), w, h);
  }

  lemma QuarterReflectionTwice(s: Shape, one: Shape, two: Shape, w: int, h: int)
    requires |s| == |one| == |two|
    requires forall i | 0 <= i < |s| :: one[i] == Cell(h - s[i].y, s[i].x)
    requires forall i | 0 <= i < |s| :: two[i] == Cell(w - one[i].y, one[i].x)
    ensures forall i | 0 <= i < |s| :: two[i] == Cell(w - s[i].x, h - s[i].y)
  {
  }

  lemma RotateTouchesLeft(s: Shape)
    requires s != []
    ensures |Rotate(s)| == |s| && NonNegative(Rotate(s))
    ensures NonNegative(s) ==> exists i :: 0 <= i < |s| && Rotate(s)[i].x == 0
  {
    var t, r := TurnAll(s), Rotate(s);
    MinimaAreLeast(t);
    forall i | 0 <= i < |s| ensures r[i].x == t[i].x - MinX(t) && r[i].y == t[i].y - MinY(t) {}
    if NonNegative(s) {
      if MinX(t) == 0 {
        assert t[0].x == -s[0].y;
        assert r[0].x == 0;
      } else {
        var i :| 0 <= i < |t| && t[i].x == MinX(t);
        assert r[i].x == 0;
      }
    }
  }

  lemma RotateTouchesTop(s: Shape)
    requires NonNegative(s) && exists i :: 0 <= i < |s| && s[i].x == 0
    ensures |Rotate(s)| == |s| && exists i :: 0 <= i < |s| && Rotate(s)[i].y == 0
  {
    var left, right, top, bottom := Extremes(s);
    MinimaOfTurned(s, s[bottom].y);
    assert Rotate(s)[left].y == 0;
  }

  /** Whatever the shape, a third turn leaves it in a box at the origin. */
  lemma ThreeTurnsNormalize(s: Shape)
    requires s != []
    ensures |Turned(s, 3)| == |s| && Normalized(Turned(s, 3))
  {
    var one, two := Rotate(s), Rotate(Rotate(s));
    RotateTouchesLeft(s);
    RotateTouchesLeft(one);
    RotateTouchesLeft(two);
    RotateTouchesTop(two);
    TurnedStep(s, 0);
    TurnedStep(s, 1);
    TurnedStep(s, 2);
  }

  lemma TurnedStep(s: Shape, turns: nat)
    ensures Turned(s, 0) == s && Turned(s, turns + 1) == Rotate(Turned(s, turns))
  {
  }

  /* Where (0, 0) comes from */

  /** How far down a shape reaches, counting from row 0. */
  ghost predicate IsMaxY(s: Shape, m: int) {
    m >= 0 && (forall i | 0 <= i < |s| :: s[i].y <= m) && (m == 0 || exists i :: 0 <= i < |s| && s[i].y == m)
  }

  lemma MinimaAfterTurn(s: Shape, m: int)
    requires IsMaxY(s, m)
    ensures MinX(TurnAll(s)) == -m && MinY(TurnAll(s)) == MinX(s)
  {
    var t := TurnAll(s);
    MinimaAreLeast(s);
    if m != 0 {
      var i :| 0 <= i < |s| && s[i].y == m;
      assert t[i].x == -m;
    }
    if MinX(s) != 0 {
      var i :| 0 <= i < |s| && s[i].x == MinX(s);
      assert t[i].y == MinX(s);
    }
    MinimaAreUnique(t, -m);
    MinimaAreUnique(t, MinX(s));
  }

  lemma RotateAt(s: Shape, m: int)
    requires IsMaxY(s, m)
    ensures |Rotate(s)| == |s| && forall i | 0 <= i < |s| :: Rotate(s)[i] == Cell(m - s[i].y, s[i].x - MinX(s))
  {
    MinimaAfterTurn(s, m);
  }

  /** The comment in rotateItem says that the turned shape contains (0, 0). For any shape it does exactly if the cell
      in the leftmost column and the lowest row was there, both counted from the origin. */
  lemma CornerAfterTurnIff(s: Shape, m: int)
    requires IsMaxY(s, m)
    ensures Cell(0, 0) in Rotate(s) <==> Cell(MinX(s), m) in s
  {
    RotateAt(s, m);
    CellComesFrom(s, Rotate(s), Cell(MinX(s), m), Cell(0, 0));
  }

  lemma CellComesFrom(s: Shape, r: Shape, c: Cell, d: Cell)
    requires |r| == |s| && forall i | 0 <= i < |s| :: r[i] == d <==> s[i] == c
    ensures d in r <==> c in s
  {
    if d in r {
      var i :| 0 <= i < |r| && r[i] == d;
      assert s[i] == c;
    }
    if c in s {
      var i :| 0 <= i < |s| && s[i] == c;
      assert r[i] == d;
    }
  }

  /** For a shape w wide and h high, one, two and three turns each bring another corner of its box to (0, 0). */
  lemma CornerAfterTurnsIff(s: Shape, w: int, h: int)
    requires BoxIs(s, w, h)
    ensures Cell(0, 0) in Rotate(s) <==> Cell(0, h) in s
    ensures Cell(0, 0) in Rotate(Rotate(s)) <==> Cell(w, h) in s
    ensures Cell(0, 0) in Rotate(Rotate(Rotate(s))) <==> Cell(w, 0) in s
  {
    var one := Rotate(s);
    RotateOfBox(s, w, h);
    CellComesFrom(s, one, Cell(0, h), Cell(0, 0));
    CellComesFrom(s, one, Cell(w, 0), Cell(h, w));
    CornerAfterTwoTurnsIff(s, w, h);
    CornerAfterTwoTurnsIff(one, h, w);
  }

  lemma CornerAfterTwoTurnsIff(s: Shape, w: int, h: int)
    requires BoxIs(s, w, h)
    ensures Cell(0, 0) in Rotate(Rotate(s)) <==> Cell(w, h) in s
  {
    TwoTurnsOfBox(s, w, h);
    CellComesFrom(s, Rotate(Rotate(s)), Cell(w, h), Cell(0, 0));
  }

  /** A resource in use: three turns of the epic shield, which lacks the top right corner of its box. */
  lemma TurnsCanMissTheCorner(shield: Shape)
    requires |shield| == 3 && shield[0] == Cell(0, 0) && shield[1] == Cell(0, 1) && shield[2] == Cell(1, 1)
    ensures Normalized(shield) && Cell(0, 0) !in Rotate(Rotate(Rotate(shield)))
  {
    ShieldBox(shield);
    CornerAfterTurnsIff(shield, 1, 1);
  }

  lemma ShieldBox(shield: Shape)
    requires |shield| == 3 && shield[0] == Cell(0, 0) && shield[1] == Cell(0, 1) && shield[2] == Cell(1, 1)
    ensures BoxIs(shield, 1, 1) && Cell(1, 0) !in shield
  {
  }

  lemma FourTurnsOfBox(s: Shape, w: int, h: int)
    requires BoxIs(s, w, h)
    ensures Rotate(Rotate(Rotate(Rotate(s)))) == s
  {
    var two := Rotate(Rotate(s));
    TwoTurnsOfBox(s, w, h);
    TwoTurnsOfBox(two, w, h);
    PointReflectionTwice(s, two, Rotate(Rotate(two)), w, h);
  }

  lemma PointReflectionTwice(s: Shape, two: Shape, four: Shape, w: int, h: int)
    requires |s| == |two| == |four|
    requires forall i | 0 <= i < |s| :: two[i] == Cell(w - s[i].x, h - s[i].y)
    requires forall i | 0 <= i < |s| :: four[i] == Cell(w - two[i].x, h - two[i].y)
    ensures four == s
  {
  }

  /** Four quarter turns give a shape back exactly when its bounding box starts at the origin. */
  lemma FourTurnsIff(s: Shape)
    requires s != []
    ensures Turned(s, 4) == s <==> Normalized(s)
  {
    TurnedStep(s, 0);
    TurnedStep(s, 1);
    TurnedStep(s, 2);
    TurnedStep(s, 3);
    if Normalized(s) {
      var w, h := BoxOf(s);
      FourTurnsOfBox(s, w, h);
    } else {
      ThreeTurnsNormalize(s);
      var w, h := BoxOf(Turned(s, 3));
      RotateOfBox(Turned(s, 3), w, h);
    }
  }

  lemma LastTurnWraps(s: Shape)
    requires s == [] || Normalized(s)
    ensures Turned(s, 0) == Rotate(Turned(s, 3))
  {
    TurnedStep(s, 3);
    if s == [] {
      TurnedKeepsRepetitions(s, 4);
    } else {
      FourTurnsIff(s);
    }
  }

  /** Counting turns modulo four is exact below four, and beyond for shapes that start at the origin. */
  lemma TurnsWrap(s: Shape, turns: QuarterTurns)
    requires turns < 3 || s == [] || Normalized(s)
    ensures Turned(s, if turns < 3 then turns + 1 else 0) == Rotate(Turned(s, turns))
  {
    if turns == 3 {
      LastTurnWraps(s);
    } else {
      TurnedStep(s, turns);
    }
  }

  /* Turning and the cells covered */

  /** The two shapes cover the same cells. */
  ghost predicate SameCells(s: Shape, t: Shape) {
    forall c :: c in s <==> c in t
  }

  lemma SameCellsIffSameFootprint(s: Shape, t: Shape, p: Cell)
    ensures SameCells(s, t) <==> Footprint(s, p) == Footprint(t, p)
  {
    forall c ensures c in s <==> p.Plus(c) in Footprint(s, p) {
      InFootprint(s, p, c);
    }
    forall c ensures c in t <==> p.Plus(c) in Footprint(t, p) {
      InFootprint(t, p, c);
    }
    if SameCells(s, t) {
      assert forall c | c in Footprint(s, p) :: c == p.Plus(c.Minus(p)) && c in Footprint(t, p);
      assert forall c | c in Footprint(t, p) :: c == p.Plus(c.Minus(p)) && c in Footprint(s, p);
    }
  }

  lemma InFootprint(s: Shape, p: Cell, c: Cell)
    ensures c in s <==> p.Plus(c) in Footprint(s, p)
  {
    if p.Plus(c) in Footprint(s, p) {
      var i :| 0 <= i < |s| && p.Plus(c) == p.Plus(s[i]);
      assert s[i] == c;
    }
    if c in s {
      var i :| 0 <= i < |s| && s[i] == c;
    }
  }

  lemma SameCellsChain(s: Shape, t: Shape, u: Shape)
    requires SameCells(s, t) && SameCells(t, u)
    ensures SameCells(s, u)
  {
  }

  /** Turning respects the cells covered, whatever the order and repetition in the list. */
  lemma RotateKeepsSameCells(s: Shape, t: Shape)
    requires SameCells(s, t)
    ensures SameCells(Rotate(s), Rotate(t))
  {
    var m := LowestRow(s);
    SameLowestRow(s, t, m);
    SameLeftmost(s, t);
    RotateAt(s, m);
    RotateAt(t, m);
    forall c ensures c in Rotate(s) <==> c in Rotate(t) {
      var before := Cell(c.y + MinX(s), m - c.x);
      CellComesFrom(s, Rotate(s), before, c);
      CellComesFrom(t, Rotate(t), before, c);
    }
  }

  lemma LowestRow(s: Shape) returns (m: int)
    ensures IsMaxY(s, m)
  {
    m := 0;
    if s != [] {
      var left, right, top, bottom := Extremes(s);
      if s[bottom].y > 0 {
        m := s[bottom].y;
      }
    }
  }

  lemma SameLowestRow(s: Shape, t: Shape, m: int)
    requires SameCells(s, t) && IsMaxY(s, m)
    ensures IsMaxY(t, m)
  {
    forall i | 0 <= i < |t| ensures t[i].y <= m {
      assert t[i] in s;
    }
    if m != 0 {
      var i :| 0 <= i < |s| && s[i].y == m;
      assert s[i] in t;
    }
  }

  lemma SameLeftmost(s: Shape, t: Shape)
    requires SameCells(s, t)
    ensures MinX(t) == MinX(s)
  {
    MinimaAreLeast(s);
    forall i | 0 <= i < |t| ensures MinX(s) <= t[i].x {
      assert t[i] in s;
    }
    if MinX(s) != 0 {
      var i :| 0 <= i < |s| && s[i].x == MinX(s);
      assert s[i] in t;
    }
    MinimaAreUnique(t, MinX(s));
  }

  lemma SameNormalized(s: Shape, t: Shape)
    requires SameCells(s, t) && Normalized(s)
    ensures Normalized(t)
  {
    forall i | 0 <= i < |t| ensures t[i].x >= 0 && t[i].y >= 0 {
      assert t[i] in s;
    }
    var i :| 0 <= i < |s| && s[i].x == 0;
    var j :| 0 <= j < |s| && s[j].y == 0;
    assert s[i] in t && s[j] in t;
  }

  /** Turning both shapes loses nothing, as long as both start at the origin. */
  lemma TurnedTogetherIff(s: Shape, t: Shape)
    requires Normalized(s) && Normalized(t)
    ensures SameCells(Rotate(s), Rotate(t)) <==> SameCells(s, t)
  {
    if SameCells(s, t) {
      RotateKeepsSameCells(s, t);
    }
    if SameCells(Rotate(s), Rotate(t)) {
      var w, h := BoxOf(s);
      var v, g := BoxOf(t);
      FourTurnsOfBox(s, w, h);
      FourTurnsOfBox(t, v, g);
      RotateKeepsSameCells(Rotate(s), Rotate(t));
      RotateKeepsSameCells(Rotate(Rotate(s)), Rotate(Rotate(t)));
      RotateKeepsSameCells(Rotate(Rotate(Rotate(s))), Rotate(Rotate(Rotate(t))));
    }
  }

  /** The box of the shape meets column 0 and everything left of it, and row 0 and everything below. */
  ghost predicate ReachesCorner(s: Shape) {
    (exists i :: 0 <= i < |s| && s[i].x <= 0) && (exists i :: 0 <= i < |s| && s[i].y >= 0)
  }

  /** One turn brings a shape to the origin exactly if it reaches that corner. */
  lemma TurnNormalizesIff(s: Shape)
    ensures Normalized(Rotate(s)) <==> ReachesCorner(s)
  {
    var m := LowestRow(s);
    RotateAt(s, m);
    MinimaAreLeast(s);
    var r := Rotate(s);
    if Normalized(r) {
      var i :| 0 <= i < |r| && r[i].x == 0;
      var j :| 0 <= j < |r| && r[j].y == 0;
      assert s[i].y >= 0 && s[j].x <= 0;
    }
    if ReachesCorner(s) {
      LowestIsReached(s, m);
      var i :| 0 <= i < |s| && s[i].y == m;
      var j :| 0 <= j < |s| && s[j].x == MinX(s);
      assert r[i].x == 0 && r[j].y == 0;
    }
  }

  lemma LowestIsReached(s: Shape, m: int)
    requires ReachesCorner(s) && IsMaxY(s, m)
    ensures exists i :: 0 <= i < |s| && s[i].y == m
    ensures exists i :: 0 <= i < |s| && s[i].x == MinX(s)
  {
    MinimaAreLeast(s);
  }

  /** The shape moved so that its box starts at the origin. */
  ghost predicate IsStraightened(s: Shape, t: Shape) {
    Normalized(t) && exists d :: t == Shift(s, d)
  }

  ghost function Straightened(s: Shape): (t: Shape)
    requires s != []
    ensures IsStraightened(s, t)
  {
    Straightens(s);
    var t :| IsStraightened(s, t);
    t
  }

  lemma Straightens(s: Shape)
    requires s != []
    ensures exists t :: IsStraightened(s, t)
  {
    var left, right, top, bottom := Extremes(s);
    var d := Cell(s[left].x, s[top].y);
    var t := Shift(s, d);
    assert t[left].x == 0 && t[top].y == 0 && IsStraightened(s, t);
  }

  /** A shape that reaches the corner turns as if it had been moved to the origin first. */
  lemma StraightenedTurnsAlike(s: Shape, t: Shape)
    requires ReachesCorner(s) && IsStraightened(s, t)
    ensures Rotate(t) == Rotate(s)
  {
    var d :| t == Shift(s, d);
    var m := LowestRow(s);
    var n := LowestRow(t);
    RotateAt(s, m);
    RotateAt(t, n);
    BoxMovesAlong(s, t, d, m, n);
    SameAfterShift(s, t, d, m, Rotate(s), Rotate(t));
  }

  lemma SameAfterShift(s: Shape, t: Shape, d: Cell, m: int, r: Shape, q: Shape)
    requires t == Shift(s, d) && |r| == |q| == |s|
    requires forall i | 0 <= i < |s| :: r[i] == Cell(m - s[i].y, s[i].x - d.x)
    requires forall i | 0 <= i < |s| :: q[i] == Cell(m - d.y - t[i].y, t[i].x)
    ensures q == r
  {
  }

  /** Turning on by `turns` more leaves the straightened shape on the same cells. */
  ghost predicate Symmetric(s: Shape, turns: nat) {
    s == [] || (ReachesCorner(s) && SameCells(Straightened(s), Turned(Straightened(s), turns)))
  }

  /** Two or three turns cover what one turn covers exactly if the shape reaches the corner and has the symmetry of
      the turns that make the difference. */
  lemma TurnedLikeOnceIff(s: Shape, more: nat)
    requires 1 <= more <= 2
    ensures SameCells(Rotate(s), Turned(s, more + 1)) <==> Symmetric(s, more)
  {
    TurnedStep(s, 0);
    TurnedStep(s, 1);
    TurnedStep(s, 2);
    if s == [] {
      assert Rotate(s) == [] && Turned(s, 2) == [] && Turned(s, 3) == [];
    } else if ReachesCorner(s) {
      var t := Straightened(s);
      StraightenedTurnsAlike(s, t);
      NormalizedTurnsIff(t, more);
      NormalizedOnwards(s, t, more);
    } else {
      TurnNormalizesIff(s);
      ThreeTurnsNormalize(s);
      if SameCells(Rotate(s), Turned(s, more + 1)) {
        if more == 1 {
          RotateKeepsSameCells(Rotate(s), Turned(s, 2));
          SameCellsChain(Rotate(s), Turned(s, 2), Turned(s, 3));
        }
        SameNormalized(Turned(s, 3), Rotate(s));
        assert false;
      }
    }
  }

  lemma {:induction false} NormalizedOnwards(s: Shape, t: Shape, more: nat)
    requires Rotate(t) == Rotate(s)
    ensures Turned(t, more + 1) == Turned(s, more + 1)
  {
    TurnedStep(s, more);
    TurnedStep(t, more);
    if more > 0 {
      NormalizedOnwards(s, t, more - 1);
    }
  }

  lemma NormalizedTurnsIff(t: Shape, more: nat)
    requires Normalized(t)
    ensures SameCells(Rotate(t), Turned(t, more + 1)) <==> SameCells(t, Turned(t, more))
  {
    TurnedStep(t, more);
    TurnedStaysNormalized(t, more);
    TurnedTogetherIff(t, Turned(t, more));
  }

  lemma {:induction false} TurnedStaysNormalized(s: Shape, turns: nat)
    requires Normalized(s)
    ensures Normalized(Turned(s, turns))
  {
    if turns > 0 {
      TurnedStaysNormalized(s, turns - 1);
      TurnNormalizesIff(Turned(s, turns - 1));
    }
  }

  lemma BoxMovesAlong(s: Shape, t: Shape, d: Cell, m: int, n: int)
    requires ReachesCorner(s) && Normalized(t) && t == Shift(s, d) && IsMaxY(s, m) && IsMaxY(t, n)
    ensures MinX(t) == 0 && MinX(s) == d.x && n == m - d.y
  {
    MinimaAreUnique(t, 0);
    LowestIsReached(s, m);
    var i :| 0 <= i < |s| && s[i].y == m;
    var j :| 0 <= j < |s| && s[j].x == MinX(s);
    MinimaAreLeast(s);
    var k :| 0 <= k < |t| && t[k].x == 0;
    var l :| 0 <= l < |t| && (t[l].y == n || n == 0);
    assert t[i] == s[i].Minus(d) && t[j] == s[j].Minus(d) && t[k] == s[k].Minus(d) && t[l] == s[l].Minus(d);
  }

  /* Turning keeps the number of cells */

  lemma FootprintGrows(s: Shape, p: Cell)
    requires s != []
    ensures Footprint(s, p) == Footprint(s[..|s| - 1], p) + {p.Plus(s[|s| - 1])}
  {
    var n := |s| - 1;
    assert forall i | 0 <= i < n :: s[..n][i] == s[i];
  }

  /** Shapes that repeat cells at the same positions cover equally many. */
  lemma {:induction false} SameRepetitionsSameSize(s: Shape, t: Shape, p: Cell, q: Cell)
    requires SameRepetitions(s, t)
    ensures |Footprint(s, p)| == |Footprint(t, q)|
  {
    if s != [] {
      var n := |s| - 1;
      PrefixesRepeatAlike(s, t);
      SameRepetitionsSameSize(s[..n], t[..n], p, q);
      FootprintGrows(s, p);
      FootprintGrows(t, q);
      LastIsCoveredToo(s, t, p, q);
      LastIsCoveredToo(t, s, q, p);
      AddOneEach(Footprint(s[..n], p), p.Plus(s[n]), Footprint(t[..n], q), q.Plus(t[n]));
    }
  }

  lemma PrefixesRepeatAlike(s: Shape, t: Shape)
    requires s != [] && SameRepetitions(s, t)
    ensures SameRepetitions(s[..|s| - 1], t[..|s| - 1])
  {
  }

  lemma AddOneEach<T>(a: set<T>, x: T, b: set<T>, y: T)
    requires |a| == |b| && (x in a <==> y in b)
    ensures |a + {x}| == |b + {y}|
  {
    if x in a {
      assert a + {x} == a && b + {y} == b;
    }
  }

  /** If the last cell repeats an earlier one in one shape, it does in the other. */
  lemma LastIsCoveredToo(s: Shape, t: Shape, p: Cell, q: Cell)
    requires s != [] && SameRepetitions(s, t)
    ensures p.Plus(s[|s| - 1]) in Footprint(s[..|s| - 1], p) ==> q.Plus(t[|s| - 1]) in Footprint(t[..|s| - 1], q)
  {
    var n := |s| - 1;
    if p.Plus(s[n]) in Footprint(s[..n], p) {
      var i :| 0 <= i < n && p.Plus(s[..n][i]) == p.Plus(s[n]);
      assert s[i] == s[n];
      assert t[..n][i] == t[n];
    }
  }

  ghost predicate SameRepetitions(s: Shape, t: Shape) {
    |s| == |t| && forall i, j | 0 <= i < |s| && 0 <= j < |s| :: s[i] == s[j] <==> t[i] == t[j]
  }

  lemma RotateKeepsRepetitions(s: Shape)
    ensures SameRepetitions(s, Rotate(s))
  {
    var d := Cell(MinX(TurnAll(s)), MinY(TurnAll(s)));
    assert forall i | 0 <= i < |s| :: Rotate(s)[i] == Turn(s[i]).Minus(d);
  }

  lemma {:induction false} TurnedKeepsRepetitions(s: Shape, turns: nat)
    ensures SameRepetitions(s, Turned(s, turns))
  {
    if turns > 0 {
      var t := Turned(s, turns - 1);
      TurnedKeepsRepetitions(s, turns - 1);
      RotateKeepsRepetitions(t);
      RepetitionsChain(s, t, Rotate(t));
      TurnedStep(s, turns - 1);
    }
  }

  lemma RepetitionsChain(s: Shape, t: Shape, u: Shape)
    requires SameRepetitions(s, t) && SameRepetitions(t, u)
    ensures SameRepetitions(s, u)
  {
  }

  lemma TurnedKeepsSize(s: Shape, m: nat, n: nat, p: Cell, q: Cell)
    ensures |Footprint(Turned(s, m), p)| == |Footprint(Turned(s, n), q)|
  {
    TurnedKeepsRepetitions(s, m);
    TurnedKeepsRepetitions(s, n);
    SameRepetitionsSameSize(Turned(s, m), Turned(s, n), p, q);
  }

  /** Only a shape put back where it was covers no new cell. */
  lemma ContainedFootprintIsSamePlace(s: Shape, p: Cell, q: Cell)
    requires s != [] && Footprint(s, p) <= Footprint(s, q)
    ensures p == q
  {
    var left, right, top, bottom := Extremes(s);
    assert p.Plus(s[left]) in Footprint(s, q) && p.Plus(s[right]) in Footprint(s, q);
    assert p.Plus(s[top]) in Footprint(s, q) && p.Plus(s[bottom]) in Footprint(s, q);
  }
}
