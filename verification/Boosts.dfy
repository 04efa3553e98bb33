/** Stat boosts: each distinct thing counts once, however often it is met. */
module Boosts {
  datatype Boost = Boost(bomb: int, radius: int, up: int, down: int, left: int, right: int,
                         shield: int, speed: real, epic: bool) {
    function Plus(b: Boost): Boost {
      Boost(bomb + b.bomb, radius + b.radius, up + b.up, down + b.down, left + b.left, right + b.right,
            shield + b.shield, speed + b.speed, epic || b.epic)
    }
  }

  const NONE := Boost(0, 0, 0, 0, 0, 0, 0, 0.0, false)

  /** The boosts of a set of things, added up in some order. */
  ghost function Total<T>(s: set<T>, boost: T -> Boost): Boost {
    if s == {} then NONE
    else
      var x :| x in s;
      boost(x).Plus(Total(s - {x}, boost))
  }

  lemma PlusCommutes(a: Boost, b: Boost)
    ensures a.Plus(b) == b.Plus(a)
  {
  }

  lemma PlusSwaps(a: Boost, b: Boost, c: Boost)
    ensures a.Plus(b.Plus(c)) == b.Plus(a.Plus(c))
  {
  }

  /** Which order does not matter: any member can be taken out first. */
  lemma {:induction false} TotalTakesOut<T>(s: set<T>, x: T, boost: T -> Boost)
    requires x in s
    ensures Total(s, boost) == boost(x).Plus(Total(s - {x}, boost))
    decreases s
  {
    var y :| y in s && Total(s, boost) == boost(y).Plus(Total(s - {y}, boost));
    if y != x {
      TotalTakesOut(s - {y}, x, boost);
      TotalTakesOut(s - {x}, y, boost);
      assert s - {y} - {x} == s - {x} - {y};
      PlusSwaps(boost(x), boost(y), Total(s - {x} - {y}, boost));
    }
  }

  /* Field by field, a total is a sum */

  ghost function SumOf<T>(s: set<T>, f: T -> int): int {
    if s == {} then 0
    else
      var x :| x in s;
      f(x) + SumOf(s - {x}, f)
  }

  ghost function RealSumOf<T>(s: set<T>, f: T -> real): real {
    if s == {} then 0.0
    else
      var x :| x in s;
      f(x) + RealSumOf(s - {x}, f)
  }

  lemma {:induction false} TotalIsSum<T>(s: set<T>, boost: T -> Boost, field: Boost -> int, f: T -> int)
    requires field(NONE) == 0 && forall a: Boost, b: Boost :: field(a.Plus(b)) == field(a) + field(b)
    requires forall x | x in s :: f(x) == field(boost(x))
    ensures field(Total(s, boost)) == SumOf(s, f)
    decreases s
  {
    if s != {} {
      var x :| x in s && SumOf(s, f) == f(x) + SumOf(s - {x}, f);
      TotalTakesOut(s, x, boost);
      TotalIsSum(s - {x}, boost, field, f);
    }
  }

  lemma {:induction false} SpeedIsSum<T>(s: set<T>, boost: T -> Boost)
    ensures Total(s, boost).speed == RealSumOf(s, x => boost(x).speed)
    decreases s
  {
    var f := x => boost(x).speed;
    if s != {} {
      var x :| x in s && RealSumOf(s, f) == f(x) + RealSumOf(s - {x}, f);
      TotalTakesOut(s, x, boost);
      SpeedIsSum(s - {x}, boost);
    }
  }

  lemma {:induction false} EpicIfAnyIs<T>(s: set<T>, boost: T -> Boost)
    ensures Total(s, boost).epic <==> exists x | x in s :: boost(x).epic
    decreases s
  {
    if s != {} {
      var x :| x in s;
      TotalTakesOut(s, x, boost);
      EpicIfAnyIs(s - {x}, boost);
      assert forall y | y in s :: y == x || y in s - {x};
    }
  }

  /** Every field of a total is the sum of that field over the things, each once. */
  lemma TotalFieldByField<T>(s: set<T>, boost: T -> Boost)
    ensures var t := Total(s, boost);
      && t.bomb == SumOf(s, x => boost(x).bomb) && t.radius == SumOf(s, x => boost(x).radius)
      && t.up == SumOf(s, x => boost(x).up) && t.down == SumOf(s, x => boost(x).down)
      && t.left == SumOf(s, x => boost(x).left) && t.right == SumOf(s, x => boost(x).right)
      && t.shield == SumOf(s, x => boost(x).shield)
      && t.speed == RealSumOf(s, x => boost(x).speed)
      && (t.epic <==> exists x | x in s :: boost(x).epic)
  {
    TotalIsSum(s, boost, (b: Boost) => b.bomb, x => boost(x).bomb);
    TotalIsSum(s, boost, (b: Boost) => b.radius, x => boost(x).radius);
    TotalIsSum(s, boost, (b: Boost) => b.up, x => boost(x).up);
    TotalIsSum(s, boost, (b: Boost) => b.down, x => boost(x).down);
    TotalIsSum(s, boost, (b: Boost) => b.left, x => boost(x).left);
    TotalIsSum(s, boost, (b: Boost) => b.right, x => boost(x).right);
    TotalIsSum(s, boost, (b: Boost) => b.shield, x => boost(x).shield);
    SpeedIsSum(s, boost);
    EpicIfAnyIs(s, boost);
  }

  ghost function Elements<T>(items: seq<T>): set<T> {
    set i | i in items
  }

  lemma ElementsGrow<T>(items: seq<T>, n: nat)
    requires n < |items|
    ensures Elements(items[..n + 1]) == Elements(items[..n]) + {items[n]}
  {
    assert items[..n + 1] == items[..n] + [items[n]];
  }

  /** Add up a list without repetitions. */
  method Sum<T>(items: seq<T>, boost: T -> Boost) returns (total: Boost)
    requires forall i, j | 0 <= i < j < |items| :: items[i] != items[j]
    ensures total == Total(Elements(items), boost)
  {
    total := NONE;
    var n := 0;
    while n < |items|
      invariant 0 <= n <= |items|
      invariant total == Total(Elements(items[..n]), boost)
    {
      ghost var before := Elements(items[..n]);
      ElementsGrow(items, n);
      TotalTakesOut(before + {items[n]}, items[n], boost);
      assert before + {items[n]} - {items[n]} == before;
      PlusCommutes(total, boost(items[n]));
      total := total.Plus(boost(items[n]));
      n := n + 1;
    }
    assert items[..n] == items;
  }

  /* Initial stats on the server */

  datatype InitialStats = InitialStats(bombCap: int, radiusCap: int, speedCap: real, shieldCap: int, epic: bool)

  function Bombs(n: int): Boost { NONE.(bomb := n) }
  function Speed(v: real): Boost { NONE.(speed := v) }
  function Radius(n: int): Boost { NONE.(radius := n) }
  const SHIELD := NONE.(shield := 1, epic := true)

  /** What the server's switch grants for a resource path. */
  function BoostOf(path: string): Boost {
    match path
    case "res://prefabs/items/res/item_boots.tres" => Speed(20.0)
    case "res://prefabs/items/res/item_epic_shield.tres" => SHIELD
    case "res://prefabs/items/res/item_power_core.tres" => Radius(2)
    case "res://prefabs/items/res/item_ammo_long.tres" => Bombs(2)
    case "res://prefabs/items/res/item_ammo_small.tres" => Bombs(1)
    case "res://prefabs/OutfitItems/outfit_bag_large.tres" => Bombs(1)
    case "res://prefabs/OutfitItems/outfit_suitcase_wood.tres" => Bombs(2)
    case "res://prefabs/OutfitItems/outfit_pumpkin_giant.tres" => Bombs(3)
    case "res://prefabs/OutfitItems/outfit_speed_1.tres" => Speed(1.0)
    case "res://prefabs/OutfitItems/outfit_speed_3.tres" => Speed(3.0)
    case "res://prefabs/OutfitItems/outfit_speed_5.tres" => Speed(5.0)
    case "res://prefabs/OutfitItems/outfit_epic_shield.tres" => SHIELD
    case "res://prefabs/OutfitItems/outfit_power_1.tres" => Radius(1)
    case "res://prefabs/OutfitItems/outfit_power_up_1.tres" => Radius(1)
    case "res://prefabs/OutfitItems/outfit_power_down_1.tres" => Radius(1)
    case "res://prefabs/OutfitItems/outfit_power_left_1.tres" => Radius(1)
    case "res://prefabs/OutfitItems/outfit_power_right_1.tres" => Radius(1)
    case "res://prefabs/OutfitItems/outfit_power_2.tres" => Radius(2)
    case "res://prefabs/OutfitItems/outfit_power_up_2.tres" => Radius(2)
    case "res://prefabs/OutfitItems/outfit_power_down_2.tres" => Radius(2)
    case "res://prefabs/OutfitItems/outfit_power_left_2.tres" => Radius(2)
    case "res://prefabs/OutfitItems/outfit_power_right_2.tres" => Radius(2)
    case "res://prefabs/OutfitItems/outfit_power_3.tres" => Radius(3)
    case "res://prefabs/OutfitItems/outfit_power_up_3.tres" => Radius(3)
    case "res://prefabs/OutfitItems/outfit_power_down_3.tres" => Radius(3)
    case "res://prefabs/OutfitItems/outfit_power_left_3.tres" => Radius(3)
    case "res://prefabs/OutfitItems/outfit_power_right_3.tres" => Radius(3)
    case _ => NONE
  }

  function OnTopOfBase(b: Boost): InitialStats {
    InitialStats(2 + b.bomb, 1 + b.radius, 95.0 + b.speed, 1 + b.shield, b.epic)
  }

  /** What a player starts with: the base of a bare player, and on top of it the sum over the paths met, each once. */
  ghost predicate StatsAreSums<T>(stats: InitialStats, met: set<T>, boost: T -> Boost) {
    && stats.bombCap == 2 + SumOf(met, x => boost(x).bomb)
    && stats.radiusCap == 1 + SumOf(met, x => boost(x).radius)
    && stats.speedCap == 95.0 + RealSumOf(met, x => boost(x).speed)
    && stats.shieldCap == 1 + SumOf(met, x => boost(x).shield)
    && (stats.epic <==> exists x | x in met :: boost(x).epic)
  }

  lemma OnTopOfBaseMeans<T>(met: set<T>, boost: T -> Boost)
    ensures StatsAreSums(OnTopOfBase(Total(met, boost)), met, boost)
  {
    TotalFieldByField(met, boost);
  }

  /** The stats depend on nothing but which nonempty paths occur: order and repetition are irrelevant. */
  method CalculateInitialStats(paths: seq<string>) returns (stats: InitialStats)
    ensures stats == OnTopOfBase(Total(Elements(paths) - {""}, BoostOf))
    ensures Elements(paths) <= {""} ==> stats == InitialStats(2, 1, 95.0, 1, false)
    ensures StatsAreSums(stats, Elements(paths) - {""}, BoostOf)
  {
    var total := SumUnseen(paths, "", BoostOf);
    stats := OnTopOfBase(total);
    assert Elements(paths) <= {""} ==> Elements(paths) - {""} == {};
    OnTopOfBaseMeans(Elements(paths) - {""}, BoostOf);
  }

  /** The loop over the backpack, with its `seen` map and its skipped value. */
  method SumUnseen<T(==)>(items: seq<T>, skipped: T, boost: T -> Boost) returns (total: Boost)
    ensures total == Total(Elements(items) - {skipped}, boost)
  {
    total := NONE;
    var seen: set<T> := {};
    var n := 0;
    while n < |items|
      invariant 0 <= n <= |items|
      invariant seen == Elements(items[..n]) - {skipped}
      invariant total == Total(seen, boost)
    {
      var item := items[n];
      ElementsGrow(items, n);
      if item != skipped && item !in seen {
        TotalTakesOut(seen + {item}, item, boost);
        assert seen + {item} - {item} == seen;
        PlusCommutes(total, boost(item));
        total := total.Plus(boost(item));
        seen := seen + {item};
      }
      n := n + 1;
    }
    assert items[..n] == items;
  }
}
