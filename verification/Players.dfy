/** Player records of a match: the authoritative state and the part of it a reconnect restores. */
module Players {
  import opened Geometry
  import Blast

  /** time.Time{} in milliseconds since the Unix epoch. */
  const ZERO_TIME := -62135596800000

  /** Milliseconds during which a wounded player cannot be wounded again. */
  const COOLDOWN := 300

  // PlayerState's fields in the groups in which they travel.
  datatype Motion = Motion(x: real, y: real, vx: real, vy: real)
  datatype Caps = Caps(bomb: int, radius: int, speed: real, shield: int)
  datatype Currents = Currents(bomb: int, radius: int, speed: real, shield: int)
  datatype Authority = Authority(isDead: bool, isEvacuated: bool, lastMoveTime: int, lastDamageTime: int,
                                 evacStartTime: int, evacInProgress: bool, evacPos: Cell)

  datatype Player = Player(id: string, motion: Motion, caps: Caps, current: Currents, authority: Authority,
                           stateVersion: int)

  const NO_AUTHORITY := Authority(false, false, ZERO_TIME, ZERO_TIME, ZERO_TIME, false, Cell(0, 0))

  /** A player as StartGame creates it. */
  function NewPlayer(id: string, caps: Caps, now: int): Player {
    Player(id, Motion(0.0, 0.0, 0.0, 0.0), caps, Currents(1, 1, 75.0, 0),
           NO_AUTHORITY.(lastMoveTime := now), 0)
  }

  /** The copy a tombstone carries: restorable fields, zero values elsewhere. */
  function Snapshot(p: Player): Player {
    Player("", p.motion, p.caps, p.current, NO_AUTHORITY, p.stateVersion)
  }

  /** `p` after the restorable fields of `s` have been applied to it. */
  function Restore(p: Player, s: Player): Player {
    p.(motion := s.motion, caps := s.caps, current := s.current, stateVersion := s.stateVersion)
  }

  /** Where an exploding bomb stands and how far it reaches. */
  datatype Charge = Charge(x: int, y: int, radius: int)

  ghost predicate CaughtBy(p: Player, b: Charge) {
    Blast.BoxHit(p.motion.x, p.motion.y, b.x, b.y, b.radius)
  }

  predicate Vulnerable(p: Player, now: int) {
    && !p.authority.isDead && !p.authority.isEvacuated
    && now - p.authority.lastDamageTime >= COOLDOWN
  }

  /** One wound: a layer of shield, or else death. */
  function Wounded(p: Player, now: int): Player {
    if p.current.shield > 0
    then p.(current := p.current.(shield := p.current.shield - 1), authority := p.authority.(lastDamageTime := now))
    else p.(authority := p.authority.(isDead := true, lastDamageTime := now))
  }

  /** What a tick owes a player: at most one wound, whoever and however many bombs caught it. */
  ghost function Rule(p: Player, bombs: set<Charge>, now: int): Player {
    if Vulnerable(p, now) && exists b :: b in bombs && CaughtBy(p, b) then Wounded(p, now) else p
  }

  /** The effect of one bomb, as the loop body computes it. */
  ghost function Blasted(p: Player, b: Charge, now: int): Player {
    if p.authority.isDead || p.authority.isEvacuated then p
    else if !CaughtBy(p, b) || now - p.authority.lastDamageTime < COOLDOWN then p
    else Wounded(p, now)
  }

  ghost function BlastedByAll(p: Player, bombs: seq<Charge>, now: int): Player {
    if bombs == [] then p else Blasted(BlastedByAll(p, bombs[..|bombs| - 1], now), bombs[|bombs| - 1], now)
  }

  ghost function Charges(bombs: seq<Charge>): set<Charge> {
    set b | b in bombs
  }

  /** Bombs resolved one by one, in any order and with any repetition, do what the rule says. */
  lemma {:induction false} BarrageIsOneWound(p: Player, bombs: seq<Charge>, now: int)
    ensures BlastedByAll(p, bombs, now) == Rule(p, Charges(bombs), now)
  {
    if bombs != [] {
      var front, last := bombs[..|bombs| - 1], bombs[|bombs| - 1];
      BarrageIsOneWound(p, front, now);
      assert Charges(bombs) == Charges(front) + {last};
      if exists b :: b in Charges(front) && CaughtBy(p, b) {
        var b :| b in Charges(front) && CaughtBy(p, b);
        assert b in Charges(bombs);
      } else if CaughtBy(p, last) {
        assert last in Charges(bombs);
      }
    }
  }

  class PlayerState {
    var id: string
    var motion: Motion
    var caps: Caps
    var current: Currents
    var authority: Authority
    var stateVersion: int

    ghost function View(): Player
      reads this
    {
      Player(id, motion, caps, current, authority, stateVersion)
    }

    constructor (p: Player)
      ensures View() == p
    {
      id, motion, caps, current := p.id, p.motion, p.caps, p.current;
      authority, stateVersion := p.authority, p.stateVersion;
    }

    method SnapshotRestorable() returns (s: PlayerState)
      ensures fresh(s) && s.View() == Snapshot(View())
    {
      s := new PlayerState(Player("", motion, caps, current, NO_AUTHORITY, stateVersion));
    }

    method ApplySnapshotRestorable(src: PlayerState)
      modifies this
      ensures View() == Restore(old(View()), old(src.View()))
    {
      motion := src.motion;
      caps := src.caps;
      current := src.current;
      stateVersion := src.stateVersion;
    }

    /** The body of UpdateBombs' player loop, for one exploded bomb. */
    method TakeBlast(b: Charge, now: int) returns (died: bool)
      modifies this
      ensures View() == Blasted(old(View()), b, now)
      ensures died <==> authority.isDead && !old(authority.isDead)
    {
      died := false;
      if authority.isDead || authority.isEvacuated {
        return;
      }
      var hit := Blast.CheckCorners(motion.x, motion.y, b.x, b.y, b.radius);
      if hit {
        if now - authority.lastDamageTime < COOLDOWN {
          return;
        }
        authority := authority.(lastDamageTime := now);
        if current.shield > 0 {
          current := current.(shield := current.shield - 1);
        } else {
          authority := authority.(isDead := true);
          died := true;
        }
      }
    }
  }
}
