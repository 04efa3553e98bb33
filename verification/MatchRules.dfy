/** What a room's match does, handler by handler, as functions on values. */
module MatchRules {
  import opened Wrappers
  import opened Players
  import Decimal

  datatype BombRecord = BombRecord(ownerID: string, charge: Charge, fuse: real)

  /** What the handlers below read and write. `started` tells whether GameState exists, `playing` that State is 1. */
  datatype MatchView = MatchView(
    playing: bool, started: bool, players: map<string, Player>, bombs: map<string, BombRecord>, dead: set<int>)

  const FUSE := 2.0

  /** strconv.ParseInt with its error ignored. Every key in use is a printed uid. */
  function UidOf(pid: string): int {
    match Decimal.ParseInt(pid)
    case Some(uid) => uid
    case None => 0
  }

  /* The declarative tick */

  ghost function Exploding<K>(bombs: map<K, BombRecord>, delta: real): set<Charge> {
    set id | id in bombs && bombs[id].fuse - delta <= 0.0 :: bombs[id].charge
  }

  function Burnt<K>(bombs: map<K, BombRecord>, delta: real): map<K, BombRecord> {
    map id | id in bombs && bombs[id].fuse - delta > 0.0 :: bombs[id].(fuse := bombs[id].fuse - delta)
  }

  function Uids(pids: set<string>): set<int> {
    set pid | pid in pids :: UidOf(pid)
  }

  ghost function Casualties<K>(players: map<K, Player>, bombs: set<Charge>, now: int): set<K> {
    set pid | pid in players && !players[pid].authority.isDead && Rule(players[pid], bombs, now).authority.isDead
  }

  /** One tick, with no mention of the order in which bombs and players are visited. */
  ghost function Tick(m: MatchView, delta: real, now: int): MatchView {
    if !m.started then m
    else
      var exploding := Exploding(m.bombs, delta);
      m.(bombs := Burnt(m.bombs, delta),
         players := map pid | pid in m.players :: Rule(m.players[pid], exploding, now),
         dead := m.dead + Uids(Casualties(m.players, exploding, now)))
  }

  /* The other handlers */

  function PlaceBomb(m: MatchView, uid: Decimal.int64, id: string, x: int, y: int): MatchView {
    var pid := Decimal.Format(uid);
    var radius := if pid in m.players then m.players[pid].current.radius else 1;
    if m.started then m.(bombs := m.bombs[id := BombRecord(pid, Charge(x, y, radius), FUSE)]) else m
  }

  function Move(m: MatchView, uid: Decimal.int64, motion: Motion, now: int): MatchView {
    var pid := Decimal.Format(uid);
    if !m.started || pid !in m.players then m
    else
      var p := m.players[pid];
      m.(players := m.players[pid := p.(motion := motion, authority := p.authority.(lastMoveTime := now))])
  }

  function UpdateStats(m: MatchView, uid: Decimal.int64, current: Currents): MatchView {
    var pid := Decimal.Format(uid);
    if !m.started || pid !in m.players then m
    else m.(players := m.players[pid := m.players[pid].(current := current)])
  }

  function Die(m: MatchView, uid: Decimal.int64): MatchView {
    var pid := Decimal.Format(uid);
    var m' := m.(dead := m.dead + {uid as int});
    if !m.started || pid !in m.players then m'
    else
      var p := m.players[pid];
      m'.(players := m.players[pid := p.(authority := p.authority.(isDead := true))])
  }

  function StartGame(m: MatchView, roster: map<string, Caps>, now: int): MatchView {
    MatchView(true, true, map pid | pid in roster :: NewPlayer(pid, roster[pid], now), map[], m.dead)
  }

  /** Back to the waiting room; the finished GameState stays in place. */
  function Return(m: MatchView): MatchView {
    m.(playing := false, dead := {})
  }

  /** The game-state part of Resume, with the snapshot its tombstone carries, if any. */
  function Resume(m: MatchView, pid: string, snapshot: Option<Player>): MatchView {
    if !m.started || snapshot.None? then m
    else if pid in m.players then m.(players := m.players[pid := Restore(m.players[pid], snapshot.value)])
    else m.(players := m.players[pid := snapshot.value])
  }
}
