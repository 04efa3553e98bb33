/** What a player gets to see of a match: where bombs strike, what reports, starts and resumes leave behind. */
module MatchEffects {
  import opened Wrappers
  import opened Geometry
  import opened Players
  import opened MatchRules
  import opened MatchRuns
  import Blast
  import Decimal

  /** A tick takes one layer of shield from a wounded player or, if it has none, its life, and sets its clock. It
      changes nothing else of anybody, and records exactly the uids of those who die. */
  lemma TickTakesOneLayer(m: MatchView, delta: real, now: int, pid: string)
    requires m.started && pid in m.players
    ensures var p, q := m.players[pid], Next(m, Tick(delta, now)).players[pid];
      && (!IsWound(p, q) ==> q == p)
      && (IsWound(p, q) && p.current.shield > 0 ==>
            && q.current == p.current.(shield := p.current.shield - 1)
            && q.authority == p.authority.(lastDamageTime := now))
      && (IsWound(p, q) && p.current.shield <= 0 ==>
            q.current == p.current && q.authority == p.authority.(isDead := true, lastDamageTime := now))
      && q.id == p.id && q.motion == p.motion && q.caps == p.caps && q.stateVersion == p.stateVersion
  {
  }

  lemma TickRecordsTheFallen(m: MatchView, delta: real, now: int, uid: int)
    requires m.started
    ensures var m' := Next(m, Tick(delta, now));
      && m'.players.Keys == m.players.Keys && m'.playing == m.playing
      && (uid in m'.dead <==> uid in m.dead || exists pid | pid in m.players ::
            UidOf(pid) == uid && !m.players[pid].authority.isDead && m'.players[pid].authority.isDead)
  {
    var m' := Next(m, Tick(delta, now));
    var fallen := Casualties(m.players, Exploding(m.bombs, delta), now);
    assert uid in Uids(fallen) <==> exists pid | pid in fallen :: UidOf(pid) == uid;
    assert forall pid | pid in m.players :: pid in fallen <==>
      !m.players[pid].authority.isDead && m'.players[pid].authority.isDead;
  }

  /** A bomb reaches as far as its owner last reported, one cell if the owner has no record. */
  ghost function ReachOf(m: MatchView, uid: Decimal.int64): int {
    if Decimal.Format(uid) in m.players then m.players[Decimal.Format(uid)].current.radius else 1
  }

  /** Nothing but ticks and reports, in which nobody lays another bomb. */
  ghost predicate LaysNoBomb(acts: seq<Act>) {
    forall i | 0 <= i < |acts| :: !acts[i].PlaceBomb? && !acts[i].StartGame? && (acts[i].Tick? ==> acts[i].delta >= 0.0)
  }

  /** A bomb laid at (x, y) goes off in the tick that completes two seconds. If it is the only one, that tick wounds
      exactly those who can be wounded and of whose box some point lies in the cross around (x, y). */
  lemma BombStrikesAfterTwoSeconds(
    m: MatchView, uid: Decimal.int64, id: string, x: int, y: int, acts: seq<Act>, delta: real, now: int, pid: string)
    requires m.started && m.bombs == map[] && LaysNoBomb(acts)
    requires Elapsed(acts) < 2.0 <= Elapsed(acts) + delta
    requires pid in Run(Next(m, PlaceBomb(uid, id, x, y)), acts).players
    ensures var before := Run(Next(m, PlaceBomb(uid, id, x, y)), acts);
      var p := before.players[pid];
      IsWound(p, Next(before, Tick(delta, now)).players[pid])
      <==> && !p.authority.isDead && !p.authority.isEvacuated && now - p.authority.lastDamageTime >= 300
           && exists px, py | InBox(px, py, p.motion.x, p.motion.y) ::
                Blast.InCross(Cell((px / 16.0).Floor, (py / 16.0).Floor), Cell(x, y), ReachOf(m, uid))
  {
    var laid := Next(m, PlaceBomb(uid, id, x, y));
    var before := Run(laid, acts);
    FuseMeasuresTime(laid, acts, id);
    OnlyBombStays(laid, acts, id);
    TickWoundsIff(before, delta, now, pid);
    assert before.bombs[id].charge == Charge(x, y, ReachOf(m, uid)) && before.bombs[id].fuse <= delta;
    assert forall k | k in before.bombs :: k == id;
  }

  lemma {:induction false} OnlyBombStays(m: MatchView, acts: seq<Act>, id: string)
    requires m.started && m.bombs.Keys <= {id} && LaysNoBomb(acts)
    ensures Run(m, acts).started && Run(m, acts).bombs.Keys <= {id}
  {
    if acts != [] {
      var n := |acts| - 1;
      OnlyBombStays(m, acts[..n], id);
      NoNewBomb(Run(m, acts[..n]), acts[n]);
    }
  }

  lemma NoNewBomb(m: MatchView, a: Act)
    requires m.started && !a.PlaceBomb? && !a.StartGame?
    ensures Next(m, a).started && Next(m, a).bombs.Keys <= m.bombs.Keys
  {
  }

  /** Until then the bomb wounds nobody. */
  lemma BombRestsBefore(m: MatchView, uid: Decimal.int64, id: string, x: int, y: int, acts: seq<Act>, delta: real,
                        now: int, pid: string)
    requires m.started && m.bombs == map[] && LaysNoBomb(acts) && delta >= 0.0
    requires Elapsed(acts) + delta < 2.0
    requires pid in Run(Next(m, PlaceBomb(uid, id, x, y)), acts).players
    ensures var before := Run(Next(m, PlaceBomb(uid, id, x, y)), acts);
      !IsWound(before.players[pid], Next(before, Tick(delta, now)).players[pid])
  {
    var laid := Next(m, PlaceBomb(uid, id, x, y));
    FuseMeasuresTime(laid, acts, id);
    OnlyBombStays(laid, acts, id);
    TickWoundsIff(Run(laid, acts), delta, now, pid);
  }

  /** A bomb takes the reach its owner has reported, and takes nothing from the bombs already laid. */
  lemma ReportedReachCounts(m: MatchView, uid: Decimal.int64, current: Currents, id: string, x: int, y: int)
    requires m.started && Decimal.Format(uid) in m.players
    ensures var m' := Next(Next(m, UpdateStats(uid, current)), PlaceBomb(uid, id, x, y));
      && id in m'.bombs && m'.bombs[id] == BombRecord(Decimal.Format(uid), Charge(x, y, current.radius), 2.0)
      && m'.bombs.Keys == m.bombs.Keys + {id} && forall k | k in m.bombs && k != id :: m'.bombs[k] == m.bombs[k]
  {
  }

  /** A player is struck where it last said it was. */
  lemma ReportedPositionCounts(m: MatchView, uid: Decimal.int64, motion: Motion, moved: int, delta: real, now: int)
    requires m.started && Decimal.Format(uid) in m.players
    ensures var pid := Decimal.Format(uid);
      var p, m' := m.players[pid], Next(m, Move(uid, motion, moved));
      IsWound(m'.players[pid], Next(m', Tick(delta, now)).players[pid])
      <==> && !p.authority.isDead && !p.authority.isEvacuated && now - p.authority.lastDamageTime >= 300
           && exists id | id in m.bombs && m.bombs[id].fuse <= delta ::
                exists px, py | InBox(px, py, motion.x, motion.y) ::
                  Blast.InCross(Cell((px / 16.0).Floor, (py / 16.0).Floor),
                                Cell(m.bombs[id].charge.x, m.bombs[id].charge.y), m.bombs[id].charge.radius)
  {
    TickWoundsIff(Next(m, Move(uid, motion, moved)), delta, now, Decimal.Format(uid));
  }

  /** The player an act is about. */
  ghost function Actor(a: Act): string
    requires !a.Tick? && !a.StartGame? && !a.Return?
  {
    match a
    case PlaceBomb(uid, _, _, _) => Decimal.Format(uid)
    case Move(uid, _, _) => Decimal.Format(uid)
    case UpdateStats(uid, _) => Decimal.Format(uid)
    case Die(uid) => Decimal.Format(uid)
    case Resume(pid, _) => pid
  }

  /** No act but a tick or a start writes another player's record, and none but these and PlaceBomb touches a bomb. */
  lemma ActsStayTheirOwn(m: MatchView, a: Act)
    requires !a.Tick? && !a.StartGame?
    ensures forall pid | pid in m.players && (!a.Return? ==> pid != Actor(a)) ::
      pid in Next(m, a).players && Next(m, a).players[pid] == m.players[pid]
    ensures !a.PlaceBomb? ==> Next(m, a).bombs == m.bombs
    ensures !a.Resume? ==> Next(m, a).players.Keys == m.players.Keys
    ensures Next(m, a).started == m.started && (!a.Return? ==> Next(m, a).playing == m.playing)
  {
  }

  /** What a report leaves of the reporter: the fields reported and all the others as they were. */
  lemma ReportsWriteTheirFields(m: MatchView, a: Act)
    requires m.started && (a.Move? || a.UpdateStats? || a.Die?) && Actor(a) in m.players
    ensures var p, q := m.players[Actor(a)], Next(m, a).players[Actor(a)];
      && q.motion == (if a.Move? then a.motion else p.motion)
      && q.current == (if a.UpdateStats? then a.current else p.current)
      && q.authority.isDead == (p.authority.isDead || a.Die?)
      && q.authority.lastMoveTime == (if a.Move? then a.now else p.authority.lastMoveTime)
      && q == p.(motion := q.motion, current := q.current,
                 authority := p.authority.(isDead := q.authority.isDead, lastMoveTime := q.authority.lastMoveTime))
    ensures Next(m, a).dead == m.dead + if a.Die? then {a.uid as int} else {}
  {
  }

  /** A death is recorded even of a player the match does not know; a return clears the record and stops the match, and
      leaves what is left of it in place. */
  lemma RecordMeans(m: MatchView, uid: Decimal.int64)
    ensures Next(m, Die(uid)).dead == m.dead + {uid as int}
    ensures var m' := Next(m, Return);
      m'.dead == {} && !m'.playing && m'.started == m.started && m'.players == m.players && m'.bombs == m.bombs
  {
  }

  /** A match starts with everybody alive, out of cooldown and without a shield, whatever shields their backpacks
      allow, and with no bomb laid. */
  lemma FreshPlayersAreBare(m: MatchView, roster: map<string, Caps>, started: int)
    ensures var m' := Next(m, StartGame(roster, started));
      && m'.playing && m'.started && m'.bombs == map[] && m'.dead == m.dead && m'.players.Keys == roster.Keys
      && forall pid | pid in roster ::
           var p := m'.players[pid];
           && p.id == pid && p.caps == roster[pid] && p.motion == Motion(0.0, 0.0, 0.0, 0.0)
           && p.current == Currents(1, 1, 75.0, 0) && !p.authority.isDead && !p.authority.isEvacuated
           && p.authority.lastMoveTime == started && p.authority.lastDamageTime <= -300
  {
  }

  /** So in a match with no stats reported, the first wound of a player kills it, and there is no second. */
  lemma FirstWoundKills(m: MatchView, roster: map<string, Caps>, started: int, acts: seq<Act>, pid: string)
    requires pid in roster && IsOrdinaryRun(acts)
    ensures var m' := Next(m, StartGame(roster, started));
      && |WoundTimes(m', acts, pid)| <= 1 && pid in Run(m', acts).players
      && (Run(m', acts).players[pid].authority.isDead <==> |WoundTimes(m', acts, pid)| == 1)
  {
    var m' := Next(m, StartGame(roster, started));
    FreshPlayersAreBare(m, roster, started);
    assert Layers(m'.players[pid]) == 0;
    DeathTakesTime(m', acts, pid);
  }

  /** A resume puts back what the player could do and where it was when the tombstone was made, and nothing of what
      the server decides: death, evacuation and the clocks stay as they are. */
  lemma ResumeRestores(m: MatchView, pid: string, dropped: Player)
    requires m.started && pid in m.players
    ensures var p, q := m.players[pid], Next(m, Resume(pid, Some(dropped))).players[pid];
      && q.motion == dropped.motion && q.caps == dropped.caps && q.current == dropped.current
      && q.stateVersion == dropped.stateVersion && q.authority == p.authority && q.id == p.id
  {
  }

  /** A player the match has no record of comes back with the same fields, alive and out of cooldown. */
  lemma ResumeInstalls(m: MatchView, pid: string, dropped: Player)
    requires m.started && pid !in m.players
    ensures pid in Next(m, Resume(pid, Some(dropped))).players
    ensures var q := Next(m, Resume(pid, Some(dropped))).players[pid];
      && q.motion == dropped.motion && q.caps == dropped.caps && q.current == dropped.current
      && q.stateVersion == dropped.stateVersion && !q.authority.isDead && !q.authority.isEvacuated
      && q.authority.lastDamageTime <= -300 && q.id == ""
  {
  }
}
