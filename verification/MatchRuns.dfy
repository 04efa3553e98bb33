/** Whole matches: what any run of ticks and handlers keeps, and how often a player can be wounded in one. */
module MatchRuns {
  import opened Wrappers
  import opened Players
  import opened MatchRules
  import opened Geometry
  import Blast
  import Decimal

  datatype Act =
    | Tick(delta: real, now: int)
    | PlaceBomb(uid: Decimal.int64, id: string, x: int, y: int)
    | Move(uid: Decimal.int64, motion: Motion, now: int)
    | UpdateStats(uid: Decimal.int64, current: Currents)
    | Die(uid: Decimal.int64)
    | StartGame(roster: map<string, Caps>, now: int)
    | Return
      // The snapshot was taken from some record `source` at an earlier disconnect.
    | Resume(pid: string, source: Option<Player>)

  ghost function Next(m: MatchView, a: Act): MatchView {
    match a
    case Tick(delta, now) => MatchRules.Tick(m, delta, now)
    case PlaceBomb(uid, id, x, y) => MatchRules.PlaceBomb(m, uid, id, x, y)
    case Move(uid, motion, now) => MatchRules.Move(m, uid, motion, now)
    case UpdateStats(uid, current) => MatchRules.UpdateStats(m, uid, current)
    case Die(uid) => MatchRules.Die(m, uid)
    case StartGame(roster, now) => MatchRules.StartGame(m, roster, now)
    case Return => MatchRules.Return(m)
    case Resume(pid, source) =>
      MatchRules.Resume(m, pid, if source.None? then None else Some(Snapshot(source.value)))
  }

  ghost function Run(m: MatchView, acts: seq<Act>): MatchView {
    if acts == [] then m else Next(Run(m, acts[..|acts| - 1]), acts[|acts| - 1])
  }

  /* The dead stay dead, and are on record */

  /** While the room is playing, every dead player is in DeadPlayers. */
  ghost predicate DeadAreRecorded(m: MatchView) {
    && (m.playing ==> m.started)
    && (m.playing ==> forall pid | pid in m.players && m.players[pid].authority.isDead :: UidOf(pid) in m.dead)
  }

  const FRESH_ROOM := MatchView(false, false, map[], map[], {})

  lemma StepRecordsDead(m: MatchView, a: Act)
    requires DeadAreRecorded(m)
    ensures DeadAreRecorded(Next(m, a))
  {
    match a
    case Tick(delta, now) =>
      if m.started {
        var exploding := Exploding(m.bombs, delta);
        forall pid | pid in m.players && Next(m, a).players[pid].authority.isDead && !m.players[pid].authority.isDead
          ensures UidOf(pid) in Next(m, a).dead
        {
          assert pid in Casualties(m.players, exploding, now);
        }
      }
    case Die(uid) => Decimal.ParseFormat(uid);
    case _ =>
  }

  lemma {:induction false} DeadAreAlwaysRecorded(acts: seq<Act>)
    ensures DeadAreRecorded(Run(FRESH_ROOM, acts))
  {
    if acts != [] {
      DeadAreAlwaysRecorded(acts[..|acts| - 1]);
      StepRecordsDead(Run(FRESH_ROOM, acts[..|acts| - 1]), acts[|acts| - 1]);
    }
  }

  lemma StepKeepsPlayer(m: MatchView, a: Act, pid: string)
    requires !a.StartGame? && pid in m.players
    ensures pid in Next(m, a).players
    ensures m.players[pid].authority.isDead ==> Next(m, a).players[pid].authority.isDead
    ensures Next(m, a).players[pid].authority.isEvacuated == m.players[pid].authority.isEvacuated
    ensures a.Resume? ==> Next(m, a).players[pid].authority == m.players[pid].authority
  {
  }

  /** Within a match nobody leaves the player table, nobody rises, evacuation is not undone, and no resume along the
      way changes anyone's authority fields. */
  lemma {:induction false} DeathIsFinal(m: MatchView, acts: seq<Act>, pid: string)
    requires IsMatch(acts) && pid in m.players
    ensures pid in Run(m, acts).players
    ensures m.players[pid].authority.isDead ==> Run(m, acts).players[pid].authority.isDead
    ensures Run(m, acts).players[pid].authority.isEvacuated == m.players[pid].authority.isEvacuated
    ensures acts != [] && acts[|acts| - 1].Resume? ==>
      var before := Run(m, acts[..|acts| - 1]);
      pid in before.players && Run(m, acts).players[pid].authority == before.players[pid].authority
  {
    if acts != [] {
      var n := |acts| - 1;
      DeathIsFinal(m, acts[..n], pid);
      StepKeepsPlayer(Run(m, acts[..n]), acts[n], pid);
    }
  }

  /** The acts of one match: none of them starts another. */
  ghost predicate IsMatch(acts: seq<Act>) {
    forall i | 0 <= i < |acts| :: !acts[i].StartGame?
  }

  lemma StepKeepsRecord(m: MatchView, a: Act)
    ensures !a.Return? ==> m.dead <= Next(m, a).dead
    ensures m.started ==> Next(m, a).started
  {
  }

  /** DeadPlayers only grows until the room returns to waiting. */
  lemma {:induction false} RecordOnlyGrows(m: MatchView, acts: seq<Act>)
    requires forall i | 0 <= i < |acts| :: !acts[i].Return?
    ensures m.dead <= Run(m, acts).dead
  {
    if acts != [] {
      var n := |acts| - 1;
      RecordOnlyGrows(m, acts[..n]);
      StepKeepsRecord(Run(m, acts[..n]), acts[n]);
    }
  }

  /* Wounds */

  ghost predicate IsWound(p: Player, q: Player) {
    q.current.shield < p.current.shield || (q.authority.isDead && !p.authority.isDead)
  }

  /** A point of the closed box of 10 by 10 pixels around a player at (x, y). */
  ghost predicate InBox(px: real, py: real, x: real, y: real) {
    x - 5.0 <= px <= x + 5.0 && y - 5.0 <= py <= y + 5.0
  }

  /** A tick wounds exactly the living, unevacuated players, 300 ms after their last wound, of whose box some point
      lies in a cell of 16 by 16 pixels of the cross of a bomb that goes off in the tick. */
  lemma TickWoundsIff(m: MatchView, delta: real, now: int, pid: string)
    requires m.started && pid in m.players
    ensures var p := m.players[pid];
      IsWound(p, Next(m, Tick(delta, now)).players[pid])
      <==> && !p.authority.isDead && !p.authority.isEvacuated && now - p.authority.lastDamageTime >= 300
           && exists id | id in m.bombs && m.bombs[id].fuse <= delta ::
                exists px, py | InBox(px, py, p.motion.x, p.motion.y) ::
                  Blast.InCross(Cell((px / 16.0).Floor, (py / 16.0).Floor),
                                Cell(m.bombs[id].charge.x, m.bombs[id].charge.y), m.bombs[id].charge.radius)
  {
    var p := m.players[pid];
    forall id | id in m.bombs ensures CaughtBy(p, m.bombs[id].charge) <==>
      exists px, py | InBox(px, py, p.motion.x, p.motion.y) ::
        Blast.InCross(Cell((px / 16.0).Floor, (py / 16.0).Floor),
                      Cell(m.bombs[id].charge.x, m.bombs[id].charge.y), m.bombs[id].charge.radius)
    {
      CaughtIffBoxMeetsCross(p, m.bombs[id].charge);
    }
    TickWoundsWhomBombsCatch(m, delta, now, pid);
  }

  lemma CaughtIffBoxMeetsCross(p: Player, b: Charge)
    ensures CaughtBy(p, b) <==> exists px, py | InBox(px, py, p.motion.x, p.motion.y) ::
      Blast.InCross(Cell((px / 16.0).Floor, (py / 16.0).Floor), Cell(b.x, b.y), b.radius)
  {
    if CaughtBy(p, b) {
      var px, py :|
        && p.motion.x - Blast.HALF_SIZE <= px <= p.motion.x + Blast.HALF_SIZE
        && p.motion.y - Blast.HALF_SIZE <= py <= p.motion.y + Blast.HALF_SIZE
        && Blast.PointHit(px, py, b.x, b.y, b.radius);
      Blast.CrossIsFourArms(Blast.CellAt(px, py), Cell(b.x, b.y), b.radius);
      assert InBox(px, py, p.motion.x, p.motion.y);
    }
    if px, py :| (InBox(px, py, p.motion.x, p.motion.y) &&
                  Blast.InCross(Cell((px / 16.0).Floor, (py / 16.0).Floor), Cell(b.x, b.y), b.radius)) {
      Blast.CrossIsFourArms(Blast.CellAt(px, py), Cell(b.x, b.y), b.radius);
      assert Blast.PointHit(px, py, b.x, b.y, b.radius);
    }
  }

  lemma TickWoundsWhomBombsCatch(m: MatchView, delta: real, now: int, pid: string)
    requires m.started && pid in m.players
    ensures IsWound(m.players[pid], Next(m, Tick(delta, now)).players[pid])
       <==> Vulnerable(m.players[pid], now)
            && exists id ::
              id in m.bombs && m.bombs[id].fuse - delta <= 0.0 && CaughtBy(m.players[pid], m.bombs[id].charge)
  {
    var p := m.players[pid];
    if id :| id in m.bombs && m.bombs[id].fuse - delta <= 0.0 && CaughtBy(p, m.bombs[id].charge) {
      assert m.bombs[id].charge in Exploding(m.bombs, delta);
    }
  }

  /** Total time the ticks of a run burn off every fuse. */
  ghost function Elapsed(acts: seq<Act>): real {
    if acts == [] then 0.0
    else
      var a := acts[|acts| - 1];
      Elapsed(acts[..|acts| - 1]) + if a.Tick? then a.delta else 0.0
  }

  lemma StepBurnsFuse(m: MatchView, a: Act, id: string)
    requires m.started && !a.StartGame? && (a.PlaceBomb? ==> a.id != id)
    ensures var spent := if a.Tick? then a.delta else 0.0;
      && Next(m, a).started
      && (id in Next(m, a).bombs <==> id in m.bombs && (a.Tick? ==> m.bombs[id].fuse - spent > 0.0))
      && (id in Next(m, a).bombs ==> Next(m, a).bombs[id] == m.bombs[id].(fuse := m.bombs[id].fuse - spent))
  {
  }

  /** However the time is cut into ticks, and whatever else happens, a bomb is still there exactly while the time
      elapsed is less than its fuse, and its fuse is what remains. */
  lemma {:induction false} FuseMeasuresTime(m: MatchView, acts: seq<Act>, id: string)
    requires m.started && id in m.bombs && m.bombs[id].fuse > 0.0
    requires forall i | 0 <= i < |acts| :: acts[i].Tick? ==> acts[i].delta >= 0.0
    requires forall i | 0 <= i < |acts| :: !acts[i].StartGame? && (acts[i].PlaceBomb? ==> acts[i].id != id)
    ensures Run(m, acts).started && Elapsed(acts) >= 0.0
    ensures id in Run(m, acts).bombs <==> Elapsed(acts) < m.bombs[id].fuse
    ensures id in Run(m, acts).bombs ==>
      Run(m, acts).bombs[id] == m.bombs[id].(fuse := m.bombs[id].fuse - Elapsed(acts))
  {
    if acts != [] {
      var n := |acts| - 1;
      FuseMeasuresTime(m, acts[..n], id);
      StepBurnsFuse(Run(m, acts[..n]), acts[n], id);
    }
  }

  /** The acts of a match in which nobody resumes, reports stats or concedes. */
  ghost predicate Ordinary(a: Act) {
    a.Tick? || a.PlaceBomb? || a.Move?
  }

  ghost predicate IsOrdinaryRun(acts: seq<Act>) {
    forall i | 0 <= i < |acts| :: Ordinary(acts[i])
  }

  /** The times at which a run wounds `pid`, in order. */
  ghost function WoundTimes(m: MatchView, acts: seq<Act>, pid: string): seq<int>
    requires pid in m.players && IsMatch(acts)
    decreases |acts|
  {
    if acts == [] then []
    else
      var m' := Next(m, acts[0]);
      StepKeepsPlayer(m, acts[0], pid);
      var later := WoundTimes(m', acts[1..], pid);
      if IsWound(m.players[pid], m'.players[pid]) && acts[0].Tick? then [acts[0].now] + later else later
  }

  /** The state after a run, unrolled from the front. */
  ghost function Forward(m: MatchView, acts: seq<Act>): MatchView
    decreases |acts|
  {
    if acts == [] then m else Forward(Next(m, acts[0]), acts[1..])
  }

  lemma {:induction false} ForwardIsRun(m: MatchView, acts: seq<Act>)
    ensures Forward(m, acts) == Run(m, acts)
    decreases |acts|
  {
    if |acts| == 1 {
      assert Run(m, acts[..0]) == m;
    } else if acts != [] {
      var n := |acts| - 1;
      ForwardIsRun(Next(m, acts[0]), acts[1..]);
      ForwardIsRun(Next(m, acts[0]), acts[1..n]);
      ForwardIsRun(m, acts[..n]);
      assert acts[1..][..n - 1] == acts[1..n] && acts[..n][1..] == acts[1..n];
    }
  }

  /** Wounds come at least a cooldown apart, the first at least a cooldown after the last one on record. */
  ghost predicate Paced(times: seq<int>, last: int) {
    && (forall i | 0 <= i < |times| :: times[i] - last >= COOLDOWN * (i + 1))
    && (forall i, j | 0 <= i < j < |times| :: times[j] - times[i] >= COOLDOWN * (j - i))
  }

  ghost function Layers(p: Player): nat {
    if p.current.shield > 0 then p.current.shield else 0
  }

  /** Only a wound ever sets the clock that paces wounds, whatever the players report and whoever resumes. */
  lemma {:induction false} WoundsArePaced(m: MatchView, acts: seq<Act>, pid: string)
    requires pid in m.players && IsMatch(acts)
    ensures Paced(WoundTimes(m, acts, pid), m.players[pid].authority.lastDamageTime)
    decreases |acts|
  {
    if acts != [] {
      var m' := Next(m, acts[0]);
      WoundsArePaced(m', acts[1..], pid);
      var last := m.players[pid].authority.lastDamageTime;
      if IsWound(m.players[pid], m'.players[pid]) && acts[0].Tick? {
        PacedFrom(acts[0].now, WoundTimes(m', acts[1..], pid), last);
      }
    }
  }

  /** One more wound in front keeps the pace if it comes a cooldown after the last. */
  lemma PacedFrom(first: int, later: seq<int>, last: int)
    requires Paced(later, first) && first - last >= COOLDOWN
    ensures Paced([first] + later, last)
  {
    var times := [first] + later;
    forall i, j | 0 <= i < j < |times| ensures times[j] - times[i] >= COOLDOWN * (j - i) {
      if i > 0 { assert later[j - 1] - later[i - 1] >= COOLDOWN * (j - i); }
    }
  }

  /** One ordinary act: a wound costs one layer or, when there is none, the life; anything else costs nothing. */
  lemma OrdinaryStep(m: MatchView, a: Act, pid: string)
    requires pid in m.players && Ordinary(a) && !m.players[pid].authority.isDead
    ensures pid in Next(m, a).players
    ensures var p, q := m.players[pid], Next(m, a).players[pid];
      if !IsWound(p, q) || !a.Tick? then !IsWound(p, q) && !q.authority.isDead && q.current.shield == p.current.shield
      else if Layers(p) == 0 then q.authority.isDead
      else !q.authority.isDead && q.current.shield == p.current.shield - 1
  {
  }

  /** Shields and wounds add up: a survivor has lost one layer per wound, a casualty all its layers and one life. */
  lemma {:induction false} WoundsAreAccounted(m: MatchView, acts: seq<Act>, pid: string)
    requires pid in m.players && IsOrdinaryRun(acts) && !m.players[pid].authority.isDead
    ensures pid in Forward(m, acts).players
    ensures var p, q, n := m.players[pid], Forward(m, acts).players[pid], |WoundTimes(m, acts, pid)|;
      if q.authority.isDead then n == Layers(p) + 1
      else n <= Layers(p) && q.current.shield == p.current.shield - n
    decreases |acts|
  {
    if acts != [] {
      var m' := Next(m, acts[0]);
      OrdinaryStep(m, acts[0], pid);
      if m'.players[pid].authority.isDead {
        DeadTakeNoWounds(m', acts[1..], pid);
      } else {
        WoundsAreAccounted(m', acts[1..], pid);
      }
    }
  }

  lemma {:induction false} DeadTakeNoWounds(m: MatchView, acts: seq<Act>, pid: string)
    requires pid in m.players && IsMatch(acts) && m.players[pid].authority.isDead
    ensures WoundTimes(m, acts, pid) == []
    ensures pid in Forward(m, acts).players && Forward(m, acts).players[pid].authority.isDead
    decreases |acts|
  {
    if acts != [] {
      DeadTakeNoWounds(Next(m, acts[0]), acts[1..], pid);
    }
  }

  /** A player that starts with k layers is wounded at most k + 1 times, and if it dies then exactly so often,
      the fatal wound coming at least 300 k ms after the first. */
  lemma DeathTakesTime(m: MatchView, acts: seq<Act>, pid: string)
    requires pid in m.players && IsOrdinaryRun(acts) && !m.players[pid].authority.isDead
    ensures var times, k := WoundTimes(m, acts, pid), Layers(m.players[pid]);
      && |times| <= k + 1
      && pid in Run(m, acts).players
      && (Run(m, acts).players[pid].authority.isDead <==> |times| == k + 1)
      && (|times| == k + 1 ==> times[k] - times[0] >= COOLDOWN * k)
      && (forall i, j | 0 <= i < j < |times| :: times[j] - times[i] >= COOLDOWN)
  {
    WoundsArePaced(m, acts, pid);
    WoundsAreAccounted(m, acts, pid);
    ForwardIsRun(m, acts);
  }

  /** A reconnect hands back every layer lost while away: models.go calls ShieldCurrent an authority field in a
      comment but copies it in the code, so the shield after Resume is what it was at the disconnect, which is the
      shield before Resume plus one layer for each wound since. */
  lemma ResumeRefundsEveryWound(m: MatchView, acts: seq<Act>, pid: string)
    requires m.started && pid in m.players && IsOrdinaryRun(acts) && !m.players[pid].authority.isDead
    requires pid in Run(m, acts).players && !Run(m, acts).players[pid].authority.isDead
    ensures var back := Next(Run(m, acts), Resume(pid, Some(m.players[pid])));
      && back.players[pid].current.shield == m.players[pid].current.shield
      && back.players[pid].current.shield
         == Run(m, acts).players[pid].current.shield + |WoundTimes(m, acts, pid)|
  {
    WoundsAreAccounted(m, acts, pid);
    ForwardIsRun(m, acts);
    StartedForever(m, acts);
  }

  lemma {:induction false} StartedForever(m: MatchView, acts: seq<Act>)
    requires m.started
    ensures Run(m, acts).started
  {
    if acts != [] {
      var n := |acts| - 1;
      StartedForever(m, acts[..n]);
      StepKeepsRecord(Run(m, acts[..n]), acts[n]);
    }
  }
}
