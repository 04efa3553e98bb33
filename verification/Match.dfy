/** A room's match as the server keeps it: objects updated in place by the tick and by the handlers. */
module Match {
  import opened Wrappers
  import opened Players
  import opened MatchRules
  import Rules = MatchRules
  import Decimal

  class BombState {
    const ownerID: string
    const charge: Charge
    var fuse: real

    constructor (ownerID: string, charge: Charge, fuse: real)
      ensures this.ownerID == ownerID && this.charge == charge && this.fuse == fuse
    {
      this.ownerID, this.charge, this.fuse := ownerID, charge, fuse;
    }

    /** The fuse loses `delta`; tells whether it is out. */
    method Burn(delta: real) returns (out: bool)
      modifies this
      ensures fuse == old(fuse) - delta
      ensures out <==> fuse <= 0.0
    {
      fuse := fuse - delta;
      out := fuse <= 0.0;
    }

    ghost function View(): BombRecord
      reads this
    {
      BombRecord(ownerID, charge, fuse)
    }
  }

  ghost predicate Distinct<K, T>(m: map<K, T>) {
    forall k, k' | k in m && k' in m && k != k' :: m[k] != m[k']
  }

  ghost function PlayerViews<K>(players: map<K, PlayerState>): map<K, Player>
    reads players.Values
  {
    map pid | pid in players :: players[pid].View()
  }

  ghost function BombViews<K>(bombs: map<K, BombState>): map<K, BombRecord>
    reads bombs.Values
  {
    map id | id in bombs :: bombs[id].View()
  }

  class GameState {
    var players: map<string, PlayerState>
    var bombs: map<string, BombState>

    ghost predicate Valid()
      reads this
    {
      Distinct(players) && Distinct(bombs)
    }

    constructor (players: map<string, PlayerState>)
      ensures this.players == players && bombs == map[]
    {
      this.players, bombs := players, map[];
    }

    method AddBomb(id: string, ownerID: string, charge: Charge)
      requires Valid()
      modifies this`bombs
      ensures Valid()
      ensures BombViews(bombs) == old(BombViews(bombs))[id := BombRecord(ownerID, charge, FUSE)]
    {
      var bomb := new BombState(ownerID, charge, FUSE);
      bombs := bombs[id := bomb];
    }

    /** Overwrites the fields that the handlers other than ticks and resumes write. */
    method SetPlayer(pid: string, motion: Motion, current: Currents, authority: Authority)
      requires Valid() && pid in players
      modifies players[pid]
      ensures PlayerViews(players)
           == old(PlayerViews(players))[pid :=
                old(players[pid].View()).(motion := motion, current := current, authority := authority)]
    {
      var p := players[pid];
      p.motion, p.current, p.authority := motion, current, authority;
    }

    method RestorePlayer(pid: string, snapshot: PlayerState)
      requires Valid() && pid in players && snapshot !in players.Values
      modifies players[pid]
      ensures PlayerViews(players)
           == old(PlayerViews(players))[pid := Restore(old(players[pid].View()), snapshot.View())]
    {
      players[pid].ApplySnapshotRestorable(snapshot);
    }

    method InstallPlayer(pid: string, snapshot: PlayerState)
      requires Valid() && snapshot !in players.Values
      modifies this`players
      ensures Valid()
      ensures PlayerViews(players) == old(PlayerViews(players))[pid := snapshot.View()]
    {
      players := players[pid := snapshot];
    }

    method Advance(delta: real, now: int) returns (fallen: set<string>, ghost charges: seq<Charge>)
      requires Valid()
      modifies this`bombs, players.Values, bombs.Values
      ensures Valid()
      ensures IsSettled(old(PlayerViews(players)), old(BombViews(bombs)), PlayerViews(players), BombViews(bombs),
                        charges, fallen, delta, now)
    {
      var left;
      left, fallen, charges := Explode(players, bombs, delta, now);
      ghost var ps, bs := PlayerViews(players), BombViews(left);
      bombs := left;
      assert PlayerViews(players) == ps && BombViews(bombs) == bs;
    }
  }

  /** First loop of UpdateBombs: burn every fuse, take out the bombs that reach zero. */
  method BurnFuses<K(==)>(bombs: map<K, BombState>, delta: real)
    returns (left: map<K, BombState>, exploded: seq<BombState>, ghost gone: seq<K>)
    requires Distinct(bombs)
    modifies bombs.Values
    ensures forall id :: id in left <==> id in bombs && old(bombs[id].fuse) - delta > 0.0
    ensures forall id | id in left :: left[id] == bombs[id] && left[id].fuse == old(bombs[id].fuse) - delta
    ensures IsListOf(exploded, gone, bombs)
    ensures forall id :: id in gone <==> id in bombs && old(bombs[id].fuse) - delta <= 0.0
  {
    left, exploded, gone := bombs, [], [];
    ghost var before := map id | id in bombs :: bombs[id].fuse;
    var pending := bombs.Keys;
    while pending != {}
      invariant pending <= bombs.Keys
      invariant forall id | id in left :: id in bombs && left[id] == bombs[id]
      invariant forall id | id in pending :: bombs[id].fuse == before[id]
      invariant forall id | id in left && id !in pending :: bombs[id].fuse == before[id] - delta
      invariant forall id | id in bombs :: id in left <==> id in pending || before[id] - delta > 0.0
      invariant IsListOf(exploded, gone, bombs)
      invariant forall id :: id in gone <==> id in bombs && id !in left
      decreases pending
    {
      var id :| id in pending;
      pending := pending - {id};
      var bomb := left[id];
      var out := bomb.Burn(delta);
      if out {
        exploded, gone := exploded + [bomb], gone + [id];
        left := left - {id};
      }
    }
  }

  /** `bombs` are the bombs registered under `ids`, in that order. */
  ghost predicate IsListOf<K>(bombs: seq<BombState>, ids: seq<K>, all: map<K, BombState>) {
    |bombs| == |ids| && forall i | 0 <= i < |ids| :: ids[i] in all && bombs[i] == all[ids[i]]
  }

  function ChargesOf(bombs: seq<BombState>): seq<Charge> {
    seq(|bombs|, i requires 0 <= i < |bombs| => bombs[i].charge)
  }

  lemma ExplodedCharges<K>(exploded: seq<BombState>, gone: seq<K>, all: map<K, BombState>,
                           before: map<K, BombRecord>, delta: real)
    requires IsListOf(exploded, gone, all)
    requires before.Keys == all.Keys && forall id | id in all :: before[id].charge == all[id].charge
    requires forall id :: id in gone <==> id in before && before[id].fuse - delta <= 0.0
    ensures Charges(ChargesOf(exploded)) == Exploding(before, delta)
  {
    var charges := ChargesOf(exploded);
    forall b | b in Charges(charges) ensures b in Exploding(before, delta) {
      var i :| 0 <= i < |charges| && charges[i] == b;
      assert gone[i] in gone;
    }
    forall b | b in Exploding(before, delta) ensures b in Charges(charges) {
      var id :| id in before && before[id].fuse - delta <= 0.0 && before[id].charge == b;
      var i :| 0 <= i < |gone| && gone[i] == id;
      assert charges[i] == b;
    }
  }

  /** The players who were alive in one survey of the room and are dead in a later one. */
  ghost function Fallen<K>(before: map<K, Player>, after: map<K, Player>): set<K> {
    set pid | pid in before && pid in after && !before[pid].authority.isDead && after[pid].authority.isDead
  }

  ghost function Survey<K>(players: map<K, Player>, bombs: seq<Charge>, now: int): map<K, Player> {
    map pid | pid in players :: BlastedByAll(players[pid], bombs, now)
  }

  /** The exploded bombs, listed in `charges` in the order they were settled, and what is left of everybody. */
  ghost predicate IsSettled<K>(players: map<K, Player>, bombs: map<K, BombRecord>, players': map<K, Player>,
                               bombs': map<K, BombRecord>, charges: seq<Charge>, fallen: set<K>, delta: real, now: int)
  {
    && bombs' == Burnt(bombs, delta) && Charges(charges) == Exploding(bombs, delta)
    && players' == Survey(players, charges, now) && fallen == Fallen(players, players')
  }

  /** In whatever order they were settled, the outcome is the declarative tick. */
  lemma SettledIsTick(m: MatchView, players: map<string, Player>, bombs: map<string, BombRecord>,
                      charges: seq<Charge>, fallen: set<string>, delta: real, now: int)
    requires m.started && IsSettled(m.players, m.bombs, players, bombs, charges, fallen, delta, now)
    ensures MatchView(m.playing, true, players, bombs, m.dead + Uids(fallen)) == Tick(m, delta, now)
  {
    forall pid | pid in m.players
      ensures BlastedByAll(m.players[pid], charges, now) == Rule(m.players[pid], Exploding(m.bombs, delta), now)
    {
      BarrageIsOneWound(m.players[pid], charges, now);
    }
    assert fallen == Casualties(m.players, Exploding(m.bombs, delta), now);
  }

  /** One more bomb moves every player on, and nobody comes back. */
  lemma SurveyGrows<K>(players: map<K, Player>, bombs: seq<Charge>, b: Charge, now: int)
    ensures var mid, end := Survey(players, bombs, now), Survey(players, bombs + [b], now);
      && end == (map pid | pid in mid :: Blasted(mid[pid], b, now))
      && Fallen(players, end) == Fallen(players, mid) + Fallen(mid, end)
  {
    var mid, end := Survey(players, bombs, now), Survey(players, bombs + [b], now);
    assert (bombs + [b])[..|bombs|] == bombs;
    forall pid | pid in players ensures players[pid].authority.isDead ==> mid[pid].authority.isDead {
      BarrageIsOneWound(players[pid], bombs, now);
    }
  }

  /** One exploded bomb against every player, in whatever order the map yields them. */
  method BlastEveryone<K(==)>(players: map<K, PlayerState>, b: Charge, now: int) returns (fallen: set<K>)
    requires Distinct(players)
    modifies players.Values
    ensures forall pid | pid in players :: players[pid].View() == Blasted(old(players[pid].View()), b, now)
    ensures fallen == Fallen(old(PlayerViews(players)), PlayerViews(players))
  {
    fallen := {};
    ghost var before := PlayerViews(players);
    ghost var after := map pid | pid in before :: Blasted(before[pid], b, now);
    var pending := players.Keys;
    while pending != {}
      invariant pending <= players.Keys
      invariant forall pid | pid in pending :: players[pid].View() == before[pid]
      invariant forall pid | pid in players && pid !in pending :: players[pid].View() == after[pid]
      invariant forall pid :: pid in fallen <==> pid in Fallen(before, after) && pid !in pending
      decreases pending
    {
      var pid :| pid in pending;
      pending := pending - {pid};
      var died := players[pid].TakeBlast(b, now);
      if died {
        fallen := fallen + {pid};
      }
    }
  }

  /** Second loop of UpdateBombs: every exploded bomb against every player. */
  method Settle<K(==)>(players: map<K, PlayerState>, exploded: seq<BombState>, now: int) returns (dead: set<K>)
    requires Distinct(players)
    modifies players.Values
    ensures PlayerViews(players) == Survey(old(PlayerViews(players)), ChargesOf(exploded), now)
    ensures dead == Fallen(old(PlayerViews(players)), PlayerViews(players))
  {
    ghost var before := PlayerViews(players);
    ghost var charges := ChargesOf(exploded);
    dead := {};
    var i := 0;
    assert Survey(before, [], now) == before && Fallen(before, before) == {};
    while i < |exploded|
      invariant 0 <= i <= |exploded|
      invariant PlayerViews(players) == Survey(before, charges[..i], now)
      invariant dead == Fallen(before, PlayerViews(players))
    {
      SurveyGrows(before, charges[..i], charges[i], now);
      assert charges[..i] + [charges[i]] == charges[..i + 1];
      var fallen := BlastEveryone(players, exploded[i].charge, now);
      dead := dead + fallen;
      i := i + 1;
    }
    assert charges[..i] == charges;
  }

  lemma BurntBombs<K>(left: map<K, BombState>, before: map<K, BombRecord>, delta: real)
    requires forall id :: id in left <==> id in before && before[id].fuse - delta > 0.0
    requires forall id | id in left :: left[id].View() == before[id].(fuse := before[id].fuse - delta)
    ensures BombViews(left) == Burnt(before, delta)
  {
  }

  /** Both loops of UpdateBombs. `charges` lists the exploded bombs in the order they were settled. */
  method Explode<K(==)>(players: map<K, PlayerState>, bombs: map<K, BombState>, delta: real, now: int)
    returns (left: map<K, BombState>, fallen: set<K>, ghost charges: seq<Charge>)
    requires Distinct(players) && Distinct(bombs)
    modifies players.Values, bombs.Values
    ensures forall id | id in left :: id in bombs && left[id] == bombs[id]
    ensures IsSettled(old(PlayerViews(players)), old(BombViews(bombs)), PlayerViews(players), BombViews(left),
                      charges, fallen, delta, now)
  {
    ghost var before := BombViews(bombs);
    var kept, exploded, gone := BurnFuses(bombs, delta);
    left := kept;
    BurntBombs(left, before, delta);
    ExplodedCharges(exploded, gone, bombs, before, delta);
    charges := ChargesOf(exploded);
    assert PlayerViews(players) == old(PlayerViews(players));
    fallen := Settle(players, exploded, now);
    assert BombViews(left) == Burnt(before, delta);
  }

  class NanoRoom {
    var gameState: GameState?
    var playing: bool
    var deadPlayers: set<int>

    constructor ()
      ensures Valid() && View() == MatchView(false, false, map[], map[], {})
    {
      gameState, playing, deadPlayers := null, false, {};
    }

    ghost predicate Valid()
      reads this, gameState
    {
      gameState != null ==> gameState.Valid()
    }

    ghost function Objects(): set<object>
      reads this, gameState
    {
      {this} + if gameState == null then {} else {gameState} + gameState.players.Values + gameState.bombs.Values
    }

    ghost function View(): MatchView
      reads Objects()
    {
      if gameState == null then MatchView(playing, false, map[], map[], deadPlayers)
      else MatchView(playing, true, PlayerViews(gameState.players), BombViews(gameState.bombs), deadPlayers)
    }

    method UpdateBombs(delta: real, now: int)
      requires Valid()
      modifies Objects()
      ensures Valid() && View() == Tick(old(View()), delta, now)
      ensures gameState == old(gameState)
    {
      if gameState == null {
        return;
      }
      ghost var m := View();
      var game := gameState;
      var fallen, charges := game.Advance(delta, now);
      ghost var players, bombs := View().players, View().bombs;
      RecordDeaths(fallen);
      SettledIsTick(m, players, bombs, charges, fallen, delta, now);
    }

    method RecordDeaths(fallen: set<string>)
      requires Valid()
      modifies this`deadPlayers
      ensures Valid() && View() == old(View()).(dead := old(View()).dead + Uids(fallen))
    {
      deadPlayers := deadPlayers + Uids(fallen);
    }

    method PlaceBomb(uid: Decimal.int64, id: string, x: int, y: int)
      requires Valid()
      modifies Objects()
      ensures Valid() && View() == Rules.PlaceBomb(old(View()), uid, id, x, y)
    {
      if gameState == null {
        return;
      }
      var pid := Decimal.Format(uid);
      var radius := 1;
      if pid in gameState.players {
        radius := gameState.players[pid].current.radius;
      }
      gameState.AddBomb(id, pid, Charge(x, y, radius));
    }

    method Move(uid: Decimal.int64, motion: Motion, now: int)
      requires Valid()
      modifies Objects()
      ensures Valid() && View() == Rules.Move(old(View()), uid, motion, now)
    {
      var pid := Decimal.Format(uid);
      if gameState != null && pid in gameState.players {
        var p := gameState.players[pid];
        gameState.SetPlayer(pid, motion, p.current, p.authority.(lastMoveTime := now));
      }
    }

    method UpdateStats(uid: Decimal.int64, current: Currents)
      requires Valid()
      modifies Objects()
      ensures Valid() && View() == Rules.UpdateStats(old(View()), uid, current)
    {
      var pid := Decimal.Format(uid);
      if gameState != null && pid in gameState.players {
        var p := gameState.players[pid];
        gameState.SetPlayer(pid, p.motion, current, p.authority);
      }
    }

    method Die(uid: Decimal.int64)
      requires Valid()
      modifies Objects()
      ensures Valid() && View() == Rules.Die(old(View()), uid)
    {
      deadPlayers := deadPlayers + {uid as int};
      var pid := Decimal.Format(uid);
      if gameState != null && pid in gameState.players {
        var p := gameState.players[pid];
        gameState.SetPlayer(pid, p.motion, p.current, p.authority.(isDead := true));
      }
    }

    /** `roster` maps every member's printed uid to the caps its backpack earns. */
    method StartGame(roster: map<string, Caps>, now: int)
      requires Valid()
      modifies this
      ensures Valid() && View() == Rules.StartGame(old(View()), roster, now)
      ensures gameState != null && fresh(gameState) && fresh(gameState.players.Values)
    {
      playing := true;
      var players := Recruit(roster, now);
      gameState := new GameState(players);
    }

    method Return()
      requires Valid()
      modifies this
      ensures Valid() && View() == Rules.Return(old(View()))
    {
      playing := false;
      deadPlayers := {};
    }

    /** The snapshot MarkDisconnected puts in the tombstone. */
    method TakeSnapshot(uid: Decimal.int64) returns (snapshot: PlayerState?)
      requires Valid()
      ensures var pid := Decimal.Format(uid);
        if View().started && pid in View().players
        then snapshot != null && fresh(snapshot) && snapshot.View() == Snapshot(View().players[pid])
        else snapshot == null
    {
      var pid := Decimal.Format(uid);
      snapshot := null;
      if gameState != null && pid in gameState.players {
        snapshot := gameState.players[pid].SnapshotRestorable();
      }
    }

    /** The game-state step of Resume. The tombstone owns its snapshot alone, so it is nobody's live record. */
    method Resume(pid: string, snapshot: PlayerState?)
      requires Valid()
      requires gameState != null && snapshot != null ==> snapshot !in gameState.players.Values
      modifies Objects()
      ensures Valid()
      ensures View() == Rules.Resume(old(View()), pid,
                                     if snapshot == null then None else Some(old(snapshot.View())))
    {
      if gameState != null && snapshot != null {
        if pid in gameState.players {
          gameState.RestorePlayer(pid, snapshot);
        } else {
          gameState.InstallPlayer(pid, snapshot);
        }
      }
    }
  }

  /** A fresh record for every member of the room, made in whatever order the map yields them. */
  method Recruit(roster: map<string, Caps>, now: int) returns (players: map<string, PlayerState>)
    ensures fresh(players.Values) && Distinct(players)
    ensures PlayerViews(players) == map pid | pid in roster :: NewPlayer(pid, roster[pid], now)
  {
    players := map[];
    var pending := roster.Keys;
    while pending != {}
      invariant pending <= roster.Keys
      invariant forall pid :: pid in players <==> pid in roster && pid !in pending
      invariant forall pid | pid in players :: fresh(players[pid])
      invariant forall pid | pid in players :: players[pid].View() == NewPlayer(pid, roster[pid], now)
      invariant Distinct(players)
      decreases pending
    {
      var pid :| pid in pending;
      pending := pending - {pid};
      var p := new PlayerState(NewPlayer(pid, roster[pid], now));
      assert forall k | k in players :: players[k] != p;
      players := players[pid := p];
    }
  }
}
