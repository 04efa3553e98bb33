/** Rooms and tombstones together: what a disconnected player's seat is worth while the tombstone lasts. */
module Absences {
  import opened LobbyRules

  /** Whose seat in which room a tombstone keeps. */
  datatype Seat = Seat(uid: int, id: string)

  /** Pending tombstones by token. Which token a session carries, and when a tombstone expires, is left open: any
      token may be stored, and any pending one swept or resumed, at any time. */
  datatype World = World(lobby: Lobby, tombs: map<string, Seat>)

  datatype Event =
    | Create(uid: int, id: string)
    | Join(uid: int, id: string)
    | Leave(uid: int)
    | Disconnect(uid: int, token: string)
    | Sweep(token: string)
    | Resume(token: string)
    | StartGame(uid: int)
    | Return(uid: int)
    | Die(uid: int)
    | Fall(uid: int, id: string)

  /** doLeave, which Join and Create call too, drops the player's tombstones, but only if the session is in a room. */
  function Forget(w: World, uid: int): map<string, Seat> {
    if uid in w.lobby.roomOf then map t | t in w.tombs && w.tombs[t].uid != uid :: w.tombs[t] else w.tombs
  }

  /** What the event does to the rooms. */
  function StepOf(w: World, e: Event): Step
    requires (e.Sweep? || e.Resume?) ==> e.token in w.tombs
  {
    match e
    case Create(uid, id) => Step.Create(uid, id)
    case Join(uid, id) => Step.Join(uid, id)
    case Leave(uid) => Step.Leave(uid)
    case Disconnect(uid, _) => Step.Disconnect(uid)
    case Sweep(token) => Step.Sweep(w.tombs[token].uid, w.tombs[token].id)
    case Resume(token) => Step.Resume(w.tombs[token].uid, w.tombs[token].id)
    case StartGame(uid) => Step.StartGame(uid)
    case Return(uid) => Step.Return(uid)
    case Die(uid) => Step.Die(uid)
    case Fall(uid, id) => Step.Fall(uid, id)
  }

  /** A sweep or a resume needs a pending tombstone; without one nothing happens. */
  predicate Takes(w: World, e: Event) {
    e.Sweep? || e.Resume? ==> e.token in w.tombs
  }

  function Tombs(w: World, e: Event): map<string, Seat> {
    match e
    case Create(uid, _) => Forget(w, uid)
    case Join(uid, _) => Forget(w, uid)
    case Leave(uid) => Forget(w, uid)
    case Disconnect(uid, token) =>
      if uid in w.lobby.roomOf then w.tombs[token := Seat(uid, w.lobby.roomOf[uid])] else w.tombs
    case Sweep(token) => w.tombs - {token}
    case Resume(token) => w.tombs - {token}
    case _ => w.tombs
  }

  function After(w: World, e: Event, next: int): World {
    if Takes(w, e) then World(Next(w.lobby, StepOf(w, e), next), Tombs(w, e)) else w
  }

  /** What becomes of every tombstone: leaving, also on the way to another room, drops all of one's own and none of
      anybody else's; a disconnect stores the seat it leaves under the session's token; a sweep or a resume takes the
      one tombstone it is about; nothing else touches them. */
  lemma TombstonesMean(w: World, e: Event, next: int, t: string)
    ensures var after := After(w, e, next).tombs;
      if e.Leave? || e.Create? || e.Join? then
        && (t in after <==> t in w.tombs && !(w.tombs[t].uid == e.uid && e.uid in w.lobby.roomOf))
        && (t in after ==> after[t] == w.tombs[t])
      else if e.Disconnect? && e.token == t && e.uid in w.lobby.roomOf then
        t in after && after[t].uid == e.uid && after[t].id == w.lobby.roomOf[e.uid]
      else if (e.Sweep? || e.Resume?) && e.token == t then t !in after
      else (t in after <==> t in w.tombs) && (t in after ==> after[t] == w.tombs[t])
  {
  }

  /** And what an event does to the rooms: a sweep unseats the player its tombstone names from the room it names, a
      resume lets that player listen there again, and neither does anything without a tombstone. */
  lemma EventsMean(w: World, e: Event, next: int)
    ensures var s := After(w, e, next).lobby;
      match e
      case Create(uid, id) => s == Next(w.lobby, Step.Create(uid, id), next)
      case Join(uid, id) => s == Next(w.lobby, Step.Join(uid, id), next)
      case Leave(uid) => s == Next(w.lobby, Step.Leave(uid), next)
      case Disconnect(uid, _) => s == Next(w.lobby, Step.Disconnect(uid), next)
      case Sweep(t) =>
        if t in w.tombs then s == Next(w.lobby, Step.Sweep(w.tombs[t].uid, w.tombs[t].id), next) else s == w.lobby
      case Resume(t) =>
        if t in w.tombs then s == Next(w.lobby, Step.Resume(w.tombs[t].uid, w.tombs[t].id), next) else s == w.lobby
      case StartGame(uid) => s == Next(w.lobby, Step.StartGame(uid), next)
      case Return(uid) => s == Next(w.lobby, Step.Return(uid), next)
      case Die(uid) => s == Next(w.lobby, Step.Die(uid), next)
      case Fall(uid, id) => s == Next(w.lobby, Step.Fall(uid, id), next)
  {
  }

  /** Every listed room is well formed; every live session listens in the room it names; every tombstone belongs to
      a player with no live session, no other tombstone and, while its room lasts, a seat there. */
  ghost predicate Good(w: World) {
    && Ok(w.lobby)
    && (forall uid | uid in w.lobby.roomOf :: Listens(w.lobby, uid))
    && (forall t | t in w.tombs :: Keeps(w.lobby, w.tombs[t]))
    && (forall t, t' | t in w.tombs && t' in w.tombs && t != t' :: w.tombs[t].uid != w.tombs[t'].uid)
  }

  predicate Listens(s: Lobby, uid: int)
    requires uid in s.roomOf
  {
    s.roomOf[uid] in s.rooms && uid in s.rooms[s.roomOf[uid]].group
  }

  predicate Keeps(s: Lobby, seat: Seat) {
    seat.uid !in s.roomOf && (seat.id in s.rooms ==> seat.uid in s.rooms[seat.id].players)
  }

  predicate Named(tombs: map<string, Seat>, uid: int, id: string) {
    exists t :: t in tombs && (tombs[t].uid == uid || tombs[t].id == id)
  }

  predicate Absent(tombs: map<string, Seat>, uid: int) {
    exists t :: t in tombs && tombs[t].uid == uid
  }

  /** Nobody with a pending tombstone comes back by Create or Join instead of Resume, and no room name is opened anew
      while a tombstone, or in Create's draw a listener, still goes by it. */
  predicate Orderly(w: World, e: Event, next: int) {
    match e
    case Create(uid, id) =>
      var rooms := DoLeave(w.lobby, uid, next).rooms;
      (id in rooms ==> rooms[id].group == {}) && !Named(w.tombs, uid, id)
    case Join(uid, id) =>
      var rooms := DoLeave(w.lobby, uid, next).rooms;
      MayJoin(RoomToJoin(rooms, id), uid) ==>
        if id in rooms && rooms[id].group != {} then !Absent(w.tombs, uid) else !Named(w.tombs, uid, id)
    case _ => true
  }

  predicate Legal(w: World, e: Event, next: int) {
    Takes(w, e) ==> LegalChoice(w.lobby, StepOf(w, e), next)
  }

  /** Leaving gives up seat, session entry and tombstones at once. */
  lemma LeaveKeepsGood(w: World, uid: int, next: int)
    requires Good(w) && MayInheritOnLeave(w.lobby, uid, next)
    ensures Good(World(DoLeave(w.lobby, uid, next), w.tombs))
    ensures Forget(w, uid) == w.tombs && uid !in DoLeave(w.lobby, uid, next).roomOf
  {
    LeaveKeepsOk(w.lobby, uid, next);
    assert Forget(w, uid) == w.tombs;
    if uid in w.lobby.roomOf {
      assert Listens(w.lobby, uid);
    }
    var s := DoLeave(w.lobby, uid, next);
    forall u | u in s.roomOf ensures Listens(s, u) {
      assert Listens(w.lobby, u);
    }
    forall t | t in w.tombs ensures Keeps(s, w.tombs[t]) {
      assert Keeps(w.lobby, w.tombs[t]);
    }
  }

  /** A player without a session takes a seat in a room already listed. */
  lemma EnteringKeepsGoodIff(w: World, uid: int, id: string)
    requires Good(w) && uid !in w.lobby.roomOf && id in w.lobby.rooms
    ensures var r := w.lobby.rooms[id];
      var s := Lobby(w.lobby.rooms[id := r.(players := r.players + {uid}, group := r.group + {uid})],
                     w.lobby.roomOf[uid := id]);
      Good(World(s, w.tombs)) <==> !Absent(w.tombs, uid)
  {
    var r := w.lobby.rooms[id];
    var s := Lobby(w.lobby.rooms[id := r.(players := r.players + {uid}, group := r.group + {uid})],
                   w.lobby.roomOf[uid := id]);
    assert Ok(s);
    forall u | u in s.roomOf ensures Listens(s, u) {
      assert u != uid ==> Listens(w.lobby, u);
    }
    forall t | t in w.tombs ensures Keeps(s, w.tombs[t]) <==> w.tombs[t].uid != uid {
      assert Keeps(w.lobby, w.tombs[t]);
    }
  }

  /** A player without a session opens a room under a new or an abandoned name. */
  lemma OpeningKeepsGoodIff(w: World, uid: int, id: string, host: int, dead: set<int>)
    requires Good(w) && uid !in w.lobby.roomOf && host in {0, uid}
    ensures var s := Lobby(w.lobby.rooms[id := Room({uid}, {uid}, host, WAITING, dead)], w.lobby.roomOf[uid := id]);
      Good(World(s, w.tombs))
      <==> (id in w.lobby.rooms ==> w.lobby.rooms[id].group == {}) && !Named(w.tombs, uid, id)
  {
    var s := Lobby(w.lobby.rooms[id := Room({uid}, {uid}, host, WAITING, dead)], w.lobby.roomOf[uid := id]);
    forall u | u in s.roomOf && u != uid ensures Listens(s, u) <==> s.roomOf[u] != id {
      assert Listens(w.lobby, u);
    }
    assert RoomOk(s.rooms[id]) && Ok(s);
    if id in w.lobby.rooms {
      var group := w.lobby.rooms[id].group;
      if forall u :: u !in group {
        assert group == {};
      } else {
        var u :| u in group;
        assert u in s.roomOf && s.roomOf[u] == id && !Listens(s, u);
      }
    }
    forall t | t in w.tombs
      ensures Keeps(s, w.tombs[t]) <==> w.tombs[t].uid != uid && w.tombs[t].id != id
    {
      assert Keeps(w.lobby, w.tombs[t]);
    }
  }

  /** The other events are always orderly. */
  lemma OthersKeepGood(w: World, e: Event, next: int)
    requires Good(w) && Legal(w, e, next) && !e.Create? && !e.Join? && !e.Leave?
    ensures Good(After(w, e, next))
  {
    if e.Sweep? || e.Resume? {
      if Takes(w, e) {
        TakingKeepsGood(w, e, next);
      }
    } else if e.Disconnect? {
      DisconnectKeepsGood(w, e, next);
    } else {
      StepKeepsOkIff(w.lobby, StepOf(w, e), next);
      NobodyMoves(w, After(w, e, next));
    }
  }

  lemma TakingKeepsGood(w: World, e: Event, next: int)
    requires Good(w) && Legal(w, e, next) && (e.Sweep? || e.Resume?) && Takes(w, e)
    ensures Good(After(w, e, next))
  {
    var w' := After(w, e, next);
    assert Keeps(w.lobby, w.tombs[e.token]);
    StepKeepsOkIff(w.lobby, StepOf(w, e), next);
    forall u | u in w'.lobby.roomOf ensures Listens(w'.lobby, u) {
      assert u in w.lobby.roomOf ==> Listens(w.lobby, u);
    }
    forall t | t in w'.tombs ensures Keeps(w'.lobby, w'.tombs[t]) {
      assert Keeps(w.lobby, w.tombs[t]);
    }
  }

  lemma DisconnectKeepsGood(w: World, e: Event, next: int)
    requires Good(w) && e.Disconnect?
    ensures Good(After(w, e, next))
  {
    var w' := After(w, e, next);
    StepKeepsOkIff(w.lobby, StepOf(w, e), next);
    forall u | u in w'.lobby.roomOf ensures Listens(w'.lobby, u) {
      assert Listens(w.lobby, u);
    }
    if e.uid in w.lobby.roomOf {
      assert Listens(w.lobby, e.uid);
    }
    forall t | t in w'.tombs ensures Keeps(w'.lobby, w'.tombs[t]) {
      assert t in w.tombs ==> Keeps(w.lobby, w.tombs[t]);
    }
  }

  /** Steps that leave seats, listeners, sessions and tombstones alone. */
  lemma NobodyMoves(w: World, w': World)
    requires Good(w) && Ok(w'.lobby) && w'.tombs == w.tombs && w'.lobby.roomOf == w.lobby.roomOf
    requires w'.lobby.rooms.Keys == w.lobby.rooms.Keys && forall id | id in w.lobby.rooms ::
      w'.lobby.rooms[id].group == w.lobby.rooms[id].group && w'.lobby.rooms[id].players == w.lobby.rooms[id].players
    ensures Good(w')
  {
    forall u | u in w'.lobby.roomOf ensures Listens(w'.lobby, u) {
      assert Listens(w.lobby, u);
    }
    forall t | t in w'.tombs ensures Keeps(w'.lobby, w'.tombs[t]) {
      assert Keeps(w.lobby, w.tombs[t]);
    }
  }

  /** Sweeps and resumes need no assumption of their own: all stays well exactly if the event is orderly. */
  lemma GoodIffOrderly(w: World, e: Event, next: int)
    requires Good(w) && Legal(w, e, next)
    ensures Good(After(w, e, next)) <==> Orderly(w, e, next)
  {
    if e.Create? || e.Join? || e.Leave? {
      LeaveKeepsGood(w, e.uid, next);
      var left := World(DoLeave(w.lobby, e.uid, next), w.tombs);
      if e.Create? {
        OpeningKeepsGoodIff(left, e.uid, e.id, e.uid, {});
      } else if e.Join? {
        if e.id in left.lobby.rooms && left.lobby.rooms[e.id].group != {} {
          EnteringKeepsGoodIff(left, e.uid, e.id);
        } else {
          OpeningKeepsGoodIff(left, e.uid, e.id, 0, {});
          assert {} + {e.uid} == {e.uid};
        }
      }
    } else {
      OthersKeepGood(w, e, next);
    }
  }

  const EMPTY_SERVER := World(Lobby(map[], map[]), map[])

  ghost function Run(w: World, events: seq<(Event, int)>): World {
    if events == [] then w
    else After(Run(w, events[..|events| - 1]), events[|events| - 1].0, events[|events| - 1].1)
  }

  ghost predicate IsOrderlyRun(w: World, events: seq<(Event, int)>) {
    forall i | 0 <= i < |events| ::
      && Legal(Run(w, events[..i]), events[i].0, events[i].1)
      && Orderly(Run(w, events[..i]), events[i].0, events[i].1)
  }

  lemma OrderlyPrefix(w: World, events: seq<(Event, int)>, n: nat)
    requires IsOrderlyRun(w, events) && n <= |events|
    ensures IsOrderlyRun(w, events[..n])
  {
    assert forall i | 0 <= i < n :: events[..n][..i] == events[..i];
  }

  /** In every orderly run, whoever inherits a room and whichever tombstones are swept or resumed when, every listed
      room seats its listeners and its host, a sweep never finds its player listening, and a resume always finds its
      seat if the room is still there. */
  lemma {:induction false} OrderlyRunsStayGood(w: World, events: seq<(Event, int)>)
    requires Good(w) && IsOrderlyRun(w, events)
    ensures Good(Run(w, events))
    ensures forall t | t in Run(w, events).tombs ::
      && Assumed(Run(w, events).lobby, Step.Sweep(Run(w, events).tombs[t].uid, Run(w, events).tombs[t].id))
      && Assumed(Run(w, events).lobby, Step.Resume(Run(w, events).tombs[t].uid, Run(w, events).tombs[t].id))
  {
    if events != [] {
      var n := |events| - 1;
      OrderlyPrefix(w, events, n);
      OrderlyRunsStayGood(w, events[..n]);
      GoodIffOrderly(Run(w, events[..n]), events[n].0, events[n].1);
    }
    SeatsAreKept(Run(w, events));
  }

  /** The runs may start from the server as it starts. */
  lemma EmptyServerIsGood()
    ensures Good(EMPTY_SERVER)
  {
  }

  lemma SeatsAreKept(w: World)
    requires Good(w)
    ensures forall t | t in w.tombs ::
      && Assumed(w.lobby, Step.Sweep(w.tombs[t].uid, w.tombs[t].id))
      && Assumed(w.lobby, Step.Resume(w.tombs[t].uid, w.tombs[t].id))
  {
    forall t | t in w.tombs
      ensures Assumed(w.lobby, Step.Sweep(w.tombs[t].uid, w.tombs[t].id))
           && Assumed(w.lobby, Step.Resume(w.tombs[t].uid, w.tombs[t].id))
    {
      assert Keeps(w.lobby, w.tombs[t]);
    }
  }

  /** The comment above doLeaveByUID says that the group no longer holds the player. It does after a reconnect through
      Join in a new session: the Join leaves the pending tombstone alone, and sweeping that tombstone, whoever
      inherits, takes the seat from under the live session. */
  lemma SweepAfterRejoinBreaks(w: World, t: string, next: int, next': int)
    requires Good(w) && t in w.tombs
    requires MayJoin(RoomToJoin(w.lobby.rooms, w.tombs[t].id), w.tombs[t].uid)
    ensures var seat := w.tombs[t];
      var w1 := After(w, Event.Join(seat.uid, seat.id), next);
      && t in w1.tombs && w1.tombs[t] == seat && Ok(w1.lobby)
      && !RoomsOk(After(w1, Event.Sweep(t), next').lobby)
  {
    var seat := w.tombs[t];
    assert Keeps(w.lobby, seat);
    StepKeepsOkIff(w.lobby, Step.Join(seat.uid, seat.id), next);
    var w1 := After(w, Event.Join(seat.uid, seat.id), next);
    var w2 := After(w1, Event.Sweep(t), next');
    assert seat.uid in w1.lobby.rooms[seat.id].group;
    assert seat.id in w2.lobby.rooms && seat.uid in w2.lobby.rooms[seat.id].group;
    assert seat.uid !in w2.lobby.rooms[seat.id].players;
  }

  /* The room under a pending tombstone */

  /** The event empties the room's group, or finds it empty, and so delists it: the last listener leaves, or a sweep
      comes while nobody listens. */
  ghost predicate Delists(w: World, e: Event, id: string) {
    id in w.lobby.rooms &&
    if e.Leave? || e.Create? || e.Join? then
      e.uid in w.lobby.roomOf && w.lobby.roomOf[e.uid] == id && w.lobby.rooms[id].group <= {e.uid}
    else
      e.Sweep? && e.token in w.tombs && w.tombs[e.token].id == id && w.lobby.rooms[id].group == {}
  }

  /** The event is not the one that takes or replaces this tombstone. */
  predicate Spares(e: Event, t: string) {
    (e.Sweep? || e.Resume? || e.Disconnect?) ==> e.token != t
  }

  lemma TombstoneStays(w: World, e: Event, next: int, t: string)
    requires Good(w) && Legal(w, e, next) && Spares(e, t) && t in w.tombs
    ensures t in After(w, e, next).tombs && After(w, e, next).tombs[t] == w.tombs[t]
  {
    assert Keeps(w.lobby, w.tombs[t]);
  }

  /** The room a pending tombstone names stays listed exactly if the event does not delist it; once delisted, it
      stays so. */
  lemma RoomStaysIff(w: World, e: Event, next: int, t: string)
    requires Good(w) && Legal(w, e, next) && Orderly(w, e, next) && t in w.tombs
    ensures var id := w.tombs[t].id;
      id in After(w, e, next).lobby.rooms <==> id in w.lobby.rooms && !Delists(w, e, id)
  {
    assert Keeps(w.lobby, w.tombs[t]);
  }

  /** The run neither takes nor replaces the tombstone. */
  ghost predicate AllSpare(events: seq<(Event, int)>, t: string) {
    forall i | 0 <= i < |events| :: Spares(events[i].0, t)
  }

  ghost predicate NeverDelists(w: World, events: seq<(Event, int)>, id: string) {
    forall i | 0 <= i < |events| :: !Delists(Run(w, events[..i]), events[i].0, id)
  }

  lemma NeverDelistsStep(w: World, events: seq<(Event, int)>, id: string)
    requires events != []
    ensures var n := |events| - 1;
      NeverDelists(w, events, id)
      <==> NeverDelists(w, events[..n], id) && !Delists(Run(w, events[..n]), events[n].0, id)
  {
    var n := |events| - 1;
    assert forall i | 0 <= i < n :: events[..n][..i] == events[..i] && events[..n][i] == events[i];
  }

  /** Over every orderly run that spares a pending tombstone, that tombstone stays as it is, and its room is still
      listed at the end exactly if no event of the run delisted it. */
  lemma {:induction false} RoomOutlastsRunIff(w: World, events: seq<(Event, int)>, t: string)
    requires Good(w) && IsOrderlyRun(w, events) && t in w.tombs && w.tombs[t].id in w.lobby.rooms
    requires AllSpare(events, t)
    ensures t in Run(w, events).tombs && Run(w, events).tombs[t] == w.tombs[t]
    ensures w.tombs[t].id in Run(w, events).lobby.rooms <==> NeverDelists(w, events, w.tombs[t].id)
  {
    if events != [] {
      var n := |events| - 1;
      var before := Run(w, events[..n]);
      OrderlyPrefix(w, events, n);
      RoomOutlastsRunIff(w, events[..n], t);
      OrderlyRunsStayGood(w, events[..n]);
      NeverDelistsStep(w, events, w.tombs[t].id);
      TombstoneStays(before, events[n].0, events[n].1, t);
      RoomStaysIff(before, events[n].0, events[n].1, t);
    }
  }

  /** A way to lose the seat with the tombstone intact: the last listener leaves. */
  lemma LastListenerLeaves(w: World, t: string, uid: int, next: int, next': int)
    requires Good(w) && t in w.tombs && uid in w.lobby.roomOf && w.lobby.roomOf[uid] == w.tombs[t].id
    requires w.lobby.rooms[w.tombs[t].id].group <= {uid} && MayInheritOnLeave(w.lobby, uid, next)
    ensures var w1 := After(w, Event.Leave(uid), next);
      && t in w1.tombs && w1.tombs[t] == w.tombs[t] && w.tombs[t].id !in w1.lobby.rooms
      && After(w1, Event.Resume(t), next').lobby == w1.lobby
  {
    TombstoneStays(w, Event.Leave(uid), next, t);
    RoomStaysIff(w, Event.Leave(uid), next, t);
  }

  /** Another: everyone is away, and the first tombstone of the room to be swept takes the room with it. */
  lemma FirstSweepTakesTheRoom(w: World, t: string, swept: string, next: int, next': int)
    requires Good(w) && t in w.tombs && swept in w.tombs && t != swept && w.tombs[swept].id == w.tombs[t].id
    requires w.tombs[t].id in w.lobby.rooms && w.lobby.rooms[w.tombs[t].id].group == {}
    requires Legal(w, Event.Sweep(swept), next)
    ensures var w1 := After(w, Event.Sweep(swept), next);
      && t in w1.tombs && w1.tombs[t] == w.tombs[t] && w.tombs[t].id !in w1.lobby.rooms
      && After(w1, Event.Resume(t), next').lobby == w1.lobby
  {
    TombstoneStays(w, Event.Sweep(swept), next, t);
    RoomStaysIff(w, Event.Sweep(swept), next, t);
  }

  /** The server gets there from its start: a player drops out of a room it shares with one other, who then leaves. */
  lemma AbsentPlayerIsStranded(absent: int, other: int, id: string, token: string, next: int)
    requires absent != other
    ensures var w := After(After(After(EMPTY_SERVER, Event.Create(absent, id), next), Event.Join(other, id), next),
                           Event.Disconnect(absent, token), next);
      var w1 := After(w, Event.Leave(other), next);
      && Good(w) && token in w1.tombs && w1.tombs[token] == Seat(absent, id)
      && After(w1, Event.Resume(token), next).lobby == w1.lobby && id !in w1.lobby.rooms
  {
    EmptyServerIsGood();
    var w1 := After(EMPTY_SERVER, Event.Create(absent, id), next);
    GoodIffOrderly(EMPTY_SERVER, Event.Create(absent, id), next);
    var w2 := After(w1, Event.Join(other, id), next);
    GoodIffOrderly(w1, Event.Join(other, id), next);
    var w3 := After(w2, Event.Disconnect(absent, token), next);
    GoodIffOrderly(w2, Event.Disconnect(absent, token), next);
    LastListenerLeaves(w3, token, other, next, next);
  }

  /** The same with both players away: the other's tombstone is swept. */
  lemma AbsentPlayersAreStranded(absent: int, other: int, id: string, token: string, swept: string, next: int)
    requires absent != other && token != swept
    ensures var both := After(After(EMPTY_SERVER, Event.Create(absent, id), next), Event.Join(other, id), next);
      var w := After(After(both, Event.Disconnect(absent, token), next), Event.Disconnect(other, swept), next);
      var w1 := After(w, Event.Sweep(swept), next);
      && Good(w) && token in w1.tombs && w1.tombs[token] == Seat(absent, id)
      && After(w1, Event.Resume(token), next).lobby == w1.lobby && id !in w1.lobby.rooms
  {
    EmptyServerIsGood();
    var w1 := After(EMPTY_SERVER, Event.Create(absent, id), next);
    GoodIffOrderly(EMPTY_SERVER, Event.Create(absent, id), next);
    var w2 := After(w1, Event.Join(other, id), next);
    GoodIffOrderly(w1, Event.Join(other, id), next);
    var w3 := After(w2, Event.Disconnect(absent, token), next);
    GoodIffOrderly(w2, Event.Disconnect(absent, token), next);
    var w4 := After(w3, Event.Disconnect(other, swept), next);
    GoodIffOrderly(w3, Event.Disconnect(other, swept), next);
    FirstSweepTakesTheRoom(w4, token, swept, next, next);
  }
}
