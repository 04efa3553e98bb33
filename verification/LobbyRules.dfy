/** Who is in which room: the membership half of the room handlers, as functions on values. */
module LobbyRules {
  const WAITING := 0
  const PLAYING := 1

  /** `players` are the seats, `group` the uids whose sessions receive broadcasts. */
  datatype Room = Room(players: set<int>, group: set<int>, host: int, state: int, dead: set<int>)

  const NEW_ROOM := Room({}, {}, 0, WAITING, {})

  /** `roomOf` is the "room_id" value of each uid's one live session; absent when unset or when no session lives. */
  datatype Lobby = Lobby(rooms: map<string, Room>, roomOf: map<int, string>)

  /** The room without `uid`; `next` is the seat the map iteration yields first when the host must change. */
  function Unseat(r: Room, uid: int, next: int): Room {
    var players := r.players - {uid};
    r.(players := players, host := if r.host == uid && players != {} then next else r.host)
  }

  /** `next` is a possible outcome of that iteration. */
  predicate MayInherit(r: Room, uid: int, next: int) {
    r.host == uid && r.players - {uid} != {} ==> next in r.players - {uid}
  }

  function PutUnlessEmpty(rooms: map<string, Room>, id: string, r: Room): map<string, Room> {
    if r.group == {} then rooms - {id} else rooms[id := r]
  }

  function DoLeave(s: Lobby, uid: int, next: int): Lobby {
    if uid !in s.roomOf || s.roomOf[uid] !in s.rooms then s
    else
      var id := s.roomOf[uid];
      var r := Unseat(s.rooms[id], uid, next);
      Lobby(PutUnlessEmpty(s.rooms, id, r.(group := r.group - {uid})), s.roomOf - {uid})
  }

  predicate MayInheritOnLeave(s: Lobby, uid: int, next: int) {
    uid in s.roomOf && s.roomOf[uid] in s.rooms ==> MayInherit(s.rooms[s.roomOf[uid]], uid, next)
  }

  /** The room a Join finds: an abandoned one counts as absent and is replaced by a host-less new one. */
  function RoomToJoin(rooms: map<string, Room>, id: string): Room {
    if id in rooms && rooms[id].group != {} then rooms[id] else NEW_ROOM
  }

  predicate MayJoin(r: Room, uid: int) {
    r.state == WAITING && uid !in r.dead
  }

  function JoinRoom(s: Lobby, uid: int, id: string, next: int): Lobby {
    var s1 := DoLeave(s, uid, next);
    var r := RoomToJoin(s1.rooms, id);
    if !MayJoin(r, uid) then s1
    else Lobby(s1.rooms[id := r.(players := r.players + {uid}, group := r.group + {uid})], s1.roomOf[uid := id])
  }

  /** `id` is the random name drawn; a room already listed under it is replaced. */
  function CreateRoom(s: Lobby, uid: int, id: string, next: int): Lobby {
    var s1 := DoLeave(s, uid, next);
    Lobby(s1.rooms[id := Room({uid}, {uid}, uid, WAITING, {})], s1.roomOf[uid := id])
  }

  /** The session dies: its player keeps the seat and loses the broadcasts. */
  function MarkDisconnected(s: Lobby, uid: int): Lobby {
    if uid !in s.roomOf then s
    else
      var id := s.roomOf[uid];
      var rooms := if id in s.rooms then s.rooms[id := s.rooms[id].(group := s.rooms[id].group - {uid})] else s.rooms;
      Lobby(rooms, s.roomOf - {uid})
  }

  /** doLeaveByUID, called by the sweeper for an expired tombstone. */
  function DoLeaveByUID(s: Lobby, uid: int, id: string, next: int): Lobby {
    if id !in s.rooms then s else s.(rooms := PutUnlessEmpty(s.rooms, id, Unseat(s.rooms[id], uid, next)))
  }

  /** A new session takes the place of the dead one. */
  function ResumeSession(s: Lobby, uid: int, id: string): Lobby {
    if id !in s.rooms then s
    else Lobby(s.rooms[id := s.rooms[id].(group := s.rooms[id].group + {uid})], s.roomOf[uid := id])
  }

  function SetState(s: Lobby, uid: int, state: int): Lobby {
    if uid !in s.roomOf || s.roomOf[uid] !in s.rooms then s
    else
      var id := s.roomOf[uid];
      var r := s.rooms[id];
      s.(rooms := s.rooms[id := r.(state := state, dead := if state == WAITING then {} else r.dead)])
  }

  /** What a tick does to the room of a player it kills, whether or not that player's session still lives. */
  function RecordCasualty(s: Lobby, uid: int, id: string): Lobby {
    if id !in s.rooms then s
    else s.(rooms := s.rooms[id := s.rooms[id].(dead := s.rooms[id].dead + {uid})])
  }

  /** Die, reported by the player's own session. */
  function RecordDeath(s: Lobby, uid: int): Lobby {
    if uid !in s.roomOf then s else RecordCasualty(s, uid, s.roomOf[uid])
  }

  /* What every listed room keeps */

  ghost predicate RoomOk(r: Room) {
    r.group <= r.players && (r.host == 0 || r.host in r.players)
  }

  ghost predicate RoomsOk(s: Lobby) {
    forall id | id in s.rooms :: RoomOk(s.rooms[id])
  }

  /** Beyond that, whoever listens in a room is in it by its session's own account. */
  ghost predicate Ok(s: Lobby) {
    && RoomsOk(s)
    && (forall id, uid | id in s.rooms && uid in s.rooms[id].group :: uid in s.roomOf && s.roomOf[uid] == id)
  }

  datatype Step =
    | Create(uid: int, id: string)
    | Join(uid: int, id: string)
    | Leave(uid: int)
    | Disconnect(uid: int)
    | Sweep(uid: int, id: string)
    | Resume(uid: int, id: string)
    | StartGame(uid: int)
    | Return(uid: int)
    | Die(uid: int)
    | Fall(uid: int, id: string)

  function Next(s: Lobby, step: Step, next: int): Lobby {
    match step
    case Create(uid, id) => CreateRoom(s, uid, id, next)
    case Join(uid, id) => JoinRoom(s, uid, id, next)
    case Leave(uid) => DoLeave(s, uid, next)
    case Disconnect(uid) => MarkDisconnected(s, uid)
    case Sweep(uid, id) => DoLeaveByUID(s, uid, id, next)
    case Resume(uid, id) => ResumeSession(s, uid, id)
    case StartGame(uid) => SetState(s, uid, PLAYING)
    case Return(uid) => SetState(s, uid, WAITING)
    case Die(uid) => RecordDeath(s, uid)
    case Fall(uid, id) => RecordCasualty(s, uid, id)
  }

  /** `next` is a legal choice of the step's map iteration. */
  predicate LegalChoice(s: Lobby, step: Step, next: int) {
    match step
    case Create(uid, _) => MayInheritOnLeave(s, uid, next)
    case Join(uid, _) => MayInheritOnLeave(s, uid, next)
    case Leave(uid) => MayInheritOnLeave(s, uid, next)
    case Sweep(uid, id) => id in s.rooms ==> MayInherit(s.rooms[id], uid, next)
    case _ => true
  }

  /** What the code takes for granted: a sweep finds its player outside the group, and a resume finds its player
      still seated in the room. */
  ghost predicate Seated(s: Lobby, step: Step) {
    match step
    case Sweep(uid, id) => id in s.rooms ==> uid !in s.rooms[id].group
    case Resume(uid, id) => id in s.rooms ==> uid in s.rooms[id].players
    case _ => true
  }

  /** A resume does not leave the session's current room first, so it also takes for granted that there is none. */
  ghost predicate Assumed(s: Lobby, step: Step) {
    Seated(s, step) &&
    (step.Resume? && step.id in s.rooms ==> forall k | k in s.rooms && k != step.id :: step.uid !in s.rooms[k].group)
  }

  /** Whoever inherits, a step keeps every listed room well formed exactly if what it takes for granted of its seat
      is true. All steps but sweeps and resumes take nothing for granted. */
  lemma StepKeepsRoomsOkIff(s: Lobby, step: Step, next: int)
    requires RoomsOk(s) && LegalChoice(s, step, next)
    ensures RoomsOk(Next(s, step, next)) <==> Seated(s, step)
  {
    var s' := Next(s, step, next);
    if (step.Sweep? || step.Resume?) && step.id in s.rooms && step.id in s'.rooms {
      assert RoomOk(s.rooms[step.id]);
    }
  }

  lemma LeaveKeepsOk(s: Lobby, uid: int, next: int)
    requires Ok(s) && MayInheritOnLeave(s, uid, next)
    ensures Ok(DoLeave(s, uid, next))
    ensures forall id | id in DoLeave(s, uid, next).rooms :: uid !in DoLeave(s, uid, next).rooms[id].group
  {
  }

  /** The same for the stronger invariant. */
  lemma StepKeepsOkIff(s: Lobby, step: Step, next: int)
    requires Ok(s) && LegalChoice(s, step, next)
    ensures Ok(Next(s, step, next)) <==> Assumed(s, step)
  {
    StepKeepsRoomsOkIff(s, step, next);
    match step
    case Create(uid, _) => LeaveKeepsOk(s, uid, next);
    case Join(uid, _) => LeaveKeepsOk(s, uid, next);
    case Leave(uid) => LeaveKeepsOk(s, uid, next);
    case Resume(uid, id) =>
      if k :| id in s.rooms && k in s.rooms && k != id && uid in s.rooms[k].group {
        var s' := Next(s, step, next);
        assert k in s'.rooms && uid in s'.rooms[k].group && s'.roomOf[uid] != k;
      }
    case _ =>
  }

  ghost function Run(s: Lobby, steps: seq<(Step, int)>): Lobby {
    if steps == [] then s
    else Next(Run(s, steps[..|steps| - 1]), steps[|steps| - 1].0, steps[|steps| - 1].1)
  }

  ghost predicate IsRun(s: Lobby, steps: seq<(Step, int)>) {
    forall i | 0 <= i < |steps| :: LegalChoice(Run(s, steps[..i]), steps[i].0, steps[i].1)
  }

  /** In every run, whoever inherits, every listed room seats all its listeners and its host. */
  lemma {:induction false} RoomsAlwaysOk(s: Lobby, steps: seq<(Step, int)>)
    requires RoomsOk(s) && IsRun(s, steps)
    requires forall i | 0 <= i < |steps| :: Seated(Run(s, steps[..i]), steps[i].0)
    ensures RoomsOk(Run(s, steps))
  {
    if steps != [] {
      var n := |steps| - 1;
      assert forall i | 0 <= i < n :: steps[..n][..i] == steps[..i];
      RoomsAlwaysOk(s, steps[..n]);
      StepKeepsRoomsOkIff(Run(s, steps[..n]), steps[n].0, steps[n].1);
    }
  }

  /** The sweeper's assumption is exactly what it needs. */
  lemma SweepKeepsOkIff(s: Lobby, uid: int, id: string, next: int)
    requires Ok(s) && id in s.rooms && LegalChoice(s, Sweep(uid, id), next)
    ensures Ok(Next(s, Sweep(uid, id), next)) <==> uid !in s.rooms[id].group
  {
    StepKeepsOkIff(s, Sweep(uid, id), next);
  }

  /** A resume breaks the invariant if the room no longer seats the player, or if the player listens elsewhere: the
      handler does not leave that room. */
  lemma ResumeKeepsOkIff(s: Lobby, uid: int, id: string, next: int)
    requires Ok(s) && id in s.rooms
    ensures Ok(Next(s, Step.Resume(uid, id), next))
       <==> uid in s.rooms[id].players && forall k | k in s.rooms && k != id :: uid !in s.rooms[k].group
  {
    StepKeepsOkIff(s, Step.Resume(uid, id), next);
  }

  /** The step leaves this very room listed, rather than opening a new one under its name. */
  ghost predicate SameRoom(s: Lobby, step: Step, next: int, id: string) {
    && id in s.rooms && id in Next(s, step, next).rooms
    && !(step.Create? && step.id == id)
    && (step.Join? && step.id == id ==> id in DoLeave(s, step.uid, next).rooms && s.rooms[id].group != {})
  }

  /** A room opened by Join has no host and never gets one; a room opened by Create never loses its host. */
  lemma HostingNeverChangesKind(s: Lobby, step: Step, next: int, id: string)
    requires RoomsOk(s) && LegalChoice(s, step, next) && SameRoom(s, step, next, id)
    requires step.uid != 0 && 0 !in s.rooms[id].players
    ensures Next(s, step, next).rooms[id].host == 0 <==> s.rooms[id].host == 0
    ensures 0 !in Next(s, step, next).rooms[id].players
  {
  }
}
