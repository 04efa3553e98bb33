/** What each room handler does to seats, listeners, hosts and sessions, spelled out room by room. */
module LobbyEffects {
  import opened LobbyRules

  /** Every room but this one is listed or not, and looks, as before. */
  ghost predicate OtherRoomsStay(s: Lobby, s': Lobby, id: string) {
    forall k | k != id :: (k in s'.rooms <==> k in s.rooms) && (k in s.rooms ==> s'.rooms[k] == s.rooms[k])
  }

  /** Everybody but this one has the session entry it had. */
  ghost predicate OtherSessionsStay(s: Lobby, s': Lobby, uid: int) {
    forall u | u != uid :: (u in s'.roomOf <==> u in s.roomOf) && (u in s.roomOf ==> s'.roomOf[u] == s.roomOf[u])
  }

  /** A leaver loses seat, listener and session entry; the host is replaced, by a remaining member, only if it was the
      leaver and somebody remains; the room goes if nobody listens any more. */
  lemma LeaveMeans(s: Lobby, uid: int, next: int)
    requires MayInheritOnLeave(s, uid, next)
    ensures var s' := Next(s, Step.Leave(uid), next);
      if uid !in s.roomOf || s.roomOf[uid] !in s.rooms then s' == s
      else
        var id := s.roomOf[uid];
        var r := s.rooms[id];
        && uid !in s'.roomOf && OtherSessionsStay(s, s', uid) && OtherRoomsStay(s, s', id)
        && (id in s'.rooms <==> !(r.group <= {uid}))
        && (id in s'.rooms ==> Unseated(r, s'.rooms[id], uid) && s'.rooms[id].group == r.group - {uid})
  {
    if uid in s.roomOf && s.roomOf[uid] in s.rooms {
      var r := s.rooms[s.roomOf[uid]];
      assert r.group - {uid} == {} <==> r.group <= {uid};
      assert Unseated(r, Unseat(r, uid, next), uid);
    }
  }

  ghost predicate Unseated(r: Room, r': Room, uid: int) {
    && r'.players == r.players - {uid} && r'.state == r.state && r'.dead == r.dead
    && (if r.host == uid && r'.players != {} then r'.host in r'.players else r'.host == r.host)
  }

  /** After its own leave a joiner is turned away, with nothing changed, exactly from a room with listeners that is
      playing (state 1, or any but 0) or has it on its death record. Otherwise it is seated, listens and is in the
      room by its session's account: in the room as it was, or, if nobody listens there, in a new one without a host. */
  lemma JoinMeans(s: Lobby, uid: int, id: string, next: int)
    ensures var left, s' := Next(s, Step.Leave(uid), next), Next(s, Step.Join(uid, id), next);
      var open := id in left.rooms && left.rooms[id].group != {};
      if open && (left.rooms[id].state != 0 || uid in left.rooms[id].dead) then s' == left
      else
        && id in s'.rooms && uid in s'.rooms[id].players && uid in s'.rooms[id].group
        && uid in s'.roomOf && s'.roomOf[uid] == id && OtherSessionsStay(left, s', uid) && OtherRoomsStay(left, s', id)
        && (if open then
              var r := left.rooms[id];
              s'.rooms[id] == Room(r.players + {uid}, r.group + {uid}, r.host, r.state, r.dead)
            else s'.rooms[id] == Room({uid}, {uid}, 0, 0, {}))
  {
  }

  /** Create leaves first; the room then has its creator alone, as host, and waits. */
  lemma CreateMeans(s: Lobby, uid: int, id: string, next: int)
    ensures var left, s' := Next(s, Step.Leave(uid), next), Next(s, Step.Create(uid, id), next);
      && id in s'.rooms && s'.rooms[id] == Room({uid}, {uid}, uid, 0, {})
      && uid in s'.roomOf && s'.roomOf[uid] == id && OtherSessionsStay(left, s', uid) && OtherRoomsStay(left, s', id)
  {
  }

  /** A disconnect takes the listener and the session entry, and nothing else: not the seat, not the host, not even an
      unheard room. */
  lemma DisconnectMeans(s: Lobby, uid: int, next: int)
    ensures var s' := Next(s, Step.Disconnect(uid), next);
      if uid !in s.roomOf then s' == s
      else
        && uid !in s'.roomOf && OtherSessionsStay(s, s', uid) && OtherRoomsStay(s, s', s.roomOf[uid])
        && s'.rooms.Keys == s.rooms.Keys
        && (s.roomOf[uid] in s.rooms ==>
              var r, r' := s.rooms[s.roomOf[uid]], s'.rooms[s.roomOf[uid]];
              && r'.group == r.group - {uid} && r'.players == r.players
              && r'.host == r.host && r'.state == r.state && r'.dead == r.dead)
  {
  }

  /** A sweep takes the seat only, and the room if nobody listens. */
  lemma SweepMeans(s: Lobby, uid: int, id: string, next: int)
    requires LegalChoice(s, Step.Sweep(uid, id), next)
    ensures var s' := Next(s, Step.Sweep(uid, id), next);
      && s'.roomOf == s.roomOf && OtherRoomsStay(s, s', id)
      && (id in s'.rooms <==> id in s.rooms && s.rooms[id].group != {})
      && (id in s'.rooms ==> Unseated(s.rooms[id], s'.rooms[id], uid) && s'.rooms[id].group == s.rooms[id].group)
  {
  }

  /** A resume adds the listener and the session entry, and no seat, if the room is listed. */
  lemma ResumeMeans(s: Lobby, uid: int, id: string, next: int)
    ensures var s' := Next(s, Step.Resume(uid, id), next);
      if id !in s.rooms then s' == s
      else
        var r, r' := s.rooms[id], s'.rooms[id];
        && s'.rooms.Keys == s.rooms.Keys && uid in s'.roomOf && s'.roomOf[uid] == id
        && OtherSessionsStay(s, s', uid) && OtherRoomsStay(s, s', id)
        && r'.group == r.group + {uid} && r'.players == r.players
        && r'.host == r.host && r'.state == r.state && r'.dead == r.dead
  {
  }

  /** Starting, returning and dying change the state and the death record of one room, and who sits and listens
      nowhere. */
  lemma MatchStepsMean(s: Lobby, step: Step, next: int)
    requires step.StartGame? || step.Return? || step.Die? || step.Fall?
    ensures var s' := Next(s, step, next);
      && s'.roomOf == s.roomOf && s'.rooms.Keys == s.rooms.Keys
      && forall id | id in s.rooms ::
           var r, r' := s.rooms[id], s'.rooms[id];
           var here := if step.Fall? then step.id == id else step.uid in s.roomOf && s.roomOf[step.uid] == id;
           && r'.players == r.players && r'.group == r.group && r'.host == r.host
           && r'.state == (if here && step.StartGame? then 1 else if here && step.Return? then 0 else r.state)
           && r'.dead == (if here && step.Return? then {}
                          else if here && (step.Die? || step.Fall?) then r.dead + {step.uid} else r.dead)
  {
  }

  /* A match is closed */

  /** The step ends the match of this room. */
  predicate Ends(s: Lobby, step: Step, id: string) {
    step.Return? && step.uid in s.roomOf && s.roomOf[step.uid] == id
  }

  lemma MatchAdmitsNobody(s: Lobby, step: Step, next: int, id: string)
    requires id in s.rooms && s.rooms[id].state == 1 && SameRoom(s, step, next, id) && !Ends(s, step, id)
    ensures var s' := Next(s, step, next);
      id in s'.rooms && s'.rooms[id].state == 1 && s'.rooms[id].players <= s.rooms[id].players
  {
  }

  /** The run neither ends the match nor opens the room's name anew. */
  ghost predicate GoesOn(s: Lobby, steps: seq<(Step, int)>, id: string) {
    forall i | 0 <= i < |steps| ::
      SameRoom(Run(s, steps[..i]), steps[i].0, steps[i].1, id) && !Ends(Run(s, steps[..i]), steps[i].0, id)
  }

  lemma {:induction false} MatchStaysClosedFrom(s: Lobby, id: string, steps: seq<(Step, int)>)
    requires id in s.rooms && s.rooms[id].state == 1 && GoesOn(s, steps, id)
    ensures var end := Run(s, steps);
      id in end.rooms && end.rooms[id].state == 1 && end.rooms[id].players <= s.rooms[id].players
  {
    if steps != [] {
      var n := |steps| - 1;
      var front := steps[..n];
      assert GoesOn(s, front, id) by {
        assert forall i | 0 <= i < n :: front[..i] == steps[..i] && front[i] == steps[i];
      }
      MatchStaysClosedFrom(s, id, front);
      MatchAdmitsNobody(Run(s, front), steps[n].0, steps[n].1, id);
    }
  }

  /** From a start until a member returns or the name is opened anew, whatever happens, nobody is seated in the room
      who was not there when the match started. */
  lemma MatchStaysClosed(s: Lobby, starter: int, id: string, steps: seq<(Step, int)>, next: int)
    requires starter in s.roomOf && s.roomOf[starter] == id && id in s.rooms
    requires GoesOn(Next(s, Step.StartGame(starter), next), steps, id)
    ensures var end := Run(Next(s, Step.StartGame(starter), next), steps);
      id in end.rooms && end.rooms[id].state == 1 && end.rooms[id].players <= s.rooms[id].players
  {
    MatchStaysClosedFrom(Next(s, Step.StartGame(starter), next), id, steps);
  }
}
