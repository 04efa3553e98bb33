/** The room component's membership state, updated handler by handler. */
module Lobby {
  import opened LobbyRules
  import Rules = LobbyRules

  /** Map iteration with an immediate break: whichever seat comes first. */
  method AnySeat<T>(seats: set<T>) returns (first: T)
    requires seats != {}
    ensures first in seats
  {
    first :| first in seats;
  }

  class RoomComponent {
    var rooms: map<string, Room>
    var roomOf: map<int, string>

    constructor ()
      ensures View() == Rules.Lobby(map[], map[])
    {
      rooms, roomOf := map[], map[];
    }

    ghost function View(): Rules.Lobby
      reads this
    {
      Rules.Lobby(rooms, roomOf)
    }

    method DoLeave(uid: int) returns (next: int)
      modifies this
      ensures MayInheritOnLeave(old(View()), uid, next) && View() == Rules.DoLeave(old(View()), uid, next)
    {
      next := 0;
      if uid !in roomOf {
        return;
      }
      var id := roomOf[uid];
      if id in rooms {
        var r := rooms[id];
        r := r.(players := r.players - {uid}, group := r.group - {uid});
        roomOf := roomOf - {uid};
        if r.host == uid && |r.players| > 0 {
          next := AnySeat(r.players);
          r := r.(host := next);
        }
        rooms := rooms[id := r];
        if |r.group| == 0 {
          rooms := rooms - {id};
        }
        assert rooms == PutUnlessEmpty(old(rooms), id, r);
      }
    }

    method Join(uid: int, id: string) returns (joined: bool, next: int)
      modifies this
      ensures MayInheritOnLeave(old(View()), uid, next) && View() == Rules.JoinRoom(old(View()), uid, id, next)
      ensures joined <==> MayJoin(RoomToJoin(Rules.DoLeave(old(View()), uid, next).rooms, id), uid)
    {
      next := 0;
      if uid in roomOf {
        next := DoLeave(uid);
      }
      ghost var s1 := View();
      if id in rooms && |rooms[id].group| == 0 {
        rooms := rooms - {id};
      }
      if id !in rooms {
        rooms := rooms[id := NEW_ROOM];
      }
      var r := rooms[id];
      assert r == RoomToJoin(s1.rooms, id);
      if r.state != WAITING || uid in r.dead {
        return false, next;
      }
      rooms := rooms[id := r.(players := r.players + {uid}, group := r.group + {uid})];
      roomOf := roomOf[uid := id];
      return true, next;
    }

    method Create(uid: int, id: string) returns (next: int)
      modifies this
      ensures MayInheritOnLeave(old(View()), uid, next) && View() == Rules.CreateRoom(old(View()), uid, id, next)
    {
      next := 0;
      if uid in roomOf {
        next := DoLeave(uid);
      }
      rooms := rooms[id := Room({uid}, {uid}, uid, WAITING, {})];
      roomOf := roomOf[uid := id];
    }

    method MarkDisconnected(uid: int)
      modifies this
      ensures View() == Rules.MarkDisconnected(old(View()), uid)
    {
      if uid !in roomOf {
        return;
      }
      var id := roomOf[uid];
      if id in rooms {
        rooms := rooms[id := rooms[id].(group := rooms[id].group - {uid})];
      }
      roomOf := roomOf - {uid};
    }

    method DoLeaveByUID(uid: int, id: string) returns (next: int)
      modifies this
      ensures id in old(rooms) ==> MayInherit(old(rooms)[id], uid, next)
      ensures View() == Rules.DoLeaveByUID(old(View()), uid, id, next)
    {
      next := 0;
      if id !in rooms {
        return;
      }
      var r := rooms[id];
      r := r.(players := r.players - {uid});
      if r.host == uid && |r.players| > 0 {
        next := AnySeat(r.players);
        r := r.(host := next);
      }
      rooms := rooms[id := r];
      if |r.group| == 0 {
        rooms := rooms - {id};
      }
      assert rooms == PutUnlessEmpty(old(rooms), id, r);
    }

    method Resume(uid: int, id: string) returns (resumed: bool)
      modifies this
      ensures View() == ResumeSession(old(View()), uid, id) && (resumed <==> id in old(rooms))
    {
      if id !in rooms {
        return false;
      }
      roomOf := roomOf[uid := id];
      rooms := rooms[id := rooms[id].(group := rooms[id].group + {uid})];
      return true;
    }

    method StartGame(uid: int)
      modifies this
      ensures View() == SetState(old(View()), uid, PLAYING)
    {
      if uid in roomOf && roomOf[uid] in rooms {
        rooms := rooms[roomOf[uid] := rooms[roomOf[uid]].(state := PLAYING)];
      }
    }

    method Return(uid: int)
      modifies this
      ensures View() == SetState(old(View()), uid, WAITING)
    {
      if uid in roomOf && roomOf[uid] in rooms {
        rooms := rooms[roomOf[uid] := rooms[roomOf[uid]].(state := WAITING, dead := {})];
      }
    }

    method Die(uid: int)
      modifies this
      ensures View() == RecordDeath(old(View()), uid)
    {
      if uid in roomOf && roomOf[uid] in rooms {
        var r := rooms[roomOf[uid]];
        rooms := rooms[roomOf[uid] := r.(dead := r.dead + {uid})];
      }
    }

    /** The membership half of a tick's kill. */
    method Fall(uid: int, id: string)
      modifies this
      ensures View() == RecordCasualty(old(View()), uid, id)
    {
      if id in rooms {
        rooms := rooms[id := rooms[id].(dead := rooms[id].dead + {uid})];
      }
    }
  }
}
