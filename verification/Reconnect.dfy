/** Disconnect and resume across the token, the session and the tombstone store. */
module Reconnect {
  import opened Wrappers
  import opened Decimal
  import opened ResumeToken
  import opened Tombstones
  import opened Absences

  /** MarkDisconnected keeps the session's token while it parses and is unexpired, and otherwise signs a fresh one. */
  function TokenOnDisconnect(sessionToken: Option<string>, second: int64, renewed: ResumeToken): ResumeToken {
    var current := match sessionToken case None => None case Some(text) => Parse(text);
    if current.None? || second > current.value.expireAt then renewed else current.value
  }

  function TombstoneFor(uid: int64, roomID: string, rt: ResumeToken): Tombstone {
    Tombstone(Format(uid), roomID, rt.expireAt * 1000)
  }

  /** Resume gets past the store and the signature check and finds the room listed; `now` is in milliseconds. */
  predicate Resumes(mac: string -> string, held: Held, rooms: set<string>, token: string, now: nat)
    requires now <= MAX_INT64
  {
    && token in Handed(held, Event(now, Consume(token)))
    && held[token].roomID in rooms
    && (match ParseInt(held[token].playerID)
        case None => false
        case Some(uid) => Verify(mac, token, uid, held[token].roomID, now / 1000))
  }

  /** What is fixed when a player receives a token: who, where, when, and the text the client keeps. */
  datatype Issue = Issue(mac: string -> string, random: string, uid: int64, roomID: string, second: int64) {
    predicate Usable() {
      second <= MAX_INT64 - TTL && random != "" && '.' !in random
    }

    function Token(): ResumeToken
      requires Usable()
    {
      Generate(mac, random, uid, roomID, second)
    }
  }

  /** The store after the player drops at millisecond `gone`; `renewed` is the token a renewal would sign. */
  function AfterDrop(issue: Issue, held: Held, gone: nat, renewed: ResumeToken): Held
    requires issue.Usable() && gone <= MAX_INT64
  {
    var rt := TokenOnDisconnect(Some(issue.Token().String()), gone / 1000, renewed);
    held[rt.String() := TombstoneFor(issue.uid, issue.roomID, rt)]
  }

  lemma IssuedTokenParses(issue: Issue)
    requires issue.Usable() && DotFree(issue.mac)
    ensures Parse(issue.Token().String()) == Some(issue.Token())
  {
    RoundTripIff(issue.Token());
  }

  /** All that a resume asks for: a tombstone that has not expired, of a player in a room still listed, and a token
      that parses, has not expired either, and carries the code of that player, that room and its own expiry. */
  lemma ResumesMeans(mac: string -> string, held: Held, rooms: set<string>, token: string, now: nat)
    requires now <= MAX_INT64
    ensures Resumes(mac, held, rooms, token, now) <==>
      && token in held && now <= held[token].expireAt && held[token].roomID in rooms
      && ParseInt(held[token].playerID).Some? && Parse(token).Some?
      && var uid, rt := ParseInt(held[token].playerID).value, Parse(token).value;
         now / 1000 <= rt.expireAt && rt.signature == mac(Payload(uid, held[token].roomID, rt.expireAt))
  {
  }

  lemma WholeSeconds(now: nat, second: int)
    ensures now <= second * 1000 ==> now / 1000 <= second
  {
  }

  /** Resuming with a text that parses back to the very token the tombstone was stored for. */
  lemma GenuineTokenResumes(mac: string -> string, held: Held, rooms: set<string>, token: string, rt: ResumeToken,
                            uid: int64, roomID: string, now: nat)
    requires now <= MAX_INT64 && Parse(token) == Some(rt)
    requires rt.signature == mac(Payload(uid, roomID, rt.expireAt))
    requires token in held && held[token] == TombstoneFor(uid, roomID, rt)
    ensures Resumes(mac, held, rooms, token, now) <==> now <= rt.expireAt * 1000 && roomID in rooms
  {
    ParseFormat(uid);
    WholeSeconds(now, rt.expireAt);
  }

  /** The client can resume exactly until 30 s after its token was issued, provided it also dropped within them, and
      while its room is listed. */
  lemma ResumeWindow(issue: Issue, held: Held, gone: nat, renewed: ResumeToken, rooms: set<string>, now: nat)
    requires issue.Usable() && DotFree(issue.mac) && gone <= MAX_INT64 && now <= MAX_INT64
    requires issue.Token().String() !in held && issue.Token().String() != renewed.String()
    ensures Resumes(issue.mac, AfterDrop(issue, held, gone, renewed), rooms, issue.Token().String(), now)
       <==> gone / 1000 <= issue.second + 30 && now <= (issue.second + 30) * 1000 && issue.roomID in rooms
  {
    IssuedTokenParses(issue);
    var rt := issue.Token();
    var token := rt.String();
    var after := AfterDrop(issue, held, gone, renewed);
    if gone / 1000 <= rt.expireAt {
      assert TokenOnDisconnect(Some(token), gone / 1000, renewed) == rt;
      GenuineTokenResumes(issue.mac, after, rooms, token, rt, issue.uid, issue.roomID, now);
    } else {
      assert TokenOnDisconnect(Some(token), gone / 1000, renewed) == renewed;
    }
  }

  /* What happens to the room meanwhile */

  /** From the drop on: the rooms and tombstones at the drop, the events that follow, and how many of them have
      happened by which millisecond. Until it expires, nobody takes the client's tombstone. */
  datatype Meanwhile = Meanwhile(start: World, events: seq<(Absences.Event, int)>, done: nat -> nat) {
    ghost predicate Valid(issue: Issue)
      requires issue.Usable()
    {
      var token := issue.Token().String();
      && (forall now: nat :: done(now) <= |events|)
      && (forall now: nat, later: nat | now <= later :: done(now) <= done(later))
      && (forall now: nat | now <= (issue.second + 30) * 1000 :: AllSpare(events[..done(now)], token))
      && Good(start) && IsOrderlyRun(start, events)
      && token in start.tombs && start.tombs[token] == Seat(issue.uid, issue.roomID)
      && issue.roomID in start.lobby.rooms
    }

    ghost function Rooms(now: nat): set<string>
      requires done(now) <= |events|
    {
      Run(start, events[..done(now)]).lobby.rooms.Keys
    }

    /** No event up to `now` took the room off the list. */
    ghost predicate Undisturbed(roomID: string, now: nat)
      requires done(now) <= |events|
    {
      NeverDelists(start, events[..done(now)], roomID)
    }
  }

  lemma ListedIffUndisturbed(issue: Issue, m: Meanwhile, now: nat)
    requires issue.Usable() && m.Valid(issue) && now <= (issue.second + 30) * 1000
    ensures issue.roomID in m.Rooms(now) <==> m.Undisturbed(issue.roomID, now)
  {
    OrderlyPrefix(m.start, m.events, m.done(now));
    RoomOutlastsRunIff(m.start, m.events[..m.done(now)], issue.Token().String());
  }

  lemma UndisturbedBefore(issue: Issue, m: Meanwhile, now: nat, later: nat)
    requires issue.Usable() && m.Valid(issue) && now <= later && m.Undisturbed(issue.roomID, later)
    ensures m.Undisturbed(issue.roomID, now)
  {
    var n, k := m.done(later), m.done(now);
    assert forall i | 0 <= i < k :: m.events[..n][..i] == m.events[..k][..i] && m.events[..n][i] == m.events[..k][i];
  }

  /** At that millisecond the client gets back in with the token it holds. */
  ghost predicate GetsBack(issue: Issue, held: Held, gone: nat, renewed: ResumeToken, m: Meanwhile, now: nat)
    requires issue.Usable() && gone <= MAX_INT64 && now <= MAX_INT64 && m.Valid(issue)
  {
    Resumes(issue.mac, AfterDrop(issue, held, gone, renewed), m.Rooms(now), issue.Token().String(), now)
  }

  /** Within the token's life, resuming works exactly while nothing has taken the room off the list. */
  lemma GraceWhileUndisturbed(issue: Issue, held: Held, gone: nat, renewed: ResumeToken, m: Meanwhile, now: nat)
    requires issue.Usable() && DotFree(issue.mac) && now <= MAX_INT64 && m.Valid(issue)
    requires issue.Token().String() !in held && issue.Token().String() != renewed.String()
    requires gone <= now <= (issue.second + 30) * 1000
    ensures GetsBack(issue, held, gone, renewed, m, now) <==> m.Undisturbed(issue.roomID, now)
  {
    ResumeWindow(issue, held, gone, renewed, m.Rooms(now), now);
    ListedIffUndisturbed(issue, m, now);
  }

  lemma GraceEndsWithTheToken(issue: Issue, held: Held, gone: nat, renewed: ResumeToken, m: Meanwhile, now: nat)
    requires issue.Usable() && DotFree(issue.mac) && gone <= now <= MAX_INT64 && m.Valid(issue)
    requires issue.Token().String() !in held && issue.Token().String() != renewed.String()
    requires now > (issue.second + 30) * 1000
    ensures !GetsBack(issue, held, gone, renewed, m, now)
  {
    ResumeWindow(issue, held, gone, renewed, m.Rooms(now), now);
  }

  lemma GraceThroughout(issue: Issue, held: Held, gone: nat, renewed: ResumeToken, m: Meanwhile, last: nat)
    requires issue.Usable() && DotFree(issue.mac) && last <= MAX_INT64 && m.Valid(issue)
    requires issue.Token().String() !in held && issue.Token().String() != renewed.String()
    requires gone <= last <= (issue.second + 30) * 1000
    ensures (forall now: nat | gone <= now <= last :: GetsBack(issue, held, gone, renewed, m, now))
       <==> m.Undisturbed(issue.roomID, last)
  {
    GraceWhileUndisturbed(issue, held, gone, renewed, m, last);
    if m.Undisturbed(issue.roomID, last) {
      forall now: nat | gone <= now <= last ensures GetsBack(issue, held, gone, renewed, m, now) {
        UndisturbedBefore(issue, m, now, last);
        GraceWhileUndisturbed(issue, held, gone, renewed, m, now);
      }
    }
  }

  /** README.md promises 30 s of grace after a disconnect. Whatever orderly events follow, the code grants them in full
      exactly when the player drops no later than the instant the token was issued, because the token's clock is
      never restarted, and until their end neither the last listener leaves its room nor anybody else's tombstone
      is swept while nobody listens. */
  lemma FullGraceIff(issue: Issue, held: Held, gone: nat, renewed: ResumeToken, m: Meanwhile)
    requires issue.Usable() && DotFree(issue.mac) && gone + 30 * 1000 <= MAX_INT64 && m.Valid(issue)
    requires issue.Token().String() !in held && issue.Token().String() != renewed.String()
    ensures (forall now: nat | gone <= now <= gone + 30 * 1000 :: GetsBack(issue, held, gone, renewed, m, now))
       <==> gone <= issue.second * 1000 && m.Undisturbed(issue.roomID, gone + 30 * 1000)
  {
    var last: nat := gone + 30 * 1000;
    if gone <= issue.second * 1000 {
      GraceThroughout(issue, held, gone, renewed, m, last);
    } else {
      GraceEndsWithTheToken(issue, held, gone, renewed, m, last);
    }
  }
}
