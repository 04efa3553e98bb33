# PixelBomb: a verified model of its hard parts

PixelBomb is a Bomberman-style game. A Go server decides who is wounded, who sits in which room and who may come
back after a dropped connection; a Godot client shows explosions and lets players pack shaped items into a backpack;
in the browser, audio crosses between two threads through ring buffers. This project models those parts in Dafny
and proves what they promise over every input, every iteration order and every run. Where the code does not keep a
promise, the project proves exactly when it does.

`dafny verify dfyconfig.toml` checks everything.

## What is modelled

| part | files |
|---|---|
| Bomb tick, player records, match handlers and whole matches | `Blast`, `Players`, `MatchRules`, `Match`, `MatchRuns`, `MatchEffects` |
| Room membership, hosts, tombstones and their interplay | `LobbyRules`, `LobbyEffects`, `Lobby`, `Absences` |
| Tombstone store, resume tokens, the reconnect window | `Decimal`, `ResumeToken`, `Tombstones`, `Reconnect` |
| Client explosions | `Rays` |
| Shaped items, grids, backpack, loot grid, drags, saved layouts, boosts | `Shapes`, `Bags`, `GridArrays`, `Layouts`, `Backpacks`, `Drags`, `Boosts` |
| Audio ring buffers and frames | `AudioRing`, `AudioFrames` |

Code that updates state in place is a class whose methods carry the source's loops; each method is proved equal to a
function on values, and the theorems are about those functions; the `Effects` modules and the lemmas named `...Means`
say in plain terms, with the source's numbers, what the functions do. Iteration over a Go map is an arbitrary choice of the
next key, so every theorem holds for every order.

- **The tick.** `NanoRoom.UpdateBombs` runs the source's two nested loops over mutable bombs and players and arrives
  at `MatchRules.Tick`, which mentions no order: fuses that run out leave, and a living, unevacuated player outside
  its cooldown who is caught by at least one exploding bomb takes one wound. `DeathTakesTime` turns this into the
  bound that a player with k shields takes at most k + 1 wounds and outlives its first by 300 k ms.
- **Rooms and absences.** `Absences` joins the rooms with the pending tombstones. `GoodIffOrderly` says which
  events can break the rooms: only a Create or Join by a player whose tombstone is pending, and opening a room under a
  name still in use. Sweeps and resumes are then safe with no assumption about them. `LobbyRules` says what each of
  them needs by itself.
- **The backpack.** `Container` holds two-dimensional arrays of item references. The run invariant says that each
  item sits on exactly its own cells of exactly one grid; what can break it is placing an item again without covering
  its old cells, or turning one and then abandoning the drag. `Drags` follows drags over any number of containers.
- **Audio.** The ring refines a queue, and interleaving, which the source does channel by channel, equals the stream
  read frame by frame.

## Where code and documentation disagree

The model follows the code.

- `server/logic/models.go:96` lists `ShieldCurrent` among the fields a resume must not touch; lines 111 and 131 copy
  it. `MatchRuns.ResumeRefundsEveryWound` states the effect.
- The repository's `README.md:189` promises 30 seconds after a disconnect. The clock starts when the token is signed,
  at Join or Create, and the token is replaced only once it has expired. Nor does the tombstone keep the room: it is
  deleted when its last listener leaves, or when another tombstone is swept while nobody listens. `Reconnect.FullGraceIff`
  has the exact condition, `Absences.AbsentPlayerIsStranded` and `Absences.AbsentPlayersAreStranded` the inputs.
- `server/logic/room.go:727` says that the group no longer holds a swept player. A player who comes back through
  Join, in a new session, is in it again: `Absences.SweepAfterRejoinBreaks`.
- `client/autoloads/drag_coordinator.gd:47-49` says that a move inside one container clears the old cells. The cells
  to keep are noted after the item has been placed, so in a backpack the old ones are kept too:
  `Drags.ClearAllButPlaced`, `Drags.TransferKeepsOkIff`. The loot grid clears the item before placing it and is fine.
- `client/prefabs/Backpack/sub/backpack_item.gd:330` says that rotation makes the shape contain (0,0). It does
  exactly if another corner of the shape was filled: `Shapes.CornerAfterTurnIff`, `Shapes.CornerAfterTurnsIff`. A
  shape whose box does not start at the origin does not come back after four turns: `Shapes.FourTurnsIff`.
- A saved layout keeps one flag for the rotation, so half and three-quarter turns come back as a quarter turn.
  That goes unnoticed exactly for shapes with the symmetry that was lost: `Layouts.ReadsBackIffFaithful`,
  `Layouts.RoundTripIff`.

## Model

| member | source | states |
|---|---|---|
| Blast.CrossIsFourArms | server/logic/room.go:960-971 | The comparison chain is the cross one expects: the centre and up to radius steps along each of four directions. |
| Blast.CornerTestIsExact | server/logic/room.go:1059-1076 | For every real position, some point of the player's closed 10 by 10 box lies in a cell of the cross iff one of the four corners does. |
| Blast.CheckCorners | server/logic/room.go:1067-1076 | The corner loop with its early exit decides exactly whether the box meets the cross. |
| Players.BarrageIsOneWound | server/logic/room.go:1043-1107 | A list of bombs resolved one by one, in any order and with any repetition, wounds a vulnerable player once iff some bomb catches it, and otherwise not at all. |
| Players.PlayerState.SnapshotRestorable | server/logic/models.go:98-114 | The copy is a new object holding the restorable fields and zero values elsewhere. |
| Players.PlayerState.ApplySnapshotRestorable | server/logic/models.go:119-133 | Overwrites exactly the restorable fields. |
| Players.PlayerState.TakeBlast | server/logic/room.go:1054-1106 | One bomb against one player: guards, cooldown, shield, death; tells whether the player died now. |
| Match.BurnFuses | server/logic/room.go:1032-1040 | Deleting while iterating, in any order: bombs with fuse at most delta are listed once each and gone, the others lose delta. |
| Match.BlastEveryone | server/logic/room.go:1054-1107 | One bomb against all players gives the same records and the same dead in every order of players. |
| Match.Settle | server/logic/room.go:1043-1108 | All exploded bombs against all players equals folding the bombs into each player, and reports exactly who fell. |
| Match.SettledIsTick | server/logic/room.go:1020-1109 | Whatever order the bombs were settled in, the outcome is the declarative tick. |
| Match.NanoRoom.UpdateBombs | server/logic/room.go:1020-1109 | The whole tick, on mutable bombs, players and DeadPlayers, is the declarative tick. |
| Match.NanoRoom.PlaceBomb | server/logic/room.go:975-1017 | Adds one bomb with a two second fuse and the owner's radius, 1 for an owner without a record. |
| Match.NanoRoom.Move | server/logic/room.go:422-469 | Overwrites the mover's motion and move time and nothing else. |
| Match.NanoRoom.UpdateStats | server/logic/room.go:924-956 | Overwrites the reporter's current stats and nothing else. |
| Match.NanoRoom.Die | server/logic/room.go:892-920 | Marks the player dead in its record and in DeadPlayers. |
| Match.NanoRoom.StartGame | server/logic/room.go:557-638 | Gives every member a fresh record of its own and the room no bombs, whatever the iteration order. |
| Match.NanoRoom.Return | server/logic/room.go:642-659 | Back to waiting with nobody dead; the finished game state stays. |
| Match.NanoRoom.TakeSnapshot | server/logic/room.go:1192-1202 | A disconnect captures the player's restorable fields in an object of their own. |
| Match.NanoRoom.Resume | server/logic/room.go:1305-1320 | Applies the snapshot to the live record, or installs it when there is none. |
| MatchRuns.TickWoundsIff | server/logic/room.go:1032-1106 | A tick wounds exactly the living, unevacuated players, 300 ms after their last wound, of whose box of 5 pixels around (X, Y) some point lies in a cell of 16 pixels of the cross of a bomb whose fuse is at most delta. |
| MatchRuns.FuseMeasuresTime | server/logic/room.go:1033-1039 | However time is cut into ticks and whatever else happens, a bomb is there iff the time elapsed is less than its fuse, and its fuse is what remains. |
| MatchRuns.StepRecordsDead | server/logic/room.go:1093-1099 | No tick and no handler leaves a dead player of a playing room out of DeadPlayers. |
| MatchRuns.DeadAreAlwaysRecorded | server/logic/room.go:1093-1099 | The same over every run of ticks, handlers, matches and resumes. |
| MatchRuns.DeathIsFinal | server/logic/room.go:1305-1320 | Within a match nobody leaves the player table, no death is undone, and a resume anywhere in it leaves every authority field of every player as it was. (IsEvacuated stays for a plain reason: the server never writes it after StartGame.) |
| MatchRuns.RecordOnlyGrows | server/logic/room.go:642-659 | Only Return ever takes anyone out of DeadPlayers. |
| MatchRuns.WoundsArePaced | server/logic/room.go:1079-1083 | Over every run within a match, with resumes, reported stats and deaths, the i-th and j-th wounds lie at least 300 (j - i) ms apart. |
| MatchRuns.WoundsAreAccounted | server/logic/room.go:1085-1093 | A survivor has lost exactly one shield per wound; a casualty took exactly one wound more than it had shields. |
| MatchRuns.DeathTakesTime | server/logic/room.go:1079-1093 | With k shields: at most k + 1 wounds, dead iff exactly k + 1, and then the last at least 300 k ms after the first. |
| MatchRuns.ResumeRefundsEveryWound | server/logic/models.go:98-133 | After a resume the shield is what it was at the disconnect: one layer back for every wound taken since. |
| MatchEffects.TickTakesOneLayer | server/logic/room.go:1079-1094 | A wound takes one layer of shield or else the life, and sets the clock; a tick changes nothing else of anybody. |
| MatchEffects.TickRecordsTheFallen | server/logic/room.go:1093-1099 | A tick adds to DeadPlayers exactly the uids of those it kills, and no player comes or goes. |
| MatchEffects.BombStrikesAfterTwoSeconds | server/logic/room.go:975-1017 | A bomb laid at (x, y) goes off in the tick that completes 2.0 s, however the time was cut, and wounds exactly those whose box meets the cross around (x, y) with the owner's reported radius. |
| MatchEffects.BombRestsBefore | server/logic/room.go:1032-1040 | In no earlier tick does it wound anybody. |
| MatchEffects.ReportedReachCounts | server/logic/room.go:990-1013 | A bomb has the radius its owner last reported and leaves all others alone. |
| MatchEffects.ReportedPositionCounts | server/logic/room.go:449-459 | A tick after a Move strikes the player where it said it was. |
| MatchEffects.ActsStayTheirOwn | server/logic/room.go:892-1017 | No handler writes another player's record, and only PlaceBomb touches bombs. |
| MatchEffects.ReportsWriteTheirFields | server/logic/room.go:892-956 | Move, UpdateStats and Die write the fields they are about and no others. |
| MatchEffects.RecordMeans | server/logic/room.go:642-659 | A death is recorded even without a record of the player; Return clears the record and stops the match, and keeps the rest. |
| MatchEffects.FreshPlayersAreBare | server/logic/room.go:576-617 | A match starts with everybody alive, out of cooldown, with radius 1, speed 75 and no shield, whatever the caps, and no bomb. |
| MatchEffects.FirstWoundKills | server/logic/room.go:1085-1093 | So, with no stats reported, each player is wounded at most once in a match, and is dead iff it was. |
| MatchEffects.ResumeRestores | server/logic/models.go:119-133 | After a resume motion, caps, currents and version are those at the disconnect, identity and authority those before the resume. |
| MatchEffects.ResumeInstalls | server/logic/room.go:1314-1318 | A player the match has no record of gets the same fields in a record that is alive, out of cooldown and without an ID. |
| LobbyRules.StepKeepsRoomsOkIff | server/logic/room.go:170-330 | From any rooms with the group inside Players and the host 0 or a member, every handler, and every kill by a tick, leads to such rooms, whoever inherits; a sweep iff its player is not listening, a resume iff its player is still seated. |
| LobbyRules.StepKeepsOkIff | server/logic/room.go:1269-1303 | The same with the invariant that everyone listens only where its session says; a resume also breaks it by a session that listens in another room. |
| LobbyRules.RoomsAlwaysOk | server/logic/room.go:684-759 | The rooms stay so over every run in which sweeps and resumes find their player as said, whichever member inherits. |
| LobbyRules.SweepKeepsOkIff | server/logic/room.go:726-759 | A sweep keeps the room well formed iff the swept player is not in the group. |
| LobbyRules.ResumeKeepsOkIff | server/logic/room.go:1269-1303 | A resume keeps the stronger invariant iff the room still seats the player and no other room's group holds it: the handler does not leave the session's current room. |
| LobbyRules.HostingNeverChangesKind | server/logic/room.go:185-195 | A room opened by Join never gets a host; a room opened by Create never loses its host. |
| LobbyEffects.LeaveMeans | server/logic/room.go:684-724 | Who loses what: the leaver its seat, listener and session entry; the host changes only if it was the leaver and somebody remains; the room goes iff nobody else listened; no other room or session changes. |
| LobbyEffects.JoinMeans | server/logic/room.go:170-250 | After the joiner's own leave nothing changes iff the room has listeners and is not in state 0 or has the joiner on its death record; otherwise the joiner is seated and listens, in the room as it was or, if nobody listened, in a new one. |
| LobbyEffects.CreateMeans | server/logic/room.go:273-332 | After the creator's own leave the room has it alone, as host, in state 0. |
| LobbyEffects.DisconnectMeans | server/logic/room.go:1219-1222 | Only the listener and the session entry go: no seat, no host, no room. |
| LobbyEffects.SweepMeans | server/logic/room.go:728-759 | Only the seat goes, and the room iff nobody listens. |
| LobbyEffects.ResumeMeans | server/logic/room.go:1269-1303 | Only a listener and a session entry come, and only if the room is listed. |
| LobbyEffects.MatchStepsMean | server/logic/room.go:557-659 | Start, Return, Die and a kill by a tick change state and death record of one room, and seats and listeners of none. |
| LobbyEffects.MatchStaysClosed | server/logic/room.go:200-206 | From a start until a member returns or the name is opened anew, over every run, nobody is seated in the room who was not there at the start. |
| Lobby.RoomComponent.DoLeave | server/logic/room.go:684-724 | Seat, listener and session entry go together, the host moves to an arbitrary remaining member, and an empty room is delisted. |
| Lobby.RoomComponent.Join | server/logic/room.go:170-250 | Leaves first, replaces an abandoned room, refuses a room in play or a player on its death record, and otherwise seats the player. |
| Lobby.RoomComponent.Create | server/logic/room.go:273-332 | Leaves first, then lists a room hosted and occupied by the creator alone. |
| Lobby.RoomComponent.MarkDisconnected | server/logic/room.go:1166-1222 | The player leaves the group and keeps its seat. |
| Lobby.RoomComponent.DoLeaveByUID | server/logic/room.go:728-759 | Unseats the player, moves the host if needed and delists the room iff nobody listens. |
| Lobby.RoomComponent.Resume | server/logic/room.go:1269-1303 | Adds the new session to the group iff the room is listed, and touches no seat. |
| Absences.LeaveKeepsGood | server/logic/room.go:684-724 | Leaving never disturbs another player's session, seat or tombstone. |
| Absences.TombstonesMean | server/logic/room.go:691-693 | From any state: which tombstones each event drops, stores or takes, and that it touches no other. |
| Absences.EventsMean | server/logic/room.go:135-152 | A sweep and a resume act on the player and the room their tombstone names, and without one on nothing. |
| Absences.SweepAfterRejoinBreaks | server/logic/room.go:725-759 | From every good state, a successful Join by a player with a pending tombstone leaves that tombstone in the store, and sweeping it then breaks the room under the live session. |
| Absences.GoodIffOrderly | server/logic/room.go:170-330 | From a good state an event leads to a good state iff it is orderly: no Create or Join with a tombstone of one's own pending, and no room name opened anew while a tombstone or a listener goes by it. |
| Absences.OrderlyRunsStayGood | server/logic/room.go:1166-1227 | In every orderly run, with tombstones swept and resumed at any time, every sweep finds its player outside the group and every resume finds its seat if the room still exists. |
| Absences.RoomStaysIff | server/logic/room.go:714-723 | The room that a pending tombstone names stays listed over an orderly event iff neither its last listener leaves nor a tombstone of the room is swept while nobody listens. |
| Absences.RoomOutlastsRunIff | server/logic/room.go:748-756 | Over every orderly run that spares the tombstone, the tombstone stays and its room is listed at the end iff no event of the run was of those two kinds. |
| Absences.LastListenerLeaves | server/logic/room.go:714-723 | When the last listener leaves, a pending tombstone stays and resuming with it finds no room. |
| Absences.FirstSweepTakesTheRoom | server/logic/room.go:748-756 | When nobody listens, sweeping one tombstone does the same to every other of the room. |
| Absences.AbsentPlayerIsStranded | server/logic/room.go:1273-1284 | The first way from the server's start: create, join, disconnect, leave. |
| Absences.AbsentPlayersAreStranded | server/logic/room.go:1273-1284 | The second: create, join, two disconnects, one sweep. |
| Decimal.ParseFormat | server/security/resume_token.go:46 | Parsing a printed int64 gives it back, the least one included. |
| Decimal.FormatIsInjective | server/security/resume_token.go:129 | Two int64 values print alike only if equal. |
| Decimal.FormatParseIff | server/logic/room.go:1254 | Reprinting a parsed text gives it back iff the text is canonical: no plus sign, no leading zero, no negative zero. |
| Decimal.ScanCanonical | server/security/resume_token.go:96-98 | Sscanf and ParseInt agree on every canonical text. |
| Decimal.ScanIgnoresTail | server/security/resume_token.go:96-98 | Sscanf gives the same with anything but a digit behind it. |
| Decimal.ScanSkipsBlank | server/security/resume_token.go:96-98 | And with any blank but a line feed in front. |
| ResumeToken.ParseJoined | server/security/resume_token.go:77-107 | Parsing three parts joined by dots cuts at the first two dots, and fails iff a part is empty or the expiry does not scan. |
| ResumeToken.ParseIsSound | server/security/resume_token.go:77-107 | Whatever text parses yields nonempty, dot-free parts and an int64. |
| ResumeToken.RoundTripIff | server/security/resume_token.go:45-47 | Parsing a printed token returns it iff Random and Signature are nonempty and free of dots. |
| ResumeToken.ReprintIff | server/security/resume_token.go:77-107 | Printing a parsed text gives it back iff its expiry was written canonically. |
| ResumeToken.PayloadMeans | server/security/resume_token.go:127-131 | The payload is the printed uid up to the first bar, the printed expiry from the last one on, and the room name between. |
| ResumeToken.PayloadIsInjective | server/security/resume_token.go:128-131 | Different (uid, roomID, expireAt) give different payloads, whatever the room id contains. |
| ResumeToken.TokenBindsPlayerAndRoom | server/security/resume_token.go:111-125 | Whatever the code, a genuine token verifies iff it has not expired and the player and the room are its own, or else their payload is a different text with the same code. |
| Tombstones.MemoryTombstoneStore.Consume | server/logic/tombstone_store.go:58-71 | Hands out and removes an unexpired tombstone; an expired one stays for the sweeper. |
| Tombstones.MemoryTombstoneStore.DeleteByPlayerID | server/logic/tombstone_store.go:79-87 | Removes exactly the player's tombstones, in every iteration order. |
| Tombstones.MemoryTombstoneStore.GetExpiredAndRemove | server/logic/tombstone_store.go:97-110 | Removes exactly the expired tombstones and returns each once, in some order. |
| Tombstones.FateIsFirstEnd | server/logic/tombstone_store.go:49-110 | Every stored tombstone has one fate: the first event that takes it, or live. |
| Tombstones.HeldIffLive | server/logic/tombstone_store.go:49-110 | The store holds under a token exactly the one tombstone whose fate is still open. |
| Tombstones.HandedIffFate | server/logic/tombstone_store.go:58-110 | A consume or sweep hands out a tombstone iff that is its fate: never both. |
| Tombstones.FateRespectsExpiry | server/logic/tombstone_store.go:64-66 | Consumed only at now at most ExpireAt, swept only after it. |
| Tombstones.HandedOnlyOnce | server/logic/tombstone_store.go:58-110 | Between two hand-outs of a token it was stored anew. |
| Tombstones.ExpiredIsNeverConsumed | server/logic/tombstone_store.go:58-71 | Under a monotone clock, once a reading is past the expiry no later consume succeeds. |
| Tombstones.SweepIsComplete | server/logic/tombstone_store.go:264-277 | After a sweep no tombstone expired by then is live. |
| Tombstones.ConsumesNeverOutnumberStores | server/logic/tombstone_store.go:49-71 | Over every interleaving, successful consumes of a token, plus one if it is held, never exceed its stores. |
| Reconnect.GenuineTokenResumes | server/logic/room.go:1238-1284 | With a genuine token whose tombstone is held, resuming succeeds iff its expiry has not passed and its room is listed, whatever else the store holds. |
| Reconnect.ResumesMeans | server/logic/room.go:1238-1284 | All a resume asks for, part by part: unexpired tombstone, listed room, a token that parses, is unexpired and carries the code of that player, that room and its own expiry. |
| Reconnect.ResumeWindow | server/logic/room.go:1174-1217 | After a drop, the token the client holds resumes iff it had not expired at the drop, has not expired now, and the room is listed now. |
| Reconnect.GraceWhileUndisturbed | server/logic/room.go:1273-1284 | Whatever orderly events follow the drop, until the token expires it resumes iff none of them has taken the room off the list. |
| Reconnect.FullGraceIff | server/logic/room.go:1174-1184 | Whatever orderly events follow, the player has the promised time after the disconnect iff it drops no later than the instant the token was signed and until its end nothing takes the room off the list. |
| Rays.OneWallPerDirection | client/prefabs/Bombs/bomb.gd:54-84 | At most one wall breaks per direction, and it is the far end of the arm. |
| Rays.FiringOrderIsIrrelevant | client/prefabs/Bombs/bomb.gd:54-73 | Rays fired one after another on a map they change give, in every order, what reading all rays off the old map gives. |
| Rays.FewerWallsNeverShrinkTheBlast | client/prefabs/Bombs/bomb.gd:76-84 | Removing walls, or making solid ones breakable, never protects a cell. |
| Rays.EffectsLieInServerCross | server/logic/room.go:960-971 | Every cell the client burns passes the server's cross test. |
| Rays.EffectsFillServerCrossIff | server/logic/room.go:960-971 | Client and server pictures agree iff no wall and no limit cuts an arm short. |
| Rays.Bomb.FireRay | client/prefabs/Bombs/bomb.gd:63-84 | One direction with its breaks: the effect cells in order are the arm, no longer than length and limit, and only its breakable end is destroyed. |
| Rays.Bomb.FireRays | client/prefabs/Bombs/bomb.gd:60-73 | The direction loop, each ray meeting the walls that the earlier ones left. |
| Rays.Bomb.Explode | client/prefabs/Bombs/bomb.gd:36-47 | However often fuse and server call it, exactly the first call starts the tween. |
| Rays.Bomb.DoExplode | client/prefabs/Bombs/bomb.gd:54-84 | The k-th cell in a direction burns iff k is at most the bomb's length and that direction's limit, no solid wall lies up to it and no breakable one before it; every burnt cell passes the server's test with the bomb's length; exactly the breakable walls on burnt cells off the centre are gone. |
| Rays.WaitingNeverShrinksTheBlast | client/prefabs/Bombs/bomb.gd:43-47 | Whichever other bombs burst during the tween, in whatever order, the bomb's own blast only grows. |
| Shapes.RotateOfBox | client/prefabs/Backpack/sub/backpack_item.gd:323-342 | For a shape whose box starts at the origin a quarter turn is a reflection in the box, which stays at the origin with its sides exchanged. |
| Shapes.CornerAfterTurnIff | client/prefabs/Backpack/sub/backpack_item.gd:323-342 | For every shape, the turned shape contains (0,0) iff the shape had the cell in its leftmost column and lowest row, both counted from the origin. |
| Shapes.CornerAfterTurnsIff | client/prefabs/Backpack/sub/backpack_item.gd:323-342 | For a shape w wide and h high whose box starts at the origin, (0,0) is there after one, two or three turns iff the cell (0,h), (w,h) or (w,0) was. |
| Shapes.TurnsCanMissTheCorner | client/prefabs/items/res/item_epic_shield.tres:9 | The epic shield lacks the cell (1,0), so after three turns it lacks (0,0). |
| Shapes.TurnedLikeOnceIff | client/prefabs/Backpack/sub/backpack_item.gd:323-346 | Two or three turns cover what one turn covers iff the shape, moved to the origin, has the symmetry of the turns that make the difference, and its box reaches the corner it is turned about. |
| Shapes.ThreeTurnsNormalize | client/prefabs/Backpack/sub/backpack_item.gd:331-342 | Any shape is moved to the origin after at most three turns. |
| Shapes.FourTurnsIff | client/prefabs/Backpack/sub/backpack_item.gd:323-346 | Four quarter turns restore a shape iff its box starts at the origin. |
| Shapes.TurnedKeepsSize | client/prefabs/Backpack/sub/backpack_item.gd:323-342 | Turning and moving never change how many cells a shape covers. |
| Shapes.ContainedFootprintIsSamePlace | client/prefabs/Backpack/backpack.gd:315-324 | A footprint lies inside another one of the same shape only at the same origin. |
| GridArrays.Item.RotateItem | client/prefabs/Backpack/sub/backpack_item.gd:323-346 | Turns the runtime shape, and keeps it equal to the resource's shape after the recorded turns. |
| GridArrays.TurnedCells | client/prefabs/Backpack/sub/backpack_item.gd:325-342 | The three loops compute the turned and shifted shape. |
| GridArrays.IsSpaceAvailableInGrid | client/prefabs/Backpack/backpack.gd:315-324 | True iff every cell of the footprint is on the grid and free or the ignored item's. |
| GridArrays.Write | client/prefabs/Backpack/backpack.gd:326-336 | The item ends up on every cell of its footprint that exists, overwriting; no other cell changes. |
| GridArrays.Erase | client/prefabs/Backpack/backpack.gd:368-375 | Clears exactly the cells that refer to the item. |
| GridArrays.FindSpace | client/prefabs/Backpack/backpack.gd:614-642 | The nested search returns the row-major least origin that fits, or None iff no searched origin does. |
| Bags.SearchIsCompleteIff | client/prefabs/Backpack/backpack.gd:614-663 | Searching only origins on the grid misses no legal placement, on grids of every size, iff the shape's box holds (0,0). |
| Bags.AddIsComplete | client/prefabs/Backpack/backpack.gd:614-663 | For such shapes tryAddItem fails iff no legal placement exists in either grid. |
| Bags.FitsMeans | client/prefabs/Backpack/backpack.gd:315-324 | A shape fits iff each offset lands in rows and columns of the grid, on a free or ignored cell. |
| Bags.CanPlaceMeans | client/prefabs/Backpack/backpack.gd:307-313 | Which grid canPlaceItem asks, with what size, and that the item's own cells count as free. |
| Bags.FirstFitMeans | client/prefabs/Backpack/backpack.gd:614-642 | The search finds nothing iff nothing on the grid fits, and otherwise the topmost fitting origin, the leftmost of those. |
| Bags.AddPutsItThere | client/prefabs/Backpack/backpack.gd:614-642 | A new item sits at the origin found, on exactly its footprint, main grid first; taking it out again gives both grids back; if nothing was found nothing changes. |
| Bags.PlaceEffect | client/prefabs/Backpack/backpack.gd:307-347 | A checked placement adds the footprint to the item's cells, touches nobody else's, and keeps the bag well formed iff the item itself is well placed. |
| Bags.PutBackRestores | client/prefabs/Backpack/backpack.gd:841-857 | Taking an item up and putting it back where it was restores both grids exactly. |
| Bags.MenuMoveIsAtomic | client/prefabs/Backpack/backpack.gd:810-860 | The insurance move either puts the item on the other grid, touching nobody else, or changes nothing at all, and then because it fits nowhere there. |
| Bags.StepKeepsOkIff | client/prefabs/Backpack/backpack.gd:307-375 | Checked placement, tryAddItem, menu move, a turn in an abandoned drag and discard move only their own item, and keep every item on exactly its own cells of one grid iff a placement leaves none of the item's old cells outside its new footprint and a turn changes no cell covered. |
| Bags.DropMeans | client/prefabs/Backpack/backpack.gd:326-347 | A placed item has the shape and position given, and the footprint added to its cells on the grid asked for. |
| Bags.TryAddMeans | client/prefabs/Backpack/backpack.gd:614-642 | An added item sits on exactly its footprint at the origin found. |
| Bags.MoveMeans | client/prefabs/Backpack/backpack.gd:810-860 | A moved item sits on the other grid at the origin found, with its shape. |
| Bags.TurnAndDiscardMean | client/prefabs/Backpack/backpack.gd:862-867 | A turn changes the shape only; a discarded item is on no cell and unknown. |
| Bags.BackpackIsAlwaysOk | client/prefabs/Backpack/backpack.gd:307-375 | The same after every operation of every run, from an empty backpack, whose placements and turns of items in the bag all do that. |
| Bags.FirstUncleanStepBreaks | client/prefabs/Backpack/backpack.gd:326-347 | The first placement or turn of a run that does not leaves the backpack with an item on cells that are not its own. |
| Bags.PlaceAgainKeepsOkIff | client/prefabs/Backpack/backpack.gd:326-347 | Placing an item already in the bag keeps it well formed iff all its old cells lie inside the new footprint on the same grid. |
| Bags.DropInsideOwnBackpackIff | client/autoloads/drag_coordinator.gd:44-110 | So an unturned item can be dropped cleanly inside its own backpack only where it already is. |
| Bags.TurnInPlaceKeepsOkIff | client/prefabs/Backpack/sub/backpack_item.gd:315-346 | Turning an item in an abandoned drag keeps the bag well formed iff the turned shape covers the same cells. |
| Backpacks.Container.CanPlaceItem | client/prefabs/Backpack/backpack.gd:307-313 | True iff, offset by offset, every cell exists on the insurance grid if that is asked for and there is one, else on the main grid, and is free or the item's own; and iff the value model allows it. |
| Backpacks.Container.PlaceItem | client/prefabs/Backpack/backpack.gd:326-336 | New contents of both grids and the item's position, for a backpack and for a loot grid. |
| Backpacks.Container.PlaceItemInSpecial | client/prefabs/Backpack/backpack.gd:338-347 | The same for the insurance grid. |
| Backpacks.Container.RemoveItem | client/prefabs/Backpack/backpack.gd:368-375 | The item is gone from both grids and nobody else's cells change. |
| Backpacks.Container.TryAddItem | client/prefabs/Backpack/backpack.gd:614-642 | First fit, main grid first. On success a new item has the resource's shape and the position found, sits on exactly its footprint there, and the rest of both grids is as it was; on failure nothing changes. |
| Backpacks.Container.OnMenuInsurance | client/prefabs/Backpack/backpack.gd:810-860 | The remove, search, place or put back sequence is the menu move whose atomicity is proved. |
| Backpacks.Container.BackpackBoost | client/prefabs/Backpack/backpack.gd:535-556 | The total is the sum over distinct items, however many cells each covers. |
| Backpacks.Container.GetLayout | client/prefabs/Backpack/backpack.gd:590-610 | One entry for each item shown whose path can be saved, once, in scan order, marked insured iff it is not on the main grid. |
| Backpacks.Container.LayoutMeans | client/prefabs/Backpack/backpack.gd:590-610 | Entry by entry: path, position, whether it is off the main grid, whether it is turned; for exactly the items shown with a path that can be saved, once each. |
| Backpacks.Container.LoadLayout | client/prefabs/Backpack/backpack.gd:91-119 | Every cell shows the last entry written over it; each entry that loads makes an item of its own with that path, position, and shape, turned once if it says so. |
| Backpacks.ReloadRebuildsIff | client/prefabs/Backpack/backpack.gd:91-119 | Loading what was saved rebuilds both grids cell for cell, up to item identity, iff every item shown has a path that loads and turns that survive the flag. |
| Backpacks.SaveAndReload | client/prefabs/Backpack/backpack.gd:590-610 | The same of the two methods run one after the other, from one backpack into a new one. |
| Layouts.RoundTripIff | client/prefabs/Backpack/backpack.gd:590-610 | The same for the labels: the loader never checks for overlap, and needs not to, iff every item shown has a path that loads and turns that survive the flag, a check on the resource's shape and the turn count alone. |
| Layouts.LastWriterWins | client/prefabs/Backpack/backpack.gd:91-119 | After loading, a cell is taken iff some entry's footprint covers it on that grid, by the last such entry. |
| Layouts.ReadsBackIffFaithful | client/prefabs/Backpack/backpack.gd:600-607 | One saved item is read back onto its own cells iff its path loads and it was turned at most once, or twice or three times with a shape symmetric under the one or two turns that the flag loses. |
| Layouts.HalfTurnedOblongIsLost | client/prefabs/Backpack/backpack.gd:600-607 | So an item with unequal sides turned by half a turn never is. |
| Layouts.HalfTurnedBarIsLost | client/prefabs/items/res/item_ammo_long.tres:9 | Such an item: the long ammunition. |
| Drags.DragCoordinator.Transfer | client/autoloads/drag_coordinator.gd:18-127 | Succeeds iff every cell of the footprint exists on the grid asked for and is free or the item's own; failure changes nothing and leaves the drag pending. On success the item covers its footprint there, nobody else moves, the target is well formed under the stated condition, and source and target have made the step of a legal drag. |
| Drags.TransferIsDrag | client/autoloads/drag_coordinator.gd:33-121 | Placing on the target and clearing the source is the legal drag's step on the two containers, or on the one. |
| Drags.ClearAllButPlaced | client/autoloads/drag_coordinator.gd:44-93 | Note, remove and restore inside one container leaves both grids exactly as they were right after placement. |
| Drags.MoveAcross | client/autoloads/drag_coordinator.gd:33-121 | Between two containers the target has the item placed and the source has it removed, though both record its one position. |
| Drags.TransferKeepsOkIff | client/autoloads/drag_coordinator.gd:33-110 | The target of a successful transfer is well formed iff it is a loot grid or shows no cell of the item outside the new footprint; the item's cells are the new footprint and, in a backpack, the old ones. |
| Drags.TransferAcrossConserves | client/autoloads/drag_coordinator.gd:33-121 | The target gains exactly the new footprint and the source loses exactly the item's cells, even if the item was turned on the way. |
| Drags.DragMovesOneItem | client/autoloads/drag_coordinator.gd:18-127 | After any accepted drag the target holds the item, no other container does, and no other item has changed hands. |
| Drags.DragKeepsSoundIff | client/autoloads/drag_coordinator.gd:18-127 | Among any number of containers, a drag leaves all of them well formed iff it is clean. |
| Drags.DragsConserveItems | client/autoloads/drag_coordinator.gd:18-127 | Over every run of clean drags no item is lost, none doubled, and every container stays well formed. |
| Boosts.TotalTakesOut | client/prefabs/Backpack/backpack.gd:535-556 | The sum over a set does not depend on the order in which its elements are taken. |
| Boosts.TotalFieldByField | client/prefabs/Backpack/backpack.gd:548-554 | Every field of a total is the sum of that field over the distinct things; the persistent shield is there iff one has it. |
| Boosts.CalculateInitialStats | server/logic/room.go:473-553 | bombCap is 2, radiusCap 1, speedCap 95.0 and shieldCap 1 plus the sum of that boost over the distinct nonempty paths: order and repetition are irrelevant. |
| Boosts.SumUnseen | server/logic/room.go:481-488 | The loop with its seen map adds each distinct nonempty path once. |
| AudioRing.RingBuffer.constructor | client/export/web/index.audio.worklet.js:32-38 | An empty or a full ring over a given array. |
| AudioRing.RingBuffer.Read | client/export/web/index.audio.worklet.js:48-69 | Returns and removes the oldest samples, across the end of the array and with rpos left on it. |
| AudioRing.RingBuffer.Write | client/export/web/index.audio.worklet.js:71-93 | Appends the samples after those held, across the end of the array and up to a full buffer, iff they fit; the method itself does not check. |
| AudioRing.WindowSplits | client/export/web/index.audio.worklet.js:48-64 | A window of the circular buffer is its beginning and the window from where a read leaves off. |
| AudioRing.WindowGrows | client/export/web/index.audio.worklet.js:71-86 | Writing where a window ends extends it and overwrites nothing in it. |
| AudioRing.FirstInFirstOut | client/export/web/index.audio.worklet.js:48-93 | Over every sequence of reads and writes within bounds, what was read plus what is held is what was held at first plus what was written, in order. |
| AudioFrames.WriteInput | client/export/web/index.audio.worklet.js:203-210 | Writing channel by channel produces the stream read frame by frame. |
| AudioFrames.WriteOutput | client/export/web/index.audio.worklet.js:194-201 | The channels afterwards are the ones whose interleaving is the source stream. |
| AudioFrames.SlotBySlotIffInterleaved | client/export/web/index.audio.worklet.js:194-210 | A stream has every sample in its slot iff it is the interleaved stream. |
| AudioFrames.InterleavedMeans | client/export/web/index.audio.worklet.js:194-210 | In the interleaved stream of c channels, sample s of channel ch is element s * c + ch. |
| AudioFrames.InterleavingIsInjective | client/export/web/index.audio.worklet.js:194-210 | A stream comes from one block only. |
| AudioFrames.ThroughTheStream | client/export/web/index.audio.worklet.js:194-210 | write_input followed by write_output gives every channel back. |
| AudioFrames.GodotProcessor.ProcessInput | client/export/web/index.audio.worklet.js:156-172 | A block goes into the ring whole, or not at all when there is no room. |
| AudioFrames.GodotProcessor.ProcessOutput | client/export/web/index.audio.worklet.js:173-188 | A block comes out whole, or is left alone with everything still in the ring. |

## Left out

- Sessions, broadcasts, logging, metrics, login, the database and build scripts: plumbing. A group is the set of its uids, and a uid has at most one live session.
- The Redis tombstone store: its expiry and atomicity belong to a foreign service.
- HMAC-SHA256 and random bytes: the code is a function parameter and the random part an argument.
- Floating-point rounding: positions, fuses, speeds and delta are reals, the clock counts milliseconds, and all readings of one tick are equal.
- Locks: every handler is one atomic step. A second loop started by StartGame, the loop's pacing and the remaining time are not modelled.
- NanoRoom is split: `Match` has its game state, as objects updated in place, and `Lobby` its membership, as values in a map, so two references to one room are not told apart there.
- Absences is stated on values: it joins the steps proved of `Lobby.RoomComponent` with a token map; when a tombstone expires is left open.
- Absences.OrderlyRunsStayGood, RoomOutlastsRunIff and Reconnect.FullGraceIff: cover runs of orderly events only; what the others break is stated by GoodIffOrderly.
- PlayerState's fields travel in groups (motion, caps, currents, authority), and a record's maps never share objects.
- MatchRules.UidOf: a player key that is not a decimal int64 gives uid 0, where Go also returns the nearest bound on overflow; every key in use is a printed uid.
- The random bomb id is an argument of PlaceBomb; one in use already replaces that bomb, as in the source.
- Binding the new session, which a resume also needs, and the reply of Resume, which reads the game state of a room that may have none, and a resume into a room without a game.
- Evacuation counting, settlement, chests, drops, map configuration, spawn indices and the ready flag: single-branch or easy claims.
- Item and effect scenes, pixel positions, previews, tweens, drop-position rounding and tutorials: user interface.
- The containers whose cells hold lists of items and the warehouse's own copy of the backpack: the branches for them in the drag coordinator are left out.
- The loot grid's writes are bounded like the backpack's; the source indexes directly, which a checked placement makes the same.
- AudioRing.FirstInFirstOut: covers runs whose reads and writes stay in bounds, as the guards of ProcessInput and ProcessOutput ensure; without threads the message handler writes chunks unguarded, relying on the engine to send no more than was read.
- AudioFrames.GodotProcessor: the running flag, the message port, the notifier, the null rings and the engine's own side of the shared memory.
- The server's settings for a player whose profile cannot be read, which equal the stats of an empty backpack.
