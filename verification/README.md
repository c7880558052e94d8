# Room registry of the 1v1 rhythm-duel server

The server keeps every duel room in one in-memory object, `rooms`, which maps
a six-character room code to a room: `{ id, seed, players: { socketId:
{ name, ready } }, started, startTime }`. Six Socket.IO handlers read and
update it:

- `createRoom` files a fresh room, with the creator as its first player.
- `joinRoom` seats a second player, or refuses with "Room not found" or
  "Room full".
- `setReady` records a player's flag. When the room is not started and holds
  two players who are all ready, it arms the duel for `now + 3000` and sends
  `startDuel` with the room's seed.
- `hit` relays an `opponentHit` to the other players.
- `gameOver` announces `duelEnded` and puts the room back in the lobby.
- `disconnect` removes the socket from every room, announces each of those
  rooms, and deletes every room left without players.

The project models these handlers in three layers:

- `rooms.dfy` (module `Rooms`) holds the values: players, rooms, the messages
  the server emits, and the per-room edits the handlers make.
- `registry_spec.dfy` (module `RegistrySpec`) describes each handler as a pure
  function of the registry before the event. Each function returns the
  registry afterwards, the emits in the order they are made (each with its
  set of recipients), and the acknowledgement.
  - `Apply` and `Run` replay any sequence of inbound events.
- `registry.dfy` (module `Server`) is the handler code itself.
  - The class `Registry` owns the `rooms` map, and each method updates it in
    place.
  - A ghost log records every emit.
  - Every handler method is proved to leave the registry exactly as the
    matching `RegistrySpec` function says.
  - Every handler method but `Disconnect` is proved to leave the log exactly
    as that function says. For `Disconnect`, the new emits are proved equal
    to the function's updates up to their order.
  - `CreateRoom`, `JoinRoom`, `SetReady`, `GameOver` and `Disconnect` keep
    the registry invariant `Consistent`: each room is filed under its own
    code, holds one or two players, and is `started` exactly when it has a
    start time.
  - `Hit` leaves the table untouched, so it keeps the invariant trivially.
  - The contract of `LeaveRoom`, one step of the `disconnect` scan, does
    not state the invariant. `Disconnect` proves it for the whole scan.
  - The two `forEach`-style loops are methods with loop invariants: the
    `ready` reset of `gameOver`, and the room scan of `disconnect`.
- `properties.dfy` (module `RegistryProperties`) proves what the handlers
  promise. It covers one event at a time, and it covers any sequence of
  events, by induction over `Run`.

The model follows the code as written, including these behaviours a reader
might not expect:

- `createRoom` checks no uniqueness: a code already in use is overwritten,
  and the earlier room's players are dropped from it.
- Neither `createRoom` nor `joinRoom` checks whether the socket already
  belongs to a room, so one socket can sit in two rooms.
- `hit` and `gameOver` do not check that the sender belongs to the room.
- `disconnect` emits the room update before it tests whether the room is
  empty, so the last leaver's update goes to nobody.
- A player leaving mid-duel does not reset `started`.

## Model

| member | source | states |
|---|---|---|
| Rooms.DisplayName | server.js:36 | the stored name is never empty: a non-empty chosen name is kept unchanged, and an empty one becomes `Player` |
| Rooms.MarkReady | server.js:57 | the sender's flag becomes `ready` and keeps its name; every other player and every other room field is unchanged; the set of players is kept |
| Rooms.ClearReady | server.js:83 | the reset keeps exactly the same players and names, with every flag cleared |
| Server.Registry.constructor | server.js:17 | the registry starts with no rooms and nothing sent |
| Server.Registry.CreateRoom | server.js:26-40 | the new registry, the emits and the ack are those of `OnCreateRoom`; the registry invariant is kept |
| Server.Registry.JoinRoom | server.js:42-51 | the new registry, the emits and the ack (including both refusals) are those of `OnJoinRoom`; the invariant is kept |
| Server.Registry.SetReady | server.js:53-69 | the new registry and the emits (update, then `startDuel` when armed) are those of `OnSetReady`; the invariant is kept |
| Server.Registry.Hit | server.js:71-74 | the registry is unchanged, and exactly the `opponentHit` of `OnHit` is emitted |
| Server.Registry.GameOver | server.js:76-85 | the new registry and the two emits are those of `OnGameOver`; the invariant is kept |
| Server.ClearAllReady | server.js:83 | the loop over the player ids yields every player with `ready` cleared and nothing else changed |
| Server.Registry.Disconnect | server.js:87-101 | the new registry is `OnDisconnect`; the log gains exactly the room updates of `DisconnectUpdates`, in some order; the invariant is kept |
| Server.Registry.LeaveRoom | server.js:91-99 | one scan step: a room without the socket is left alone; otherwise the socket is removed, the room is announced, and the room is deleted if now empty |
| Server.VisitStep | server.js:90-100 | visiting one more room advances the scan's table and its set of emitted updates by exactly that room's effect |
| RegistryProperties.CreateRoomSeatsCreator | server.js:26-40 | the creator is the only player, named and not ready; the room is unstarted with the given seed; the ack is ok; only the creator receives the update; other rooms are untouched |
| RegistryProperties.CreateRoomOverwrites | server.js:28-34 | a code already in use is overwritten, and the earlier room's players are lost |
| RegistryProperties.SocketInTwoRooms | server.js:26-40 | one socket that creates two rooms is a player of both |
| RegistryProperties.JoinMissingRoom | server.js:43-44 | an unknown code is refused with "Room not found", with no change and no emit |
| RegistryProperties.JoinFullRoom | server.js:45 | a room with two players refuses with "Room full", with no change and no emit |
| RegistryProperties.JoinSeatsJoiner | server.js:42-51 | the join succeeds iff the room exists and has a free seat; it then adds exactly the joiner, not ready, to that room alone and announces it to all players |
| RegistryProperties.ThirdJoinerRefused | server.js:45 | after a create and one join, a third socket gets "Room full" |
| RegistryProperties.SetReadyIgnored | server.js:54-56 | a missing room or a non-member sender leaves everything unchanged and sends nothing |
| RegistryProperties.SetReadyMarks | server.js:57-58 | only the sender's flag changes, the seed is kept, and the first emit is the update to all players, showing the room with the flag recorded and before any arming |
| RegistryProperties.SetReadyArmsOnce | server.js:60-68 | one `startDuel` is sent iff the room was unstarted and now has two players who are all ready; then `started` holds, `startTime` is `now + 3000` and the message carries that time and the seed; otherwise `started` and `startTime` are kept |
| RegistryProperties.SetReadyWhileStarted | server.js:62 | a started room gets no further `startDuel` from `setReady` and stays started |
| RegistryProperties.OnlySetReadyStarts | server.js:26-101 | no handler other than `setReady` emits `startDuel`; `disconnect` emits only room updates |
| RegistryProperties.HitRelays | server.js:71-74 | `hit` changes nothing and sends one `opponentHit`, naming the sender, to exactly the room's other players |
| RegistryProperties.GameOverResets | server.js:76-85 | the room returns to the lobby with the same players, names, id and seed and nobody ready; `duelEnded` and then the update reach every player |
| RegistryProperties.GameOverMissingRoom | server.js:77-78 | `gameOver` for an unknown code does nothing |
| RegistryProperties.EmptiedByOnlyPlayer | server.js:95 | a room is emptied by the leaver iff the leaver was its only player |
| RegistryProperties.DisconnectLeavesAll | server.js:87-101 | afterwards the socket is in no room; a room is deleted iff the socket was its only player; the other rooms lose the socket and nothing else; rooms without the socket are untouched |
| RegistryProperties.DisconnectAnnounces | server.js:91-93 | one update per room that held the socket, showing the room without it; a room the socket empties is announced to an empty set |
| RegistryProperties.LastLeaverDeletesRoom | server.js:95-97 | after the last player leaves, joining that code gives "Room not found" |
| RegistryProperties.CreateRoomKeepsConsistent | server.js:26-40 | `createRoom` keeps the registry invariant |
| RegistryProperties.JoinRoomKeepsConsistent | server.js:42-51 | `joinRoom` keeps the registry invariant, and the capacity bound with it |
| RegistryProperties.SetReadyKeepsConsistent | server.js:53-69 | `setReady` keeps the registry invariant |
| RegistryProperties.GameOverKeepsConsistent | server.js:76-85 | `gameOver` keeps the registry invariant |
| RegistryProperties.LeaveKeepsWellFormed | server.js:92 | a room the leaver does not empty stays well formed |
| RegistryProperties.DisconnectKeepsConsistent | server.js:87-101 | `disconnect` keeps the registry invariant |
| RegistryProperties.ApplyKeepsConsistent | server.js:23-102 | every handler keeps the registry invariant |
| RegistryProperties.RunKeepsConsistent | server.js:23-102 | along any sequence of events, every room holds at most two players, and `started` holds exactly when `startTime` is set |
| RegistryProperties.SeedFixed | server.js:30 | a room's seed never changes unless a `createRoom` reuses its code |
| RegistryProperties.StaysStarted | server.js:62-85 | a started room stays started until a `gameOver` for it, even when players leave mid-duel |
| RegistryProperties.NoSecondStart | server.js:62-66 | once a duel is armed, no later event sends that room another `startDuel` until a `gameOver` |

## Left out

- The HTTP server, static file serving and `listen` (server.js:4-13, 104-105) are not modelled, because they do not touch the registry.
- The client page is not part of this model.
- The Socket.IO transport is not modelled.
  - The channel a socket joins with `socket.join` is approximated by the room's player set: an emit to a room reaches exactly its current players.
  - This differs from the code after an overwritten code: a socket of the discarded room stays subscribed to the channel.
- The room code `nanoid(6).toUpperCase()`, the seed `Math.floor(Math.random() * 1e9)` and `Date.now()` are parameters of the handlers. A seed is any integer from 0 up to, but not including, 10^9.
- Logging with `console.log` is not modelled.
- Server.Registry.Disconnect: the rooms are visited in an unspecified order, not the key order of the JavaScript object, so the emits are stated as a multiset and not as a sequence.
- Payload coercion is not modelled:
  - the empty string stands for every falsy `name`;
  - `ready` is already a boolean, so the `!!` coercion is not modelled;
  - room codes that collide with JavaScript object prototype keys are not modelled;
  - `lane`, `timeMs` and `winner` are relayed untouched and may be any JSON value; the model types them as integers and a string (server.js:73, 79).
- A missing or null payload is not modelled. The destructuring in every handler (server.js:26, 42, 53, 71, 76) would throw on `undefined` or `null` and crash the process.
- The `roomUpdate` snapshot carries `players` as a map, so the JavaScript insertion order of the players, which the client page can see, is not modelled.
- Acknowledgement callbacks are an `Ack` result. A missing callback, which would throw, is not modelled.
