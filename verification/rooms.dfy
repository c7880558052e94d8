/**
 Rooms of the 1v1 rhythm-duel server: the values the registry holds, the
 messages the server emits, and the pure per-room updates the socket
 handlers perform.
 */
module Rooms {

  datatype Option<+T> = None | Some(value: T)

  /** Socket.IO connection ids and room codes are plain strings. */
  type SocketId = string
  type RoomId = string

  /** A room holds at most two players. */
  const Capacity: nat := 2
  /** The duel starts this many milliseconds after the start is armed. */
  const CountdownMs: int := 3000
  /** `makeSeed` returns `Math.floor(Math.random() * 1e9)`. */
  const SeedBound: int := 1_000_000_000
  /** The name given to a player whose chosen name is empty. */
  const DefaultName: string := "Player"

  /** The acknowledgement errors of `joinRoom`. */
  const RoomNotFound: string := "Room not found"
  const RoomFull: string := "Room full"

  type Seed = s: int | 0 <= s < SeedBound

  datatype Player = Player(name: string, ready: bool)

  /** `{ id, seed, players: { socketId: {name, ready} }, started, startTime }` */
  datatype Room = Room(
    id: RoomId,
    seed: Seed,
    players: map<SocketId, Player>,
    started: bool,
    startTime: Option<int>)

  /** What the server sends to clients. */
  datatype Message =
    | RoomUpdate(snapshot: Room)
    | StartDuel(startTime: int, seed: Seed)
    | OpponentHit(lane: int, timeMs: int, from: SocketId)
    | DuelEnded(winner: string)

  /** One emit: the sockets that receive it and what they receive. */
  datatype Event = Event(to: set<SocketId>, msg: Message)

  /** The acknowledgement returned to `createRoom` and `joinRoom`. */
  datatype Ack = Ok(roomId: RoomId) | Fail(error: string)

  /** `io.to(room.id).emit(...)`: every current player receives it. */
  function Broadcast(room: Room, msg: Message): Event
  {
    Event(room.players.Keys, msg)
  }

  /** `name || 'Player'`, with the empty string standing for every falsy name. */
  function DisplayName(name: string): (r: string)
    ensures r != []
    ensures name != [] ==> r == name
    ensures name == [] ==> r == DefaultName
  {
    if name == [] then DefaultName else name
  }

  /** The player record a socket gets when it creates or joins a room. */
  function Newcomer(name: string): Player
  {
    Player(DisplayName(name), false)
  }

  /** `players[socket.id] = { name: name || 'Player', ready: false }` */
  function Seat(room: Room, sid: SocketId, name: string): Room
  {
    room.(players := room.players[sid := Newcomer(name)])
  }

  /** `room.players[socket.id].ready = !!ready` */
  function MarkReady(room: Room, sid: SocketId, ready: bool): (r: Room)
    requires sid in room.players
    ensures r.players.Keys == room.players.Keys
    ensures r.players[sid] == Player(room.players[sid].name, ready)
    ensures forall p :: p in room.players && p != sid ==> r.players[p] == room.players[p]
    ensures r.(players := room.players) == room
  {
    room.(players := room.players[sid := room.players[sid].(ready := ready)])
  }

  predicate AllReady(players: map<SocketId, Player>)
  {
    forall p :: p in players ==> players[p].ready
  }

  /** The start condition: not started, exactly two players, all ready. */
  predicate CanStart(room: Room)
  {
    !room.started && |room.players| == Capacity && AllReady(room.players)
  }

  /** `started = true; startTime = now + 3000` */
  function Arm(room: Room, now: int): Room
  {
    room.(started := true, startTime := Some(now + CountdownMs))
  }

  /** Every player's `ready` flag cleared, names kept. */
  function ClearReady(players: map<SocketId, Player>): (r: map<SocketId, Player>)
    ensures r.Keys == players.Keys && |r| == |players|
    ensures forall p :: p in r ==> r[p] == Player(players[p].name, false)
  {
    map p | p in players :: players[p].(ready := false)
  }

  /** The reset after `gameOver`: back to the lobby, nobody ready. */
  function Rematch(room: Room): Room
  {
    room.(started := false, startTime := None, players := ClearReady(room.players))
  }

  /** `delete room.players[socket.id]` */
  function Leave(room: Room, sid: SocketId): Room
  {
    room.(players := room.players - {sid})
  }

  /**
   The per-room invariant the handlers keep: one or two players, and
   `started` exactly when a start time is scheduled.
   */
  predicate WellFormed(room: Room)
  {
    && 1 <= |room.players| <= Capacity
    && (room.started <==> room.startTime.Some?)
  }
}
