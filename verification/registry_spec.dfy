/**
 What each socket handler of the server does to the room registry, as pure
 functions of the registry before the event: the registry afterwards, the
 emits in the order they are made, and the acknowledgement, if any.
 */
module RegistrySpec {
  import opened Rooms

  /** The module-level `rooms` object: room code to room. */
  type Table = map<RoomId, Room>

  datatype Outcome = Outcome(table: Table, events: seq<Event>, ack: Option<Ack>)

  /** The registry invariant: every room is filed under its own id and is well formed. */
  predicate Consistent(t: Table)
  {
    forall id :: id in t ==> t[id].id == id && WellFormed(t[id])
  }

  /**
   `createRoom`: the fresh room, holding its creator, is stored under `id`
   (replacing any room already filed there), acknowledged, and announced.
   */
  function OnCreateRoom(t: Table, sid: SocketId, id: RoomId, seed: Seed, name: string): Outcome
  {
    var room := Seat(Room(id, seed, map[], false, None), sid, name);
    Outcome(t[id := room], [Broadcast(room, RoomUpdate(room))], Some(Ok(id)))
  }

  /** `joinRoom`: refused when the room is missing or already holds two players. */
  function OnJoinRoom(t: Table, sid: SocketId, roomId: RoomId, name: string): Outcome
  {
    if roomId !in t then
      Outcome(t, [], Some(Fail(RoomNotFound)))
    else if |t[roomId].players| >= Capacity then
      Outcome(t, [], Some(Fail(RoomFull)))
    else
      var room := Seat(t[roomId], sid, name);
      Outcome(t[roomId := room], [Broadcast(room, RoomUpdate(room))], Some(Ok(roomId)))
  }

  /**
   `setReady`: ignored for a missing room or a socket that is not a player;
   otherwise the flag is recorded and announced, and when the start condition
   holds the duel is armed and `startDuel` is sent.
   */
  function OnSetReady(t: Table, sid: SocketId, roomId: RoomId, ready: bool, now: int): Outcome
  {
    if roomId !in t || sid !in t[roomId].players then
      Outcome(t, [], None)
    else
      var marked := MarkReady(t[roomId], sid, ready);
      var update := Broadcast(marked, RoomUpdate(marked));
      if CanStart(marked) then
        var armed := Arm(marked, now);
        Outcome(t[roomId := armed], [update, Broadcast(armed, StartDuel(now + CountdownMs, armed.seed))], None)
      else
        Outcome(t[roomId := marked], [update], None)
  }

  /** The sockets `socket.to(roomId)` reaches: the room's players but the sender. */
  function Opponents(t: Table, sid: SocketId, roomId: RoomId): set<SocketId>
  {
    if roomId in t then t[roomId].players.Keys - {sid} else {}
  }

  /** `hit`: relayed to the other players; the sender's membership is not checked. */
  function OnHit(t: Table, sid: SocketId, roomId: RoomId, lane: int, timeMs: int): Outcome
  {
    Outcome(t, [Event(Opponents(t, sid, roomId), OpponentHit(lane, timeMs, sid))], None)
  }

  /** `gameOver`: announce the winner, then reset the room for a rematch. */
  function OnGameOver(t: Table, roomId: RoomId, winner: string): Outcome
  {
    if roomId !in t then
      Outcome(t, [], None)
    else
      var reset := Rematch(t[roomId]);
      Outcome(t[roomId := reset],
              [Broadcast(t[roomId], DuelEnded(winner)), Broadcast(reset, RoomUpdate(reset))],
              None)
  }

  /** Whether a room holds `sid` and has no players left once `sid` leaves it. */
  predicate EmptiedBy(room: Room, sid: SocketId)
  {
    sid in room.players && Leave(room, sid).players == map[]
  }

  /**
   The registry after `sid` has left every room among `ids` that holds it,
   each room it empties being deleted.
   */
  function LeaveAmong(t: Table, sid: SocketId, ids: set<RoomId>): Table
  {
    map id | id in t && !(id in ids && EmptiedBy(t[id], sid)) ::
      if id in ids && sid in t[id].players then Leave(t[id], sid) else t[id]
  }

  /** The `roomUpdate` emitted for a room `sid` leaves: the room without it. */
  function LeaveUpdate(room: Room, sid: SocketId): Event
  {
    Broadcast(Leave(room, sid), RoomUpdate(Leave(room, sid)))
  }

  /** The updates emitted for the rooms among `ids` that `sid` leaves. */
  function UpdatesAmong(t: Table, sid: SocketId, ids: set<RoomId>): set<Event>
  {
    set id | id in ids && id in t && sid in t[id].players :: LeaveUpdate(t[id], sid)
  }

  /** `disconnect`: the socket leaves every room of the registry. */
  function OnDisconnect(t: Table, sid: SocketId): Table
  {
    LeaveAmong(t, sid, t.Keys)
  }

  /**
   The emits of `disconnect`, one `roomUpdate` per room the socket was in;
   the order they are made in is the key order of the registry object.
   */
  function DisconnectUpdates(t: Table, sid: SocketId): set<Event>
  {
    UpdatesAmong(t, sid, t.Keys)
  }

  /** The events a client connection can deliver to the server. */
  datatype Inbound =
    | CreateRoom(sid: SocketId, id: RoomId, seed: Seed, name: string)
    | JoinRoom(sid: SocketId, roomId: RoomId, name: string)
    | SetReady(sid: SocketId, roomId: RoomId, ready: bool, now: int)
    | Hit(sid: SocketId, roomId: RoomId, lane: int, timeMs: int)
    | GameOver(roomId: RoomId, winner: string)
    | Disconnect(sid: SocketId)

  /** The registry after one event is handled. */
  function Apply(t: Table, e: Inbound): Table
  {
    match e
    case CreateRoom(sid, id, seed, name) => OnCreateRoom(t, sid, id, seed, name).table
    case JoinRoom(sid, roomId, name) => OnJoinRoom(t, sid, roomId, name).table
    case SetReady(sid, roomId, ready, now) => OnSetReady(t, sid, roomId, ready, now).table
    case Hit(sid, roomId, lane, timeMs) => OnHit(t, sid, roomId, lane, timeMs).table
    case GameOver(roomId, winner) => OnGameOver(t, roomId, winner).table
    case Disconnect(sid) => OnDisconnect(t, sid)
  }

  /** The registry after a sequence of events is handled one at a time, in order. */
  function Run(t: Table, es: seq<Inbound>): Table
    decreases |es|
  {
    if es == [] then t else Run(Apply(t, es[0]), es[1..])
  }

  /** The number of `startDuel` messages among some emits. */
  function StartDuels(events: seq<Event>): nat
  {
    if events == [] then 0
    else (if events[0].msg.StartDuel? then 1 else 0) + StartDuels(events[1..])
  }

  /**
   The number of `startDuel` messages a `setReady` for room `id` sends; zero
   for every other event, since no other handler sends `startDuel`
   (`RegistryProperties.OnlySetReadyStarts`).
   */
  function StartsFor(t: Table, e: Inbound, id: RoomId): nat
  {
    if e.SetReady? && e.roomId == id then StartDuels(OnSetReady(t, e.sid, id, e.ready, e.now).events)
    else 0
  }
}
