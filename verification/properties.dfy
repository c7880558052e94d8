/**
 Properties of the room registry: what each handler guarantees in one step,
 and what holds along any sequence of events.
 */
module RegistryProperties {
  import opened Rooms
  import opened RegistrySpec

  // ---------------------------------------------------------------------
  // createRoom

  /**
   The creator is the room's only player, named and not ready; the room is in
   the lobby with the given seed; the creator is acknowledged and is the only
   recipient of the announcement. Every other room is untouched, while a room
   already filed under `id` is replaced.
   */
  lemma CreateRoomSeatsCreator(t: Table, sid: SocketId, id: RoomId, seed: Seed, name: string)
    ensures var o := OnCreateRoom(t, sid, id, seed, name);
      && o.ack == Some(Ok(id))
      && o.table.Keys == t.Keys + {id}
      && o.table[id] == Room(id, seed, map[sid := Player(DisplayName(name), false)], false, None)
      && (forall other :: other in t && other != id ==> o.table[other] == t[other])
      && o.events == [Event({sid}, RoomUpdate(o.table[id]))]
  {
    assert map[sid := Player(DisplayName(name), false)].Keys == {sid};
  }

  /**
   No uniqueness check guards the code: creating a room under a code already
   in use discards the earlier room, its players included.
   */
  lemma CreateRoomOverwrites(t: Table, sid: SocketId, id: RoomId, seed: Seed, name: string)
    requires id in t && t[id].players.Keys != {sid}
    ensures OnCreateRoom(t, sid, id, seed, name).table[id].players.Keys == {sid}
    ensures OnCreateRoom(t, sid, id, seed, name).table[id] != t[id]
  {
  }

  /**
   Nothing stops a socket from creating a second room: the same connection
   then sits in two rooms at once.
   */
  lemma SocketInTwoRooms(sid: SocketId, a: RoomId, b: RoomId, seedA: Seed, seedB: Seed, name: string)
    requires a != b
    ensures var t := OnCreateRoom(OnCreateRoom(map[], sid, a, seedA, name).table, sid, b, seedB, name).table;
      a in t && b in t && sid in t[a].players && sid in t[b].players
  {
  }

  // ---------------------------------------------------------------------
  // joinRoom

  /** Joining a missing room is refused with "Room not found"; nothing changes, nothing is sent. */
  lemma JoinMissingRoom(t: Table, sid: SocketId, roomId: RoomId, name: string)
    requires roomId !in t
    ensures OnJoinRoom(t, sid, roomId, name) == Outcome(t, [], Some(Fail("Room not found")))
  {
  }

  /** Joining a room that holds two players is refused with "Room full"; nothing changes, nothing is sent. */
  lemma JoinFullRoom(t: Table, sid: SocketId, roomId: RoomId, name: string)
    requires roomId in t && |t[roomId].players| >= Capacity
    ensures OnJoinRoom(t, sid, roomId, name) == Outcome(t, [], Some(Fail("Room full")))
  {
  }

  /**
   A join is accepted exactly when the room exists and has a free seat; it
   then adds the joiner, not ready, to that room alone, keeps the room's
   other fields, and sends one `roomUpdate` to every player, joiner included.
   */
  lemma JoinSeatsJoiner(t: Table, sid: SocketId, roomId: RoomId, name: string)
    ensures var o := OnJoinRoom(t, sid, roomId, name);
      && (o.ack == Some(Ok(roomId)) <==> roomId in t && |t[roomId].players| < Capacity)
      && (o.ack == Some(Ok(roomId)) ==>
            && o.table.Keys == t.Keys
            && o.table[roomId] == t[roomId].(players := t[roomId].players[sid := Player(DisplayName(name), false)])
            && (forall other :: other in t && other != roomId ==> o.table[other] == t[other])
            && o.events == [Event(t[roomId].players.Keys + {sid}, RoomUpdate(o.table[roomId]))])
  {
    if roomId in t {
      assert t[roomId].players[sid := Newcomer(name)].Keys == t[roomId].players.Keys + {sid};
    }
  }

  /**
   After a socket creates a room and a second socket joins it, any further
   socket is turned away with "Room full".
   */
  lemma ThirdJoinerRefused(t: Table, a: SocketId, b: SocketId, c: SocketId, id: RoomId, seed: Seed,
                           nameA: string, nameB: string, nameC: string)
    requires a != b
    ensures var t1 := OnCreateRoom(t, a, id, seed, nameA).table;
      var j := OnJoinRoom(t1, b, id, nameB);
      && j.ack == Some(Ok(id))
      && OnJoinRoom(j.table, c, id, nameC) == Outcome(j.table, [], Some(Fail(RoomFull)))
  {
    var t1 := OnCreateRoom(t, a, id, seed, nameA).table;
    var j := OnJoinRoom(t1, b, id, nameB);
    assert j.table[id].players.Keys == {a, b};
  }

  // ---------------------------------------------------------------------
  // setReady

  /** `setReady` for a missing room, or from a socket that is not a player there, does nothing. */
  lemma SetReadyIgnored(t: Table, sid: SocketId, roomId: RoomId, ready: bool, now: int)
    requires roomId !in t || sid !in t[roomId].players
    ensures OnSetReady(t, sid, roomId, ready, now) == Outcome(t, [], None)
  {
  }

  /**
   An accepted `setReady` records the flag in that room only, keeps its seed,
   and first announces the room, with the new flag, to its players.
   */
  lemma SetReadyMarks(t: Table, sid: SocketId, roomId: RoomId, ready: bool, now: int)
    requires roomId in t && sid in t[roomId].players
    ensures var o := OnSetReady(t, sid, roomId, ready, now);
      && o.table.Keys == t.Keys
      && (forall other :: other in t && other != roomId ==> o.table[other] == t[other])
      && o.table[roomId].players == t[roomId].players[sid := Player(t[roomId].players[sid].name, ready)]
      && o.table[roomId].seed == t[roomId].seed
      && 1 <= |o.events|
      && o.events[0] == Event(t[roomId].players.Keys, RoomUpdate(o.events[0].msg.snapshot))
      && o.events[0].msg.snapshot.players == o.table[roomId].players
      && o.events[0].msg.snapshot == MarkReady(t[roomId], sid, ready)
  {
  }

  /**
   An accepted `setReady` sends one `startDuel` exactly when the room was not
   started and now has two players who are all ready; then the room becomes
   started with start time `now + 3000` and the message, sent to the room's
   players, carries that time and the room's seed. Otherwise no `startDuel`
   is sent and `started` and `startTime` keep their values.
   */
  lemma SetReadyArmsOnce(t: Table, sid: SocketId, roomId: RoomId, ready: bool, now: int)
    requires roomId in t && sid in t[roomId].players
    ensures var o := OnSetReady(t, sid, roomId, ready, now);
      var marked := t[roomId].players[sid := Player(t[roomId].players[sid].name, ready)];
      var arms := !t[roomId].started && |marked| == Capacity && forall p :: p in marked ==> marked[p].ready;
      && roomId in o.table
      && (StartDuels(o.events) == 1 <==> arms)
      && (StartDuels(o.events) == 0 <==> !arms)
      && (arms ==> o.table[roomId].started && o.table[roomId].startTime == Some(now + 3000)
                   && |o.events| == 2
                   && o.events[1] == Event(t[roomId].players.Keys, StartDuel(now + 3000, t[roomId].seed)))
      && (!arms ==> o.table[roomId].started == t[roomId].started
                    && o.table[roomId].startTime == t[roomId].startTime)
  {
    var o := OnSetReady(t, sid, roomId, ready, now);
    var marked := MarkReady(t[roomId], sid, ready);
    assert StartDuels(o.events[1..]) == (if CanStart(marked) then 1 else 0) by {
      if CanStart(marked) {
        assert o.events[1..][1..] == [];
      } else {
        assert o.events[1..] == [];
      }
    }
  }

  /** Once a room is started, `setReady` never sends another `startDuel`, and the room stays started. */
  lemma SetReadyWhileStarted(t: Table, sid: SocketId, roomId: RoomId, ready: bool, now: int)
    requires roomId in t && t[roomId].started
    ensures var o := OnSetReady(t, sid, roomId, ready, now);
      StartDuels(o.events) == 0 && roomId in o.table && o.table[roomId].started
  {
    var o := OnSetReady(t, sid, roomId, ready, now);
    if sid in t[roomId].players {
      SetReadyArmsOnce(t, sid, roomId, ready, now);
    }
  }

  /**
   No handler but `setReady` ever sends `startDuel`: `disconnect` sends only
   room updates, and the other four handlers send no `startDuel`.
   */
  lemma OnlySetReadyStarts(t: Table, e: Inbound)
    requires !e.SetReady?
    ensures e.Disconnect? ==> forall ev :: ev in DisconnectUpdates(t, e.sid) ==> ev.msg.RoomUpdate?
    ensures !e.Disconnect? ==>
      var events := match e
        case CreateRoom(sid, id, seed, name) => OnCreateRoom(t, sid, id, seed, name).events
        case JoinRoom(sid, roomId, name) => OnJoinRoom(t, sid, roomId, name).events
        case Hit(sid, roomId, lane, timeMs) => OnHit(t, sid, roomId, lane, timeMs).events
        case GameOver(roomId, winner) => OnGameOver(t, roomId, winner).events;
      StartDuels(events) == 0
  {
    match e
    case CreateRoom(sid, id, seed, name) =>
      assert OnCreateRoom(t, sid, id, seed, name).events[1..] == [];
    case JoinRoom(sid, roomId, name) =>
      assert roomId in t && |t[roomId].players| < Capacity ==> OnJoinRoom(t, sid, roomId, name).events[1..] == [];
    case Hit(sid, roomId, lane, timeMs) =>
      assert OnHit(t, sid, roomId, lane, timeMs).events[1..] == [];
    case GameOver(roomId, winner) =>
      var events := OnGameOver(t, roomId, winner).events;
      if roomId in t {
        assert events[1..][1..] == [];
        assert StartDuels(events[1..]) == 0;
      }
    case Disconnect(sid) =>
  }

  // ---------------------------------------------------------------------
  // hit

  /**
   `hit` changes no state and sends one `opponentHit`, naming the sender, to
   the room's players other than the sender (whether or not the sender is one).
   */
  lemma HitRelays(t: Table, sid: SocketId, roomId: RoomId, lane: int, timeMs: int)
    ensures var o := OnHit(t, sid, roomId, lane, timeMs);
      && o.table == t
      && |o.events| == 1
      && o.events[0].msg == OpponentHit(lane, timeMs, sid)
      && sid !in o.events[0].to
      && (forall p :: p in o.events[0].to <==> roomId in t && p in t[roomId].players && p != sid)
  {
  }

  // ---------------------------------------------------------------------
  // gameOver

  /**
   `gameOver` on an existing room (from any socket) sends `duelEnded` with the
   winner and then a `roomUpdate`, both to every player; the room is back in
   the lobby with nobody ready, the same players, names and seed.
   */
  lemma GameOverResets(t: Table, roomId: RoomId, winner: string)
    requires roomId in t
    ensures var o := OnGameOver(t, roomId, winner);
      var room := o.table[roomId];
      && o.table.Keys == t.Keys
      && (forall other :: other in t && other != roomId ==> o.table[other] == t[other])
      && !room.started && room.startTime == None
      && room.players.Keys == t[roomId].players.Keys
      && (forall p :: p in room.players ==> !room.players[p].ready && room.players[p].name == t[roomId].players[p].name)
      && room.id == t[roomId].id && room.seed == t[roomId].seed
      && o.events == [Event(t[roomId].players.Keys, DuelEnded(winner)),
                      Event(t[roomId].players.Keys, RoomUpdate(room))]
  {
  }

  /** `gameOver` for a missing room does nothing. */
  lemma GameOverMissingRoom(t: Table, roomId: RoomId, winner: string)
    requires roomId !in t
    ensures OnGameOver(t, roomId, winner) == Outcome(t, [], None)
  {
  }

  // ---------------------------------------------------------------------
  // disconnect

  /** A room is deleted by `sid` leaving it exactly when `sid` is its only player. */
  lemma EmptiedByOnlyPlayer(room: Room, sid: SocketId)
    ensures EmptiedBy(room, sid) <==> room.players.Keys == {sid}
  {
    var rest := Leave(room, sid).players;
    assert rest.Keys == room.players.Keys - {sid};
    if sid in room.players && room.players.Keys != {sid} {
      var q :| q in room.players.Keys && q != sid;
      assert q in rest;
    }
  }

  /**
   After `disconnect` the socket is in no room; a room is deleted exactly when
   the socket was its only player; every other room that held the socket has
   lost it and nothing else (in particular `started` is kept); rooms that did
   not hold it are untouched.
   */
  lemma DisconnectLeavesAll(t: Table, sid: SocketId)
    ensures var d := OnDisconnect(t, sid);
      && (forall id :: id in d ==> sid !in d[id].players)
      && (forall id :: id in t ==> (id !in d <==> t[id].players.Keys == {sid}))
      && (forall id :: id in d ==> id in t && d[id] == t[id].(players := t[id].players - {sid}))
      && (forall id :: id in t && sid !in t[id].players ==> id in d && d[id] == t[id])
  {
    forall id | id in t
      ensures EmptiedBy(t[id], sid) <==> t[id].players.Keys == {sid}
    {
      EmptiedByOnlyPlayer(t[id], sid);
    }
  }

  /**
   `disconnect` sends one `roomUpdate` per room that held the socket, showing
   the room without it and addressed to the remaining players, even when
   there are none left.
   */
  lemma DisconnectAnnounces(t: Table, sid: SocketId)
    ensures forall ev :: ev in DisconnectUpdates(t, sid) <==>
      exists id :: id in t && sid in t[id].players
        && ev == Event(t[id].players.Keys - {sid}, RoomUpdate(Leave(t[id], sid)))
    ensures forall id :: id in t && t[id].players.Keys == {sid} ==>
      Event({}, RoomUpdate(Leave(t[id], sid))) in DisconnectUpdates(t, sid)
  {
    forall id | id in t && t[id].players.Keys == {sid}
      ensures Event({}, RoomUpdate(Leave(t[id], sid))) in DisconnectUpdates(t, sid)
    {
      assert LeaveUpdate(t[id], sid) == Event({}, RoomUpdate(Leave(t[id], sid)));
    }
  }

  /**
   Once the last player of a room disconnects, the room is gone: a later
   `joinRoom` for its code answers "Room not found".
   */
  lemma LastLeaverDeletesRoom(t: Table, sid: SocketId, id: RoomId, joiner: SocketId, name: string)
    requires id in t && t[id].players.Keys == {sid}
    ensures id !in OnDisconnect(t, sid)
    ensures OnJoinRoom(OnDisconnect(t, sid), joiner, id, name).ack == Some(Fail(RoomNotFound))
  {
    EmptiedByOnlyPlayer(t[id], sid);
  }

  // ---------------------------------------------------------------------
  // Invariants along any sequence of events

  lemma CreateRoomKeepsConsistent(t: Table, sid: SocketId, id: RoomId, seed: Seed, name: string)
    requires Consistent(t)
    ensures Consistent(OnCreateRoom(t, sid, id, seed, name).table)
  {
    assert |map[sid := Newcomer(name)]| == 1;
  }

  lemma JoinRoomKeepsConsistent(t: Table, sid: SocketId, roomId: RoomId, name: string)
    requires Consistent(t)
    ensures Consistent(OnJoinRoom(t, sid, roomId, name).table)
  {
  }

  lemma SetReadyKeepsConsistent(t: Table, sid: SocketId, roomId: RoomId, ready: bool, now: int)
    requires Consistent(t)
    ensures Consistent(OnSetReady(t, sid, roomId, ready, now).table)
  {
  }

  lemma GameOverKeepsConsistent(t: Table, roomId: RoomId, winner: string)
    requires Consistent(t)
    ensures Consistent(OnGameOver(t, roomId, winner).table)
  {
  }

  /** A room that `sid` leaves without emptying it keeps one or two players. */
  lemma LeaveKeepsWellFormed(room: Room, sid: SocketId)
    requires WellFormed(room) && sid in room.players && !EmptiedBy(room, sid)
    ensures WellFormed(Leave(room, sid))
  {
    assert Leave(room, sid).players.Keys == room.players.Keys - {sid};
  }

  lemma DisconnectKeepsConsistent(t: Table, sid: SocketId)
    requires Consistent(t)
    ensures Consistent(OnDisconnect(t, sid))
  {
    var d := OnDisconnect(t, sid);
    forall id | id in d
      ensures d[id].id == id && WellFormed(d[id])
    {
      if sid in t[id].players {
        LeaveKeepsWellFormed(t[id], sid);
      }
    }
  }

  /** Every handler keeps every room within capacity, non-empty, and started exactly when timed. */
  lemma ApplyKeepsConsistent(t: Table, e: Inbound)
    requires Consistent(t)
    ensures Consistent(Apply(t, e))
  {
    match e
    case CreateRoom(sid, id, seed, name) => CreateRoomKeepsConsistent(t, sid, id, seed, name);
    case JoinRoom(sid, roomId, name) => JoinRoomKeepsConsistent(t, sid, roomId, name);
    case SetReady(sid, roomId, ready, now) => SetReadyKeepsConsistent(t, sid, roomId, ready, now);
    case Hit(sid, roomId, lane, timeMs) =>
    case GameOver(roomId, winner) => GameOverKeepsConsistent(t, roomId, winner);
    case Disconnect(sid) => DisconnectKeepsConsistent(t, sid);
  }

  /**
   From an empty or consistent registry, no sequence of events ever makes a
   room hold more than two players (or none), or leaves `started` and
   `startTime` out of step.
   */
  lemma {:induction false} RunKeepsConsistent(t: Table, es: seq<Inbound>)
    requires Consistent(t)
    ensures Consistent(Run(t, es))
    ensures forall id :: id in Run(t, es) ==> |Run(t, es)[id].players| <= 2
    decreases |es|
  {
    if es != [] {
      ApplyKeepsConsistent(t, es[0]);
      RunKeepsConsistent(Apply(t, es[0]), es[1..]);
    }
  }

  /** Whether an event creates room `id`. */
  predicate Creates(e: Inbound, id: RoomId)
  {
    e.CreateRoom? && e.id == id
  }

  /**
   A room's seed never changes: unless a `createRoom` reuses its code, a room
   present after any sequence of events was present before, with the same seed.
   */
  lemma {:induction false} SeedFixed(t: Table, es: seq<Inbound>, id: RoomId)
    requires forall i :: 0 <= i < |es| ==> !Creates(es[i], id)
    ensures id in Run(t, es) ==> id in t && Run(t, es)[id].seed == t[id].seed
    decreases |es|
  {
    if es != [] {
      SeedFixed(Apply(t, es[0]), es[1..], id);
    }
  }

  /** Whether an event can put room `id` back in the lobby. */
  predicate Resets(e: Inbound, id: RoomId)
  {
    (e.CreateRoom? && e.id == id) || (e.GameOver? && e.roomId == id)
  }

  /**
   A started room stays started until a `gameOver` for it (or a `createRoom`
   reusing its code); in particular a player leaving mid-duel does not reset it.
   */
  lemma {:induction false} StaysStarted(t: Table, es: seq<Inbound>, id: RoomId)
    requires id in t ==> t[id].started
    requires forall i :: 0 <= i < |es| ==> !Resets(es[i], id)
    ensures id in Run(t, es) ==> Run(t, es)[id].started
    decreases |es|
  {
    if es != [] {
      var t' := Apply(t, es[0]);
      if id in t && es[0].SetReady? && es[0].roomId == id {
        SetReadyWhileStarted(t, es[0].sid, id, es[0].ready, es[0].now);
      }
      StaysStarted(t', es[1..], id);
    }
  }

  /**
   After a room's duel is armed, no further event sends it another
   `startDuel` until a `gameOver` for it: for every event of the sequence,
   handling it in the registry reached by the events before it sends no
   `startDuel` to that room.
   */
  lemma NoSecondStart(t: Table, es: seq<Inbound>, id: RoomId)
    requires id in t && t[id].started
    requires forall i :: 0 <= i < |es| ==> !Resets(es[i], id)
    ensures forall i :: 0 <= i < |es| ==> StartsFor(Run(t, es[..i]), es[i], id) == 0
  {
    forall i | 0 <= i < |es|
      ensures StartsFor(Run(t, es[..i]), es[i], id) == 0
    {
      StaysStarted(t, es[..i], id);
      var s := Run(t, es[..i]);
      if es[i].SetReady? && es[i].roomId == id {
        if id in s {
          SetReadyWhileStarted(s, es[i].sid, id, es[i].ready, es[i].now);
        } else {
          SetReadyIgnored(s, es[i].sid, id, es[i].ready, es[i].now);
        }
      }
    }
  }
}
