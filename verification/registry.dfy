/**
 The server's room registry as the socket handlers run it: one object owning
 the `rooms` table, one method per handler updating it in place, and a ghost
 log of every emit. Each method is proved to do exactly what the matching
 function of RegistrySpec describes.

 A room is a value here: where a handler edits the room object it looked up
 (`const room = rooms[roomId]`), the method edits a local copy and stores it
 back under the same code before anything else reads the registry.
 */
module Server {
  import opened Rooms
  import Spec = RegistrySpec
  import Props = RegistryProperties

  class Registry {
    /** The module-level `rooms` object. */
    var rooms: Spec.Table
    /** Every emit so far, in the order made. */
    ghost var log: seq<Event>

    ghost predicate Valid()
      reads this
    {
      Spec.Consistent(rooms)
    }

    /** The registry at process start: no rooms, nothing sent. */
    constructor ()
      ensures Valid()
      ensures rooms == map[] && log == []
    {
      rooms := map[];
      log := [];
    }

    /** `createRoom`, with the room code and the seed supplied by the caller. */
    method CreateRoom(sid: SocketId, id: RoomId, seed: Seed, name: string) returns (ack: Ack)
      requires Valid()
      modifies this
      ensures Valid()
      ensures var o := Spec.OnCreateRoom(old(rooms), sid, id, seed, name);
        rooms == o.table && log == old(log) + o.events && o.ack == Some(ack)
    {
      var room := Room(id, seed, map[], false, None);
      room := room.(players := room.players[sid := Newcomer(name)]);
      rooms := rooms[id := room];
      ack := Ok(id);
      log := log + [Broadcast(rooms[id], RoomUpdate(rooms[id]))];
      Props.CreateRoomKeepsConsistent(old(rooms), sid, id, seed, name);
    }

    /** `joinRoom`: refused for a missing or full room, otherwise seats the joiner. */
    method JoinRoom(sid: SocketId, roomId: RoomId, name: string) returns (ack: Ack)
      requires Valid()
      modifies this
      ensures Valid()
      ensures var o := Spec.OnJoinRoom(old(rooms), sid, roomId, name);
        rooms == o.table && log == old(log) + o.events && o.ack == Some(ack)
    {
      if roomId !in rooms {
        return Fail(RoomNotFound);
      }
      var room := rooms[roomId];
      if |room.players| >= Capacity {
        return Fail(RoomFull);
      }
      room := room.(players := room.players[sid := Newcomer(name)]);
      rooms := rooms[roomId := room];
      ack := Ok(roomId);
      log := log + [Broadcast(room, RoomUpdate(room))];
      Props.JoinRoomKeepsConsistent(old(rooms), sid, roomId, name);
    }

    /** `setReady`, with the clock reading `now` supplied by the caller. */
    method SetReady(sid: SocketId, roomId: RoomId, ready: bool, now: int)
      requires Valid()
      modifies this
      ensures Valid()
      ensures var o := Spec.OnSetReady(old(rooms), sid, roomId, ready, now);
        rooms == o.table && log == old(log) + o.events
    {
      if roomId !in rooms {
        return;
      }
      var room := rooms[roomId];
      if sid !in room.players {
        return;
      }
      room := room.(players := room.players[sid := room.players[sid].(ready := ready)]);
      assert room == MarkReady(old(rooms)[roomId], sid, ready);
      rooms := rooms[roomId := room];
      log := log + [Broadcast(room, RoomUpdate(room))];
      ghost var announced := log;

      var count := |room.players|;
      if !room.started && count == Capacity && AllReady(room.players) {
        assert CanStart(room);
        room := room.(started := true, startTime := Some(now + CountdownMs));
        rooms := rooms[roomId := room];
        log := log + [Broadcast(room, StartDuel(room.startTime.value, room.seed))];
        assert log == announced + [Broadcast(room, StartDuel(room.startTime.value, room.seed))];
      } else {
        assert !CanStart(room);
      }
      Props.SetReadyKeepsConsistent(old(rooms), sid, roomId, ready, now);
    }

    /** `hit`: relays the hit; reads the registry and changes nothing in it. */
    method Hit(sid: SocketId, roomId: RoomId, lane: int, timeMs: int)
      modifies this
      ensures rooms == old(rooms)
      ensures log == old(log) + Spec.OnHit(old(rooms), sid, roomId, lane, timeMs).events
    {
      var to: set<SocketId> := {};
      if roomId in rooms {
        to := rooms[roomId].players.Keys - {sid};
      }
      log := log + [Event(to, OpponentHit(lane, timeMs, sid))];
    }

    /** `gameOver`: announces the winner and resets the room for a rematch. */
    method GameOver(roomId: RoomId, winner: string)
      requires Valid()
      modifies this
      ensures Valid()
      ensures var o := Spec.OnGameOver(old(rooms), roomId, winner);
        rooms == o.table && log == old(log) + o.events
    {
      if roomId !in rooms {
        return;
      }
      var room := rooms[roomId];
      log := log + [Broadcast(room, DuelEnded(winner))];
      room := room.(started := false, startTime := None);
      // Object.keys(room.players).forEach(id => room.players[id].ready = false)
      var players := ClearAllReady(room.players);
      room := room.(players := players);
      rooms := rooms[roomId := room];
      log := log + [Broadcast(room, RoomUpdate(room))];
      Props.GameOverKeepsConsistent(old(rooms), roomId, winner);
    }

    /**
     `disconnect`: the socket leaves every room holding it, each such room is
     announced, and a room left empty is deleted. The rooms are visited in an
     unspecified order, so the announcements are stated up to their order.
     */
    method Disconnect(sid: SocketId)
      requires Valid()
      modifies this
      ensures Valid()
      ensures rooms == Spec.OnDisconnect(old(rooms), sid)
      ensures |old(log)| <= |log| && log[..|old(log)|] == old(log)
      ensures multiset(log[|old(log)|..]) == multiset(Spec.DisconnectUpdates(old(rooms), sid))
    {
      // for (const id of Object.keys(rooms))
      var pending := rooms.Keys;
      ghost var visited: set<RoomId> := {};
      ghost var sent: seq<Event> := [];
      while pending != {}
        invariant pending !! visited && pending + visited == old(rooms).Keys
        invariant rooms == Spec.LeaveAmong(old(rooms), sid, visited)
        invariant log == old(log) + sent
        invariant multiset(sent) == multiset(Spec.UpdatesAmong(old(rooms), sid, visited))
        decreases pending
      {
        var id :| id in pending;
        VisitStep(old(rooms), sid, visited, id);
        LeaveRoom(sid, id);
        if sid in old(rooms)[id].players {
          ghost var update := Spec.LeaveUpdate(old(rooms)[id], sid);
          assert log == old(log) + (sent + [update]) by {
            AppendAssociates(old(log), sent, [update]);
          }
          assert multiset(sent + [update]) == multiset(sent) + multiset{update};
          sent := sent + [update];
        }
        MoveOne(pending, visited, id);
        pending := pending - {id};
        visited := visited + {id};
      }
      assert log[|old(log)|..] == sent;
      Props.DisconnectKeepsConsistent(old(rooms), sid);
    }

    /**
     One pass of the `disconnect` scan: if the room holds the socket, the
     socket is removed, the room (without it) is announced to the remaining
     players, and the room is deleted once it has no players.
     */
    method LeaveRoom(sid: SocketId, id: RoomId)
      requires id in rooms
      modifies this
      ensures sid !in old(rooms)[id].players ==> rooms == old(rooms) && log == old(log)
      ensures sid in old(rooms)[id].players ==>
        && log == old(log) + [Spec.LeaveUpdate(old(rooms)[id], sid)]
        && rooms == if Leave(old(rooms)[id], sid).players == map[] then old(rooms) - {id}
                    else old(rooms)[id := Leave(old(rooms)[id], sid)]
    {
      if sid in rooms[id].players {
        var room := rooms[id];
        room := room.(players := room.players - {sid});
        rooms := rooms[id := room];
        log := log + [Broadcast(room, RoomUpdate(room))];
        if |room.players| == 0 {
          rooms := rooms - {id};
        }
      }
    }
  }

  /**
   Moving one key from the rooms still to scan to the rooms scanned. A solver
   hint only: it keeps the `Disconnect` loop within the resource limit.
   */
  lemma MoveOne<T>(pending: set<T>, visited: set<T>, x: T)
    requires x in pending && pending !! visited
    ensures (pending - {x}) !! (visited + {x})
    ensures (pending - {x}) + (visited + {x}) == pending + visited
  {
  }

  /**
   Concatenation is associative. A solver hint only: it keeps the log
   invariant of the `Disconnect` loop within the resource limit.
   */
  lemma AppendAssociates<T>(a: seq<T>, b: seq<T>, c: seq<T>)
    ensures (a + b) + c == a + (b + c)
  {
  }

  /**
   The `forEach` of `gameOver` over the room's player ids: each player's
   `ready` flag is cleared in turn.
   */
  method ClearAllReady(players: map<SocketId, Player>) returns (cleared: map<SocketId, Player>)
    ensures cleared == ClearReady(players)
  {
    cleared := players;
    var pending := players.Keys;
    while pending != {}
      invariant cleared.Keys == players.Keys && pending <= players.Keys
      invariant forall p :: p in cleared ==> cleared[p] == if p in pending then players[p] else players[p].(ready := false)
      decreases pending
    {
      var p :| p in pending;
      cleared := cleared[p := cleared[p].(ready := false)];
      pending := pending - {p};
    }
  }

  /**
   One room of the `disconnect` scan: a room not reached yet is as it was;
   visiting it removes `sid` if the room holds it, deletes the room if that
   leaves it without players, and adds the room's update to those made so far,
   none of which it equals.
   */
  lemma VisitStep(t: Spec.Table, sid: SocketId, visited: set<RoomId>, id: RoomId)
    requires Spec.Consistent(t) && id in t && id !in visited
    ensures id in Spec.LeaveAmong(t, sid, visited) && Spec.LeaveAmong(t, sid, visited)[id] == t[id]
    ensures sid !in t[id].players ==>
      && Spec.LeaveAmong(t, sid, visited + {id}) == Spec.LeaveAmong(t, sid, visited)
      && Spec.UpdatesAmong(t, sid, visited + {id}) == Spec.UpdatesAmong(t, sid, visited)
    ensures sid in t[id].players ==>
      multiset(Spec.UpdatesAmong(t, sid, visited + {id}))
        == multiset(Spec.UpdatesAmong(t, sid, visited)) + multiset{Spec.LeaveUpdate(t[id], sid)}
    ensures sid in t[id].players && Leave(t[id], sid).players == map[] ==>
      Spec.LeaveAmong(t, sid, visited + {id}) == Spec.LeaveAmong(t, sid, visited) - {id}
    ensures sid in t[id].players && Leave(t[id], sid).players != map[] ==>
      Spec.LeaveAmong(t, sid, visited + {id}) == Spec.LeaveAmong(t, sid, visited)[id := Leave(t[id], sid)]
  {
    if sid !in t[id].players {
      VisitSkips(t, sid, visited, id);
    } else {
      VisitAdds(t, sid, visited, id);
      if Leave(t[id], sid).players == map[] {
        VisitDeletes(t, sid, visited, id);
      } else {
        VisitRemoves(t, sid, visited, id);
      }
    }
  }

  /** The scan passes over a room that does not hold `sid`, emitting nothing for it. */
  lemma VisitSkips(t: Spec.Table, sid: SocketId, visited: set<RoomId>, id: RoomId)
    requires id in t && sid !in t[id].players
    ensures Spec.LeaveAmong(t, sid, visited + {id}) == Spec.LeaveAmong(t, sid, visited)
    ensures Spec.UpdatesAmong(t, sid, visited + {id}) == Spec.UpdatesAmong(t, sid, visited)
  {
  }

  /** The scan deletes a room that `sid` leaves empty. */
  lemma VisitDeletes(t: Spec.Table, sid: SocketId, visited: set<RoomId>, id: RoomId)
    requires id in t && sid in t[id].players && Leave(t[id], sid).players == map[]
    ensures Spec.LeaveAmong(t, sid, visited + {id}) == Spec.LeaveAmong(t, sid, visited) - {id}
  {
  }

  /** The scan removes `sid` from a room that keeps other players. */
  lemma VisitRemoves(t: Spec.Table, sid: SocketId, visited: set<RoomId>, id: RoomId)
    requires id in t && sid in t[id].players && Leave(t[id], sid).players != map[]
    ensures Spec.LeaveAmong(t, sid, visited + {id}) == Spec.LeaveAmong(t, sid, visited)[id := Leave(t[id], sid)]
  {
  }

  /**
   Visiting one more room of the `disconnect` scan adds that room's update,
   if it holds `sid`, and that update is none of the earlier ones.
   */
  lemma VisitAdds(t: Spec.Table, sid: SocketId, visited: set<RoomId>, id: RoomId)
    requires Spec.Consistent(t) && id in t && id !in visited && sid in t[id].players
    ensures multiset(Spec.UpdatesAmong(t, sid, visited + {id}))
         == multiset(Spec.UpdatesAmong(t, sid, visited)) + multiset{Spec.LeaveUpdate(t[id], sid)}
  {
    var ev := Spec.LeaveUpdate(t[id], sid);
    assert ev !in Spec.UpdatesAmong(t, sid, visited);
    assert Spec.UpdatesAmong(t, sid, visited + {id}) == Spec.UpdatesAmong(t, sid, visited) + {ev};
  }
}
