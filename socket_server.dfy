/** The parts of the socket.io server the core relies on: the table of live
    sockets with the fields the code adds to them, room membership, event
    emission, and the connect and disconnect steps of realtime/socket.server.ts. */
module SocketIo {
  import opened Domain
  import Connections

  /** The room `session:<id>`. */
  datatype Room = SessionRoom(session: SessionId)

  /** A live socket: the `userId` and `sessionId` fields of an AuthedSocket and the rooms it joined. */
  datatype SocketCtx = SocketCtx(userId: UserId, sessionId: Option<SessionId>, rooms: set<Room>)

  /** The payloads of the events the core emits. */
  datatype Event =
    | UserJoined(session: SessionId, user: UserId, role: Role, timestamp: Time)
    | UserOnline(user: UserId, session: SessionId, timestamp: Time)
    | UserOffline(user: UserId, timestamp: Time)
    | LocationUpdate(user: UserId, lat: Coordinate, lng: Coordinate, accuracy: Coordinate, timestamp: Time)

  /** `io.emit` (every socket) or `io.to(room).emit`. */
  datatype Target = Everyone | ToRoom(room: Room)

  datatype Emission = Emission(target: Target, event: Event)

  /** A socket after `socket.join(session:<sid>)` and `socket.sessionId = sid`. */
  function Joined(ctx: SocketCtx, sid: SessionId): (c: SocketCtx)
    ensures c.userId == ctx.userId && c.sessionId == Some(sid)
    ensures c.rooms == ctx.rooms + {SessionRoom(sid)}
  {
    ctx.(sessionId := Some(sid), rooms := ctx.rooms + {SessionRoom(sid)})
  }

  /** True iff socket `id` is live and its `sessionId` field is `sid`. */
  predicate TaggedWith(sockets: map<SocketId, SocketCtx>, id: SocketId, sid: SessionId)
  {
    id in sockets && sockets[id].sessionId == Some(sid)
  }

  class SocketServer {
    /** `io.sockets.sockets`: the live sockets by id. */
    var sockets: map<SocketId, SocketCtx>
    /** Every event emitted so far, in order. */
    ghost var emitted: seq<Emission>

    constructor ()
      ensures sockets == map[] && emitted == []
    {
      sockets := map[];
      emitted := [];
    }

    /** A new connection: its session tag starts undefined and the registry records it. */
    method Connect(id: SocketId, u: UserId, manager: Connections.ConnectionManager)
      requires manager.Valid()
      modifies this, manager
      ensures manager.Valid()
      ensures sockets == old(sockets)[id := SocketCtx(u, None, {})]
      ensures manager.userSockets == Connections.Added(old(manager.userSockets), u, id)
      ensures emitted == old(emitted)
    {
      sockets := sockets[id := SocketCtx(u, None, {})];
      manager.Add(u, id);
    }

    /** A disconnect: the registry drops the id and socket.io drops the socket. */
    method Disconnect(id: SocketId, manager: Connections.ConnectionManager)
      requires manager.Valid()
      requires id in sockets
      modifies this, manager
      ensures manager.Valid()
      ensures manager.userSockets == Connections.Removed(old(manager.userSockets), old(sockets[id].userId), id)
      ensures sockets == old(sockets) - {id}
      ensures emitted == old(emitted)
    {
      manager.Remove(sockets[id].userId, id);
      sockets := sockets - {id};
    }

    /** `socket.join(room); socket.sessionId = sid` on a live socket. */
    method JoinAndTag(id: SocketId, sid: SessionId)
      requires id in sockets
      modifies this
      ensures sockets == old(sockets)[id := Joined(old(sockets[id]), sid)]
      ensures emitted == old(emitted)
    {
      sockets := sockets[id := Joined(sockets[id], sid)];
    }

    method Emit(target: Target, event: Event)
      modifies this
      ensures emitted == old(emitted) + [Emission(target, event)]
      ensures sockets == old(sockets)
    {
      emitted := emitted + [Emission(target, event)];
    }
  }
}
