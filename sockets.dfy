/** The real-time server's room registry: `clientRooms`, a map from socket id
    to the set of rooms that socket joined, changed only by the `join`,
    `leave` and `disconnect` handlers; and the emissions the server makes,
    recorded as values together with the sockets they reach. */
module Sockets {
  import opened Schema

  type SocketId = string
  type Room = string
  type Registry = map<SocketId, set<Room>>

  /** `io.to(room).emit(event, payload)` or `io.emit(event, payload)`. */
  datatype Emission<P> = ToRoom(room: Room, event: string, payload: P) | ToAll(event: string, payload: P)

  /** The acknowledgement `socket.emit("room_joined", room)` sent back to the joining socket. */
  datatype Ack = RoomJoined(room: Room)

  /** The rooms a socket is tracked in; none for an untracked socket. */
  function RoomsOf(m: Registry, s: SocketId): set<Room>
  {
    if s in m then m[s] else {}
  }

  /** A room argument that passes the `!room` guard. `None` stands for an
      absent or `null` argument; the empty name is falsy too. */
  predicate Joinable(room: Option<Room>)
  {
    room.Some? && room.value != ""
  }

  /** The registry after a successful `join`: the set is created when absent, then the room added. */
  function Joined(m: Registry, s: SocketId, room: Room): Registry
  {
    m[s := RoomsOf(m, s) + {room}]
  }

  /** The registry after `leave`: only a tracked socket's set changes. */
  function Left(m: Registry, s: SocketId, room: Option<Room>): Registry
  {
    if s in m then m[s := m[s] - (if room.Some? then {room.value} else {})] else m
  }

  /** The registry after `disconnect`: the socket's whole entry is gone. */
  function Disconnected(m: Registry, s: SocketId): Registry
  {
    m - {s}
  }

  class RoomRegistry {
    var clientRooms: Registry

    constructor ()
      ensures clientRooms == map[]
    {
      clientRooms := map[];
    }

    /** The `join` handler: ignored for a falsy room, otherwise tracked and acknowledged. */
    method Join(socket: SocketId, room: Option<Room>) returns (ack: Option<Ack>)
      modifies this
      ensures !Joinable(room) ==> clientRooms == old(clientRooms) && ack == None
      ensures Joinable(room) ==>
        clientRooms == Joined(old(clientRooms), socket, room.value) && ack == Some(RoomJoined(room.value))
    {
      if !Joinable(room) {
        return None;
      }
      if socket !in clientRooms {
        clientRooms := clientRooms[socket := {}];
      }
      clientRooms := clientRooms[socket := clientRooms[socket] + {room.value}];
      ack := Some(RoomJoined(room.value));
    }

    /** The `leave` handler. */
    method Leave(socket: SocketId, room: Option<Room>)
      modifies this
      ensures clientRooms == Left(old(clientRooms), socket, room)
    {
      if socket in clientRooms {
        var gone := if room.Some? then {room.value} else {};
        clientRooms := clientRooms[socket := clientRooms[socket] - gone];
      }
    }

    /** The `disconnect` handler. */
    method Disconnect(socket: SocketId)
      modifies this
      ensures clientRooms == Disconnected(old(clientRooms), socket)
    {
      clientRooms := clientRooms - {socket};
    }
  }

  /** `emitWebhookEvent(room, event, data)`. */
  function EmitWebhookEvent<P>(room: Room, event: string, data: P): (e: Emission<P>)
    ensures e.ToRoom? && e.room == room && e.event == event && e.payload == data
  {
    ToRoom(room, event, data)
  }

  /** The connected sockets an emission reaches, room membership being what the registry tracks. */
  function Recipients<P>(m: Registry, connected: set<SocketId>, e: Emission<P>): set<SocketId>
  {
    match e
    case ToRoom(room, _, _) => set s | s in connected && s in m && room in m[s]
    case ToAll(_, _) => connected
  }

  /** The events socket `s` receives from a sequence of emissions, in order. */
  function Deliveries<P>(m: Registry, connected: set<SocketId>, es: seq<Emission<P>>, s: SocketId): (r: seq<(string, P)>)
    ensures |r| <= |es|
  {
    if es == [] then []
    else
      (if s in Recipients(m, connected, es[0]) then [(es[0].event, es[0].payload)] else [])
      + Deliveries(m, connected, es[1..], s)
  }

  /** Joining adds exactly that room to that socket and leaves every other socket alone;
      joining the same room again changes nothing. */
  lemma JoinedEffect(m: Registry, s: SocketId, room: Room)
    ensures RoomsOf(Joined(m, s, room), s) == RoomsOf(m, s) + {room}
    ensures forall t :: t != s ==> RoomsOf(Joined(m, s, room), t) == RoomsOf(m, t)
    ensures Joined(Joined(m, s, room), s, room) == Joined(m, s, room)
  {
  }

  /** Leaving removes only that room, touches no other socket, and creates no entry. */
  lemma LeftEffect(m: Registry, s: SocketId, room: Option<Room>)
    ensures room.Some? ==> RoomsOf(Left(m, s, room), s) == RoomsOf(m, s) - {room.value}
    ensures room.None? ==> Left(m, s, room) == m
    ensures s !in m ==> Left(m, s, room) == m
    ensures Left(m, s, room).Keys == m.Keys
    ensures forall t :: t != s ==> RoomsOf(Left(m, s, room), t) == RoomsOf(m, t)
  {
    if room.None? && s in m {
      assert m[s] - {} == m[s];
    }
  }

  /** Disconnecting drops the socket's entry and no other. */
  lemma DisconnectedEffect(m: Registry, s: SocketId)
    ensures s !in Disconnected(m, s) && RoomsOf(Disconnected(m, s), s) == {}
    ensures Disconnected(m, s).Keys == m.Keys - {s}
    ensures forall t :: t != s && t in m ==> Disconnected(m, s)[t] == m[t]
  {
  }

  /** `emitWebhookEvent` reaches exactly the connected sockets tracked in the named room. */
  lemma EmitOnlyToRoom<P>(m: Registry, connected: set<SocketId>, room: Room, event: string, data: P, s: SocketId)
    ensures s in Recipients(m, connected, EmitWebhookEvent(room, event, data)) <==> s in connected && room in RoomsOf(m, s)
  {
  }

  /** A connected socket that joined a room receives what is emitted to it
      until it leaves that room or disconnects. */
  lemma MembershipLifecycle<P>(m: Registry, connected: set<SocketId>, s: SocketId, room: Room, event: string, data: P)
    requires s in connected
    ensures s in Recipients(Joined(m, s, room), connected, ToRoom(room, event, data))
    ensures s !in Recipients(Left(Joined(m, s, room), s, Some(room)), connected, ToRoom(room, event, data))
    ensures s !in Recipients(Disconnected(m, s), connected, ToRoom(room, event, data))
  {
  }
}
