/** The socket relay of the server: the presence map `onlineUsers` (user id
    to socket id) and the per-socket event handlers. Rooms are sets of socket
    ids keyed by room name (a conversation id, or a user id for the personal
    room). `socket.to(room)` hands an event to every member of the room except
    the emitting socket; a handler that broadcasts returns the deliveries it
    causes. */
module Relay {
  import opened Wire

  type Rooms = map<Id, set<SocketId>>

  /** The members of a room; a room nobody has joined has none. */
  function Members(rooms: Rooms, room: Id): set<SocketId> {
    if room in rooms then rooms[room] else {}
  }

  /** Rooms exist only while they have members, as in the socket.io adapter. */
  predicate NoEmptyRooms(rooms: Rooms) {
    forall room :: room in rooms ==> rooms[room] != {}
  }

  /** `socket.join(room)`. */
  function Joined(rooms: Rooms, room: Id, s: SocketId): (r: Rooms)
    ensures Members(r, room) == Members(rooms, room) + {s}
    ensures forall other :: other != room ==> Members(r, other) == Members(rooms, other)
    ensures NoEmptyRooms(rooms) ==> NoEmptyRooms(r)
  {
    rooms[room := Members(rooms, room) + {s}]
  }

  /** `socket.leave(room)`: a room left empty disappears. */
  function Left(rooms: Rooms, room: Id, s: SocketId): (r: Rooms)
    ensures Members(r, room) == Members(rooms, room) - {s}
    ensures forall other :: other != room ==> Members(r, other) == Members(rooms, other)
    ensures NoEmptyRooms(rooms) ==> NoEmptyRooms(r)
  {
    if s !in Members(rooms, room) then rooms
    else if Members(rooms, room) == {s} then rooms - {room}
    else rooms[room := rooms[room] - {s}]
  }

  /** `socket.to(room).emit(event)` from socket `sender`. */
  function Fanout(rooms: Rooms, room: Id, sender: SocketId, event: Event): (out: set<Delivery>)
    ensures forall d :: d in out <==> d.recipient in Members(rooms, room) && d.recipient != sender && d.event == event
  {
    set s | s in Members(rooms, room) && s != sender :: Delivery(s, event)
  }

  /** `onlineUsers` after the disconnect of socket `s`: every entry whose value is `s` goes. */
  function Unregistered(users: map<Id, SocketId>, s: SocketId): map<Id, SocketId> {
    map u | u in users && users[u] != s :: users[u]
  }

  /** Joining twice is joining once. */
  lemma JoinIsIdempotent(rooms: Rooms, room: Id, s: SocketId)
    ensures Joined(Joined(rooms, room, s), room, s) == Joined(rooms, room, s)
  {
    assert Members(Joined(rooms, room, s), room) + {s} == Members(Joined(rooms, room, s), room);
  }

  /** Leaving twice is leaving once, and leaving a room one is not in changes nothing. */
  lemma LeaveIsIdempotent(rooms: Rooms, room: Id, s: SocketId)
    ensures Left(Left(rooms, room, s), room, s) == Left(rooms, room, s)
    ensures s !in Members(rooms, room) ==> Left(rooms, room, s) == rooms
  {
  }

  /** Leaving after joining restores the rooms when the socket was not a member before. */
  lemma LeaveUndoesJoin(rooms: Rooms, room: Id, s: SocketId)
    requires NoEmptyRooms(rooms)
    requires s !in Members(rooms, room)
    ensures Left(Joined(rooms, room, s), room, s) == rooms
  {
    var j := Joined(rooms, room, s);
    var l := Left(j, room, s);
    assert l.Keys == rooms.Keys;
    forall r | r in rooms ensures l[r] == rooms[r] {
      assert Members(l, r) == Members(rooms, r);
    }
  }

  /** A socket that has left a room receives nothing more from it. */
  lemma NoDeliveryAfterLeave(rooms: Rooms, room: Id, s: SocketId, sender: SocketId, event: Event)
    ensures forall d :: d in Fanout(Left(rooms, room, s), room, sender, event) ==> d.recipient != s
  {
  }

  /** After the disconnect of `s` no user maps to `s`, and every entry naming
      another socket survives unchanged; in particular an entry already
      overwritten by a reconnect survives the old socket's disconnect. */
  lemma DisconnectRemovesExactlyItsEntries(users: map<Id, SocketId>, s: SocketId)
    ensures forall u :: u in Unregistered(users, s) ==> Unregistered(users, s)[u] != s
    ensures forall u :: u in users && users[u] != s ==> u in Unregistered(users, s) && Unregistered(users, s)[u] == users[u]
    ensures forall u :: u in users && users[u] == s ==> u !in Unregistered(users, s)
  {
  }

  /** A user who reconnects on a new socket stays online when the old socket closes. */
  lemma ReconnectSurvivesStaleDisconnect(users: map<Id, SocketId>, user: Id, stale: SocketId, current: SocketId)
    requires stale != current
    ensures var after := Unregistered(users[user := stale][user := current], stale);
      user in after && after[user] == current
  {
  }

  class Server {
    var onlineUsers: map<Id, SocketId>
    var rooms: Rooms

    ghost predicate Valid()
      reads this
    {
      NoEmptyRooms(rooms)
    }

    constructor ()
      ensures Valid() && onlineUsers == map[] && rooms == map[]
    {
      onlineUsers := map[];
      rooms := map[];
    }

    /** 'setup' from socket `s`: `userId` now maps to `s` (overwriting any
        earlier socket), `s` joins the personal room named `userId`, and
        'connected' goes to `s` alone. */
    method Setup(s: SocketId, userId: Id) returns (out: set<Delivery>)
      requires Valid()
      modifies this
      ensures Valid()
      ensures onlineUsers == old(onlineUsers)[userId := s]
      ensures rooms == Joined(old(rooms), userId, s)
      ensures out == {Delivery(s, Connected)}
    {
      onlineUsers := onlineUsers[userId := s];
      rooms := Joined(rooms, userId, s);
      out := {Delivery(s, Connected)};
    }

    /** 'join conversation': `s` becomes a member of the room. */
    method JoinConversation(s: SocketId, conversationId: Id)
      requires Valid()
      modifies this
      ensures Valid()
      ensures rooms == Joined(old(rooms), conversationId, s)
      ensures onlineUsers == old(onlineUsers)
    {
      rooms := Joined(rooms, conversationId, s);
    }

    /** 'leave conversation': `s` stops being a member of the room. */
    method LeaveConversation(s: SocketId, conversationId: Id)
      requires Valid()
      modifies this
      ensures Valid()
      ensures rooms == Left(old(rooms), conversationId, s)
      ensures onlineUsers == old(onlineUsers)
    {
      rooms := Left(rooms, conversationId, s);
    }

    /** 'new message' from `s`: the payload goes unchanged, as 'message
        received', to every member of its conversation's room except `s`, and
        to no one else; `s` need not be a member. */
    method NewMessage(s: SocketId, data: Message) returns (out: set<Delivery>)
      ensures forall d :: d in out <==>
        d.recipient in Members(rooms, data.conversationId) && d.recipient != s &&
        d.event == MessageReceived(data)
    {
      out := Fanout(rooms, data.conversationId, s, MessageReceived(data));
    }

    /** 'typing' from `s`: only the conversation id and the sender name are
        forwarded, to the other members of the room. */
    method Typing(s: SocketId, conversationId: Id, senderName: string) returns (out: set<Delivery>)
      ensures forall d :: d in out <==>
        d.recipient in Members(rooms, conversationId) && d.recipient != s &&
        d.event == Event.Typing(conversationId, senderName)
    {
      out := Fanout(rooms, conversationId, s, Event.Typing(conversationId, senderName));
    }

    /** 'stop typing' from `s`: only the conversation id is forwarded, to the
        other members of the room. */
    method StopTyping(s: SocketId, conversationId: Id) returns (out: set<Delivery>)
      ensures forall d :: d in out <==>
        d.recipient in Members(rooms, conversationId) && d.recipient != s &&
        d.event == Event.StopTyping(conversationId)
    {
      out := Fanout(rooms, conversationId, s, Event.StopTyping(conversationId));
    }

    /** 'disconnect' of `s`: the `forEach` over `onlineUsers` deletes every
        entry whose value is `s` and keeps all others. */
    method Disconnect(s: SocketId)
      requires Valid()
      modifies this
      ensures Valid()
      ensures onlineUsers == Unregistered(old(onlineUsers), s)
      ensures forall u :: u in onlineUsers ==> onlineUsers[u] != s
      ensures rooms == old(rooms)
    {
      var pending := onlineUsers.Keys;
      while pending != {}
        invariant pending <= old(onlineUsers).Keys
        invariant rooms == old(rooms)
        invariant onlineUsers ==
          map u | u in old(onlineUsers) && (u in pending || old(onlineUsers)[u] != s) :: old(onlineUsers)[u]
        decreases pending
      {
        var u :| u in pending;
        if onlineUsers[u] == s {
          onlineUsers := onlineUsers - {u};
        }
        pending := pending - {u};
      }
    }
  }
}
