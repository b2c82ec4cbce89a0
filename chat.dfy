/** The realtime session state of the chat server (server/server.js) and
    its socket event handlers.  Each handler runs to completion on the event
    loop, so each is one atomic step here; what it emits is returned as a
    list of deliveries instead of being sent.

    socket.io's own behaviour enters as these rules:
    - every connected socket is a member of the room named by its own id
      (socket.io joins it there before the `connection` event);
    - `socket.join(r)` adds the socket to room `r`;
    - `io.to(r)` reaches every member of `r`, `socket.to(r)` every member
      but the socket itself, `io.emit` every connected socket;
    - a disconnecting socket leaves every room, and is no longer connected
      when its `disconnect` handler runs. */
module Chat {

  import opened Common
  import Handshake

  type UserId = string
  type SocketId = string
  type Room = string

  /** A value of `onlineUsers`. */
  datatype Presence = Presence(socketId: SocketId, username: string)

  /** The record `send-message` broadcasts.  `id` stands for
      `Date.now() + Math.random()` and `timestamp` for `new Date()`; both
      are supplied by the caller. */
  datatype Message = Message(id: real, sender: string, message: string, kind: string,
                             file: Option<string>, timestamp: int)

  /** The server-to-client events, named after the wire events
      `user-online`, `user-offline`, `notification`, `receive-message`,
      `typing` and `private-message`. */
  datatype Event =
    | UserOnline(userId: UserId, username: string)
    | UserOffline(userId: UserId)
    | Notification(text: string)
    | ReceiveMessage(msg: Message)
    | TypingChanged(username: string, isTyping: bool)
    | PrivateMessage(from: string, message: string, timestamp: int)

  /** One `emit`: the sockets it reaches and the event. */
  datatype Delivery = Delivery(to: set<SocketId>, event: Event)

  /** No key occurs twice. */
  ghost predicate NoDup(s: seq<UserId>) {
    forall i, j :: 0 <= i < j < |s| ==> s[i] != s[j]
  }

  /** The iteration order of a JavaScript `Map` after `delete(k)`. */
  function Without(s: seq<UserId>, k: UserId): (r: seq<UserId>)
    ensures forall x :: x in r <==> x in s && x != k
    ensures NoDup(s) ==> NoDup(r)
    ensures |r| <= |s|
    ensures k !in s ==> r == s
    ensures NoDup(s) && k in s ==> exists i :: 0 <= i < |s| && s[i] == k && r == s[..i] + s[i + 1..]
  {
    if s == [] then []
    else if s[0] == k then
      assert NoDup(s) ==> k !in s[1..];
      assert s[..0] + s[1..] == s[1..];
      Without(s[1..], k)
    else
      assert NoDup(s) ==> NoDup(s[1..]) && s[0] !in s[1..];
      assert k in s ==> k in s[1..];
      var t := Without(s[1..], k);
      RemovedBehindHead(s, k, t);
      [s[0]] + t
  }

  /** Removing `k` from the tail of `s` is removing it from `s`, when the
      head is not `k`. */
  lemma RemovedBehindHead(s: seq<UserId>, k: UserId, t: seq<UserId>)
    requires s != [] && s[0] != k
    ensures (exists i :: 0 <= i < |s| - 1 && s[1..][i] == k && t == s[1..][..i] + s[1..][i + 1..]) ==>
      exists i :: 0 <= i < |s| && s[i] == k && [s[0]] + t == s[..i] + s[i + 1..]
  {
    if exists i :: 0 <= i < |s| - 1 && s[1..][i] == k && t == s[1..][..i] + s[1..][i + 1..] {
      var i :| 0 <= i < |s| - 1 && s[1..][i] == k && t == s[1..][..i] + s[1..][i + 1..];
      assert s[i + 1] == k;
      assert [s[0]] + t == s[..i + 1] + s[i + 2..];
    }
  }

  /** The first key, in iteration order, whose entry carries `username`:
      what `Array.from(m.values()).find(u => u.username === to)` selects. */
  function FirstNamed(keys: seq<UserId>, users: map<UserId, Presence>, to: string): (r: Option<UserId>)
    requires forall k :: k in keys ==> k in users
    ensures r.None? <==> forall i :: 0 <= i < |keys| ==> users[keys[i]].username != to
    ensures r.Some? ==> exists i :: 0 <= i < |keys| && keys[i] == r.value && users[r.value].username == to
                                    && forall j :: 0 <= j < i ==> users[keys[j]].username != to
  {
    if keys == [] then None
    else if users[keys[0]].username == to then Some(keys[0])
    else
      assert forall i :: 0 <= i < |keys| - 1 ==> keys[1..][i] == keys[i + 1];
      FirstNamed(keys[1..], users, to)
  }

  class ChatServer {
    /** `onlineUsers`: user id to the socket and name it was last registered with. */
    var online: map<UserId, Presence>
    /** The iteration order of `onlineUsers` (the order its keys were first set). */
    var order: seq<UserId>
    /** `typingUsers` */
    var typing: set<string>
    /** socket.io's room table. */
    var rooms: map<Room, set<SocketId>>
    /** The connected sockets and the identity (`socket.user`) of each. */
    var sockets: map<SocketId, Claims>

    ghost predicate Valid()
      reads this
    {
      && NoDup(order)
      && (forall u :: u in online <==> u in order)
      // an entry always names a live socket of that very user
      && (forall u :: u in online ==>
            online[u].socketId in sockets && sockets[online[u].socketId] == Claims(u, online[u].username))
      // rooms hold live sockets only
      && (forall r :: r in rooms ==> rooms[r] <= sockets.Keys)
      // every socket is in the room named by its id
      && (forall s :: s in sockets ==> s in rooms && s in rooms[s])
    }

    constructor ()
      ensures Valid()
      ensures online == map[] && order == [] && typing == {} && rooms == map[] && sockets == map[]
    {
      online, order, typing, rooms, sockets := map[], [], {}, map[], map[];
    }

    /** The sockets in room `r`. */
    function Members(r: Room): set<SocketId>
      reads this
    {
      if r in rooms then rooms[r] else {}
    }

    /** The online user a `private-message` to `to` goes to. */
    function Recipient(to: string): (r: Option<UserId>)
      reads this
      requires Valid()
      ensures r.None? <==> forall u :: u in online ==> online[u].username != to
      ensures r.Some? ==> r.value in online && online[r.value].username == to
    {
      FirstNamed(order, online, to)
    }

    /** The handshake middleware followed by the `connection` handler: a
        refused connection changes nothing and is answered with the message
        of the middleware's error. */
    method Accept(sid: SocketId, token: Option<string>, decode: string -> Option<Claims>)
      returns (r: Result<seq<Delivery>, string>)
      requires Valid() && sid !in sockets
      modifies this
      ensures Valid()
      ensures r.Failure? <==> Handshake.Authenticate(token, decode).Failure?
      ensures r.Failure? ==>
        && r.error == Handshake.ErrorMessage(Handshake.Authenticate(token, decode).error)
        && unchanged(this)
      ensures r.Success? ==>
        var user := Handshake.Authenticate(token, decode).value;
        && sockets == old(sockets)[sid := user]
        && online == old(online)[user.id := Presence(sid, user.username)]
        && order == (if user.id in old(online) then old(order) else old(order) + [user.id])
        && rooms == old(rooms)[sid := old(Members(sid)) + {sid}]
        && typing == old(typing)
        && r.value == [Delivery(sockets.Keys, UserOnline(user.id, user.username))]
    {
      var auth := Handshake.Authenticate(token, decode);
      match auth
      case Failure(e) =>
        r := Failure(Handshake.ErrorMessage(e));
      case Success(user) =>
        var out := Connect(sid, user);
        r := Success(out);
    }

    /** `io.on("connection")`: registers the user under its id, replacing
        any earlier entry for that id, and announces it to every socket. */
    method Connect(sid: SocketId, user: Claims) returns (out: seq<Delivery>)
      requires Valid() && sid !in sockets
      modifies this
      ensures Valid()
      ensures sockets == old(sockets)[sid := user]
      ensures online == old(online)[user.id := Presence(sid, user.username)]
      ensures order == if user.id in old(online) then old(order) else old(order) + [user.id]
      ensures rooms == old(rooms)[sid := old(Members(sid)) + {sid}]
      ensures typing == old(typing)
      ensures out == [Delivery(sockets.Keys, UserOnline(user.id, user.username))]
    {
      sockets := sockets[sid := user];
      rooms := rooms[sid := Members(sid) + {sid}];
      if user.id !in online {
        order := order + [user.id];
      }
      online := online[user.id := Presence(sid, user.username)];
      out := [Delivery(sockets.Keys, UserOnline(user.id, user.username))];
    }

    /** `join-room`: joins the room, leaves no other, and tells the room's
        other members. */
    method JoinRoom(sid: SocketId, room: Room) returns (out: seq<Delivery>)
      requires Valid() && sid in sockets
      modifies this`rooms
      ensures Valid()
      ensures rooms == old(rooms)[room := old(Members(room)) + {sid}]
      ensures sid in Members(room)
      ensures forall r :: r != room ==> Members(r) == old(Members(r))
      ensures online == old(online) && order == old(order) && typing == old(typing) && sockets == old(sockets)
      ensures out == [Delivery(Members(room) - {sid}, Notification(sockets[sid].username + " joined " + room))]
    {
      rooms := rooms[room := Members(room) + {sid}];
      out := [Delivery(Members(room) - {sid}, Notification(sockets[sid].username + " joined " + room))];
    }

    /** `send-message`: one `receive-message` to every member of the room,
        the sender included when it is a member; a socket outside the room
        may publish too.  The state does not change. */
    method SendMessage(sid: SocketId, room: Room, message: string, kind: Option<string>,
                       file: Option<string>, id: real, now: int) returns (out: seq<Delivery>)
      requires Valid() && sid in sockets
      ensures |out| == 1 && out[0].to == Members(room)
      ensures out[0].event.ReceiveMessage?
      ensures var m := out[0].event.msg;
        && m.sender == sockets[sid].username && m.message == message && m.file == file
        && m.kind == (if kind.None? then "text" else kind.value)
        && m.id == id && m.timestamp == now
    {
      var msg := Message(id, sockets[sid].username, message, if kind.Some? then kind.value else "text", file, now);
      out := [Delivery(Members(room), ReceiveMessage(msg))];
    }

    /** `typing`: records or clears the user in the one global set and tells
        the room's other members. */
    method Typing(sid: SocketId, room: Room, isTyping: bool) returns (out: seq<Delivery>)
      requires Valid() && sid in sockets
      modifies this`typing
      ensures Valid()
      ensures online == old(online) && order == old(order) && rooms == old(rooms) && sockets == old(sockets)
      ensures typing == if isTyping then old(typing) + {sockets[sid].username}
                        else old(typing) - {sockets[sid].username}
      ensures out == [Delivery(Members(room) - {sid}, TypingChanged(sockets[sid].username, isTyping))]
    {
      var name := sockets[sid].username;
      if isTyping {
        typing := typing + {name};
      } else {
        typing := typing - {name};
      }
      out := [Delivery(Members(room) - {sid}, TypingChanged(name, isTyping))];
    }

    /** The lookup of `private-message`: the first online entry, in
        `onlineUsers` order, whose username is `to`. */
    method FindRecipient(to: string) returns (p: Option<Presence>)
      requires Valid()
      ensures p.None? <==> Recipient(to).None?
      ensures p.Some? ==> p.value == online[Recipient(to).value]
    {
      var i := 0;
      while i < |order|
        invariant 0 <= i <= |order|
        invariant FirstNamed(order[i..], online, to) == FirstNamed(order, online, to)
      {
        var u := order[i];
        if online[u].username == to {
          return Some(online[u]);
        }
        assert order[i..][1..] == order[i + 1..];
        i := i + 1;
      }
      return None;
    }

    /** `private-message`: one event towards the recipient's socket when a
        user by that name is online, nothing otherwise.  It goes through
        `socket.to`, which leaves out the sender's own socket.  The state
        does not change. */
    method SendPrivate(sid: SocketId, to: string, message: string, now: int) returns (out: seq<Delivery>)
      requires Valid() && sid in sockets
      ensures out == [] <==> forall u :: u in online ==> online[u].username != to
      ensures out != [] ==>
        var target := online[Recipient(to).value].socketId;
        && out == [Delivery(Members(target) - {sid}, PrivateMessage(sockets[sid].username, message, now))]
        && (target != sid ==> target in out[0].to)
    {
      var recipient := FindRecipient(to);
      if recipient.Some? {
        out := [Delivery(Members(recipient.value.socketId) - {sid},
                         PrivateMessage(sockets[sid].username, message, now))];
      } else {
        out := [];
      }
    }

    /** `disconnect`: the socket has left every room and is gone; the
        `onlineUsers` entry under its user's id is deleted, whichever socket
        it names, and every remaining socket is told.  `typingUsers` is left
        as it was. */
    method Disconnect(sid: SocketId) returns (out: seq<Delivery>)
      requires Valid() && sid in sockets
      modifies this
      ensures Valid()
      ensures sockets == old(sockets) - {sid}
      ensures online == old(online) - {old(sockets)[sid].id}
      ensures order == Without(old(order), old(sockets)[sid].id)
      ensures rooms == map r | r in old(rooms) :: old(rooms)[r] - {sid}
      ensures forall r :: sid !in Members(r)
      ensures typing == old(typing)
      ensures out == [Delivery(sockets.Keys, UserOffline(old(sockets)[sid].id))]
    {
      var user := sockets[sid];
      rooms := map r | r in rooms :: rooms[r] - {sid};
      sockets := sockets - {sid};
      online := online - {user.id};
      order := Without(order, user.id);
      out := [Delivery(sockets.Keys, UserOffline(user.id))];
    }
  }
}
