/** Short runs of the chat server's handlers that show, from their
    contracts alone, how the handlers combine. */
module Scenarios {

  import opened Common
  import opened Chat

  /** Connecting twice under one user id leaves a single `onlineUsers`
      entry, naming the newer socket.  When the older socket then
      disconnects, the entry is deleted although the newer socket is still
      connected. */
  method Reconnect(first: SocketId, second: SocketId, user: Claims)
    returns (entries: nat, holder: SocketId, listedAfter: bool, secondLive: bool)
    requires first != second
    ensures entries == 1 && holder == second
    ensures secondLive && !listedAfter
  {
    var server := new ChatServer();
    var announced := server.Connect(first, user);
    announced := server.Connect(second, user);
    entries, holder := |server.order|, server.online[user.id].socketId;
    var farewell := server.Disconnect(first);
    listedAfter, secondLive := user.id in server.online, second in server.sockets;
  }

  /** The client switches rooms by joining the new one; the server never
      removes it from the old one, so messages sent to the old room still
      reach it. */
  method RoomSwitch(switcher: SocketId, other: SocketId, alice: Claims, bob: Claims,
                    oldRoom: Room, newRoom: Room, text: string)
    returns (reached: set<SocketId>)
    requires switcher != other
    ensures switcher in reached && other in reached
  {
    var server := new ChatServer();
    var out := server.Connect(switcher, alice);
    out := server.Connect(other, bob);
    out := server.JoinRoom(switcher, oldRoom);
    out := server.JoinRoom(other, oldRoom);
    out := server.JoinRoom(switcher, newRoom);
    out := server.SendMessage(other, oldRoom, text, None, None, 0.0, 0);
    reached := out[0].to;
  }

  /** A private message addressed to one's own username, sent from the
      socket that the user's `onlineUsers` entry names (here its only
      connection), is routed through `socket.to(ownSocketId)`, which leaves
      out the sender: it reaches nobody. */
  method MessageToSelf(sid: SocketId, alice: Claims, text: string) returns (out: seq<Delivery>)
    ensures |out| == 1 && out[0].to == {}
  {
    var server := new ChatServer();
    var announced := server.Connect(sid, alice);
    assert server.Members(sid) == {sid};
    out := server.SendPrivate(sid, alice.username, text, 0);
  }

  /** A user who disconnects while marked as typing stays in `typingUsers`;
      no `typing` event is sent on disconnect. */
  method TypingAfterDisconnect(typist: SocketId, watcher: SocketId, bob: Claims, alice: Claims, room: Room)
    returns (stillTyping: bool, lastEvent: Event)
    requires typist != watcher
    ensures stillTyping && lastEvent == UserOffline(bob.id)
  {
    var server := new ChatServer();
    var out := server.Connect(typist, bob);
    out := server.Connect(watcher, alice);
    out := server.JoinRoom(typist, room);
    out := server.JoinRoom(watcher, room);
    out := server.Typing(typist, room, true);
    out := server.Disconnect(typist);
    stillTyping, lastEvent := bob.username in server.typing, out[0].event;
  }
}
