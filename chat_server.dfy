/** The server process: module-level `users`, `messages` and `rooms`, the
    transport's room membership per socket, and the emitted events, updated in
    place by one method per socket.io handler. Each method is proved to leave
    the state that the matching `ChatSpec` transition describes. */
module Server {
  import opened ChatTypes
  import UserMap
  import History
  import ChatSpec

  class ChatServer {
    /** `users`: socket id to user record, in insertion order. */
    var users: seq<User>
    /** `messages`: room name to history, in append order. */
    var messages: map<string, seq<Message>>
    /** `rooms`: fixed at startup and only read afterwards. */
    const rooms: seq<string>
    /** The rooms each live socket is in (socket.io's `socket.rooms`). */
    var membership: map<Id, set<string>>
    /** Every emit so far, in order. */
    var outbox: seq<Emission>

    function Model(): (s: ChatSpec.State)
      reads this
    {
      ChatSpec.State(users, messages, rooms, membership, outbox)
    }

    ghost predicate Valid()
      reads this
    {
      ChatSpec.Inv(Model())
    }

    /** Module start-up: the three rooms, each with an empty history. */
    constructor ()
      ensures Model() == ChatSpec.Initial()
      ensures Valid()
    {
      var startup := ChatSpec.DefaultRooms;
      var histories: map<string, seq<Message>> := map[];
      for i := 0 to |startup|
        invariant histories == map r | r in startup[..i] :: []
      {
        histories := histories[startup[i] := []];
      }
      assert startup[..|startup|] == startup;
      users := [];
      messages := histories;
      rooms := startup;
      membership := map[];
      outbox := [];
    }

    /** `connection` handler (the transport has already put the socket in its own room). */
    method Connect(sid: Id)
      requires Valid() && sid !in membership
      modifies this
      ensures Model() == ChatSpec.Connect(old(Model()), sid)
      ensures Valid()
    {
      // the transport's room named by the id, and `socket.join('general')`
      membership := membership[sid := {sid, ChatSpec.General}];
      outbox := outbox + [Emission({sid}, "connected", Welcome(ChatSpec.Greeting, rooms))];
    }

    /** `disconnect` handler, preceded by the transport's removal of the socket. */
    method Disconnect(sid: Id, now: string)
      requires Valid() && sid in membership
      modifies this
      ensures Model() == ChatSpec.Disconnect(old(Model()), sid, now)
      ensures Valid()
    {
      membership := membership - {sid};
      var user := UserMap.Get(users, sid);
      if user.Some? {
        outbox := outbox + [Emission(ChatSpec.Broadcast(membership, sid), "user_offline",
                                     Presence(user.value.username, now))];
        users := UserMap.Remove(users, sid);
        outbox := outbox + [Emission(membership.Keys, "online_users", UserList(users))];
      }
    }

    /** `user_join` handler. */
    method UserJoin(sid: Id, username: string, avatar: Option<string>, joinedAt: string, now: string)
      requires Valid() && sid in membership
      modifies this
      ensures Model() == ChatSpec.UserJoin(old(Model()), sid, username, avatar, joinedAt, now)
      ensures Valid()
    {
      var user := User(sid, username, ChatSpec.OrElse(avatar, ChatSpec.AvatarService + username), joinedAt);
      users := UserMap.Put(users, user);
      outbox := outbox + [Emission(ChatSpec.Broadcast(membership, sid), "user_joined", Presence(username, now))];
      outbox := outbox + [Emission(membership.Keys, "online_users", UserList(users))];
      var recent := History.SliceLast(ChatSpec.HistoryOf(messages, ChatSpec.General), ChatSpec.HistoryLimit);
      outbox := outbox + [Emission({sid}, "message_history", Backlog(recent))];
    }

    /** `send_message` handler. */
    method SendMessage(sid: Id, content: string, room: Option<string>, msgId: string, now: string)
      requires Valid() && sid in membership
      modifies this
      ensures Model() == ChatSpec.SendMessage(old(Model()), sid, content, room, msgId, now)
      ensures Valid()
    {
      var user := UserMap.Get(users, sid);
      if user.Some? {
        var target := ChatSpec.OrElse(room, ChatSpec.General);
        var m := Message(msgId, user.value.username, user.value.avatar, content, target, now, "text");
        if target !in messages {
          messages := messages[target := []];
        }
        messages := messages[target := messages[target] + [m]];
        outbox := outbox + [Emission(ChatSpec.RoomMembers(membership, target), "new_message", Chat(m))];
      }
    }

    /** `typing_start` handler. */
    method TypingStart(sid: Id, room: string)
      requires Valid() && sid in membership
      modifies this
      ensures Model() == ChatSpec.TypingNotice(old(Model()), sid, room, "user_typing")
      ensures Valid()
    {
      var user := UserMap.Get(users, sid);
      if user.Some? {
        outbox := outbox + [Emission(ChatSpec.RoomExcept(membership, room, sid), "user_typing",
                                     Typing(user.value.username, room))];
      }
    }

    /** `typing_stop` handler. */
    method TypingStop(sid: Id, room: string)
      requires Valid() && sid in membership
      modifies this
      ensures Model() == ChatSpec.TypingNotice(old(Model()), sid, room, "user_stop_typing")
      ensures Valid()
    {
      var user := UserMap.Get(users, sid);
      if user.Some? {
        outbox := outbox + [Emission(ChatSpec.RoomExcept(membership, room, sid), "user_stop_typing",
                                     Typing(user.value.username, room))];
      }
    }

    /** `join_room` handler: leaves each current room other than the socket's own,
        one at a time, then joins `roomName`. */
    method JoinRoom(sid: Id, roomName: string)
      requires Valid() && sid in membership
      modifies this
      ensures Model() == ChatSpec.JoinRoom(old(Model()), sid, roomName)
      ensures Valid()
    {
      var joined := membership[sid];
      var pending := joined;
      assert pending + joined * {sid} == joined;
      while pending != {}
        invariant pending <= joined
        invariant membership == old(membership)[sid := pending + joined * {sid}]
        invariant users == old(users) && messages == old(messages) && outbox == old(outbox)
        decreases pending
      {
        var room :| room in pending;
        if room != sid {
          assert (pending + joined * {sid}) - {room} == (pending - {room}) + joined * {sid};
          membership := membership[sid := membership[sid] - {room}];
        } else {
          assert pending + joined * {sid} == (pending - {room}) + joined * {sid};
        }
        pending := pending - {room};
      }
      assert pending + joined * {sid} == joined * {sid};
      assert membership == old(membership)[sid := joined * {sid}];
      membership := membership[sid := membership[sid] + {roomName}];
      outbox := outbox + [Emission({sid}, "room_joined", RoomName(roomName))];
      outbox := outbox + [Emission({sid}, "message_history", Backlog(ChatSpec.HistoryOf(messages, roomName)))];
    }

    /** `send_private_message` handler. */
    method SendPrivateMessage(sid: Id, toUsername: string, content: string, msgId: string, now: string)
      requires Valid() && sid in membership
      modifies this
      ensures Model() == ChatSpec.SendPrivateMessage(old(Model()), sid, toUsername, content, msgId, now)
      ensures Valid()
    {
      var fromUser := UserMap.Get(users, sid);
      var found := UserMap.FindByName(users, toUsername);
      if fromUser.Some? && found.Some? {
        var toUser := users[found.value];
        var pm := PrivateMessage(msgId, fromUser.value.username, toUsername, content, now, "private");
        outbox := outbox + [Emission(ChatSpec.RoomMembers(membership, toUser.id), "private_message", Private(pm))];
        outbox := outbox + [Emission({sid}, "private_message_sent", Private(pm))];
      }
    }
  }
}
