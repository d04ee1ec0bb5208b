/** Values exchanged by the chat server: user records, stored room messages,
    private messages, and the events the server emits. */
module ChatTypes {

  datatype Option<T> = None | Some(value: T)

  /** A socket id. socket.io also uses it as the name of a room holding only that socket. */
  type Id = string

  /** A registered user, keyed in the user table by `id` (the socket id). */
  datatype User = User(id: Id, username: string, avatar: string, joinedAt: string)

  /** A message stored in a room's history; `kind` is the record's `type` field. */
  datatype Message = Message(
    id: string,
    username: string,
    avatar: string,
    content: string,
    room: string,
    timestamp: string,
    kind: string)

  /** A private message; it is delivered but never stored. */
  datatype PrivateMessage = PrivateMessage(
    id: string,
    from: string,
    to: string,
    content: string,
    timestamp: string,
    kind: string)

  /** The payloads the server sends. */
  datatype Payload =
    | Welcome(greeting: string, rooms: seq<string>)     // connected
    | Presence(username: string, timestamp: string)     // user_joined, user_offline
    | UserList(users: seq<User>)                        // online_users
    | Backlog(messages: seq<Message>)                   // message_history
    | Chat(msg: Message)                                // new_message
    | Typing(username: string, room: string)            // user_typing, user_stop_typing
    | RoomName(name: string)                            // room_joined
    | Private(pm: PrivateMessage)                       // private_message, private_message_sent

  /** One `emit`: the connections it is addressed to, the event name and the payload. */
  datatype Emission = Emission(to: set<Id>, event: string, payload: Payload)
}
