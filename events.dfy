/**
 * The real-time events the server emits, their targets, and which connected
 * sockets a target reaches (the fan-out). Timestamps (`createdAt`) are
 * wall-clock values and are not part of the payloads here.
 */
module Events {
  import opened Wrappers
  import Rooms

  /** The public part of a user document that payloads carry as `sender` or `user`. */
  datatype Profile = Profile(id: string, username: string, name: string, profilePicture: string)

  /**
   * The `sender` block of message and notification payloads:
   * `{_id, username, profilePicture}`, plus `name` where the handler adds it.
   */
  datatype Sender = Sender(id: string, username: string, name: Option<string>, profilePicture: string)

  function SenderOf(p: Profile): Sender {
    Sender(p.id, p.username, None, p.profilePicture)
  }

  /** One value of the server's `onlineUsers` map: `{socketId, userId, user}`. */
  datatype PresenceEntry = PresenceEntry(socketId: string, userId: string, user: Profile)

  datatype Event =
    | OnlineUsers(entries: seq<PresenceEntry>)
    | UserOnline(userId: string, username: string)
    | UserOffline(userId: string)
    | NewMessage(senderId: string, receiverId: string, text: Option<string>,
                 conversationId: Option<string>, sender: Sender, messageId: Option<string>)
    | NewNotification(senderId: string, receiverId: string, kind: string, message: string,
                      aboutPost: Option<string>, sender: Sender)
    | PostUpdate(postId: string, likes: Option<seq<string>>, comments: Option<seq<string>>, kind: string)
    | UserTyping(senderId: string, isTyping: bool, username: string)
    | MessageError(error: string)

  /** Where an emission goes. */
  datatype Target =
    | Everyone                                  // io.emit
    | Room(name: string)                        // io.to(room).emit
    | RoomExcept(name: string, except: string)  // socket.to(room).emit: never back to the emitting socket
    | Only(socketId: string)                    // socket.emit

  datatype Emission = Emission(target: Target, event: Event)

  /**
   * The connected sockets an emission reaches, given each connected socket's
   * joined rooms.
   */
  function Recipients(target: Target, rooms: map<string, set<string>>): (r: set<string>)
    ensures r <= rooms.Keys
  {
    match target
    case Everyone => rooms.Keys
    case Room(n) => set s | s in rooms && n in rooms[s]
    case RoomExcept(n, e) => set s | s in rooms && n in rooms[s] && s != e
    case Only(s) => if s in rooms then {s} else {}
  }

  /** `socket.to(room)` reaches what `io.to(room)` reaches, minus the emitting socket. */
  lemma RelayExcludesSender(name: string, sender: string, rooms: map<string, set<string>>)
    ensures Recipients(RoomExcept(name, sender), rooms) == Recipients(Room(name), rooms) - {sender}
    ensures sender !in Recipients(RoomExcept(name, sender), rooms)
  {
  }

  /**
   * The typing scenario: two users' sockets joined the conversation room, each
   * computing the name from its own side. A relay from the first reaches the
   * second and not the first; an `io.to` emission reaches both.
   */
  lemma ConversationRoomReachesBoth(u1: string, u2: string, s1: string, s2: string,
                                    rooms: map<string, set<string>>)
    requires s1 != s2 && s1 in rooms && s2 in rooms
    requires Rooms.PairRoom(u1, u2) in rooms[s1] && Rooms.PairRoom(u2, u1) in rooms[s2]
    ensures var relay := Recipients(RoomExcept(Rooms.PairRoom(u1, u2), s1), rooms);
            s2 in relay && s1 !in relay
    ensures {s1, s2} <= Recipients(Room(Rooms.PairRoom(u2, u1)), rooms)
  {
    Rooms.PairRoomCommutes(u1, u2);
  }
}
