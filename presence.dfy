/**
 * The server's presence registry and connection handlers: the module-level
 * `onlineUsers` Map, the `io` server handle, and the events each handler emits.
 * Room membership is kept per connected socket; delivery of an emission is
 * `Events.Recipients` of its target.
 */
module Presence {
  import opened Wrappers
  import opened Events
  import opened IdLists
  import Rooms
  import SocketAuth
  import Text

  /** A JS Map keyed by user id: its entries, and its keys in insertion order. */
  predicate Keyed(online: map<Id, PresenceEntry>, order: seq<Id>) {
    && NoDup(order)
    && (forall k :: k in order ==> k in online)
    && (forall k :: k in online ==> k in order)
    && (forall k :: k in online ==> online[k].userId == k)
  }

  /** `Array.from(onlineUsers.values())`: the entries in key insertion order. */
  function Snapshot(online: map<Id, PresenceEntry>, order: seq<Id>): seq<PresenceEntry>
    requires forall k :: k in order ==> k in online
  {
    seq(|order|, i requires 0 <= i < |order| => online[order[i]])
  }

  /** The snapshot lists every online user exactly once, with that user's current entry. */
  lemma SnapshotOnePerUser(online: map<Id, PresenceEntry>, order: seq<Id>)
    requires Keyed(online, order)
    ensures var snap := Snapshot(online, order);
      && (forall i, j :: 0 <= i < j < |snap| ==> snap[i].userId != snap[j].userId)
      && (forall e :: e in snap ==> e.userId in online && online[e.userId] == e)
      && (forall u :: u in online ==> online[u] in snap)
  {
    var snap := Snapshot(online, order);
    forall u | u in online ensures online[u] in snap {
      var i :| 0 <= i < |order| && order[i] == u;
      assert snap[i] == online[u];
    }
  }

  /**
   * `onlineUsers.set(e.userId, e)`: a new key is appended at the end of the
   * iteration order; an existing key keeps its place and gets the new entry.
   */
  lemma SetEntry(online: map<Id, PresenceEntry>, order: seq<Id>, e: PresenceEntry)
    requires Keyed(online, order)
    ensures Keyed(online[e.userId := e], AddToSet(order, e.userId))
    ensures var before := Snapshot(online, order);
            var after := Snapshot(online[e.userId := e], AddToSet(order, e.userId));
      && (e.userId !in online ==> after == before + [e])
      && (e.userId in online ==>
            |after| == |before|
            && forall i :: 0 <= i < |after| ==> after[i] == if before[i].userId == e.userId then e else before[i])
  {
  }

  /** `onlineUsers.delete(u)`: the entry for `u` disappears and the others keep their order. */
  lemma DeleteEntry(online: map<Id, PresenceEntry>, order: seq<Id>, u: Id)
    requires Keyed(online, order)
    ensures Keyed(online - {u}, Without(order, u))
    ensures var before := Snapshot(online, order);
            var after := Snapshot(online - {u}, Without(order, u));
      && (u !in online ==> after == before)
      && (forall i :: 0 <= i < |order| && order[i] == u ==> after == before[..i] + before[i + 1..])
  {
    WithoutNoDup(order, u);
    var before := Snapshot(online, order);
    if u !in online {
      WithoutAbsent(order, u);
      assert online - {u} == online;
    }
    forall i | 0 <= i < |order| && order[i] == u
      ensures Snapshot(online - {u}, Without(order, u)) == before[..i] + before[i + 1..]
    {
      DeleteAt(online, order, i);
    }
  }

  lemma DeleteAt(online: map<Id, PresenceEntry>, order: seq<Id>, i: nat)
    requires Keyed(online, order) && i < |order|
    ensures Snapshot(online - {order[i]}, Without(order, order[i]))
         == Snapshot(online, order)[..i] + Snapshot(online, order)[i + 1..]
  {
    var u := order[i];
    WithoutAt(order, i);
    var rest := order[..i] + order[i + 1..];
    var before := Snapshot(online, order);
    var after := Snapshot(online - {u}, rest);
    assert |after| == |before[..i] + before[i + 1..]|;
    forall k | 0 <= k < |after| ensures after[k] == (before[..i] + before[i + 1..])[k] {
      if k < i {
        assert rest[k] == order[k];
      } else {
        assert rest[k] == order[k + 1];
      }
    }
  }

  /** The server state the socket layer keeps. */
  class Registry {
    /** Whether `initializeSocket` has assigned `io`. */
    var initialized: bool
    /** `onlineUsers`, with its key insertion order beside it. */
    var online: map<Id, PresenceEntry>
    var order: seq<Id>
    /** Each connected socket's authenticated user (`socket.user`). */
    var users: map<string, Profile>
    /** Each connected socket's joined rooms; a socket is always in the room named by its own id. */
    var rooms: map<string, set<string>>
    /** Everything emitted so far, in order. */
    var outbox: seq<Emission>

    ghost predicate Valid()
      reads this
    {
      Keyed(online, order) && users.Keys == rooms.Keys
    }

    constructor()
      ensures Valid()
      ensures !initialized && online == map[] && order == [] && users == map[] && rooms == map[] && outbox == []
    {
      initialized := false;
      online := map[];
      order := [];
      users := map[];
      rooms := map[];
      outbox := [];
    }

    /** `initializeSocket`: assigns `io`; the registry itself is untouched. */
    method Initialize()
      modifies this`initialized
      ensures initialized
    {
      initialized := true;
    }

    /** `getIO`: throws (here: `false`) unless the server was initialised. */
    method GetIO() returns (ok: bool)
      ensures ok <==> initialized
    {
      ok := initialized;
    }

    /** Current contents of `onlineUsers` as the `onlineUsers` event sends them. */
    function OnlineList(): seq<PresenceEntry>
      reads this
      requires Valid()
    {
      Snapshot(online, order)
    }

    /**
     * The `io.use` middleware followed, on success, by the `connection` handler.
     * A rejected handshake changes nothing.
     */
    method Handshake(socketId: string, authToken: Option<string>, cookieHeader: Option<string>,
                     verification: SocketAuth.Verification, lookup: SocketAuth.UserLookup)
      returns (outcome: SocketAuth.AuthOutcome)
      requires Valid() && socketId !in users
      modifies this
      ensures Valid()
      ensures outcome == SocketAuth.Authenticate(SocketAuth.HandshakeToken(authToken, cookieHeader), verification, lookup)
      ensures initialized == old(initialized)
      ensures outcome.Rejected? ==>
        online == old(online) && order == old(order) && users == old(users) && rooms == old(rooms) && outbox == old(outbox)
      ensures outcome.Accepted? ==> Connected(socketId, outcome.user)
    {
      var token := SocketAuth.ResolveToken(authToken, cookieHeader);
      outcome := SocketAuth.Authenticate(token, verification, lookup);
      if outcome.Accepted? {
        Connect(socketId, outcome.user);
      }
    }

    /** The state right after `socketId`, authenticated as `user`, has gone through the `connection` handler. */
    twostate predicate Connected(socketId: string, user: Profile)
      reads this
    {
      var entry := PresenceEntry(socketId, user.id, user);
      && old(Keyed(online, order))
      && online == old(online)[user.id := entry]
      && order == AddToSet(old(order), user.id)
      && users == old(users)[socketId := user]
      && rooms == old(rooms)[socketId := {socketId, user.id}]
      && outbox == old(outbox) + [Emission(Everyone, UserOnline(user.id, user.username)),
                                  Emission(Only(socketId), OnlineUsers(Snapshot(online, order)))]
    }

    /**
     * The `connection` handler: set the entry (overwriting any earlier one for
     * the user), join the personal room, announce the user to everyone, and
     * send the new socket the whole list, its own entry included.
     */
    method Connect(socketId: string, user: Profile)
      requires Valid() && socketId !in users
      modifies this
      ensures Valid()
      ensures initialized == old(initialized)
      ensures Connected(socketId, user)
      ensures PresenceEntry(socketId, user.id, user) in OnlineList()
    {
      var entry := PresenceEntry(socketId, user.id, user);
      SetEntry(online, order, entry);
      online := online[user.id := entry];
      order := AddToSet(order, user.id);
      users := users[socketId := user];
      rooms := rooms[socketId := {socketId, user.id}];
      outbox := outbox + [Emission(Everyone, UserOnline(user.id, user.username))];
      outbox := outbox + [Emission(Only(socketId), OnlineUsers(Snapshot(online, order)))];
      SnapshotOnePerUser(online, order);
    }

    /** `joinRoom`: the socket joins the named room. */
    method JoinRoom(socketId: string, room: string)
      requires Valid() && socketId in rooms
      modifies this`rooms
      ensures Valid()
      ensures rooms == old(rooms)[socketId := old(rooms)[socketId] + {room}]
    {
      rooms := rooms[socketId := rooms[socketId] + {room}];
    }

    /** `leaveRoom`: the socket leaves the named room. */
    method LeaveRoom(socketId: string, room: string)
      requires Valid() && socketId in rooms
      modifies this`rooms
      ensures Valid()
      ensures rooms == old(rooms)[socketId := old(rooms)[socketId] - {room}]
    {
      rooms := rooms[socketId := rooms[socketId] - {room}];
    }

    /** `sendMessage`: relay to the pair room through `io.to`, so the sender's socket gets it too when it has joined. */
    method RelayMessage(socketId: string, receiverId: string, message: Option<string>, conversationId: Option<string>)
      requires Valid() && socketId in users
      modifies this`outbox
      ensures var me := users[socketId];
        outbox == old(outbox) + [Emission(Room(Rooms.PairRoom(me.id, receiverId)),
                                          NewMessage(me.id, receiverId, message, conversationId, SenderOf(me), None))]
    {
      var me := users[socketId];
      var roomId := Rooms.PairRoom(me.id, receiverId);
      outbox := outbox + [Emission(Room(roomId), NewMessage(me.id, receiverId, message, conversationId, SenderOf(me), None))];
    }

    /** `typing`: relay to the pair room through `socket.to`, which never reaches the typing socket. */
    method Typing(socketId: string, receiverId: string, isTyping: bool)
      requires Valid() && socketId in users
      modifies this`outbox
      ensures var me := users[socketId];
        outbox == old(outbox) + [Emission(RoomExcept(Rooms.PairRoom(me.id, receiverId), socketId),
                                          UserTyping(me.id, isTyping, me.username))]
      ensures socketId !in Recipients(Text.Last(outbox).target, rooms)
    {
      var me := users[socketId];
      var roomId := Rooms.PairRoom(me.id, receiverId);
      outbox := outbox + [Emission(RoomExcept(roomId, socketId), UserTyping(me.id, isTyping, me.username))];
      RelayExcludesSender(roomId, socketId, rooms);
    }

    /** `sendNotification`: to the receiver's personal room, named by the receiver's id. */
    method SendNotification(socketId: string, receiverId: string, kind: string, message: string, postId: Option<string>)
      requires Valid() && socketId in users
      modifies this`outbox
      ensures var me := users[socketId];
        outbox == old(outbox) + [Emission(Room(receiverId),
                                          NewNotification(me.id, receiverId, kind, message, postId, SenderOf(me)))]
    {
      var me := users[socketId];
      outbox := outbox + [Emission(Room(receiverId), NewNotification(me.id, receiverId, kind, message, postId, SenderOf(me)))];
    }

    /**
     * `disconnect`: deletes the entry keyed by the socket's user id, whichever
     * socket that entry records, and announces the user as offline.
     */
    method Disconnect(socketId: string)
      requires Valid() && socketId in users
      modifies this
      ensures Valid()
      ensures initialized == old(initialized)
      ensures var u := old(users)[socketId].id;
        && online == old(online) - {u}
        && order == Without(old(order), u)
        && users == old(users) - {socketId}
        && rooms == old(rooms) - {socketId}
        && outbox == old(outbox) + [Emission(Everyone, UserOffline(u))]
    {
      var u := users[socketId].id;
      DeleteEntry(online, order, u);
      online := online - {u};
      order := Without(order, u);
      users := users - {socketId};
      rooms := rooms - {socketId};
      outbox := outbox + [Emission(Everyone, UserOffline(u))];
    }
  }

  /**
   * A user with two connections: after the older socket disconnects, the user
   * is gone from `onlineUsers` although the newer socket is still connected.
   */
  method StaleDisconnect(user: Profile, older: string, newer: string) returns (r: Registry)
    requires older != newer
    ensures fresh(r) && r.Valid()
    ensures newer in r.users && user.id !in r.online
  {
    r := new Registry();
    r.Initialize();
    r.Connect(older, user);
    r.Connect(newer, user);
    assert r.online[user.id].socketId == newer;
    r.Disconnect(older);
  }
}
