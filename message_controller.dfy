/** Direct messages over HTTP: persist the message in its conversation, then notify the pair room. */
module MessageController {
  import opened Wrappers
  import opened Events
  import opened IdLists
  import opened Store
  import Rooms

  /** `{participants: {$all: [a, b]}}`: the conversation lists both ids. */
  predicate Between(c: Conversation, a: Id, b: Id) {
    a in c.participants && b in c.participants
  }

  /** The payload of the `newMessage` event the handler emits. */
  function MessageEvent(senderId: Id, receiverId: Id, message: Option<string>, conversationId: Id,
                        sender: User, messageId: Id): Event
  {
    NewMessage(senderId, receiverId, message, Some(conversationId),
               SenderBlock(senderId, sender, false), Some(messageId))
  }

  /**
   * `sendMessage`: find a conversation between the two users or create one with
   * `[senderId, receiverId]`, store the message and append its id to the
   * conversation, then emit `newMessage` to the pair room. The emission is
   * best-effort: a socket failure, or a sender document that has vanished,
   * only skips it. A store failure (at the first write) gives 500 and
   * changes nothing.
   */
  method SendMessage(db: DocumentStore, senderId: Id, receiverId: Id, message: Option<string>,
                     newConversationId: Id, newMessageId: Id, socketThrows: bool, storeFault: bool)
    returns (status: int, conversationId: Option<Id>)
    requires newConversationId !in db.conversations && newMessageId !in db.messages
    modifies db`conversations, db`messages, db`outbox
    ensures storeFault ==> status == 500 && conversationId == None && unchanged(db)
    ensures !storeFault ==> status == 201 && conversationId.Some?
    ensures !storeFault ==>
      var c := conversationId.value;
      && ((exists k :: k in old(db.conversations) && Between(old(db.conversations)[k], senderId, receiverId)) ==>
            c in old(db.conversations) && Between(old(db.conversations)[c], senderId, receiverId))
      && ((forall k :: k in old(db.conversations) ==> !Between(old(db.conversations)[k], senderId, receiverId)) ==>
            c == newConversationId)
      && var before := if c in old(db.conversations) then old(db.conversations)[c]
                       else Conversation([senderId, receiverId], []);
      && db.conversations == old(db.conversations)[c := before.(messages := before.messages + [newMessageId])]
      && db.messages == old(db.messages)[newMessageId := Message(senderId, receiverId, message)]
      && db.outbox == old(db.outbox) +
           if Emits(db.ioReady, socketThrows) && senderId in db.users
           then [Emission(Room(Rooms.PairRoom(senderId, receiverId)),
                          MessageEvent(senderId, receiverId, message, c, db.users[senderId], newMessageId))]
           else []
  {
    if storeFault {
      return 500, None;
    }
    var c: Id;
    if exists k :: k in db.conversations && Between(db.conversations[k], senderId, receiverId) {
      c :| c in db.conversations && Between(db.conversations[c], senderId, receiverId);
    } else {
      c := newConversationId;
      db.conversations := db.conversations[c := Conversation([senderId, receiverId], [])];
    }
    db.messages := db.messages[newMessageId := Message(senderId, receiverId, message)];
    var conversation := db.conversations[c];
    db.conversations := db.conversations[c := conversation.(messages := conversation.messages + [newMessageId])];
    if Emits(db.ioReady, socketThrows) && senderId in db.users {
      var roomId := Rooms.PairRoom(senderId, receiverId);
      db.outbox := db.outbox + [Emission(Room(roomId),
        MessageEvent(senderId, receiverId, message, c, db.users[senderId], newMessageId))];
    }
    status, conversationId := 201, Some(c);
  }

  /**
   * `getMessage`: the message ids of a conversation between the two users,
   * or an empty list and a null conversation id when there is none.
   */
  method GetMessage(db: DocumentStore, senderId: Id, receiverId: Id, storeFault: bool)
    returns (status: int, messageIds: seq<Id>, conversationId: Option<Id>)
    ensures storeFault <==> status == 500
    ensures status == 500 ==> messageIds == [] && conversationId == None
    ensures !storeFault && (forall k :: k in db.conversations ==> !Between(db.conversations[k], senderId, receiverId)) ==>
      status == 200 && messageIds == [] && conversationId == None
    ensures !storeFault && (exists k :: k in db.conversations && Between(db.conversations[k], senderId, receiverId)) ==>
      && status == 200 && conversationId.Some?
      && conversationId.value in db.conversations
      && Between(db.conversations[conversationId.value], senderId, receiverId)
      && messageIds == db.conversations[conversationId.value].messages
  {
    if storeFault {
      return 500, [], None;
    }
    if exists k :: k in db.conversations && Between(db.conversations[k], senderId, receiverId) {
      var c :| c in db.conversations && Between(db.conversations[c], senderId, receiverId);
      return 200, db.conversations[c].messages, Some(c);
    }
    return 200, [], None;
  }
}
