/**
 * The document store the controllers read and write: one map per collection,
 * keyed by document id, plus the log of Socket.IO emissions the controllers
 * make through `getIO()`. Validation rules of the collections other than
 * posts (users' `unique` and `enum` rules aside) are not modelled.
 */
module Store {
  import opened Wrappers
  import opened Events
  import opened IdLists
  import PostSchema

  /** A user document; the password is kept as the opaque value the store holds. */
  datatype User = User(
    username: string,
    name: string,
    email: string,
    password: string,
    profilePicture: string,
    bio: string,
    gender: Option<string>,
    followers: seq<Id>,
    following: seq<Id>,
    posts: seq<Id>,
    bookmarks: seq<Id>,
    favorites: seq<Id>)

  datatype Comment = Comment(text: string, author: Id, post: Id)

  datatype Story = Story(author: Id, image: Option<string>, video: Option<string>, createdAt: int)

  datatype Conversation = Conversation(participants: seq<Id>, messages: seq<Id>)

  datatype Message = Message(senderId: Id, receiverId: Id, message: Option<string>)

  class DocumentStore {
    var users: map<Id, User>
    var posts: map<Id, PostSchema.PostDoc>
    var comments: map<Id, Comment>
    var stories: map<Id, Story>
    var conversations: map<Id, Conversation>
    var messages: map<Id, Message>
    /** Whether `getIO()` returns a server (the socket layer was initialised). */
    var ioReady: bool
    /** Every event emitted by the controllers, in order. */
    var outbox: seq<Emission>

    constructor(ioReady: bool)
      ensures this.ioReady == ioReady
      ensures users == map[] && posts == map[] && comments == map[] && stories == map[]
      ensures conversations == map[] && messages == map[] && outbox == []
    {
      this.ioReady := ioReady;
      users := map[];
      posts := map[];
      comments := map[];
      stories := map[];
      conversations := map[];
      messages := map[];
      outbox := [];
    }
  }

  /**
   * Whether a best-effort emission goes out: `getIO()` must succeed and the
   * emit must not throw. A failure is caught and logged by the handler.
   */
  predicate Emits(ioReady: bool, socketThrows: bool) {
    ioReady && !socketThrows
  }

  /** The `sender` block built from a user document (`name` only where the handler selects it). */
  function SenderBlock(id: Id, u: User, withName: bool): Sender {
    Sender(id, u.username, if withName then Some(u.name) else None, u.profilePicture)
  }
}
