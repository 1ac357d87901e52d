/**
 * The client's socket listeners (frontend/src/context/SocketContext.jsx): the
 * online list, the notification feed and the live patching of posts. Each
 * listener is a pure `prev => next` update, modelled as a function.
 */
module SocketContext {
  import opened Wrappers
  import opened IdLists
  import opened Records
  import Events
  import Presence
  import Client

  /**
   * An entry of the client's online list: either copied from the server's
   * snapshot, or the `{userId, username}` payload of a `userOnline` event.
   */
  datatype OnlineUser =
    | Listed(userId: Id, socketId: string, user: Events.Profile)
    | Announced(userId: Id, username: string)

  /** The key the online list is searched by. */
  function OnlineKey(u: OnlineUser): Id {
    u.userId
  }

  /** `isUserOnline`: false for a falsy id, otherwise whether some entry has that user id. */
  predicate IsUserOnline(online: seq<OnlineUser>, userId: Option<Id>) {
    Truthy(userId) && HasKey(online, OnlineKey, userId.value)
  }

  /** `onlineUsers`: the server's snapshot replaces the list wholesale. */
  function OnOnlineUsers(entries: seq<Events.PresenceEntry>): (r: seq<OnlineUser>)
    ensures |r| == |entries|
    ensures forall i :: 0 <= i < |r| ==> r[i] == Listed(entries[i].userId, entries[i].socketId, entries[i].user)
  {
    seq(|entries|, i requires 0 <= i < |entries| => Listed(entries[i].userId, entries[i].socketId, entries[i].user))
  }

  /** A snapshot taken from the server's registry gives a list with one entry per user. */
  lemma SnapshotListUnique(online: map<Id, Events.PresenceEntry>, order: seq<Id>)
    requires Presence.Keyed(online, order)
    ensures UniqueKeys(OnOnlineUsers(Presence.Snapshot(online, order)), OnlineKey)
  {
    Presence.SnapshotOnePerUser(online, order);
    var snap := Presence.Snapshot(online, order);
    var ks := Keys(OnOnlineUsers(snap), OnlineKey);
    assert forall i :: 0 <= i < |ks| ==> ks[i] == snap[i].userId;
  }

  /** `userOnline`: the announcement is appended unless an entry with that user id exists. */
  function OnUserOnline(online: seq<OnlineUser>, userId: Id, username: string): (r: seq<OnlineUser>)
    ensures IsUserOnline(r, Some(userId)) || userId == ""
    ensures HasKey(r, OnlineKey, userId)
    ensures online <= r && |r| <= |online| + 1
    ensures HasKey(online, OnlineKey, userId) ==> r == online
  {
    if HasKey(online, OnlineKey, userId) then online
    else
      var r := online + [Announced(userId, username)];
      assert OnlineKey(r[|online|]) == userId;
      r
  }

  /** An announcement never introduces a second entry for a user, and a repeat is a no-op. */
  lemma UserOnlineKeepsUnique(online: seq<OnlineUser>, userId: Id, username: string)
    requires UniqueKeys(online, OnlineKey)
    ensures UniqueKeys(OnUserOnline(online, userId, username), OnlineKey)
    ensures var once := OnUserOnline(online, userId, username);
            OnUserOnline(once, userId, username) == once
  {
    if !HasKey(online, OnlineKey, userId) {
      var r := online + [Announced(userId, username)];
      var ks := Keys(r, OnlineKey);
      forall i, j | 0 <= i < j < |ks| ensures ks[i] != ks[j] {
        if j == |online| {
          assert ks[i] == OnlineKey(online[i]);
        } else {
          assert Keys(online, OnlineKey)[i] == ks[i] && Keys(online, OnlineKey)[j] == ks[j];
        }
      }
    }
  }

  /** `userOffline`: every entry of that user goes; everyone else's presence is untouched. */
  function OnUserOffline(online: seq<OnlineUser>, userId: Id): (r: seq<OnlineUser>)
    ensures !IsUserOnline(r, Some(userId))
    ensures forall v :: v != userId ==> (IsUserOnline(r, Some(v)) <==> IsUserOnline(online, Some(v)))
  {
    var r := DropKey(online, OnlineKey, userId);
    forall v | v != userId && IsUserOnline(online, Some(v)) ensures IsUserOnline(r, Some(v)) {
      var i :| 0 <= i < |online| && OnlineKey(online[i]) == v;
      var k :| 0 <= k < |r| && r[k] == online[i];
    }
    forall v | IsUserOnline(r, Some(v)) ensures IsUserOnline(online, Some(v)) {
      var i :| 0 <= i < |r| && OnlineKey(r[i]) == v;
      var k :| 0 <= k < |online| && online[k] == r[i];
    }
    r
  }

  /** A notification as the feed holds it: the payload of a `newNotification` event. */
  datatype Notification = Notification(kind: string, senderId: Id, message: string, postId: Option<Id>)

  /** `newNotification`: the notification goes to the head of the feed. */
  function OnNewNotification(feed: seq<Notification>, n: Notification): (r: seq<Notification>)
    ensures |r| == |feed| + 1 && r[0] == n
  {
    [n] + feed
  }

  /** The feed after the notifications in `arrivals` came in, one after the other, from an empty feed. */
  function FeedAfter(arrivals: seq<Notification>): seq<Notification> {
    if arrivals == [] then [] else OnNewNotification(FeedAfter(arrivals[..|arrivals| - 1]), arrivals[|arrivals| - 1])
  }

  /** The list in reverse order. */
  function Reversed<T>(s: seq<T>): (r: seq<T>)
    ensures |r| == |s|
    ensures forall i :: 0 <= i < |s| ==> r[i] == s[|s| - 1 - i]
  {
    if s == [] then [] else [s[|s| - 1]] + Reversed(s[..|s| - 1])
  }

  /** The feed is newest first: it is exactly the arrivals in reverse order. */
  lemma {:induction false} FeedIsNewestFirst(arrivals: seq<Notification>)
    ensures FeedAfter(arrivals) == Reversed(arrivals)
  {
    if arrivals != [] {
      FeedIsNewestFirst(arrivals[..|arrivals| - 1]);
    }
  }

  /** A post with the fields an update carries replaced; an absent field keeps its value. */
  function Patched(p: Client.ClientPost, likes: Option<seq<Id>>, comments: Option<seq<Id>>): (r: Client.ClientPost)
    ensures r.id == p.id && r.author == p.author && r.postType == p.postType
    ensures likes.None? ==> r.likes == p.likes
    ensures comments.None? ==> r.comments == p.comments
  {
    p.(likes := likes.GetOr(p.likes), comments := comments.GetOr(p.comments))
  }

  /** `postUpdate` on the feed: the posts with the event's id are patched, all others are left alone. */
  function OnPostUpdate(posts: seq<Client.ClientPost>, postId: Id, likes: Option<seq<Id>>, comments: Option<seq<Id>>)
    : (r: seq<Client.ClientPost>)
    ensures |r| == |posts|
    ensures forall i :: 0 <= i < |posts| && posts[i].id != postId ==> r[i] == posts[i]
    ensures forall i :: 0 <= i < |posts| && posts[i].id == postId ==>
              r[i].id == postId && r[i].likes == likes.GetOr(posts[i].likes) && r[i].comments == comments.GetOr(posts[i].comments)
    ensures Keys(r, Client.PostKey) == Keys(posts, Client.PostKey)
  {
    seq(|posts|, i requires 0 <= i < |posts| => if posts[i].id == postId then Patched(posts[i], likes, comments) else posts[i])
  }

  /** `postUpdate` on the open post: patched only when it is the post the event is about. */
  function OnSelectedUpdate(selected: Option<Client.ClientPost>, postId: Id, likes: Option<seq<Id>>, comments: Option<seq<Id>>)
    : (r: Option<Client.ClientPost>)
    ensures r.Some? <==> selected.Some?
    ensures selected.Some? && selected.value.id != postId ==> r == selected
    ensures selected.Some? && selected.value.id == postId ==>
              r.value.likes == likes.GetOr(selected.value.likes) && r.value.comments == comments.GetOr(selected.value.comments)
  {
    if selected.Some? && selected.value.id == postId then Some(Patched(selected.value, likes, comments)) else selected
  }

  /** Receiving the same update twice leaves the feed as the first delivery left it. */
  lemma PostUpdateIdempotent(posts: seq<Client.ClientPost>, postId: Id, likes: Option<seq<Id>>, comments: Option<seq<Id>>)
    ensures var once := OnPostUpdate(posts, postId, likes, comments);
            OnPostUpdate(once, postId, likes, comments) == once
  {
  }

  /** After a like is broadcast, the client's copy of the post lists exactly the likes the server stored. */
  lemma ClientSeesStoredLikes(posts: seq<Client.ClientPost>, postId: Id, stored: seq<Id>, userId: Id)
    ensures var r := OnPostUpdate(posts, postId, Some(IdLists.AddToSet(stored, userId)), None);
            forall i :: 0 <= i < |r| && r[i].id == postId ==>
              r[i].likes == IdLists.AddToSet(stored, userId) && userId in r[i].likes && r[i].comments == posts[i].comments
  {
  }

  /** The state the socket listeners maintain. */
  datatype Session = Session(
    online: seq<OnlineUser>,
    notifications: seq<Notification>,
    posts: seq<Client.ClientPost>,
    selected: Option<Client.ClientPost>)

  /** One server event handled by the matching listener; events without a listener here change nothing. */
  function Receive(s: Session, e: Events.Event): (r: Session)
    ensures !e.OnlineUsers? && !e.UserOnline? && !e.UserOffline? ==> r.online == s.online
    ensures !e.NewNotification? ==> r.notifications == s.notifications
    ensures !e.PostUpdate? ==> r.posts == s.posts && r.selected == s.selected
  {
    match e
    case OnlineUsers(entries) => s.(online := OnOnlineUsers(entries))
    case UserOnline(userId, username) => s.(online := OnUserOnline(s.online, userId, username))
    case UserOffline(userId) => s.(online := OnUserOffline(s.online, userId))
    case NewNotification(senderId, _, kind, message, aboutPost, _) =>
      s.(notifications := OnNewNotification(s.notifications, Notification(kind, senderId, message, aboutPost)))
    case PostUpdate(postId, likes, comments, _) =>
      s.(posts := OnPostUpdate(s.posts, postId, likes, comments),
         selected := OnSelectedUpdate(s.selected, postId, likes, comments))
    case _ => s
  }
}
