/**
 * Post handlers: likes, comments, deletion, bookmarks and favourites, post
 * creation and the feed. Each persists first and then notifies on a
 * best-effort basis: a socket failure never changes the response.
 */
module PostController {
  import opened Wrappers
  import opened Events
  import opened IdLists
  import opened Store
  import PostSchema

  /** The `likes` list broadcast after a like: the list read before the update, with the liker added if absent. */
  function LikeBroadcast(likes: seq<Id>, userId: Id): seq<Id> {
    if userId in likes then likes else likes + [userId]
  }

  /** The `likes` list broadcast after a dislike: every occurrence of the user filtered out. */
  function DislikeBroadcast(likes: seq<Id>, userId: Id): seq<Id> {
    Without(likes, userId)
  }

  /** The broadcast lists agree with what `$addToSet` and `$pull` store: the liker is in one and never in the other. */
  lemma BroadcastMatchesStored(likes: seq<Id>, userId: Id)
    ensures LikeBroadcast(likes, userId) == AddToSet(likes, userId)
    ensures userId in LikeBroadcast(likes, userId)
    ensures DislikeBroadcast(likes, userId) == Without(likes, userId)
    ensures userId !in DislikeBroadcast(likes, userId)
  {
  }

  /** Repeated likes leave the stored list as the first like left it; a dislike then removes the user entirely. */
  lemma {:induction false} LikeIdempotent(likes: seq<Id>, userId: Id)
    ensures AddToSet(AddToSet(likes, userId), userId) == AddToSet(likes, userId)
    ensures Without(AddToSet(likes, userId), userId) == Without(likes, userId)
  {
    if userId !in likes {
      WithoutAppend(likes, [userId], userId);
      assert Without([userId], userId) == [];
    }
  }

  /** The `newNotification` a like sends to the post's author. */
  function LikeNotification(users: map<Id, User>, author: Id, postId: Id, userId: Id): Event
    requires userId in users
  {
    NewNotification(userId, author, "like", users[userId].username + " liked your post", Some(postId),
                    SenderBlock(userId, users[userId], true))
  }

  /**
   * What `likePost` emits once the like is stored: nothing when the first-like
   * author check throws (author document gone); otherwise the notification
   * to a different author on a first like, then the `postUpdate` broadcast.
   */
  function LikeEmissions(users: map<Id, User>, post: PostSchema.PostDoc, postId: Id, userId: Id, emits: bool)
    : seq<Emission>
  {
    var first := userId !in post.likes;
    if first && post.author !in users then []
    else
      (if first && post.author != userId && emits && userId in users
       then [Emission(Room(post.author), LikeNotification(users, post.author, postId, userId))] else [])
      + (if emits then [Emission(Everyone, PostUpdate(postId, Some(LikeBroadcast(post.likes, userId)), None, "like"))]
         else [])
  }

  /** A like notifies exactly when it is the user's first like of someone else's post and the socket works. */
  lemma LikeNotifiesOnlyFirstLikeByOthers(users: map<Id, User>, post: PostSchema.PostDoc, postId: Id, userId: Id,
                                          emits: bool)
    ensures var out := LikeEmissions(users, post, postId, userId, emits);
      (exists k :: 0 <= k < |out| && out[k].event.NewNotification?)
      <==> userId !in post.likes && post.author in users && post.author != userId && emits && userId in users
    ensures var out := LikeEmissions(users, post, postId, userId, emits);
      forall k :: 0 <= k < |out| && out[k].event.NewNotification? ==>
        out[k].target == Room(post.author) && out[k].event.receiverId == post.author
  {
    var out := LikeEmissions(users, post, postId, userId, emits);
    if userId !in post.likes && post.author in users && post.author != userId && emits && userId in users {
      assert out[0].event.NewNotification?;
    }
  }

  /** Every `postUpdate` a like broadcasts lists the liker, and lists exactly what is stored. */
  lemma LikeUpdateListsLiker(users: map<Id, User>, post: PostSchema.PostDoc, postId: Id, userId: Id, emits: bool)
    ensures var out := LikeEmissions(users, post, postId, userId, emits);
      forall k :: 0 <= k < |out| && out[k].event.PostUpdate? ==>
        && out[k].target == Everyone
        && out[k].event.likes == Some(AddToSet(post.likes, userId))
        && userId in out[k].event.likes.value
  {
  }

  /**
   * `likePost`: 404 for an unknown post; otherwise `$addToSet` the user into
   * `likes`, then notify and broadcast as `LikeEmissions` says. The response is
   * 200 unless the author check throws, which happens only on a first like of
   * a post whose author document is gone (500, with the like already stored).
   */
  method LikePost(db: DocumentStore, userId: Id, postId: Id, socketThrows: bool, storeFault: bool)
    returns (status: int)
    modifies db`posts, db`outbox
    ensures postId !in old(db.posts) ==> status == 404 && unchanged(db)
    ensures postId in old(db.posts) && storeFault ==> status == 500 && unchanged(db)
    ensures postId in old(db.posts) && !storeFault ==>
      var p := old(db.posts)[postId];
      && db.posts == old(db.posts)[postId := p.(likes := AddToSet(p.likes, userId))]
      && db.outbox == old(db.outbox) + LikeEmissions(db.users, p, postId, userId, Emits(db.ioReady, socketThrows))
      && status == if userId !in p.likes && p.author !in db.users then 500 else 200
  {
    if postId !in db.posts {
      return 404;
    }
    if storeFault {
      return 500;
    }
    var post := db.posts[postId];
    var wasAlreadyLiked := userId in post.likes;
    db.posts := db.posts[postId := post.(likes := AddToSet(post.likes, userId))];
    if !wasAlreadyLiked {
      if post.author !in db.users {
        return 500;
      }
      if post.author != userId && Emits(db.ioReady, socketThrows) && userId in db.users {
        db.outbox := db.outbox + [Emission(Room(post.author), LikeNotification(db.users, post.author, postId, userId))];
      }
    }
    if Emits(db.ioReady, socketThrows) {
      db.outbox := db.outbox + [Emission(Everyone, PostUpdate(postId, Some(LikeBroadcast(post.likes, userId)), None, "like"))];
    }
    return 200;
  }

  /** `dislikePost`: 404 for an unknown post; otherwise `$pull` the user and broadcast the filtered list. */
  method DislikePost(db: DocumentStore, userId: Id, postId: Id, socketThrows: bool, storeFault: bool)
    returns (status: int)
    modifies db`posts, db`outbox
    ensures postId !in old(db.posts) ==> status == 404 && unchanged(db)
    ensures postId in old(db.posts) && storeFault ==> status == 500 && unchanged(db)
    ensures postId in old(db.posts) && !storeFault ==>
      var p := old(db.posts)[postId];
      && status == 200
      && db.posts == old(db.posts)[postId := p.(likes := Without(p.likes, userId))]
      && userId !in db.posts[postId].likes
      && db.outbox == old(db.outbox) +
           if Emits(db.ioReady, socketThrows)
           then [Emission(Everyone, PostUpdate(postId, Some(DislikeBroadcast(p.likes, userId)), None, "dislike"))]
           else []
  {
    if postId !in db.posts {
      return 404;
    }
    if storeFault {
      return 500;
    }
    var post := db.posts[postId];
    db.posts := db.posts[postId := post.(likes := Without(post.likes, userId))];
    if Emits(db.ioReady, socketThrows) {
      db.outbox := db.outbox + [Emission(Everyone, PostUpdate(postId, Some(DislikeBroadcast(post.likes, userId)), None, "dislike"))];
    }
    return 200;
  }

  /** The `newNotification` a comment sends to the post's author. */
  function CommentNotification(users: map<Id, User>, author: Id, postId: Id, userId: Id): Event
    requires userId in users
  {
    NewNotification(userId, author, "comment", users[userId].username + " commented on your post", Some(postId),
                    SenderBlock(userId, users[userId], true))
  }

  /** What `addComment` emits once the comment is attached to an existing post with an existing author. */
  function CommentEmissions(users: map<Id, User>, author: Id, postId: Id, userId: Id, comments: seq<Id>, emits: bool)
    : seq<Emission>
  {
    (if author != userId && emits && userId in users
     then [Emission(Room(author), CommentNotification(users, author, postId, userId))] else [])
    + (if emits then [Emission(Everyone, PostUpdate(postId, None, Some(comments), "comment"))] else [])
  }

  /** The commenter is never notified about their own comment. */
  lemma CommentNeverNotifiesAuthorSelf(users: map<Id, User>, postId: Id, userId: Id, comments: seq<Id>, emits: bool)
    ensures forall e :: e in CommentEmissions(users, userId, postId, userId, comments, emits) ==> !e.event.NewNotification?
  {
  }

  /**
   * `addComment` as written: 400 without text; otherwise the comment document
   * is created BEFORE the post is checked, so an unknown post gives 500 and
   * leaves the comment behind. With the post found, its id is appended to
   * `post.comments`; an author document that is gone makes the author check
   * throw (500, both writes kept); otherwise it notifies and broadcasts.
   */
  method AddComment(db: DocumentStore, postId: Id, userId: Id, text: Option<string>, newCommentId: Id,
                    socketThrows: bool, storeFault: bool)
    returns (status: int)
    requires newCommentId !in db.comments
    modifies db`posts, db`comments, db`outbox
    ensures !Truthy(text) ==> status == 400 && unchanged(db)
    ensures Truthy(text) && storeFault ==> status == 500 && unchanged(db)
    ensures Truthy(text) && !storeFault ==>
      db.comments == old(db.comments)[newCommentId := Comment(text.value, userId, postId)]
    ensures Truthy(text) && !storeFault && postId !in old(db.posts) ==>
      status == 500 && db.posts == old(db.posts) && db.outbox == old(db.outbox)
    ensures Truthy(text) && !storeFault && postId in old(db.posts) ==>
      var p := old(db.posts)[postId];
      var comments := p.comments + [newCommentId];
      && db.posts == old(db.posts)[postId := p.(comments := comments)]
      && status == (if p.author in db.users then 201 else 500)
      && db.outbox == old(db.outbox) +
           if p.author in db.users
           then CommentEmissions(db.users, p.author, postId, userId, comments, Emits(db.ioReady, socketThrows))
           else []
  {
    if !Truthy(text) {
      return 400;
    }
    if storeFault {
      return 500;
    }
    db.comments := db.comments[newCommentId := Comment(text.value, userId, postId)];
    if postId !in db.posts {
      return 500;
    }
    status := AttachComment(db, postId, userId, newCommentId, socketThrows);
  }

  /** Everything `addComment` does after the comment exists and the post was found. */
  method AttachComment(db: DocumentStore, postId: Id, userId: Id, commentId: Id, socketThrows: bool)
    returns (status: int)
    requires postId in db.posts
    modifies db`posts, db`outbox
    ensures var p := old(db.posts)[postId];
      var comments := p.comments + [commentId];
      && db.posts == old(db.posts)[postId := p.(comments := comments)]
      && status == (if p.author in db.users then 201 else 500)
      && db.outbox == old(db.outbox) +
           if p.author in db.users
           then CommentEmissions(db.users, p.author, postId, userId, comments, Emits(db.ioReady, socketThrows))
           else []
  {
    var post := db.posts[postId];
    var comments := post.comments + [commentId];
    db.posts := db.posts[postId := post.(comments := comments)];
    if post.author !in db.users {
      return 500;
    }
    if post.author != userId && Emits(db.ioReady, socketThrows) && userId in db.users {
      db.outbox := db.outbox + [Emission(Room(post.author), CommentNotification(db.users, post.author, postId, userId))];
    }
    if Emits(db.ioReady, socketThrows) {
      db.outbox := db.outbox + [Emission(Everyone, PostUpdate(postId, None, Some(comments), "comment"))];
    }
    return 201;
  }

  /**
   * `addComment` as evidently intended: an unknown post is answered with 404
   * before anything is written, like every other post handler does.
   */
  method AddCommentChecked(db: DocumentStore, postId: Id, userId: Id, text: Option<string>, newCommentId: Id,
                           socketThrows: bool, storeFault: bool)
    returns (status: int)
    requires newCommentId !in db.comments
    modifies db`posts, db`comments, db`outbox
    ensures !Truthy(text) ==> status == 400 && unchanged(db)
    ensures Truthy(text) && postId !in old(db.posts) ==> status == 404 && unchanged(db)
    ensures Truthy(text) && postId in old(db.posts) && storeFault ==> status == 500 && unchanged(db)
    ensures Truthy(text) && postId in old(db.posts) && !storeFault ==>
      var p := old(db.posts)[postId];
      var comments := p.comments + [newCommentId];
      && db.comments == old(db.comments)[newCommentId := Comment(text.value, userId, postId)]
      && db.posts == old(db.posts)[postId := p.(comments := comments)]
      && status == (if p.author in db.users then 201 else 500)
      && db.outbox == old(db.outbox) +
           if p.author in db.users
           then CommentEmissions(db.users, p.author, postId, userId, comments, Emits(db.ioReady, socketThrows))
           else []
    ensures status != 500 ==> forall c :: c in db.comments ==> c in old(db.comments) || db.comments[c].post in db.posts
  {
    if !Truthy(text) {
      return 400;
    }
    if postId !in db.posts {
      return 404;
    }
    if storeFault {
      return 500;
    }
    db.comments := db.comments[newCommentId := Comment(text.value, userId, postId)];
    status := AttachComment(db, postId, userId, newCommentId, socketThrows);
  }

  /**
   * `deletePost`: 404 for an unknown post, 403 unless the caller is its author.
   * Otherwise the post is deleted, dropped from the author's `posts`, and every
   * comment on it is deleted. A missing author document makes the `posts`
   * update throw after the post is gone (500, comments kept).
   */
  method DeletePost(db: DocumentStore, postId: Id, authorId: Id, storeFault: bool) returns (status: int)
    modifies db`posts, db`users, db`comments
    ensures postId !in old(db.posts) ==> status == 404 && unchanged(db)
    ensures postId in old(db.posts) && old(db.posts)[postId].author != authorId ==> status == 403 && unchanged(db)
    ensures postId in old(db.posts) && old(db.posts)[postId].author == authorId && storeFault ==>
      status == 500 && unchanged(db)
    ensures postId in old(db.posts) && old(db.posts)[postId].author == authorId && !storeFault ==>
      && db.posts == old(db.posts) - {postId}
      && (authorId !in old(db.users) ==> status == 500 && db.users == old(db.users) && db.comments == old(db.comments))
      && (authorId in old(db.users) ==>
            && status == 200
            && db.users == old(db.users)[authorId := old(db.users)[authorId].(posts := Without(old(db.users)[authorId].posts, postId))]
            && db.comments == map c | c in old(db.comments) && old(db.comments)[c].post != postId :: old(db.comments)[c])
  {
    if postId !in db.posts {
      return 404;
    }
    if db.posts[postId].author != authorId {
      return 403;
    }
    if storeFault {
      return 500;
    }
    db.posts := db.posts - {postId};
    if authorId !in db.users {
      return 500;
    }
    var user := db.users[authorId];
    db.users := db.users[authorId := user.(posts := Without(user.posts, postId))];
    db.comments := map c | c in db.comments && db.comments[c].post != postId :: db.comments[c];
    return 200;
  }

  /** After a successful delete no comment refers to the post and the author no longer lists it. */
  lemma DeleteLeavesNoTrace(comments: map<Id, Comment>, posts: seq<Id>, postId: Id)
    ensures var kept := map c | c in comments && comments[c].post != postId :: comments[c];
      && (forall c :: c in kept ==> kept[c].post != postId)
      && (forall c :: c in comments && comments[c].post != postId ==> c in kept && kept[c] == comments[c])
    ensures postId !in Without(posts, postId)
  {
  }

  /** `$pull` when present, `$addToSet` otherwise: the server-side toggle of bookmarks and favourites. */
  function Toggled(s: seq<Id>, x: Id): (r: seq<Id>)
    ensures (x in r) <==> (x !in s)
    ensures forall y :: y != x ==> (y in r <==> y in s)
  {
    if x in s then Without(s, x) else AddToSet(s, x)
  }

  /** Two toggles restore the membership of every id, and the exact list when `x` was absent. */
  lemma {:induction false} ToggledTwice(s: seq<Id>, x: Id)
    ensures forall y :: y in Toggled(Toggled(s, x), x) <==> y in s
    ensures x !in s ==> Toggled(Toggled(s, x), x) == s
    ensures NoDup(s) ==> NoDup(Toggled(s, x))
  {
    if x !in s {
      WithoutAppend(s, [x], x);
      WithoutAbsent(s, x);
      assert Without([x], x) == [];
    }
    if NoDup(s) && x in s {
      WithoutNoDup(s, x);
    }
  }

  /**
   * `bookmarkPost`: 404 for an unknown post; a missing user document makes
   * the membership check throw (500). Otherwise the post id is toggled in
   * `bookmarks` and the response type is "unsaved" or "saved".
   */
  method BookmarkPost(db: DocumentStore, postId: Id, userId: Id, storeFault: bool)
    returns (status: int, kind: string)
    modifies db`users
    ensures postId !in old(db.posts) ==> status == 404 && unchanged(db)
    ensures postId in old(db.posts) && (userId !in old(db.users) || storeFault) ==> status == 500 && unchanged(db)
    ensures postId in old(db.posts) && userId in old(db.users) && !storeFault ==>
      var u := old(db.users)[userId];
      && status == 200
      && kind == (if postId in u.bookmarks then "unsaved" else "saved")
      && db.users == old(db.users)[userId := u.(bookmarks := Toggled(u.bookmarks, postId))]
  {
    kind := "";
    if postId !in db.posts {
      return 404, kind;
    }
    if userId !in db.users || storeFault {
      return 500, kind;
    }
    var user := db.users[userId];
    kind := if postId in user.bookmarks then "unsaved" else "saved";
    db.users := db.users[userId := user.(bookmarks := Toggled(user.bookmarks, postId))];
    status := 200;
  }

  /** `favoritePost`: as `bookmarkPost`, on `favorites`, with types "unfavorited" and "favorited". */
  method FavoritePost(db: DocumentStore, postId: Id, userId: Id, storeFault: bool)
    returns (status: int, kind: string)
    modifies db`users
    ensures postId !in old(db.posts) ==> status == 404 && unchanged(db)
    ensures postId in old(db.posts) && (userId !in old(db.users) || storeFault) ==> status == 500 && unchanged(db)
    ensures postId in old(db.posts) && userId in old(db.users) && !storeFault ==>
      var u := old(db.users)[userId];
      && status == 200
      && kind == (if postId in u.favorites then "unfavorited" else "favorited")
      && db.users == old(db.users)[userId := u.(favorites := Toggled(u.favorites, postId))]
  {
    kind := "";
    if postId !in db.posts {
      return 404, kind;
    }
    if userId !in db.users || storeFault {
      return 500, kind;
    }
    var user := db.users[userId];
    kind := if postId in user.favorites then "unfavorited" else "favorited";
    db.users := db.users[userId := user.(favorites := Toggled(user.favorites, postId))];
    status := 200;
  }

  /**
   * `addNewPost`: 400 without a file; a null upload response makes reading
   * its URL throw (500); the post must pass the schema (500 otherwise). The
   * new post id is pushed onto the author's `posts` when the author exists.
   */
  method AddNewPost(db: DocumentStore, authorId: Id, caption: Option<string>, hasFile: bool,
                    uploadedUrl: Option<string>, newPostId: Id, storeFault: bool)
    returns (status: int)
    requires newPostId !in db.posts
    modifies db`posts, db`users
    ensures !hasFile ==> status == 400 && unchanged(db)
    ensures hasFile && uploadedUrl.None? ==> status == 500 && unchanged(db)
    ensures hasFile && uploadedUrl.Some? ==>
      var checked := PostSchema.Validate(PostSchema.PostInput(caption, uploadedUrl, None, None, Some(authorId)));
      && (checked.Rejected? || storeFault ==> status == 500 && unchanged(db))
      && (checked.Accepted? && !storeFault ==>
            && status == 201
            && db.posts == old(db.posts)[newPostId := checked.doc]
            && checked.doc.postType == "post" && checked.doc.author == authorId
            && db.users == if authorId in old(db.users)
                           then old(db.users)[authorId := old(db.users)[authorId].(posts := old(db.users)[authorId].posts + [newPostId])]
                           else old(db.users))
  {
    if !hasFile {
      return 400;
    }
    if uploadedUrl.None? {
      return 500;
    }
    var checked := PostSchema.Validate(PostSchema.PostInput(caption, uploadedUrl, None, None, Some(authorId)));
    if checked.Rejected? || storeFault {
      return 500;
    }
    db.posts := db.posts[newPostId := checked.doc];
    if authorId in db.users {
      var user := db.users[authorId];
      db.users := db.users[authorId := user.(posts := user.posts + [newPostId])];
    }
    return 201;
  }

  /** `getAllPost`'s filter: the posts of the (newest-first) result whose author document still exists. */
  function AuthoredFeed(feed: seq<Id>, posts: map<Id, PostSchema.PostDoc>, users: map<Id, User>): (r: seq<Id>)
    requires forall id :: id in feed ==> id in posts
    ensures forall id :: id in r <==> id in feed && posts[id].author in users
    ensures |r| <= |feed|
  {
    if feed == [] then []
    else (if posts[feed[0]].author in users then [feed[0]] else []) + AuthoredFeed(feed[1..], posts, users)
  }

  /** The filter distributes over concatenation, so it keeps the feed's order. */
  lemma {:induction false} AuthoredFeedAppend(a: seq<Id>, b: seq<Id>, posts: map<Id, PostSchema.PostDoc>,
                                              users: map<Id, User>)
    requires forall id :: id in a + b ==> id in posts
    ensures AuthoredFeed(a + b, posts, users) == AuthoredFeed(a, posts, users) + AuthoredFeed(b, posts, users)
  {
    if a != [] {
      assert (a + b)[1..] == a[1..] + b;
      AuthoredFeedAppend(a[1..], b, posts, users);
    } else {
      assert a + b == b;
    }
  }
}
