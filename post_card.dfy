/**
 * A post in the feed (frontend/src/components/main/Post.jsx): the render guard,
 * the comment input, the like button with its local count, the comment list,
 * and the follow button on the author. Each handler computes new values and
 * hands them to setters; the model gives those values as functions.
 */
module PostCard {
  import opened Wrappers
  import opened IdLists
  import Client
  import PostsView

  /** The card renders only with a post and its author. */
  predicate Renders(post: Option<Client.ClientPost>) {
    post.Some? && post.value.author.Some?
  }

  /** The like button's local state: whether the user likes the post, and the count shown. */
  datatype LikeButton = LikeButton(liked: bool, count: int)

  /** The state on mount: liked iff the post's likes include the user, the count is the number of likes. */
  function InitialLike(post: Client.ClientPost, me: Option<Id>): (r: LikeButton)
    ensures r.liked <==> me.Some? && me.value in post.likes
    ensures r.count == |post.likes|
  {
    LikeButton(me.Some? && me.value in post.likes, |post.likes|)
  }

  /** `likeOrDislikeHandler`: on success the flag flips and the count moves by one; on failure nothing changes. */
  function OnLikeResult(b: LikeButton, succeeded: bool): (r: LikeButton)
    ensures !succeeded ==> r == b
    ensures succeeded ==> r.liked == !b.liked && r.count == if b.liked then b.count - 1 else b.count + 1
  {
    if !succeeded then b
    else LikeButton(!b.liked, if b.liked then b.count - 1 else b.count + 1)
  }

  /** The list the server stores after the request the button sends (`$pull` for a dislike, `$addToSet` for a like). */
  function StoredAfter(likes: seq<Id>, me: Id, wasLiked: bool): seq<Id> {
    if wasLiked then Without(likes, me) else AddToSet(likes, me)
  }

  /**
   * Starting from the state on mount, a successful click leaves the button
   * showing exactly the like state and count the server then stores.
   */
  lemma LikeButtonMatchesStore(post: Client.ClientPost, me: Id)
    requires NoDup(post.likes)
    ensures var b := InitialLike(post, Some(me));
            var r := OnLikeResult(b, true);
            var stored := StoredAfter(post.likes, me, b.liked);
            r.count == |stored| && (r.liked <==> me in stored) && NoDup(stored)
  {
    if me in post.likes {
      OnceInNoDup(post.likes, me);
      WithoutNoDup(post.likes, me);
      assert |Without(post.likes, me)| == |multiset(Without(post.likes, me))|;
    }
  }

  /** The store's posts after a successful click: only the posts with this id lose or gain the user's like. */
  function FeedAfterLike(posts: seq<Client.ClientPost>, postId: Id, me: Id, wasLiked: bool): (r: seq<Client.ClientPost>)
    ensures |r| == |posts|
    ensures forall i :: 0 <= i < |posts| && posts[i].id != postId ==> r[i] == posts[i]
    ensures forall i :: 0 <= i < |posts| && posts[i].id == postId ==>
              r[i].id == postId && r[i].comments == posts[i].comments
              && (me in r[i].likes <==> !wasLiked)
              && forall x :: x != me ==> (x in r[i].likes <==> x in posts[i].likes)
  {
    Client.MapMatching(posts, postId, (p: Client.ClientPost) => p.(likes := if wasLiked then Without(p.likes, me) else p.likes + [me]))
  }

  /**
   * When the click's flag agrees with each copy of the post (liked iff its
   * likes list the user), the feed's copies hold exactly the list the server
   * stores after the request.
   */
  lemma FeedLikesMatchStore(posts: seq<Client.ClientPost>, postId: Id, me: Id, wasLiked: bool)
    requires forall i :: 0 <= i < |posts| && posts[i].id == postId ==> (wasLiked <==> me in posts[i].likes)
    ensures var r := FeedAfterLike(posts, postId, me, wasLiked);
            forall i :: 0 <= i < |posts| && posts[i].id == postId ==> r[i].likes == StoredAfter(posts[i].likes, me, wasLiked)
  {
  }

  /** `commentHandler`: the returned comment is appended to the card's list. */
  function OnCommentAdded(local: seq<Id>, comment: Id): (r: seq<Id>)
    ensures |r| == |local| + 1 && r[..|local|] == local && r[|local|] == comment
  {
    local + [comment]
  }

  /** The store's posts after a comment: the posts with this id take the card's list, no other post changes. */
  function FeedAfterComment(posts: seq<Client.ClientPost>, postId: Id, local: seq<Id>): (r: seq<Client.ClientPost>)
    ensures |r| == |posts|
    ensures forall i :: 0 <= i < |posts| && posts[i].id != postId ==> r[i] == posts[i]
    ensures forall i :: 0 <= i < |posts| && posts[i].id == postId ==>
              r[i].comments == local && r[i].likes == posts[i].likes && r[i].id == postId
  {
    Client.MapMatching(posts, postId, (p: Client.ClientPost) => p.(comments := local))
  }

  /** `isFollowingAuthor` as the effect computes it: the user's `following` lists the author. */
  function FollowsAuthor(me: Client.UserCard, author: Id): bool {
    me.following.Some? && author in me.following.value
  }

  /** The follow button may send its request: there is an author and a user, they differ, and no request is in flight. */
  predicate MayFollow(author: Option<Id>, me: Option<Client.UserCard>, loading: bool) {
    author.Some? && me.Some? && me.value.id != author.value && !loading
  }

  /** The follow button's flag and the user record after a request. */
  datatype FollowResult = FollowResult(following: bool, user: Client.UserCard)

  /**
   * `handleFollowUnfollow` after the request: on success the flag flips and, if
   * the user record has a `following` list, the author is filtered out of it
   * (flag set) or appended (flag clear).
   */
  function OnFollowResult(me: Client.UserCard, author: Id, flag: bool, succeeded: bool): (r: FollowResult)
    ensures !succeeded ==> r == FollowResult(flag, me)
    ensures succeeded ==> r.following == !flag && r.user.id == me.id
    ensures succeeded && me.following.Some? ==> r.user.following == Some(Toggle(me.following.value, flag, author))
    ensures me.following.None? ==> r.user == me
  {
    if !succeeded then FollowResult(flag, me)
    else if me.following.None? then FollowResult(!flag, me)
    else FollowResult(!flag, me.(following := Some(Toggle(me.following.value, flag, author))))
  }

  /** The follow button's state: the flag, the signed-in user, and whether a request is in flight. */
  datatype FollowButton = FollowButton(following: bool, user: Option<Client.UserCard>, loading: bool)

  /**
   * `handleFollowUnfollow` as a whole: with no author, no user, the user's own
   * post or a request in flight it returns at once; otherwise the request's
   * outcome is applied as `OnFollowResult` says and the loading flag is
   * cleared in `finally`.
   */
  function HandleFollowUnfollow(b: FollowButton, author: Option<Id>, succeeded: bool): (r: FollowButton)
    ensures !MayFollow(author, b.user, b.loading) ==> r == b
    ensures MayFollow(author, b.user, b.loading) ==> !r.loading && r.user.Some? && r.user.value.id == b.user.value.id
    ensures MayFollow(author, b.user, b.loading) && !succeeded ==> r == b
    ensures MayFollow(author, b.user, b.loading) && succeeded ==>
              r.following == !b.following
              && (b.user.value.following.Some? ==>
                    r.user.value.following == Some(Toggle(b.user.value.following.value, b.following, author.value)))
              && (b.user.value.following.None? ==> r.user == b.user)
  {
    if !MayFollow(author, b.user, b.loading) then b
    else
      var res := OnFollowResult(b.user.value, author.value, b.following, succeeded);
      FollowButton(res.following, Some(res.user), false)
  }

  /** The follow button on one's own post does nothing, whatever the request would have answered. */
  lemma OwnPostFollowIsNoop(b: FollowButton, succeeded: bool)
    requires b.user.Some?
    ensures HandleFollowUnfollow(b, Some(b.user.value.id), succeeded) == b
  {
  }

  /** Every post the home feed passes to a card is one the card renders. */
  lemma FeedCardsRender(posts: Option<seq<Option<Client.ClientPost>>>)
    ensures forall p :: p in PostsView.ValidPosts(posts) ==> Renders(Some(p))
  {
    var r := PostsView.ValidPosts(posts);
    forall p | p in r ensures Renders(Some(p)) {
      var i :| 0 <= i < |r| && r[i] == p;
    }
  }

  /** A flag computed from the user record stays in step with it through a successful follow or unfollow. */
  lemma FollowFlagStaysAccurate(me: Client.UserCard, author: Id)
    requires me.following.Some? && NoDup(me.following.value)
    ensures var r := OnFollowResult(me, author, FollowsAuthor(me, author), true);
            r.following == FollowsAuthor(r.user, author) && NoDup(r.user.following.value)
  {
    ToggleFlips(me.following.value, author);
    ToggleNoDup(me.following.value, author);
  }
}
