/**
 * A reel (frontend/src/components/main/ReelCard.jsx): the like flag and the
 * count shown beside it, the bookmark and follow buttons, and the delete
 * action on the feed.
 */
module ReelCard {
  import opened Wrappers
  import opened IdLists
  import opened Records
  import Client
  import PostCard

  /** The like flag on mount: the reel's likes include the user. */
  function InitialLiked(reel: Client.ClientPost, me: Option<Id>): (r: bool)
    ensures r <==> me.Some? && me.value in reel.likes
  {
    me.Some? && me.value in reel.likes
  }

  /** `likeHandler`: the flag flips only when the like or dislike request succeeds. */
  function OnLikeResult(liked: bool, succeeded: bool): (r: bool)
    ensures r != liked <==> succeeded
  {
    if succeeded then !liked else liked
  }

  /**
   * The count shown, as written: the reel's likes, plus one while the flag is
   * set and the list does not have the user yet. Nothing is taken off when the
   * flag is cleared on a reel whose list still has the user.
   */
  function DisplayedLikes(likes: seq<Id>, liked: bool, me: Option<Id>): int {
    |likes| + (if liked && !(me.Some? && me.value in likes) then 1 else 0)
  }

  /**
   * The count as evidently intended: the likes of everyone else, plus one for
   * the user while the flag is set.
   */
  function DisplayedLikesFixed(likes: seq<Id>, liked: bool, me: Option<Id>): (r: int)
    ensures r >= 0
    ensures me.None? ==> r == |likes| + (if liked then 1 else 0)
  {
    (if me.Some? then |Without(likes, me.value)| else |likes|) + (if liked then 1 else 0)
  }

  /**
   * Unliking a reel the user had liked: the as-written count still shows the
   * user's like (1 for a reel only the user liked) while the server stores 0,
   * and it stays wrong until a `postUpdate` broadcast replaces the reel's list.
   */
  lemma UnlikeKeepsStaleCount()
    ensures var likes := ["u"];
            var liked := OnLikeResult(InitialLiked(Client.ClientPost("r", Some("a"), "reel", likes, []), Some("u")), true);
            DisplayedLikes(likes, liked, Some("u")) == 1
            && |PostCard.StoredAfter(likes, "u", true)| == 0
  {
    assert Without(["u"], "u") == [];
  }

  /**
   * The corrected count agrees with the server after a successful like or
   * unlike, both before and after the broadcast list replaces the reel's own.
   */
  lemma FixedCountMatchesStore(reel: Client.ClientPost, me: Id)
    requires NoDup(reel.likes)
    ensures var wasLiked := InitialLiked(reel, Some(me));
            var liked := OnLikeResult(wasLiked, true);
            var stored := PostCard.StoredAfter(reel.likes, me, wasLiked);
            DisplayedLikesFixed(reel.likes, liked, Some(me)) == |stored|
            && DisplayedLikesFixed(stored, liked, Some(me)) == |stored|
  {
    var likes := reel.likes;
    WithoutNoDup(likes, me);
    if me in likes {
      OnceInNoDup(likes, me);
      assert |Without(likes, me)| == |multiset(Without(likes, me))|;
      WithoutAbsent(Without(likes, me), me);
    } else {
      WithoutAbsent(likes, me);
      WithoutAppend(likes, [me], me);
      assert Without([me], me) == [];
    }
  }

  /** On a like, the as-written count is right: it differs from the corrected one only after an unlike. */
  lemma LikeCountAgrees(likes: seq<Id>, me: Id)
    requires me !in likes
    ensures DisplayedLikes(likes, true, Some(me)) == DisplayedLikesFixed(likes, true, Some(me)) == |likes| + 1
  {
    WithoutAbsent(likes, me);
  }

  /** `bookmarkHandler` on success: the reel id leaves `bookmarks` if it is there, otherwise it is appended. */
  function OnBookmarkResult(me: Client.UserCard, reelId: Id): (r: Client.UserCard)
    ensures r.id == me.id && r.following == me.following && r.bookmarks.Some?
    ensures reelId in r.bookmarks.value <==> !(me.bookmarks.Some? && reelId in me.bookmarks.value)
    ensures forall x :: x != reelId ==> (x in r.bookmarks.value <==> me.bookmarks.Some? && x in me.bookmarks.value)
  {
    var marks := me.bookmarks.GetOr([]);
    ToggleFlips(marks, reelId);
    me.(bookmarks := Some(Toggle(marks, reelId in marks, reelId)))
  }

  /** What the follow button leads to. */
  datatype ReelFollow = LoginFirst | OwnReel | Settled(following: bool, user: Client.UserCard)

  /**
   * `handleFollowUnfollow`: no user asks to log in, the user's own reel does
   * nothing. On success the flag flips first; then the author is filtered out
   * of `following` (flag set: a missing list throws, so the record is kept) or
   * appended to it (a missing list counts as empty). A failed request, or a
   * reel without an author, changes neither.
   */
  function OnFollow(me: Option<Client.UserCard>, author: Option<Id>, flag: bool, succeeded: bool): (r: ReelFollow)
    ensures r.LoginFirst? <==> me.None?
    ensures r.OwnReel? <==> me.Some? && author == Some(me.value.id)
    ensures r.Settled? && (!succeeded || author.None?) ==> r == Settled(flag, me.value)
    ensures r.Settled? && succeeded && author.Some? ==>
              r.following == !flag && r.user.id == me.value.id && r.user.bookmarks == me.value.bookmarks
    ensures r.Settled? && succeeded && author.Some? && (me.value.following.Some? || !flag) ==>
              r.user.following.Some? && (author.value in r.user.following.value <==> !flag)
  {
    if me.None? then LoginFirst
    else if author == Some(me.value.id) then OwnReel
    else if !succeeded || author.None? then Settled(flag, me.value)
    else if flag && me.value.following.None? then Settled(!flag, me.value)
    else
      var list := me.value.following.GetOr([]);
      Settled(!flag, me.value.(following := Some(Toggle(list, flag, author.value))))
  }

  /** `deleteReelHandler` on success: exactly the feed entries with the reel's id go, the rest keep their order. */
  function FeedAfterDelete(posts: seq<Client.ClientPost>, reelId: Id): (r: seq<Client.ClientPost>)
    ensures !HasKey(r, Client.PostKey, reelId)
    ensures forall i :: 0 <= i < |posts| && posts[i].id != reelId ==> posts[i] in r
    ensures forall p :: p in r ==> p in posts
    ensures forall i :: 0 <= i < |posts| && posts[i].id != reelId ==> multiset(r)[posts[i]] == multiset(posts)[posts[i]]
    ensures r == DropKey(posts, Client.PostKey, reelId)
  {
    forall i | 0 <= i < |posts| && posts[i].id != reelId
      ensures multiset(DropKey(posts, Client.PostKey, reelId))[posts[i]] == multiset(posts)[posts[i]]
    {
      DropKeyCount(posts, Client.PostKey, reelId, posts[i]);
    }
    DropKey(posts, Client.PostKey, reelId)
  }
}
