/**
 * A profile page (frontend/src/components/main/Profile.jsx): the follow flag,
 * the follow button's updates to the user and the shown profile, and the tab
 * that picks the grid.
 */
module Profile {
  import opened Wrappers
  import opened IdLists
  import Client
  import Store
  import UserController

  /** The id of an optional record (`x?._id`). */
  function IdOf(u: Option<Client.UserCard>): Option<Id> {
    if u.Some? then Some(u.value.id) else None
  }

  /** `isLoggedInUserProfile`: the two ids compare equal, which two absent ids also do. */
  predicate OwnProfile(me: Option<Client.UserCard>, profile: Option<Client.UserCard>) {
    IdOf(me) == IdOf(profile)
  }

  /**
   * The follow flag after the effect runs: for someone else's profile it is
   * whether the user's `following` lists the profile; otherwise it keeps its
   * previous value.
   */
  function FollowingFlag(me: Option<Client.UserCard>, profile: Option<Client.UserCard>, previous: bool): (r: bool)
    ensures me.Some? && profile.Some? && !OwnProfile(me, profile) ==>
              (r <==> me.value.following.Some? && profile.value.id in me.value.following.value)
    ensures me.None? || profile.None? || OwnProfile(me, profile) ==> r == previous
  {
    if me.Some? && profile.Some? && !OwnProfile(me, profile) then
      me.value.following.Some? && profile.value.id in me.value.following.value
    else previous
  }

  /** The button does something only with a user and a profile that is not the user's own. */
  predicate MayFollow(me: Option<Client.UserCard>, profile: Option<Client.UserCard>) {
    me.Some? && profile.Some? && !OwnProfile(me, profile)
  }

  /** The flag, the user and the shown profile after a follow request. */
  datatype FollowUpdate = FollowUpdate(following: bool, user: Client.UserCard, profile: Client.UserCard)

  /**
   * `handleFollowUnfollow` after the request: on success the flag flips, the
   * profile id leaves or joins the user's `following`, and the user id leaves
   * or joins the profile's `followers`; a list that is absent stays absent.
   */
  function OnFollowResult(me: Client.UserCard, profile: Client.UserCard, flag: bool, succeeded: bool): (r: FollowUpdate)
    ensures !succeeded ==> r == FollowUpdate(flag, me, profile)
    ensures succeeded ==> r.following == !flag
    ensures r.user.id == me.id && r.profile.id == profile.id
    ensures r.user.following.Some? <==> me.following.Some?
    ensures r.profile.followers.Some? <==> profile.followers.Some?
    ensures succeeded && me.following.Some? ==> r.user.following.value == Toggle(me.following.value, flag, profile.id)
    ensures succeeded && profile.followers.Some? ==> r.profile.followers.value == Toggle(profile.followers.value, flag, me.id)
  {
    if !succeeded then FollowUpdate(flag, me, profile)
    else
      var user := if me.following.Some? then me.(following := Some(Toggle(me.following.value, flag, profile.id))) else me;
      var shown := if profile.followers.Some? then profile.(followers := Some(Toggle(profile.followers.value, flag, me.id))) else profile;
      FollowUpdate(!flag, user, shown)
  }

  /** The page's follow state: the flag, the signed-in user and the shown profile. */
  datatype ProfileState = ProfileState(following: bool, user: Option<Client.UserCard>, profile: Option<Client.UserCard>)

  /**
   * `handleFollowUnfollow` as a whole: without a user or a profile, or on the
   * user's own profile, it returns at once; otherwise the request's outcome is
   * applied as `OnFollowResult` says.
   */
  function HandleFollowUnfollow(s: ProfileState, succeeded: bool): (r: ProfileState)
    ensures !MayFollow(s.user, s.profile) ==> r == s
    ensures MayFollow(s.user, s.profile) && !succeeded ==> r == s
    ensures MayFollow(s.user, s.profile) && succeeded ==>
              && r.following == !s.following
              && r.user.Some? && r.user.value.id == s.user.value.id
              && r.profile.Some? && r.profile.value.id == s.profile.value.id
              && (s.user.value.following.Some? ==>
                    r.user.value.following == Some(Toggle(s.user.value.following.value, s.following, s.profile.value.id)))
              && (s.profile.value.followers.Some? ==>
                    r.profile.value.followers == Some(Toggle(s.profile.value.followers.value, s.following, s.user.value.id)))
              && (s.user.value.following.None? ==> r.user.value.following.None?)
              && (s.profile.value.followers.None? ==> r.profile.value.followers.None?)
  {
    if !MayFollow(s.user, s.profile) then s
    else
      var res := OnFollowResult(s.user.value, s.profile.value, s.following, succeeded);
      ProfileState(res.following, Some(res.user), Some(res.profile))
  }

  /** On one's own profile the button does nothing, whatever the request would have answered. */
  lemma OwnProfileFollowIsNoop(s: ProfileState, succeeded: bool)
    requires s.user.Some? && s.profile == s.user
    ensures HandleFollowUnfollow(s, succeeded) == s
  {
  }

  /**
   * With both records as the server sent them and the flag computed from them,
   * a successful request leaves the client holding exactly the lists the
   * server's toggle stores.
   */
  lemma FollowMatchesServer(users: map<Id, Store.User>, a: Id, b: Id, me: Client.UserCard, profile: Client.UserCard)
    requires a in users && b in users && a != b
    requires me.id == a && me.following == Some(users[a].following)
    requires profile.id == b && profile.followers == Some(users[b].followers)
    ensures var r := OnFollowResult(me, profile, FollowingFlag(Some(me), Some(profile), false), true);
            var s := UserController.FollowToggle(users, a, b);
            r.user.following == Some(s[a].following) && r.profile.followers == Some(s[b].followers)
            && (r.following <==> b in s[a].following)
  {
  }

  /** The grid: the profile's posts on the "posts" tab, its bookmarks on every other tab, `[]` when absent. */
  function DisplayedPosts(profile: Option<Client.UserCard>, tab: string): (r: seq<Id>)
    ensures tab == "posts" && profile.Some? && profile.value.posts.Some? ==> r == profile.value.posts.value
    ensures tab != "posts" && profile.Some? && profile.value.bookmarks.Some? ==> r == profile.value.bookmarks.value
    ensures profile.None? ==> r == []
  {
    if profile.None? then []
    else if tab == "posts" then profile.value.posts.GetOr([])
    else profile.value.bookmarks.GetOr([])
  }
}
