/**
 * The followers / following list (frontend/src/components/main/FollowersPage.jsx):
 * which list the page fetches, the sync of the user's own `following`, the
 * follow button's update and the labels around the list.
 */
module FollowersPage {
  import opened Wrappers
  import opened IdLists
  import opened Text
  import Client
  import Store
  import UserController

  /** `isFollowersPage`: the path contains "/followers". */
  predicate IsFollowersPage(path: string) {
    Contains(path, "/followers")
  }

  /** The list endpoint for the profile `id`. */
  function Endpoint(path: string, id: Id): (r: string)
    ensures IsFollowersPage(path) ==> r == "/user/" + id + "/followers"
    ensures !IsFollowersPage(path) ==> r == "/user/" + id + "/following"
    ensures r[..6] == "/user/" && r[6..6 + |id|] == id
  {
    "/user/" + id + (if IsFollowersPage(path) then "/followers" else "/following")
  }

  /** The body of a successful list response: both lists as the server sends them. */
  datatype ListResponse = ListResponse(followers: seq<Client.UserCard>, following: seq<Client.UserCard>)

  /** The list the page takes from a response: `followers` on a followers page, `following` otherwise. */
  function Picked(path: string, res: ListResponse): (r: seq<Client.UserCard>)
    ensures r == res.followers <==> IsFollowersPage(path) || res.followers == res.following
    ensures !IsFollowersPage(path) ==> r == res.following
  {
    if IsFollowersPage(path) then res.followers else res.following
  }

  /** The ids of a list of users, in order. */
  function Ids(users: seq<Client.UserCard>): (r: seq<Id>)
    ensures |r| == |users| && forall i :: 0 <= i < |users| ==> r[i] == users[i].id
  {
    seq(|users|, i requires 0 <= i < |users| => users[i].id)
  }

  /**
   * The user after the page's fetch: on one's own following page `following`
   * becomes the fetched ids; otherwise the user is untouched.
   */
  function SyncedUser(path: string, id: Id, me: Option<Client.UserCard>, fetched: seq<Client.UserCard>): (r: Option<Client.UserCard>)
    ensures !IsFollowersPage(path) && me.Some? && me.value.id == id ==>
              r.Some? && r.value.following == Some(Ids(fetched)) && r.value.id == me.value.id
              && r.value.followers == me.value.followers && r.value.bookmarks == me.value.bookmarks
    ensures IsFollowersPage(path) || me.None? || me.value.id != id ==> r == me
  {
    if !IsFollowersPage(path) && me.Some? && me.value.id == id then
      Some(me.value.(following := Some(Ids(fetched))))
    else me
  }

  /** `isFollowing`: the user's `following` lists the target; no user or no list is false. */
  predicate IsFollowing(me: Option<Client.UserCard>, target: Id) {
    me.Some? && me.value.following.Some? && target in me.value.following.value
  }

  /** After the sync on one's own following page, every fetched row shows as followed. */
  lemma SyncedRowsShowFollowed(path: string, me: Client.UserCard, fetched: seq<Client.UserCard>)
    requires !IsFollowersPage(path)
    ensures var r := SyncedUser(path, me.id, Some(me), fetched);
            forall i :: 0 <= i < |fetched| ==> IsFollowing(r, fetched[i].id)
  {
    var r := SyncedUser(path, me.id, Some(me), fetched);
    forall i | 0 <= i < |fetched| ensures IsFollowing(r, fetched[i].id) {
      assert Ids(fetched)[i] == fetched[i].id;
    }
  }

  /** The follow button is shown on every row except the user's own (two absent ids compare equal). */
  predicate ShowsFollowButton(me: Option<Client.UserCard>, row: Client.UserCard) {
    me.None? || me.value.id != row.id
  }

  /** The page's state around a follow request. */
  datatype Page = Page(user: Option<Client.UserCard>, users: seq<Client.UserCard>, inProgress: map<Id, bool>)

  /** `followingInProgress[id]`, with a missing key reading as false. */
  predicate InProgress(p: Page, id: Id) {
    id in p.inProgress && p.inProgress[id]
  }

  /** The follow button of a row: none, or a button with its label ("" while the spinner shows) and whether it is disabled. */
  datatype RowButton = NoButton | Button(caption: string, disabled: bool)

  /** The button drawn on a row: never on the user's own row; a spinner while in flight, else "Following" or "Follow". */
  function RowButtonOf(p: Page, row: Client.UserCard): (r: RowButton)
    ensures r.Button? <==> ShowsFollowButton(p.user, row)
    ensures r.Button? ==> (r.disabled <==> InProgress(p, row.id))
    ensures r.Button? && r.disabled ==> r.caption == ""
    ensures r.Button? && !r.disabled ==> (r.caption == "Following" <==> IsFollowing(p.user, row.id))
    ensures r.Button? && !r.disabled ==> (r.caption == "Follow" <==> !IsFollowing(p.user, row.id))
  {
    if !ShowsFollowButton(p.user, row) then NoButton
    else if InProgress(p, row.id) then Button("", true)
    else if IsFollowing(p.user, row.id) then Button("Following", false)
    else Button("Follow", false)
  }

  /** On one's own following page, after the sync every other row's idle button reads "Following". */
  lemma SyncedButtonsReadFollowing(path: string, me: Client.UserCard, fetched: seq<Client.UserCard>, inProgress: map<Id, bool>)
    requires !IsFollowersPage(path)
    ensures var p := Page(SyncedUser(path, me.id, Some(me), fetched), fetched, inProgress);
            forall i :: 0 <= i < |fetched| && RowButtonOf(p, fetched[i]) != NoButton && !InProgress(p, fetched[i].id) ==>
              RowButtonOf(p, fetched[i]).caption == "Following"
  {
    SyncedRowsShowFollowed(path, me, fetched);
  }

  /**
   * `handleFollow`: on success, with a user that has a `following` list, the
   * target is filtered out of it (followed) or appended (not followed), and a
   * successful refetch replaces the rows. Without a user or a list the update
   * throws and nothing but the flag changes. The flag is cleared whatever the outcome.
   */
  function HandleFollow(p: Page, path: string, target: Id, succeeded: bool, refetched: Option<ListResponse>): (r: Page)
    ensures !InProgress(r, target) && target in r.inProgress
    ensures forall k :: k != target ==> (k in r.inProgress <==> k in p.inProgress)
    ensures forall k :: k != target && k in p.inProgress ==> r.inProgress[k] == p.inProgress[k]
    ensures !succeeded || p.user.None? || p.user.value.following.None? ==> r.user == p.user && r.users == p.users
    ensures succeeded && p.user.Some? && p.user.value.following.Some? ==>
              && r.user == Some(p.user.value.(following := Some(Toggle(p.user.value.following.value, IsFollowing(p.user, target), target))))
              && r.users == (if refetched.Some? then Picked(path, refetched.value) else p.users)
  {
    var settled :=
      if !succeeded || p.user.None? || p.user.value.following.None? then p
      else
        var me := p.user.value;
        var list := me.following.value;
        p.(user := Some(me.(following := Some(Toggle(list, IsFollowing(p.user, target), target)))),
           users := if refetched.Some? then Picked(path, refetched.value) else p.users);
    settled.(inProgress := p.inProgress[target := false])
  }

  /**
   * With the user's `following` as the server stores it, a successful click
   * leaves it equal to the server's list after the toggle, and `isFollowing`
   * then agrees with the server.
   */
  lemma FollowMatchesServer(users: map<Id, Store.User>, a: Id, b: Id, p: Page, path: string, refetched: Option<ListResponse>)
    requires a in users && b in users && a != b
    requires p.user.Some? && p.user.value.id == a && p.user.value.following == Some(users[a].following)
    ensures var r := HandleFollow(p, path, b, true, refetched);
            var s := UserController.FollowToggle(users, a, b);
            r.user.Some? && r.user.value.following == Some(s[a].following)
            && (IsFollowing(r.user, b) <==> !IsFollowing(p.user, b))
  {
    ToggleFlips(users[a].following, b);
  }

  /** The count label: "person" for exactly one row, "people" otherwise. */
  function CountLabel(n: nat): (r: string)
    ensures r == "person" <==> n == 1
    ensures r == "people" <==> n != 1
  {
    if n == 1 then "person" else "people"
  }
}
