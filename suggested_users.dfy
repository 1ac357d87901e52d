/**
 * The "Suggested for you" panel (frontend/src/components/main/SuggestedUsers.jsx):
 * the per-user follow flags built in a loop over the suggestions, and the
 * follow button's updates to the flags, the user and the suggestions.
 */
module SuggestedUsers {
  import opened Wrappers
  import opened IdLists
  import Client

  /** `user.following?.some(id => id === target) || false`. */
  predicate Follows(following: Option<seq<Id>>, target: Id) {
    following.Some? && target in following.value
  }

  /** A lookup in a flags object; a missing key reads as `undefined`, which is falsy. */
  predicate Flag(flags: map<Id, bool>, k: Id) {
    k in flags && flags[k]
  }

  /** The flags object after the `forEach` over `suggested`: one entry per suggestion, in order. */
  function FlagsOf(following: Option<seq<Id>>, suggested: seq<Client.UserCard>): map<Id, bool> {
    if suggested == [] then map[]
    else
      var last := suggested[|suggested| - 1];
      FlagsOf(following, suggested[..|suggested| - 1])[last.id := Follows(following, last.id)]
  }

  /** Some suggestion has the id `k`. */
  predicate Suggests(suggested: seq<Client.UserCard>, k: Id) {
    exists i :: 0 <= i < |suggested| && suggested[i].id == k
  }

  /** The flags have exactly the suggested ids as keys, each set iff the user follows that id. */
  lemma {:induction false} FlagsOfIsMembership(following: Option<seq<Id>>, suggested: seq<Client.UserCard>)
    ensures forall k :: k in FlagsOf(following, suggested) <==> Suggests(suggested, k)
    ensures forall k :: k in FlagsOf(following, suggested) ==> FlagsOf(following, suggested)[k] == Follows(following, k)
  {
    if suggested != [] {
      var init := suggested[..|suggested| - 1];
      FlagsOfIsMembership(following, init);
      forall k | Suggests(init, k)
        ensures Suggests(suggested, k)
      {
        var i :| 0 <= i < |init| && init[i].id == k;
        assert suggested[i] == init[i];
      }
      forall k | Suggests(suggested, k) && k != suggested[|suggested| - 1].id
        ensures Suggests(init, k)
      {
        var i :| 0 <= i < |suggested| && suggested[i].id == k;
        assert init[i] == suggested[i];
      }
    }
  }

  /**
   * The effect that fills the flags: with a user and a list of suggestions it
   * sets one flag per suggestion; otherwise the flags stay as they were.
   */
  method InitFlags(me: Option<Client.UserCard>, suggested: Option<seq<Client.UserCard>>, previous: map<Id, bool>)
    returns (flags: map<Id, bool>)
    ensures me.None? || suggested.None? ==> flags == previous
    ensures me.Some? && suggested.Some? ==> flags == FlagsOf(me.value.following, suggested.value)
    ensures me.Some? && suggested.Some? ==>
              forall u :: u in suggested.value ==> u.id in flags && flags[u.id] == Follows(me.value.following, u.id)
  {
    if me.None? || suggested.None? {
      return previous;
    }
    var list := suggested.value;
    var following := me.value.following;
    flags := map[];
    for i := 0 to |list|
      invariant flags == FlagsOf(following, list[..i])
    {
      assert list[..i + 1][..i] == list[..i];
      flags := flags[list[i].id := Follows(following, list[i].id)];
    }
    assert list[..|list|] == list;
    FlagsOfIsMembership(following, list);
    forall u | u in list ensures u.id in flags {
      var i :| 0 <= i < |list| && list[i] == u;
      assert Suggests(list, u.id);
    }
  }

  /** The panel's state: the follow flags, the in-flight flags, the user and the suggestions. */
  datatype Panel = Panel(
    flags: map<Id, bool>,
    loading: map<Id, bool>,
    user: Option<Client.UserCard>,
    suggested: seq<Client.UserCard>)

  /**
   * `handleFollow`: ignored without a user or while a request for that id is
   * in flight. On success the target's flag flips, `following` (when present)
   * loses or gains the target, and the target's entry among the suggestions
   * loses or gains the user as a follower. The in-flight flag is cleared
   * whatever the outcome.
   */
  function HandleFollow(p: Panel, target: Id, succeeded: bool): (r: Panel)
    ensures p.user.None? || Flag(p.loading, target) ==> r == p
    ensures p.user.Some? && !Flag(p.loading, target) ==>
              && !Flag(r.loading, target) && target in r.loading
              && (forall k :: k != target ==> (k in r.loading <==> k in p.loading))
              && (forall k :: k != target && k in p.loading ==> r.loading[k] == p.loading[k])
              && r.user.Some? && r.user.value.id == p.user.value.id
              && |r.suggested| == |p.suggested|
              && (forall i :: 0 <= i < |p.suggested| && p.suggested[i].id != target ==> r.suggested[i] == p.suggested[i])
    ensures p.user.Some? && !Flag(p.loading, target) && !succeeded ==>
              r.flags == p.flags && r.user == p.user && r.suggested == p.suggested
    ensures p.user.Some? && !Flag(p.loading, target) && succeeded ==>
              && Flag(r.flags, target) == !Flag(p.flags, target)
              && (forall k :: k != target ==> (k in r.flags <==> k in p.flags))
              && (forall k :: k != target && k in p.flags ==> r.flags[k] == p.flags[k])
    ensures p.user.Some? && !Flag(p.loading, target) && succeeded && p.user.value.following.Some? ==>
              r.user == Some(p.user.value.(following := Some(Toggle(p.user.value.following.value, Flag(p.flags, target), target))))
    ensures p.user.Some? && p.user.value.following.None? ==> r.user == p.user
    ensures p.user.Some? && !Flag(p.loading, target) && succeeded ==>
              forall i :: 0 <= i < |p.suggested| && p.suggested[i].id == target ==>
                r.suggested[i] == p.suggested[i].(followers := Some(Toggle(p.suggested[i].followers.GetOr([]), Flag(p.flags, target), p.user.value.id)))
  {
    if p.user.None? || Flag(p.loading, target) then p
    else
      var me := p.user.value;
      var was := Flag(p.flags, target);
      var settled :=
        if !succeeded then p
        else
          p.(flags := p.flags[target := !was],
             user := Some(if me.following.Some? then me.(following := Some(Toggle(me.following.value, was, target))) else me),
             suggested := seq(|p.suggested|, i requires 0 <= i < |p.suggested| =>
               if p.suggested[i].id == target
               then p.suggested[i].(followers := Some(Toggle(p.suggested[i].followers.GetOr([]), was, me.id)))
               else p.suggested[i]));
      settled.(loading := p.loading[target := false])
  }

  /**
   * When the target's flag agrees with the user's `following` and with the
   * target's followers, a successful request keeps all three in agreement.
   */
  lemma FollowKeepsFlagAccurate(p: Panel, target: Id, i: nat)
    requires p.user.Some? && !Flag(p.loading, target)
    requires p.user.value.following.Some? && i < |p.suggested| && p.suggested[i].id == target
    requires Flag(p.flags, target) == Follows(p.user.value.following, target)
    requires Flag(p.flags, target) == (p.user.value.id in p.suggested[i].followers.GetOr([]))
    ensures var r := HandleFollow(p, target, true);
            && Flag(r.flags, target) == Follows(r.user.value.following, target)
            && Flag(r.flags, target) == (r.user.value.id in r.suggested[i].followers.GetOr([]))
  {
    var me := p.user.value;
    ToggleFlips(me.following.value, target);
    ToggleFlips(p.suggested[i].followers.GetOr([]), me.id);
  }
}
