/** The home feed list (frontend/src/components/main/Posts.jsx). */
module PostsView {
  import opened Wrappers
  import Client

  /** An entry the feed shows: it has an author and is a regular post. */
  predicate Showable(p: Client.ClientPost) {
    p.author.Some? && p.postType == "post"
  }

  /** `validPosts`: the non-null entries with an author whose type is "post", in feed order; no feed gives `[]`. */
  function ValidPosts(posts: Option<seq<Option<Client.ClientPost>>>): (r: seq<Client.ClientPost>)
    ensures forall i :: 0 <= i < |r| ==> r[i].author.Some? && r[i].postType == "post"
    ensures posts.None? ==> r == []
    ensures posts.Some? ==> |r| <= |posts.value|
  {
    if posts.None? then [] else Client.Present(posts.value, Showable)
  }

  /** The feed is a plain filter: a longer feed shows what the shorter one did, then what the new entries add. */
  lemma ValidPostsKeepOrder(a: seq<Option<Client.ClientPost>>, b: seq<Option<Client.ClientPost>>)
    ensures ValidPosts(Some(a + b)) == ValidPosts(Some(a)) + ValidPosts(Some(b))
    ensures forall p :: Some(p) in a && Showable(p) ==> p in ValidPosts(Some(a))
  {
    Client.PresentAppend(a, b, Showable);
    forall p | Some(p) in a && Showable(p) ensures p in ValidPosts(Some(a)) {
      var i :| 0 <= i < |a| && a[i] == Some(p);
    }
  }
}
