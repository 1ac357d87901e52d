/**
 * The records the React client keeps in its Redux store and component state.
 * Populated references (a post's author, its comments) are represented by
 * their ids; the display fields the model never reads are left out.
 */
module Client {
  import opened Wrappers
  import opened IdLists

  /** A user as the client holds one: the logged-in user, a profile, a list entry. */
  datatype UserCard = UserCard(
    id: Id,
    username: string,
    following: Option<seq<Id>>,
    followers: Option<seq<Id>>,
    posts: Option<seq<Id>>,
    bookmarks: Option<seq<Id>>)

  /** A post or reel as the feed holds it; `author` is absent when the author was deleted. */
  datatype ClientPost = ClientPost(
    id: Id,
    author: Option<Id>,
    postType: string,
    likes: seq<Id>,
    comments: seq<Id>)

  /** A story as the tray and the viewer hold it; `author` is the populated author's id. */
  datatype StoryItem = StoryItem(id: Id, author: Option<Id>, image: Option<string>, video: Option<string>)

  /** The key `_id` of a user record. */
  function UserKey(u: UserCard): Id {
    u.id
  }

  /** The key `_id` of a post record. */
  function PostKey(p: ClientPost): Id {
    p.id
  }

  /** `posts.filter(p => p && keep(p))`: the non-null entries that pass, in order. */
  function Present(s: seq<Option<ClientPost>>, keep: ClientPost -> bool): (r: seq<ClientPost>)
    ensures |r| <= |s|
    ensures forall i :: 0 <= i < |r| ==> keep(r[i]) && Some(r[i]) in s
    ensures forall i :: 0 <= i < |s| && s[i].Some? && keep(s[i].value) ==> s[i].value in r
  {
    if s == [] then []
    else
      assert forall i :: 1 <= i < |s| ==> s[i] == s[1..][i - 1];
      (if s[0].Some? && keep(s[0].value) then [s[0].value] else []) + Present(s[1..], keep)
  }

  /** Filtering a concatenation filters each side, so the kept posts keep their relative order. */
  lemma {:induction false} PresentAppend(a: seq<Option<ClientPost>>, b: seq<Option<ClientPost>>, keep: ClientPost -> bool)
    ensures Present(a + b, keep) == Present(a, keep) + Present(b, keep)
  {
    if a == [] {
      assert a + b == b;
    } else {
      assert (a + b)[1..] == a[1..] + b;
      PresentAppend(a[1..], b, keep);
    }
  }

  /** `posts.map(p => p._id === id ? f(p) : p)`: every post with that id is rewritten, no other. */
  function MapMatching(posts: seq<ClientPost>, id: Id, f: ClientPost -> ClientPost): (r: seq<ClientPost>)
    ensures |r| == |posts|
    ensures forall i :: 0 <= i < |posts| ==> r[i] == if posts[i].id == id then f(posts[i]) else posts[i]
  {
    seq(|posts|, i requires 0 <= i < |posts| => if posts[i].id == id then f(posts[i]) else posts[i])
  }
}
