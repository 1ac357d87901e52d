/**
 * The reels page (frontend/src/components/main/Reels.jsx): the reels shown
 * from the feed, and the merge of freshly fetched reels into the feed.
 */
module Reels {
  import opened Wrappers
  import opened IdLists
  import opened Records
  import Client

  /** A reel is a post whose `postType` is "reel". */
  predicate IsReel(p: Client.ClientPost) {
    p.postType == "reel"
  }

  /** The reels view: the non-null feed entries that are reels, in feed order; no feed gives `[]`. */
  function ReelsView(posts: Option<seq<Option<Client.ClientPost>>>): (r: seq<Client.ClientPost>)
    ensures forall i :: 0 <= i < |r| ==> r[i].postType == "reel"
    ensures posts.None? ==> r == []
    ensures posts.Some? ==> forall p :: Some(p) in posts.value && p.postType == "reel" ==> p in r
  {
    if posts.None? then []
    else
      Client.Present(posts.value, IsReel)
  }

  /** The fetched reels whose id is not among `ids`, in fetched order. */
  function Unseen(fetched: seq<Client.ClientPost>, ids: seq<Id>): (r: seq<Client.ClientPost>)
    ensures forall i :: 0 <= i < |r| ==> r[i] in fetched && r[i].id !in ids
    ensures forall i :: 0 <= i < |fetched| && fetched[i].id !in ids ==> fetched[i] in r
  {
    if fetched == [] then []
    else
      assert forall i :: 1 <= i < |fetched| ==> fetched[i] == fetched[1..][i - 1];
      (if fetched[0].id in ids then [] else [fetched[0]]) + Unseen(fetched[1..], ids)
  }

  /** `setPosts([...posts, ...newReels])`: the feed, then the fetched reels it does not hold yet. */
  function MergeReels(posts: seq<Client.ClientPost>, fetched: seq<Client.ClientPost>): (r: seq<Client.ClientPost>)
    ensures posts <= r
    ensures forall i :: |posts| <= i < |r| ==> r[i] in fetched && !HasKey(posts, Client.PostKey, r[i].id)
    ensures forall f :: f in fetched && !HasKey(posts, Client.PostKey, f.id) ==> f in r
  {
    UnseenOfFeed(posts, fetched);
    posts + Unseen(fetched, Keys(posts, Client.PostKey))
  }

  /** Being among the feed's ids is having a post with that id in the feed. */
  lemma UnseenOfFeed(posts: seq<Client.ClientPost>, fetched: seq<Client.ClientPost>)
    ensures var novel := Unseen(fetched, Keys(posts, Client.PostKey));
            && (forall i :: 0 <= i < |novel| ==> !HasKey(posts, Client.PostKey, novel[i].id))
            && (forall f :: f in fetched && !HasKey(posts, Client.PostKey, f.id) ==> f in novel)
  {
    var ids := Keys(posts, Client.PostKey);
    var novel := Unseen(fetched, ids);
    forall f | f in fetched && !HasKey(posts, Client.PostKey, f.id) ensures f in novel {
      var j :| 0 <= j < |fetched| && fetched[j] == f;
    }
  }

  /** Fetching the same reels again adds nothing. */
  lemma MergeTwice(posts: seq<Client.ClientPost>, fetched: seq<Client.ClientPost>)
    ensures var once := MergeReels(posts, fetched);
            MergeReels(once, fetched) == once
  {
    var once := MergeReels(posts, fetched);
    var ids := Keys(once, Client.PostKey);
    forall f | f in fetched ensures f.id in ids {
      if !HasKey(posts, Client.PostKey, f.id) {
        var k :| 0 <= k < |once| && once[k] == f;
        assert ids[k] == f.id;
      } else {
        var k :| 0 <= k < |posts| && Client.PostKey(posts[k]) == f.id;
        assert once[k] == posts[k];
        assert ids[k] == f.id;
      }
    }
    AllSeen(fetched, ids);
  }

  /** Nothing is unseen when every id is already there. */
  lemma {:induction false} AllSeen(fetched: seq<Client.ClientPost>, ids: seq<Id>)
    requires forall f :: f in fetched ==> f.id in ids
    ensures Unseen(fetched, ids) == []
  {
    if fetched != [] {
      assert forall f :: f in fetched[1..] ==> f in fetched;
      AllSeen(fetched[1..], ids);
    }
  }

  /** When the feed and the fetched reels each list a post once, so does the merged feed. */
  lemma MergeKeepsUnique(posts: seq<Client.ClientPost>, fetched: seq<Client.ClientPost>)
    requires UniqueKeys(posts, Client.PostKey) && UniqueKeys(fetched, Client.PostKey)
    ensures UniqueKeys(MergeReels(posts, fetched), Client.PostKey)
  {
    var ids := Keys(posts, Client.PostKey);
    var novel := Unseen(fetched, ids);
    UnseenUnique(fetched, ids);
    var r := posts + novel;
    var kr := Keys(r, Client.PostKey);
    forall a, b | 0 <= a < b < |kr| ensures kr[a] != kr[b] {
      if b < |posts| {
        assert ids[a] == kr[a] && ids[b] == kr[b];
      } else if a < |posts| {
        assert novel[b - |posts|].id !in ids;
        assert ids[a] == kr[a];
      } else {
        assert Keys(novel, Client.PostKey)[a - |posts|] == kr[a];
        assert Keys(novel, Client.PostKey)[b - |posts|] == kr[b];
      }
    }
  }

  /** Filtering keeps unique ids unique. */
  lemma {:induction false} UnseenUnique(fetched: seq<Client.ClientPost>, ids: seq<Id>)
    requires UniqueKeys(fetched, Client.PostKey)
    ensures UniqueKeys(Unseen(fetched, ids), Client.PostKey)
  {
    if fetched != [] {
      var t := fetched[1..];
      assert Keys(t, Client.PostKey) == Keys(fetched, Client.PostKey)[1..];
      UnseenUnique(t, ids);
      var rest := Unseen(t, ids);
      if fetched[0].id !in ids {
        assert !HasKey(rest, Client.PostKey, fetched[0].id) by {
          forall j | 0 <= j < |rest| ensures rest[j].id != fetched[0].id {
            var k :| 0 <= k < |t| && t[k] == rest[j];
            assert Keys(fetched, Client.PostKey)[k + 1] == rest[j].id;
          }
        }
        PrependUnique(fetched[0], rest, Client.PostKey);
      }
    }
  }
}
