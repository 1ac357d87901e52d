/**
 * The `posts` slice of the Redux store (frontend/src/redux/postSlice.js):
 * three fields, each reducer replacing exactly one of them in place.
 */
module PostSlice {
  import opened Wrappers
  import Client
  import StoryTray

  class PostState {
    /** The feed; an entry may be `null` when the server sent one. */
    var posts: seq<Option<Client.ClientPost>>
    var selectedPost: Option<Client.ClientPost>
    /** The grouped stories `/story/all` answers: one entry per author with that author's stories. */
    var stories: seq<StoryTray.TrayEntry>

    /** The initial state: no posts, no selected post, no stories. */
    constructor()
      ensures posts == [] && selectedPost == None && stories == []
    {
      posts := [];
      selectedPost := None;
      stories := [];
    }

    /** `setPosts`: the feed becomes the payload; the selected post and the stories are untouched. */
    method SetPosts(payload: seq<Option<Client.ClientPost>>)
      modifies this`posts
      ensures posts == payload
      ensures selectedPost == old(selectedPost) && stories == old(stories)
    {
      posts := payload;
    }

    /** `setSlectedPost`: the selected post becomes the payload; the feed and the stories are untouched. */
    method SetSelectedPost(payload: Option<Client.ClientPost>)
      modifies this`selectedPost
      ensures selectedPost == payload
      ensures posts == old(posts) && stories == old(stories)
    {
      selectedPost := payload;
    }

    /** `setStories`: the stories become the payload; the feed and the selected post are untouched. */
    method SetStories(payload: seq<StoryTray.TrayEntry>)
      modifies this`stories
      ensures stories == payload
      ensures posts == old(posts) && selectedPost == old(selectedPost)
    {
      stories := payload;
    }
  }
}
