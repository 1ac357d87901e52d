/**
 * Story handlers: adding a story, the grouped tray of followed users'
 * stories, and deletion.
 */
module StoryController {
  import opened Wrappers
  import opened IdLists
  import opened Store
  import Text

  /** `String.prototype.startsWith`. */
  predicate StartsWith(s: string, prefix: string) {
    |prefix| <= |s| && s[..|prefix|] == prefix
  }

  /**
   * `addStory`: 400 without a file; 500 when the upload returns nothing.
   * The URL goes to `video` when the mimetype starts with "video" and to
   * `image` otherwise, so a stored story has exactly one of them.
   */
  method AddStory(db: DocumentStore, authorId: Id, hasFile: bool, mimetype: string, uploadedUrl: Option<string>,
                  createdAt: int, newStoryId: Id, storeFault: bool)
    returns (status: int)
    requires newStoryId !in db.stories
    modifies db`stories
    ensures !hasFile ==> status == 400 && unchanged(db)
    ensures hasFile && (uploadedUrl.None? || storeFault) ==> status == 500 && unchanged(db)
    ensures hasFile && uploadedUrl.Some? && !storeFault ==>
      && status == 201
      && newStoryId in db.stories && db.stories == old(db.stories)[newStoryId := db.stories[newStoryId]]
      && var s := db.stories[newStoryId];
      && s.author == authorId && s.createdAt == createdAt
      && (s.video.Some? <==> StartsWith(mimetype, "video"))
      && (s.image.Some? <==> !StartsWith(mimetype, "video"))
      && (s.video.Some? ==> s.video == uploadedUrl)
      && (s.image.Some? ==> s.image == uploadedUrl)
  {
    if !hasFile {
      return 400;
    }
    if uploadedUrl.None? || storeFault {
      return 500;
    }
    var story := Story(authorId, None, None, createdAt);
    if StartsWith(mimetype, "video") {
      story := story.(video := uploadedUrl);
    } else {
      story := story.(image := uploadedUrl);
    }
    db.stories := db.stories[newStoryId := story];
    return 201;
  }

  /** A story as `Story.find` returns it: its id, its author and its creation time. */
  datatype Found = Found(id: Id, author: Id, createdAt: int)

  /** One tray entry: an author and that author's stories. */
  datatype Group = Group(author: Id, stories: seq<Found>)

  /** Newest first, as `sort({createdAt: -1})` returns them. */
  predicate NewestFirst(s: seq<Found>) {
    forall i, j :: 0 <= i < j < |s| ==> s[i].createdAt >= s[j].createdAt
  }

  /** The distinct authors of `s` in order of first occurrence. */
  function Authors(s: seq<Found>): (r: seq<Id>)
    ensures NoDup(r)
    ensures forall a :: a in r <==> exists k :: 0 <= k < |s| && s[k].author == a
  {
    if s == [] then []
    else
      var init := s[..|s| - 1];
      var prev := Authors(init);
      assert forall k :: 0 <= k < |init| ==> init[k] == s[k];
      if Text.Last(s).author in prev then prev else prev + [Text.Last(s).author]
  }

  /** The stories of one author, in their order in `s`. */
  function StoriesBy(s: seq<Found>, a: Id): (r: seq<Found>)
    ensures forall x :: x in r <==> x in s && x.author == a
    ensures |r| <= |s|
  {
    if s == [] then []
    else
      var init := s[..|s| - 1];
      assert s == init + [Text.Last(s)];
      StoriesBy(init, a) + if Text.Last(s).author == a then [Text.Last(s)] else []
  }

  /** Reference definition of the tray: one group per author, in order of first occurrence. */
  function Grouped(s: seq<Found>): seq<Group> {
    var authors := Authors(s);
    seq(|authors|, i requires 0 <= i < |authors| => Group(authors[i], StoriesBy(s, authors[i])))
  }

  /** Authors of a prefix are a prefix of the authors: a group appears no later than any author first seen after it. */
  lemma {:induction false} AuthorsOfPrefix(s: seq<Found>, k: nat)
    requires k <= |s|
    ensures Authors(s[..k]) <= Authors(s)
  {
    if k < |s| {
      var init := s[..|s| - 1];
      assert s[..k] == init[..k];
      AuthorsOfPrefix(init, k);
    } else {
      assert s[..k] == s;
    }
  }

  /** Within a group the stories keep the order of the input, so newest first stays newest first. */
  lemma {:induction false} StoriesByKeepsOrder(s: seq<Found>, a: Id)
    requires NewestFirst(s)
    ensures NewestFirst(StoriesBy(s, a))
  {
    if s != [] {
      var init := s[..|s| - 1];
      assert NewestFirst(init);
      StoriesByKeepsOrder(init, a);
      var r := StoriesBy(init, a);
      if Text.Last(s).author == a {
        forall i | 0 <= i < |r| ensures r[i].createdAt >= Text.Last(s).createdAt {
          assert r[i] in init;
        }
      }
    }
  }

  /** Every story lands in exactly one group: the one of its author. */
  lemma EveryStoryInOneGroup(s: seq<Found>)
    ensures var g := Grouped(s);
      && (forall x :: x in s ==> exists i :: 0 <= i < |g| && g[i].author == x.author && x in g[i].stories)
      && (forall i, j :: 0 <= i < j < |g| ==> g[i].author != g[j].author)
      && (forall i, x :: 0 <= i < |g| && x in g[i].stories ==> x in s && x.author == g[i].author)
  {
    var g := Grouped(s);
    var authors := Authors(s);
    forall x | x in s ensures exists i :: 0 <= i < |g| && g[i].author == x.author && x in g[i].stories {
      var k :| 0 <= k < |s| && s[k] == x;
      assert x.author in authors;
      var i :| 0 <= i < |authors| && authors[i] == x.author;
      assert g[i].author == x.author && x in g[i].stories;
    }
  }

  lemma AuthorsSnoc(s: seq<Found>, x: Found)
    ensures Authors(s + [x]) == if x.author in Authors(s) then Authors(s) else Authors(s) + [x.author]
  {
    assert (s + [x])[..|s|] == s;
  }

  lemma StoriesBySnoc(s: seq<Found>, x: Found, a: Id)
    ensures StoriesBy(s + [x], a) == StoriesBy(s, a) + if x.author == a then [x] else []
  {
    assert (s + [x])[..|s|] == s;
  }

  lemma StoriesByAbsent(s: seq<Found>, a: Id)
    requires a !in Authors(s)
    ensures StoriesBy(s, a) == []
  {
  }

  /**
   * The `reduce` into an object keyed by author id, then `Object.values`:
   * groups come out in key insertion order.
   */
  method GroupStories(s: seq<Found>) returns (groups: seq<Group>)
    ensures groups == Grouped(s)
  {
    var keys: seq<Id> := [];
    var acc: map<Id, seq<Found>> := map[];
    var i := 0;
    while i < |s|
      invariant 0 <= i <= |s|
      invariant Table(s[..i], keys, acc)
    {
      var story := s[i];
      assert s[..i + 1] == s[..i] + [story];
      TableSnoc(s[..i], story, keys, acc);
      if story.author !in acc {
        acc := acc[story.author := []];
        keys := keys + [story.author];
      }
      acc := acc[story.author := acc[story.author] + [story]];
      i := i + 1;
    }
    assert s[..i] == s;
    groups := seq(|keys|, j requires 0 <= j < |keys| => Group(keys[j], acc[keys[j]]));
    GroupedFromTable(s, keys, acc, groups);
  }

  /** The `reduce`'s accumulator for `t`: the authors in first-seen order as keys, each with its stories. */
  ghost predicate Table(t: seq<Found>, keys: seq<Id>, acc: map<Id, seq<Found>>) {
    && keys == Authors(t)
    && (forall a :: a in acc <==> a in keys)
    && (forall a :: a in acc ==> acc[a] == StoriesBy(t, a))
  }

  /** One step of the `reduce`: the table for `t` extended by `story` is the table for `t + [story]`. */
  lemma TableSnoc(t: seq<Found>, story: Found, keys: seq<Id>, acc: map<Id, seq<Found>>)
    requires Table(t, keys, acc)
    ensures story.author in acc ==> Table(t + [story], keys, acc[story.author := acc[story.author] + [story]])
    ensures story.author !in acc ==> Table(t + [story], keys + [story.author], acc[story.author := [story]])
  {
    AuthorsSnoc(t, story);
    var next := if story.author in acc then acc[story.author := acc[story.author] + [story]]
                else acc[story.author := [story]];
    if story.author !in acc {
      StoriesByAbsent(t, story.author);
    }
    forall a | a in next ensures next[a] == StoriesBy(t + [story], a) {
      StoriesBySnoc(t, story, a);
    }
  }

  lemma GroupedFromTable(s: seq<Found>, keys: seq<Id>, acc: map<Id, seq<Found>>, groups: seq<Group>)
    requires keys == Authors(s)
    requires forall a :: a in keys ==> a in acc && acc[a] == StoriesBy(s, a)
    requires |groups| == |keys| && forall j :: 0 <= j < |keys| ==> groups[j] == Group(keys[j], acc[keys[j]])
    ensures groups == Grouped(s)
  {
  }

  /**
   * `getAllStories`: 404 for an unknown user. `found` is the store's answer
   * for all stories, newest first; those by followed users or by the user
   * are grouped by author. A story whose author document is gone makes the
   * grouping throw (500).
   */
  method GetAllStories(db: DocumentStore, userId: Id, found: seq<Found>) returns (status: int, groups: seq<Group>)
    requires NewestFirst(found)
    ensures userId !in db.users ==> status == 404 && groups == []
    ensures userId in db.users ==>
      var selected := Selected(found, db.users[userId].following + [userId]);
      && ((exists x :: x in selected && x.author !in db.users) ==> status == 500 && groups == [])
      && ((forall x :: x in selected ==> x.author in db.users) ==> status == 200 && groups == Grouped(selected))
    ensures status == 200 ==> forall g :: g in groups ==> NewestFirst(g.stories)
  {
    if userId !in db.users {
      return 404, [];
    }
    var selected := Selected(found, db.users[userId].following + [userId]);
    if exists x :: x in selected && x.author !in db.users {
      return 500, [];
    }
    SelectedKeepsOrder(found, db.users[userId].following + [userId]);
    groups := GroupStories(selected);
    forall g | g in groups ensures NewestFirst(g.stories) {
      var k :| 0 <= k < |groups| && groups[k] == g;
      StoriesByKeepsOrder(selected, g.author);
    }
    status := 200;
  }

  /** `{author: {$in: authors}}` applied to the newest-first list of all stories. */
  function Selected(found: seq<Found>, authors: seq<Id>): (r: seq<Found>)
    ensures forall x :: x in r <==> x in found && x.author in authors
  {
    if found == [] then []
    else (if found[0].author in authors then [found[0]] else []) + Selected(found[1..], authors)
  }

  lemma {:induction false} SelectedKeepsOrder(found: seq<Found>, authors: seq<Id>)
    requires NewestFirst(found)
    ensures NewestFirst(Selected(found, authors))
  {
    if found != [] {
      assert NewestFirst(found[1..]);
      SelectedKeepsOrder(found[1..], authors);
      var rest := Selected(found[1..], authors);
      forall j | 0 <= j < |rest| ensures found[0].createdAt >= rest[j].createdAt {
        assert rest[j] in found[1..];
      }
    }
  }

  /** `deleteStory`: 404 for an unknown story, 403 for anyone but its author, otherwise it is deleted. */
  method DeleteStory(db: DocumentStore, storyId: Id, userId: Id, storeFault: bool) returns (status: int)
    modifies db`stories
    ensures storyId !in old(db.stories) ==> status == 404 && unchanged(db)
    ensures storyId in old(db.stories) && old(db.stories)[storyId].author != userId ==> status == 403 && unchanged(db)
    ensures storyId in old(db.stories) && old(db.stories)[storyId].author == userId ==>
      if storeFault then status == 500 && unchanged(db)
      else status == 200 && db.stories == old(db.stories) - {storyId}
  {
    if storyId !in db.stories {
      return 404;
    }
    if db.stories[storyId].author != userId {
      return 403;
    }
    if storeFault {
      return 500;
    }
    db.stories := db.stories - {storyId};
    return 200;
  }
}
