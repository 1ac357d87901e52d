/**
 * The story tray (frontend/src/components/main/StoryTray.jsx): the order the
 * groups are shown in, the placeholder for a user without stories, the click
 * handler and the label under each avatar.
 */
module StoryTray {
  import opened Wrappers
  import opened IdLists
  import Client
  import StoryController

  /** The author of a group, as populated by the server. */
  datatype TrayAuthor = TrayAuthor(id: Id, username: string)

  /** A tray entry: a group of stories, or the placeholder (`isUser`) for the user's own empty group. */
  datatype TrayEntry = TrayEntry(author: TrayAuthor, stories: seq<Client.StoryItem>, isUser: bool)

  /** `item.author?._id === user?._id`: the entry is the logged-in user's own. */
  predicate Mine(e: TrayEntry, me: Option<TrayAuthor>) {
    me.Some? && me.value.id == e.author.id
  }

  /** The entries whose ownership is `mine`, in their original order (a `filter`). */
  function Keep(s: seq<TrayEntry>, me: Option<TrayAuthor>, mine: bool): (r: seq<TrayEntry>)
    ensures |r| <= |s|
    ensures forall i :: 0 <= i < |r| ==> Mine(r[i], me) == mine
    ensures forall e :: e in r ==> e in s
  {
    if s == [] then []
    else (if Mine(s[0], me) == mine then [s[0]] else []) + Keep(s[1..], me, mine)
  }

  /** Filtering a concatenation filters each side. */
  lemma {:induction false} KeepAppend(a: seq<TrayEntry>, b: seq<TrayEntry>, me: Option<TrayAuthor>, mine: bool)
    ensures Keep(a + b, me, mine) == Keep(a, me, mine) + Keep(b, me, mine)
  {
    if a == [] {
      assert a + b == b;
    } else {
      assert (a + b)[1..] == a[1..] + b;
      KeepAppend(a[1..], b, me, mine);
    }
  }

  /** Splitting by ownership and putting the halves back together loses nothing. */
  lemma {:induction false} KeepSplits(s: seq<TrayEntry>, me: Option<TrayAuthor>)
    ensures multiset(Keep(s, me, true) + Keep(s, me, false)) == multiset(s)
  {
    if s != [] {
      KeepSplits(s[1..], me);
      KeepSplitsStep(s, me);
      HeadAndTail(s);
    }
  }

  /** A non-empty list holds its head and its tail. */
  lemma HeadAndTail(s: seq<TrayEntry>)
    requires s != []
    ensures multiset(s) == multiset{s[0]} + multiset(s[1..])
  {
    assert s == [s[0]] + s[1..];
  }

  /** One step of the split: the head goes to exactly one of the halves. */
  lemma KeepSplitsStep(s: seq<TrayEntry>, me: Option<TrayAuthor>)
    requires s != []
    ensures multiset(Keep(s, me, true) + Keep(s, me, false))
            == multiset{s[0]} + multiset(Keep(s[1..], me, true) + Keep(s[1..], me, false))
  {
    var t := Keep(s[1..], me, true);
    var f := Keep(s[1..], me, false);
    assert multiset(Keep(s, me, true) + Keep(s, me, false)) == multiset(Keep(s, me, true)) + multiset(Keep(s, me, false));
    assert multiset(t + f) == multiset(t) + multiset(f);
    if Mine(s[0], me) {
      assert Keep(s, me, true) == [s[0]] + t;
      assert Keep(s, me, false) == f;
    } else {
      assert Keep(s, me, true) == t;
      assert Keep(s, me, false) == [s[0]] + f;
    }
  }

  /**
   * The result of `[...stories].sort(cmp)` with the tray's comparator, which
   * ranks the user's own group before every other and ties the rest: the
   * sort is stable, so the order is the user's groups, then the others, each
   * in their original order.
   */
  function MineFirst(stories: seq<TrayEntry>, me: Option<TrayAuthor>): seq<TrayEntry> {
    Keep(stories, me, true) + Keep(stories, me, false)
  }

  /** `MineFirst` is a permutation that the comparator finds in order and that keeps each class's order: a stable sort. */
  lemma MineFirstIsStableSort(stories: seq<TrayEntry>, me: Option<TrayAuthor>)
    ensures var r := MineFirst(stories, me);
            && multiset(r) == multiset(stories)
            && (forall i, j :: 0 <= i < j < |r| ==> Mine(r[i], me) || !Mine(r[j], me))
            && Keep(r, me, true) == Keep(stories, me, true)
            && Keep(r, me, false) == Keep(stories, me, false)
  {
    var a := Keep(stories, me, true);
    var b := Keep(stories, me, false);
    KeepSplits(stories, me);
    KeepAppend(a, b, me, true);
    KeepAppend(a, b, me, false);
    KeepOnly(a, me, true);
    KeepOnly(b, me, false);
    KeepNone(a, me, false);
    KeepNone(b, me, true);
  }

  /** A list of one class only is its own filter. */
  lemma {:induction false} KeepOnly(s: seq<TrayEntry>, me: Option<TrayAuthor>, mine: bool)
    requires forall i :: 0 <= i < |s| ==> Mine(s[i], me) == mine
    ensures Keep(s, me, mine) == s
  {
    if s != [] {
      KeepOnly(s[1..], me, mine);
    }
  }

  /** A list of one class has nothing of the other. */
  lemma {:induction false} KeepNone(s: seq<TrayEntry>, me: Option<TrayAuthor>, mine: bool)
    requires forall i :: 0 <= i < |s| ==> Mine(s[i], me) != mine
    ensures Keep(s, me, mine) == []
  {
    if s != [] {
      KeepNone(s[1..], me, mine);
    }
  }

  /** `stories.some(s => s.author._id === user?._id)`. */
  predicate UserHasStory(stories: seq<TrayEntry>, me: Option<TrayAuthor>) {
    exists i :: 0 <= i < |stories| && Mine(stories[i], me)
  }

  /** The placeholder entry for a logged-in user without stories. */
  function Placeholder(me: TrayAuthor): TrayEntry {
    TrayEntry(me, [], true)
  }

  /** `displayStories`: the sorted copy, with the placeholder put in front when the user has no group. */
  function DisplayStories(stories: seq<TrayEntry>, me: Option<TrayAuthor>): (r: seq<TrayEntry>)
    ensures me.Some? ==> |r| > 0 && Mine(r[0], me)
    ensures me.Some? && !UserHasStory(stories, me) ==>
              r[0] == Placeholder(me.value) && r[1..] == stories
    ensures me.None? || UserHasStory(stories, me) ==> r == MineFirst(stories, me)
  {
    var sorted := MineFirst(stories, me);
    if me.Some? && !UserHasStory(stories, me) then
      KeepNone(stories, me, true);
      KeepOnly(stories, me, false);
      [Placeholder(me.value)] + sorted
    else
      OwnGroupLeads(stories, me);
      sorted
  }

  /** An entry of the right class makes its filter non-empty. */
  lemma {:induction false} KeepHas(s: seq<TrayEntry>, me: Option<TrayAuthor>, i: nat)
    requires i < |s|
    ensures |Keep(s, me, Mine(s[i], me))| > 0
  {
    if i > 0 && Mine(s[0], me) != Mine(s[i], me) {
      KeepHas(s[1..], me, i - 1);
    }
  }

  /** When the user has a group, the sorted tray starts with one. */
  lemma OwnGroupLeads(stories: seq<TrayEntry>, me: Option<TrayAuthor>)
    ensures UserHasStory(stories, me) ==> |MineFirst(stories, me)| > 0 && Mine(MineFirst(stories, me)[0], me)
  {
    if UserHasStory(stories, me) {
      var i :| 0 <= i < |stories| && Mine(stories[i], me);
      KeepHas(stories, me, i);
    }
  }

  /** What a click on a tray entry does. */
  datatype TrayClick = OpenViewer(entry: TrayEntry) | PickFile | Ignore

  /** `handleStoryClick`: a group with stories opens the viewer, the user's own empty entry the file picker. */
  function OnStoryClick(e: TrayEntry, me: Option<TrayAuthor>): (r: TrayClick)
    ensures r.OpenViewer? <==> |e.stories| > 0
    ensures r.OpenViewer? ==> r.entry == e
    ensures r.PickFile? <==> |e.stories| == 0 && Mine(e, me)
  {
    if |e.stories| > 0 then OpenViewer(e)
    else if Mine(e, me) then PickFile
    else Ignore
  }

  /** The label under an entry: "Your Story" for the user's own, otherwise the author's username. */
  function Label(e: TrayEntry, me: Option<TrayAuthor>): string {
    if Mine(e, me) then "Your Story" else e.author.username
  }

  /** For a logged-in user without stories, the first entry is the placeholder: labelled "Your Story", a click opens the file picker. */
  lemma PlaceholderLeads(stories: seq<TrayEntry>, me: TrayAuthor)
    requires !UserHasStory(stories, Some(me))
    ensures var r := DisplayStories(stories, Some(me));
            Label(r[0], Some(me)) == "Your Story" && OnStoryClick(r[0], Some(me)) == PickFile
  {
  }

  /**
   * The entry a server group arrives as in the store, once `populate` has
   * filled in the author's username and each story's media: same author, the
   * same stories in the same order, and no placeholder flag.
   */
  function EntryOf(g: StoryController.Group, username: string, image: Id -> Option<string>, video: Id -> Option<string>)
    : (r: TrayEntry)
    ensures r.author.id == g.author && !r.isUser && |r.stories| == |g.stories|
    ensures forall i :: 0 <= i < |g.stories| ==>
              r.stories[i].id == g.stories[i].id && r.stories[i].author == Some(g.stories[i].author)
  {
    TrayEntry(TrayAuthor(g.author, username),
              seq(|g.stories|, i requires 0 <= i < |g.stories| =>
                var x := g.stories[i];
                Client.StoryItem(x.id, Some(x.author), image(x.id), video(x.id))),
              false)
  }

  /** The tray the store holds after `/story/all`: one entry per server group, in the server's order. */
  function EntriesOf(groups: seq<StoryController.Group>, username: Id -> string, image: Id -> Option<string>, video: Id -> Option<string>)
    : (r: seq<TrayEntry>)
    ensures |r| == |groups|
    ensures forall i :: 0 <= i < |groups| ==> r[i] == EntryOf(groups[i], username(groups[i].author), image, video)
  {
    seq(|groups|, i requires 0 <= i < |groups| => EntryOf(groups[i], username(groups[i].author), image, video))
  }

  /**
   * The tray built from the server's grouping has one entry per author, and
   * each fetched story shows in its author's entry and in no other.
   */
  lemma ServerTrayOneEntryPerAuthor(found: seq<StoryController.Found>, username: Id -> string,
                                    image: Id -> Option<string>, video: Id -> Option<string>)
    ensures var t := EntriesOf(StoryController.Grouped(found), username, image, video);
      && (forall i, j :: 0 <= i < j < |t| ==> t[i].author.id != t[j].author.id)
      && (forall k :: 0 <= k < |found| ==>
            exists i, n :: 0 <= i < |t| && 0 <= n < |t[i].stories| && t[i].author.id == found[k].author
                           && t[i].stories[n].id == found[k].id)
      && (forall i, n :: 0 <= i < |t| && 0 <= n < |t[i].stories| ==> t[i].stories[n].author == Some(t[i].author.id))
  {
    var g := StoryController.Grouped(found);
    var t := EntriesOf(g, username, image, video);
    StoryController.EveryStoryInOneGroup(found);
    forall k | 0 <= k < |found|
      ensures exists i, n :: 0 <= i < |t| && 0 <= n < |t[i].stories| && t[i].author.id == found[k].author
                             && t[i].stories[n].id == found[k].id
    {
      var x := found[k];
      assert x in found;
      var i :| 0 <= i < |g| && g[i].author == x.author && x in g[i].stories;
      var n :| 0 <= n < |g[i].stories| && g[i].stories[n] == x;
      assert t[i].stories[n].id == x.id;
    }
    forall i, n | 0 <= i < |t| && 0 <= n < |t[i].stories|
      ensures t[i].stories[n].author == Some(t[i].author.id)
    {
      assert g[i].stories[n] in g[i].stories;
    }
  }
}
