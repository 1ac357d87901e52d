/**
 * The story viewer (frontend/src/components/main/StoryViewer.jsx): an index
 * into one author's stories that the arrows step and the render guards keep
 * in range, and the progress bars drawn above the story.
 */
module StoryViewer {
  import opened Wrappers
  import opened IdLists
  import Client

  /** The width of a progress bar: full, the running progress, or empty. */
  datatype Width = Full | Running | Blank

  /** The bar at `i` while story `current` plays: earlier bars are full, later ones empty. */
  function BarWidth(i: nat, current: nat): Width {
    if i == current then Running else if i < current then Full else Blank
  }

  /** The number of full bars among the first `n`. */
  function FullBars(n: nat, current: nat): nat {
    if n == 0 then 0 else FullBars(n - 1, current) + (if BarWidth(n - 1, current) == Full then 1 else 0)
  }

  /** With `n` bars and the story at `current` playing, exactly `current` bars are full, one runs, and the rest are empty. */
  lemma {:induction false} BarsCountPlayed(n: nat, current: nat)
    requires current < n
    ensures FullBars(n, current) == current
    ensures forall i :: 0 <= i < n ==> (BarWidth(i, current) == Running <==> i == current)
  {
    FullBarsUpTo(n, current);
  }

  /** Full bars below `n` are those below both `n` and `current`. */
  lemma {:induction false} FullBarsUpTo(n: nat, current: nat)
    ensures FullBars(n, current) == if n < current then n else current
  {
    if n > 0 {
      FullBarsUpTo(n - 1, current);
    }
  }

  /** `isVideo`: the current story has a (non-empty) video. */
  predicate IsVideo(s: Client.StoryItem) {
    Truthy(s.video)
  }

  /** `isOwner`: the user's id equals the story author's; two absent ids compare equal. */
  predicate IsOwner(me: Option<Id>, s: Client.StoryItem) {
    me == s.author
  }

  /** The viewer of one author's stories. */
  class Viewer {
    var stories: seq<Client.StoryItem>
    var index: int
    var closed: bool

    /** The index is never negative. */
    ghost predicate Valid()
      reads this
    {
      index >= 0
    }

    constructor(stories: seq<Client.StoryItem>)
      ensures Valid()
      ensures this.stories == stories && index == 0 && !closed
    {
      this.stories := stories;
      index := 0;
      closed := false;
    }

    /** The author's stories change under the viewer (after a delete), the index stays where it was. */
    method Replace(stories: seq<Client.StoryItem>)
      requires Valid()
      modifies this`stories
      ensures Valid()
      ensures this.stories == stories
    {
      this.stories := stories;
    }

    /**
     * One render for the signed-in user `me`: no stories closes the viewer; an
     * index past the end is reset to 0 for the next render; otherwise the story
     * at the index is shown, with `video` telling whether it plays as a video
     * (no five-second timer) and `owner` whether the delete menu is offered.
     */
    method Render(me: Option<Id>) returns (shown: Option<Client.StoryItem>, video: bool, owner: bool)
      requires Valid()
      modifies this`index, this`closed
      ensures Valid()
      ensures |stories| == 0 ==> closed && shown == None && index == old(index)
      ensures |stories| > 0 && old(index) >= |stories| ==> index == 0 && shown == None && closed == old(closed)
      ensures |stories| > 0 && old(index) < |stories| ==>
                index == old(index) && shown == Some(stories[index]) && closed == old(closed)
      ensures shown.Some? ==> (video <==> IsVideo(shown.value)) && (owner <==> IsOwner(me, shown.value))
      ensures shown.None? ==> !video && !owner
      ensures closed || index < |stories|
    {
      if |stories| == 0 {
        closed := true;
        return None, false, false;
      }
      if index >= |stories| {
        index := 0;
        return None, false, false;
      }
      var story := stories[index];
      return Some(story), IsVideo(story), IsOwner(me, story);
    }

    /** `handleNext`: the next story, or close after the last one. */
    method HandleNext()
      requires Valid()
      modifies this`index, this`closed
      ensures Valid()
      ensures old(index) < |stories| - 1 ==> index == old(index) + 1 && closed == old(closed)
      ensures old(index) >= |stories| - 1 ==> closed && index == old(index)
    {
      if index < |stories| - 1 {
        index := index + 1;
      } else {
        closed := true;
      }
    }

    /** `handlePrev`: the previous story; nothing at the first. */
    method HandlePrev()
      requires Valid()
      modifies this`index
      ensures Valid()
      ensures old(index) > 0 ==> index == old(index) - 1
      ensures old(index) == 0 ==> index == 0
    {
      if index > 0 {
        index := index - 1;
      }
    }
  }
}
