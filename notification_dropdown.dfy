/**
 * The notification dropdown (frontend/src/components/main/NotificationDropdown.jsx):
 * the icon per notification type, where a click leads, and clearing the feed.
 */
module NotificationDropdown {
  import opened Wrappers
  import opened IdLists
  import SocketContext

  /** The icons the dropdown draws. */
  datatype Icon = Heart | Message | UserPlus | DefaultHeart

  /** `getNotificationIcon`: one icon per known type, the grey heart for anything else. */
  function IconFor(kind: string): (r: Icon)
    ensures r == Heart <==> kind == "like"
    ensures r == Message <==> kind == "comment"
    ensures r == UserPlus <==> kind == "follow"
    ensures r == DefaultHeart <==> kind !in {"like", "comment", "follow"}
  {
    match kind
    case "like" => Heart
    case "comment" => Message
    case "follow" => UserPlus
    case _ => DefaultHeart
  }

  /** Where a click leads (`None`: no navigation), and whether the dropdown is still open. */
  datatype Click = Click(route: Option<string>, open: bool)

  /**
   * `handleNotificationClick`: a follow notification opens the sender's
   * profile, any other one with a truthy `postId` opens the home feed, the
   * rest go nowhere; the dropdown closes in every case.
   */
  function OnClick(n: SocketContext.Notification): (r: Click)
    ensures !r.open
    ensures n.kind == "follow" ==> r.route == Some("/profile/" + n.senderId)
    ensures n.kind != "follow" && Truthy(n.postId) ==> r.route == Some("/")
    ensures r.route.None? <==> n.kind != "follow" && !Truthy(n.postId)
  {
    if n.kind == "follow" then Click(Some("/profile/" + n.senderId), false)
    else if Truthy(n.postId) then Click(Some("/"), false)
    else Click(None, false)
  }

  /** The profile route carries the sender's id after the fixed prefix, so distinct senders lead to distinct profiles. */
  lemma ProfileRouteNamesSender(a: SocketContext.Notification, b: SocketContext.Notification)
    requires a.kind == "follow" && b.kind == "follow"
    requires OnClick(a).route == OnClick(b).route
    ensures a.senderId == b.senderId
  {
    var ra := "/profile/" + a.senderId;
    var rb := "/profile/" + b.senderId;
    assert a.senderId == ra[9..];
    assert b.senderId == rb[9..];
  }

  /** `clearNotifications`: the feed becomes empty. */
  function Cleared(feed: seq<SocketContext.Notification>): (r: seq<SocketContext.Notification>)
    ensures |r| == 0
  {
    []
  }

  /** The "Clear all" button is shown only while the feed has something in it. */
  predicate ShowsClearAll(feed: seq<SocketContext.Notification>) {
    |feed| > 0
  }

  /** A cleared feed shows no "Clear all" button, and a notification arriving after it is the only one. */
  lemma ClearThenArrive(feed: seq<SocketContext.Notification>, n: SocketContext.Notification)
    ensures !ShowsClearAll(Cleared(feed))
    ensures SocketContext.OnNewNotification(Cleared(feed), n) == [n]
  {
  }

  /** What the dropdown renders: nothing while closed, otherwise one row per notification. */
  function Rows(isOpen: bool, feed: seq<SocketContext.Notification>): (r: Option<seq<Icon>>)
    ensures !isOpen <==> r.None?
    ensures isOpen ==> |r.value| == |feed| && forall i :: 0 <= i < |feed| ==> r.value[i] == IconFor(feed[i].kind)
  {
    if !isOpen then None
    else Some(seq(|feed|, i requires 0 <= i < |feed| => IconFor(feed[i].kind)))
  }
}
