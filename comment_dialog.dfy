/**
 * The comment dialog of the selected post
 * (frontend/src/components/main/CommentDialog.jsx): the input rule, the send
 * button's guard, and the appends to the feed and the selected post once the
 * server answers.
 */
module CommentDialog {
  import opened Wrappers
  import opened IdLists
  import opened Text
  import Client

  /** Send is enabled exactly when the text has a character that is not white space. */
  predicate SendEnabled(text: string) {
    !IsBlank(text)
  }

  /**
   * Text the dialog can send, after `changeEventHandler` applied the input
   * rule, is the input as typed and passes the server's truthiness check on `text`.
   */
  lemma SendableTextIsTruthy(input: string)
    requires SendEnabled(Normalized(input))
    ensures Truthy(Some(Normalized(input))) && Normalized(input) == input
  {
    assert Trim("") == "";
  }

  /** The dialog's state: the input, the store's feed and the selected post. */
  datatype Dialog = Dialog(text: string, posts: seq<Client.ClientPost>, selected: Option<Client.ClientPost>)

  /**
   * `sendMessageHandler` once the server answers with the new comment (`None`
   * for a failure): every feed post with the selected id and the selected post
   * itself get the comment appended, and the input is cleared. A failure, or
   * no selected post (reading its id throws), changes nothing.
   */
  function OnSendResult(d: Dialog, comment: Option<Id>): (r: Dialog)
    ensures comment.None? || d.selected.None? ==> r == d
    ensures comment.Some? && d.selected.Some? ==>
              && r.text == ""
              && |r.posts| == |d.posts|
              && (forall i :: 0 <= i < |d.posts| && d.posts[i].id != d.selected.value.id ==> r.posts[i] == d.posts[i])
              && (forall i :: 0 <= i < |d.posts| && d.posts[i].id == d.selected.value.id ==>
                    r.posts[i] == d.posts[i].(comments := d.posts[i].comments + [comment.value]))
              && r.selected == Some(d.selected.value.(comments := d.selected.value.comments + [comment.value]))
  {
    if comment.None? || d.selected.None? then d
    else
      var c := comment.value;
      var sel := d.selected.value;
      Dialog("",
        Client.MapMatching(d.posts, sel.id, (p: Client.ClientPost) => p.(comments := p.comments + [c])),
        Some(sel.(comments := sel.comments + [c])))
  }

  /** The selected post agrees with every feed entry that has its id. */
  predicate InStep(d: Dialog) {
    d.selected.Some? ==>
      forall i :: 0 <= i < |d.posts| && d.posts[i].id == d.selected.value.id ==> d.posts[i] == d.selected.value
  }

  /**
   * A successful comment keeps the selected post in step with the feed, and
   * when the dialog held the server's list, both now hold the list the server
   * stores after its append.
   */
  lemma CommentKeepsInStep(d: Dialog, c: Id, stored: seq<Id>)
    requires InStep(d) && d.selected.Some? && d.selected.value.comments == stored
    ensures var r := OnSendResult(d, Some(c));
            InStep(r) && r.selected.value.comments == stored + [c]
            && forall i :: 0 <= i < |r.posts| && r.posts[i].id == d.selected.value.id ==> r.posts[i].comments == stored + [c]
  {
    var r := OnSendResult(d, Some(c));
    forall i | 0 <= i < |r.posts| && r.posts[i].id == d.selected.value.id
      ensures r.posts[i] == r.selected.value
    {
      assert d.posts[i].id == d.selected.value.id;
    }
  }
}
