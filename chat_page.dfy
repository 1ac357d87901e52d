/**
 * The chat page (frontend/src/components/main/ChatPage.jsx): the room it joins,
 * the message list and the contact list updated from `newMessage` events, the
 * typing indicator, and the message composer whose typing flag and signals are
 * stepped as the user types and sends.
 */
module ChatPage {
  import opened Wrappers
  import opened IdLists
  import opened Records
  import Text
  import Rooms
  import Client

  /** The room joined while a conversation is open: the two ids sorted and joined with "-". */
  function ChatRoom(me: Id, selected: Id): string {
    Rooms.PairRoom(me, selected)
  }

  /**
   * The room the page is in: joined only once the user, the selected user
   * and the socket are all there (and left again when any of them changes).
   */
  function JoinedRoom(me: Option<Id>, selected: Option<Id>, socketReady: bool): (r: Option<string>)
    ensures r.Some? <==> me.Some? && selected.Some? && socketReady
    ensures r.Some? ==> r.value == Rooms.PairRoom(selected.value, me.value)
  {
    if me.Some? && selected.Some? && socketReady then
      Rooms.PairRoomCommutes(me.value, selected.value);
      Some(ChatRoom(me.value, selected.value))
    else None
  }

  /** Whichever of the two sends, the server emits the message to the room the page joined. */
  lemma JoinedRoomReceivesConversation(me: Id, selected: Id, senderId: Id, receiverId: Id)
    requires (senderId == me && receiverId == selected) || (senderId == selected && receiverId == me)
    ensures JoinedRoom(Some(me), Some(selected), true) == Some(Rooms.PairRoom(senderId, receiverId))
  {
    Rooms.PairRoomCommutes(me, selected);
  }

  /** A message as the page lists it: the `newMessage` payload. */
  datatype ChatMessage = ChatMessage(id: Option<Id>, senderId: Id, receiverId: Id, text: Option<string>)

  /** The message belongs to the open conversation, in either direction. */
  predicate InConversation(m: ChatMessage, me: Option<Id>, selected: Option<Id>) {
    || (Some(m.senderId) == selected && Some(m.receiverId) == me)
    || (Some(m.senderId) == me && Some(m.receiverId) == selected)
  }

  /** Two messages are the same only when both have a truthy id and the ids agree. */
  predicate SameMessage(a: ChatMessage, b: ChatMessage) {
    Truthy(a.id) && Truthy(b.id) && a.id == b.id
  }

  /** Some listed message is the same as `m`. */
  predicate Listed(shown: seq<ChatMessage>, m: ChatMessage) {
    exists i :: 0 <= i < |shown| && SameMessage(shown[i], m)
  }

  /** `newMessage`: a message of the open conversation is appended unless it is already listed. */
  function OnNewMessage(shown: seq<ChatMessage>, m: ChatMessage, me: Option<Id>, selected: Option<Id>)
    : (r: seq<ChatMessage>)
    ensures r == shown || r == shown + [m]
    ensures r != shown <==> InConversation(m, me, selected) && !Listed(shown, m)
  {
    if InConversation(m, me, selected) && !Listed(shown, m) then shown + [m] else shown
  }

  /** No two listed messages share a truthy id. */
  predicate DistinctIds(shown: seq<ChatMessage>) {
    forall i, j :: 0 <= i < j < |shown| ==> !SameMessage(shown[i], shown[j])
  }

  /**
   * The list never holds two copies of a message with an id, a second delivery
   * is a no-op, and a message without an id is never taken for a duplicate.
   */
  lemma NewMessageDedup(shown: seq<ChatMessage>, m: ChatMessage, me: Option<Id>, selected: Option<Id>)
    ensures DistinctIds(shown) ==> DistinctIds(OnNewMessage(shown, m, me, selected))
    ensures Truthy(m.id) ==>
              var once := OnNewMessage(shown, m, me, selected);
              OnNewMessage(once, m, me, selected) == once
    ensures !Truthy(m.id) && InConversation(m, me, selected) ==> OnNewMessage(shown, m, me, selected) == shown + [m]
  {
    var once := OnNewMessage(shown, m, me, selected);
    if Truthy(m.id) && once != shown {
      assert SameMessage(once[|shown|], m);
    }
  }

  /** What a `newMessage` event does to the contact list. */
  datatype ContactsStep = ContactsStep(contacts: seq<Client.UserCard>, fetchProfile: bool)

  /**
   * A sender other than the user, already listed, is moved to the front (the
   * first entry found with that id, ahead of all the others); an unlisted one
   * makes the page fetch the profile. Anything else leaves the list alone.
   */
  function OnMessageSender(contacts: seq<Client.UserCard>, senderId: Id, me: Option<Id>): (r: ContactsStep)
    ensures r.fetchProfile <==> senderId != "" && Some(senderId) != me && !HasKey(contacts, Client.UserKey, senderId)
    ensures senderId != "" && Some(senderId) != me && HasKey(contacts, Client.UserKey, senderId) ==>
              |r.contacts| > 0 && Some(r.contacts[0]) == FindKey(contacts, Client.UserKey, senderId)
              && r.contacts[1..] == DropKey(contacts, Client.UserKey, senderId)
    ensures senderId == "" || Some(senderId) == me || !HasKey(contacts, Client.UserKey, senderId) ==> r.contacts == contacts
  {
    if senderId == "" || Some(senderId) == me then ContactsStep(contacts, false)
    else
      match FindKey(contacts, Client.UserKey, senderId)
      case Some(u) => ContactsStep([u] + DropKey(contacts, Client.UserKey, senderId), false)
      case None => ContactsStep(contacts, true)
  }

  /** Moving a listed sender to the front keeps every contact exactly once. */
  lemma MoveToFrontIsPermutation(contacts: seq<Client.UserCard>, senderId: Id, me: Option<Id>)
    requires UniqueKeys(contacts, Client.UserKey)
    ensures var r := OnMessageSender(contacts, senderId, me).contacts;
            multiset(r) == multiset(contacts) && UniqueKeys(r, Client.UserKey)
  {
    var r := OnMessageSender(contacts, senderId, me).contacts;
    if senderId != "" && Some(senderId) != me && HasKey(contacts, Client.UserKey, senderId) {
      var i :| 0 <= i < |contacts| && contacts[i] == r[0] && Client.UserKey(contacts[i]) == senderId
               && forall j :: 0 <= j < i ==> Client.UserKey(contacts[j]) != senderId;
      DropKeyAt(contacts, Client.UserKey, i);
      FrontAt(contacts, Client.UserKey, i);
    }
  }

  /**
   * Prepends `u` unless an entry with id `id` is listed: the profile fetched
   * for a new sender (checked again when it arrives) and a picked search result.
   */
  function PrependIfAbsent(contacts: seq<Client.UserCard>, id: Id, u: Client.UserCard): (r: seq<Client.UserCard>)
    ensures HasKey(contacts, Client.UserKey, id) ==> r == contacts
    ensures !HasKey(contacts, Client.UserKey, id) ==> |r| == |contacts| + 1 && r[0] == u && r[1..] == contacts
  {
    if HasKey(contacts, Client.UserKey, id) then contacts else [u] + contacts
  }

  /** Prepending a user under their own id never lists anyone twice, however often it is repeated. */
  lemma PrependKeepsUnique(contacts: seq<Client.UserCard>, u: Client.UserCard)
    requires UniqueKeys(contacts, Client.UserKey)
    ensures var r := PrependIfAbsent(contacts, u.id, u);
            UniqueKeys(r, Client.UserKey) && HasKey(r, Client.UserKey, u.id)
            && PrependIfAbsent(r, u.id, u) == r
  {
    var r := PrependIfAbsent(contacts, u.id, u);
    if r != contacts {
      var ks := Keys(r, Client.UserKey);
      forall a, b | 0 <= a < b < |ks| ensures ks[a] != ks[b] {
        if a == 0 {
          assert ks[b] == Client.UserKey(contacts[b - 1]);
        } else {
          assert Keys(contacts, Client.UserKey)[a - 1] == ks[a] && Keys(contacts, Client.UserKey)[b - 1] == ks[b];
        }
      }
      assert Client.UserKey(r[0]) == u.id;
    } else {
      var i :| 0 <= i < |contacts| && Client.UserKey(contacts[i]) == u.id;
    }
  }

  /** `userTyping`: only an event from the selected user changes the indicator. */
  function OnUserTyping(shown: bool, senderId: Id, isTyping: bool, selected: Option<Id>): (r: bool)
    ensures Some(senderId) == selected ==> r == isTyping
    ensures Some(senderId) != selected ==> r == shown
  {
    if Some(senderId) == selected then isTyping else shown
  }

  /** A `typing` emission of the composer. */
  datatype TypingSignal = TypingSignal(receiverId: Id, isTyping: bool)

  /** A `POST /message/send/:id` request of the composer. */
  datatype SendRequest = SendRequest(receiverId: Id, message: string)

  /**
   * The message box of an open conversation: the draft, the flag saying the
   * receiver was told "typing", and what the box has sent so far.
   */
  class Composer {
    var text: string
    var typing: bool
    var signals: seq<TypingSignal>
    var requests: seq<SendRequest>
    const selected: Option<Id>
    const socketReady: bool

    /**
     * The receiver's indicator follows the flag: the flag is set exactly when
     * the last signal said "typing", and signals go only to the selected user.
     */
    ghost predicate Valid()
      reads this
    {
      && (typing <==> |signals| > 0 && Text.Last(signals).isTyping)
      && (|signals| > 0 ==> socketReady && selected.Some?)
      && (forall k :: 0 <= k < |signals| ==> signals[k].receiverId == selected.value)
    }

    constructor(selected: Option<Id>, socketReady: bool)
      ensures Valid()
      ensures this.selected == selected && this.socketReady == socketReady
      ensures text == "" && !typing && signals == [] && requests == []
    {
      this.selected := selected;
      this.socketReady := socketReady;
      text := "";
      typing := false;
      signals := [];
      requests := [];
    }

    /** `handleTyping`: the draft follows the input; the first keystroke tells the receiver. */
    method Type(value: string)
      requires Valid()
      modifies this`text, this`typing, this`signals
      ensures Valid()
      ensures text == value
      ensures !old(typing) && socketReady && selected.Some? ==>
                typing && signals == old(signals) + [TypingSignal(selected.value, true)]
      ensures old(typing) || !socketReady || selected.None? ==> typing == old(typing) && signals == old(signals)
    {
      text := value;
      if !typing && socketReady && selected.Some? {
        typing := true;
        signals := signals + [TypingSignal(selected.value, true)];
      }
    }

    /**
     * `handleSendMessage`: nothing for a blank draft, no selected user or while
     * loading. Otherwise the trimmed draft is sent and the box cleared; clearing
     * the flag makes the page's typing effect tell the receiver "stopped". On
     * failure the trimmed text comes back into the box.
     */
    method Send(loading: bool, succeeded: bool) returns (sent: bool)
      requires Valid()
      modifies this`text, this`typing, this`signals, this`requests
      ensures Valid()
      ensures sent <==> !Text.IsBlank(old(text)) && selected.Some? && !loading
      ensures !sent ==> text == old(text) && typing == old(typing) && signals == old(signals) && requests == old(requests)
      ensures sent ==> requests == old(requests) + [SendRequest(selected.value, Text.Trim(old(text)))]
                       && Text.Trim(old(text)) != "" && !typing
      ensures sent ==> text == (if succeeded then "" else Text.Trim(old(text)))
      ensures sent && !succeeded ==> Text.Trim(text) == text
    {
      if Text.IsBlank(text) || selected.None? || loading {
        return false;
      }
      var message := Text.Trim(text);
      text := "";
      if typing {
        typing := false;
        signals := signals + [TypingSignal(selected.value, false)];
      }
      requests := requests + [SendRequest(selected.value, message)];
      if !succeeded {
        text := message;
        Text.TrimIdempotent(old(text));
      }
      return true;
    }
  }
}
