/**
 * The search panel (frontend/src/components/main/SearchUser.jsx): the list of
 * recent picks, newest first and at most five long, and the guard that decides
 * whether a query is sent.
 */
module SearchUser {
  import opened Wrappers
  import opened IdLists
  import opened Records
  import Text
  import Client
  import UserController

  /** The recent list holds at most this many users. */
  const RecentLimit: nat := 5

  /** The first `n` entries, or all of them when there are fewer (`slice(0, n)`). */
  function Take<T>(s: seq<T>, n: nat): (r: seq<T>)
    ensures r <= s && |r| == if |s| < n then |s| else n
  {
    if |s| <= n then s else s[..n]
  }

  /** `addToRecent`: the user goes to the head, any earlier entry with that id is dropped, and the list is cut to five. */
  function AddToRecent(recent: seq<Client.UserCard>, u: Client.UserCard): (r: seq<Client.UserCard>)
    ensures 1 <= |r| <= RecentLimit && r[0] == u
    ensures r[1..] == Take(DropKey(recent, Client.UserKey, u.id), RecentLimit - 1)
    ensures |r| <= |recent| + 1
    ensures HasKey(recent, Client.UserKey, u.id) ==> |r| <= |recent|
    ensures |recent| + 1 <= RecentLimit && !HasKey(recent, Client.UserKey, u.id) ==> r == [u] + recent
  {
    var rest := DropKey(recent, Client.UserKey, u.id);
    if HasKey(recent, Client.UserKey, u.id) then Take([u] + rest, RecentLimit)
    else
      DropKeyAbsent(recent, Client.UserKey, u.id);
      Take([u] + rest, RecentLimit)
  }

  /** A picked user is listed once, at the head; picking the same user again changes nothing. */
  lemma AddToRecentUnique(recent: seq<Client.UserCard>, u: Client.UserCard)
    requires UniqueKeys(recent, Client.UserKey)
    ensures UniqueKeys(AddToRecent(recent, u), Client.UserKey)
    ensures AddToRecent(AddToRecent(recent, u), u) == AddToRecent(recent, u)
  {
    AddToRecentKeepsUnique(recent, u);
    AddToRecentTwice(recent, u);
  }

  /** The list a pick builds has unique keys when the list before it had. */
  lemma AddToRecentKeepsUnique(recent: seq<Client.UserCard>, u: Client.UserCard)
    requires UniqueKeys(recent, Client.UserKey)
    ensures UniqueKeys(AddToRecent(recent, u), Client.UserKey)
  {
    var rest := DropKey(recent, Client.UserKey, u.id);
    DropKeyUnique(recent, Client.UserKey, u.id);
    PrependUnique(u, rest, Client.UserKey);
    var full := [u] + rest;
    var r := AddToRecent(recent, u);
    assert r <= full;
    var kf := Keys(full, Client.UserKey);
    var kr := Keys(r, Client.UserKey);
    assert forall i :: 0 <= i < |kr| ==> kr[i] == kf[i];
  }

  /** Picking the user at the head again gives the same list. */
  lemma AddToRecentTwice(recent: seq<Client.UserCard>, u: Client.UserCard)
    ensures AddToRecent(AddToRecent(recent, u), u) == AddToRecent(recent, u)
  {
    var rest := DropKey(recent, Client.UserKey, u.id);
    var r := AddToRecent(recent, u);
    var tail := r[1..];
    assert !HasKey(tail, Client.UserKey, u.id) by {
      forall i | 0 <= i < |tail| ensures Client.UserKey(tail[i]) != u.id {
        assert tail[i] == rest[i];
      }
    }
    assert r == [u] + tail;
    assert DropKey(r, Client.UserKey, u.id) == tail by {
      DropKeyAppend([u], tail, Client.UserKey, u.id);
      DropKeyAbsent(tail, Client.UserKey, u.id);
      assert DropKey([u], Client.UserKey, u.id) == [];
    }
    assert Take([u] + tail, RecentLimit) == r;
  }

  /** The three ways the recent list changes. */
  datatype RecentAction = Pick(user: Client.UserCard) | ClearAll | Remove(id: Id)

  /** The recent list after an action: a pick, `clearRecent`, or the remove button on one entry. */
  function ApplyRecent(recent: seq<Client.UserCard>, a: RecentAction): (r: seq<Client.UserCard>)
    ensures a.ClearAll? ==> r == []
    ensures a.Pick? ==> r == AddToRecent(recent, a.user)
    ensures a.Remove? ==> r == DropKey(recent, Client.UserKey, a.id)
    ensures a.Remove? ==> !HasKey(r, Client.UserKey, a.id)
                          && forall i :: 0 <= i < |recent| && recent[i].id != a.id ==> recent[i] in r
  {
    match a
    case Pick(u) => AddToRecent(recent, u)
    case ClearAll => []
    case Remove(id) => DropKey(recent, Client.UserKey, id)
  }

  /** Whatever the user does, the recent list stays duplicate-free and at most five long. */
  lemma RecentInvariant(recent: seq<Client.UserCard>, a: RecentAction)
    requires UniqueKeys(recent, Client.UserKey) && |recent| <= RecentLimit
    ensures var r := ApplyRecent(recent, a);
            UniqueKeys(r, Client.UserKey) && |r| <= RecentLimit
  {
    match a
    case Pick(u) => AddToRecentUnique(recent, u);
    case ClearAll =>
    case Remove(id) => DropKeyUnique(recent, Client.UserKey, id);
  }

  /** What the debounced query effect does. */
  datatype SearchAction = RunSearch(query: string) | ClearResults

  /** A query is sent, as typed, only when its trimmed form is non-empty; otherwise the results are cleared. */
  function OnQuery(query: string): (r: SearchAction)
    ensures r.RunSearch? <==> exists i :: 0 <= i < |query| && !Text.IsSpace(query[i])
    ensures r.RunSearch? ==> r.query == query
  {
    Text.BlankIffAllSpace(query);
    if Text.IsBlank(query) then ClearResults else RunSearch(query)
  }

  /** `s` up to the first `c`, or all of `s` when it has none (`s.split(c)[0]`). */
  function UpTo(s: string, c: char): (r: string)
    ensures r <= s && c !in r
    ensures |r| < |s| ==> s[|r|] == c
  {
    if s == [] then []
    else if s[0] == c then []
    else [s[0]] + UpTo(s[1..], c)
  }

  /** A string without `c` is its own prefix up to `c`. */
  lemma {:induction false} UpToAbsent(s: string, c: char)
    requires c !in s
    ensures UpTo(s, c) == s
  {
    if s != [] {
      UpToAbsent(s[1..], c);
      assert s == [s[0]] + s[1..];
    }
  }

  /** The characters a query string treats specially: the fragment mark, the pair separator, the encoded space and the escape mark. */
  predicate Reserved(c: char) {
    c == '#' || c == '&' || c == '+' || c == '%'
  }

  /** The percent escape of a reserved character, if `a b` is one. */
  function Unescaped(a: char, b: char): (r: Option<char>)
    ensures r.Some? ==> Reserved(r.value)
  {
    if a != '2' then None
    else if b == '3' then Some('#')
    else if b == '6' then Some('&')
    else if b == 'B' || b == 'b' then Some('+')
    else if b == '5' then Some('%')
    else None
  }

  /** The server's reading of a query value: `+` is a space and a percent escape of a reserved character is that character. */
  function FormDecode(s: string): (r: string)
    decreases |s|
  {
    if s == [] then []
    else if s[0] == '%' && |s| >= 3 && Unescaped(s[1], s[2]).Some? then [Unescaped(s[1], s[2]).value] + FormDecode(s[3..])
    else if s[0] == '+' then [' '] + FormDecode(s[1..])
    else [s[0]] + FormDecode(s[1..])
  }

  /**
   * The `query` the server reads from `/user/search?query=<sent>`: the
   * browser drops everything from `#` on, the parser ends the value at the
   * first `&`, and the value is form-decoded.
   */
  function Received(sent: string): (r: string)
    ensures (forall i :: 0 <= i < |sent| ==> !Reserved(sent[i])) ==> r == sent
  {
    if forall i :: 0 <= i < |sent| ==> !Reserved(sent[i]) then
      UpToAbsent(sent, '#');
      UpToAbsent(sent, '&');
      PlainDecodes(sent);
      FormDecode(UpTo(UpTo(sent, '#'), '&'))
    else FormDecode(UpTo(UpTo(sent, '#'), '&'))
  }

  /** Text without reserved characters is read back unchanged. */
  lemma {:induction false} PlainDecodes(s: string)
    requires forall i :: 0 <= i < |s| ==> !Reserved(s[i])
    ensures FormDecode(s) == s
  {
    if s != [] {
      PlainDecodes(s[1..]);
      assert s == [s[0]] + s[1..];
    }
  }

  /** The escape of one character: reserved characters become `%23`, `%26`, `%2B` or `%25`, others stay as typed. */
  function Escape(c: char): (r: string)
    ensures |r| >= 1 && forall i :: 0 <= i < |r| ==> r[i] != '#' && r[i] != '&' && r[i] != '+'
  {
    if c == '#' then "%23"
    else if c == '&' then "%26"
    else if c == '+' then "%2B"
    else if c == '%' then "%25"
    else [c]
  }

  /** The query with each reserved character escaped, as `encodeURIComponent` does for them. */
  function Encode(s: string): (r: string)
    ensures '#' !in r && '&' !in r
  {
    if s == [] then [] else Escape(s[0]) + Encode(s[1..])
  }

  /** Decoding an escaped character and an escaped rest gives the character and the decoded rest. */
  lemma EscapeDecodes(c: char, rest: string)
    ensures FormDecode(Escape(c) + rest) == [c] + FormDecode(rest)
  {
    var s := Escape(c) + rest;
    if Reserved(c) {
      assert s[3..] == rest;
    } else {
      assert s[1..] == rest;
    }
  }

  /** The server reads an escaped query back exactly as typed. */
  lemma {:induction false} EncodedQueryReachesStore(query: string)
    ensures Received(Encode(query)) == query
  {
    EncodedDecodes(query);
    UpToAbsent(Encode(query), '#');
    UpToAbsent(Encode(query), '&');
  }

  /** Form-decoding undoes the escaping. */
  lemma {:induction false} EncodedDecodes(query: string)
    ensures FormDecode(Encode(query)) == query
  {
    if query != [] {
      EncodedDecodes(query[1..]);
      EscapeDecodes(query[0], Encode(query[1..]));
      assert query == [query[0]] + query[1..];
    }
  }

  /**
   * The panel interpolates the query into the URL without escaping it: a
   * query that the panel sends can reach the server as "" (then answered with
   * no users), cut at `&`, or with `+` read as a space.
   */
  lemma UnencodedQueryLosesText(matches: seq<Id>)
    requires matches != []
    ensures OnQuery("#ann").RunSearch? && Received("#ann") == ""
    ensures UserController.SearchResult(Some(Received("#ann")), matches) == []
    ensures Received("a&b") == "a" && Received("a+b") == "a b"
  {
    assert !Text.IsSpace('#');
    assert UpTo("#ann", '#') == [];
    assert UpTo("a&b", '#') == "a&b";
    assert UpTo("a&b", '&') == "a";
    assert UpTo("a+b", '#') == "a+b";
    assert UpTo("a+b", '&') == "a+b";
    assert FormDecode("a+b") == "a b";
  }

  /** A query the panel sends, escaped, is never the empty query the server answers with no users: the server answers with its matches. */
  lemma SentQueriesReachStore(query: string, matches: seq<Id>)
    requires OnQuery(query).RunSearch?
    ensures UserController.SearchResult(Some(Received(Encode(query))), matches) == matches
  {
    EncodedQueryReachesStore(query);
  }
}
