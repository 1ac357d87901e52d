/**
 * User handlers: registration, profile edits, the search guard, and
 * follow/unfollow with its mirror-image `following`/`followers` lists.
 */
module UserController {
  import opened Wrappers
  import opened Events
  import opened IdLists
  import opened Store
  import Text

  /** The unique index on `username`: no two user documents share one. */
  predicate UniqueUsernames(users: map<Id, User>) {
    forall a, b :: a in users && b in users && a != b ==> users[a].username != users[b].username
  }

  /** Emails are distinct as well (the unique index, and the 409 check in front of it). */
  predicate UniqueEmails(users: map<Id, User>) {
    forall a, b :: a in users && b in users && a != b ==> users[a].email != users[b].email
  }

  /** A new user: `name` starts as the username and every list is empty. */
  function NewUser(username: string, email: string, password: string): (u: User)
    ensures u.name == u.username == username && u.email == email
    ensures u.followers == u.following == u.posts == u.bookmarks == u.favorites == []
  {
    User(username, username, email, password, "", "", None, [], [], [], [], [])
  }

  /**
   * `registerUser`: 400 unless username, email and password are all truthy;
   * 409 when the email is registered; the unique username index makes a
   * duplicate username throw (500). Otherwise the user is created.
   */
  method RegisterUser(db: DocumentStore, username: Option<string>, email: Option<string>, password: Option<string>,
                      newUserId: Id, storeFault: bool)
    returns (status: int)
    requires newUserId !in db.users
    modifies db`users
    ensures !Truthy(username) || !Truthy(email) || !Truthy(password) ==> status == 400 && unchanged(db)
    ensures status == 409 <==>
      Truthy(username) && Truthy(email) && Truthy(password) && exists k :: k in old(db.users) && old(db.users)[k].email == email.value
    ensures status == 201 ==>
      db.users == old(db.users)[newUserId := NewUser(username.value, email.value, password.value)]
    ensures status != 201 ==> unchanged(db)
    ensures status == 201 <==>
      && Truthy(username) && Truthy(email) && Truthy(password) && !storeFault
      && (forall k :: k in old(db.users) ==> old(db.users)[k].email != email.value && old(db.users)[k].username != username.value)
    ensures status in {201, 400, 409, 500}
    ensures UniqueUsernames(old(db.users)) ==> UniqueUsernames(db.users)
    ensures UniqueEmails(old(db.users)) ==> UniqueEmails(db.users)
  {
    if !Truthy(username) || !Truthy(email) || !Truthy(password) {
      return 400;
    }
    if exists k :: k in db.users && db.users[k].email == email.value {
      return 409;
    }
    if storeFault || exists k :: k in db.users && db.users[k].username == username.value {
      return 500;
    }
    db.users := db.users[newUserId := NewUser(username.value, email.value, password.value)];
    return 201;
  }

  /** The media host's id of a stored picture URL: its last `/` segment up to the first `.`. */
  function PublicId(url: string): (r: string)
    ensures '/' !in r && '.' !in r
  {
    var segments := Text.Split(url, '/');
    Text.Split(Text.Last(segments), '.')[0]
  }

  /** For a URL `…/<id>.<ext>` the public id is `<id>`. */
  lemma PublicIdOfUploadUrl(prefix: string, id: string, ext: string)
    requires '/' !in id && '.' !in id && '/' !in ext
    ensures PublicId(prefix + "/" + id + "." + ext) == id
  {
    var file := id + "." + ext;
    assert prefix + "/" + id + "." + ext == prefix + ['/'] + file;
    Text.SplitAround(prefix, '/', file);
    Text.SplitFree(file, '/');
    assert file == id + ['.'] + ext;
    Text.SplitAround(id, '.', ext);
    Text.SplitFree(id, '.');
  }

  /** The gender enumeration checked when the user is saved. */
  predicate GenderAllowed(g: Option<string>) {
    g.None? || g.value == "male" || g.value == "female"
  }

  /** The profile after the field updates: only truthy inputs overwrite. */
  function EditedFields(u: User, bio: Option<string>, gender: Option<string>, username: Option<string>,
                        name: Option<string>): (r: User)
    ensures r.bio == (if Truthy(bio) then bio.value else u.bio)
    ensures r.gender == (if Truthy(gender) then gender else u.gender)
    ensures r.name == (if Truthy(name) then name.value else u.name)
    ensures r.username == (if Truthy(username) then username.value else u.username)
    ensures r.(bio := u.bio, gender := u.gender, name := u.name, username := u.username) == u
  {
    u.(username := if Truthy(username) then username.value else u.username,
       bio := if Truthy(bio) then bio.value else u.bio,
       gender := if Truthy(gender) then gender else u.gender,
       name := if Truthy(name) then name.value else u.name)
  }

  /** An empty string never clears a field. */
  lemma EmptyNeverClears(u: User)
    ensures EditedFields(u, Some(""), Some(""), Some(""), Some("")) == u
    ensures EditedFields(u, None, None, None, None) == u
  {
  }

  /**
   * `editProfile`: 404 for an unknown user; 409 when a different, already
   * taken username is requested. Truthy fields overwrite. With a new photo,
   * the old picture's public id is handed to the media host for deletion
   * when there is one, and a null upload response then throws (500, nothing
   * saved). Saving rejects a gender outside the enumeration (500).
   */
  method EditProfile(db: DocumentStore, userId: Id, bio: Option<string>, gender: Option<string>,
                     username: Option<string>, name: Option<string>, hasPhoto: bool, uploadedUrl: Option<string>,
                     storeFault: bool)
    returns (status: int, deletedPublicId: Option<string>)
    modifies db`users
    ensures userId !in old(db.users) ==> status == 404 && deletedPublicId == None && unchanged(db)
    ensures userId in old(db.users) ==>
      var u := old(db.users)[userId];
      var taken := Truthy(username) && username.value != u.username
                   && exists k :: k in old(db.users) && old(db.users)[k].username == username.value;
      var edited := EditedFields(u, bio, gender, username, name);
      var pictured := if hasPhoto && uploadedUrl.Some? then edited.(profilePicture := uploadedUrl.value) else edited;
      && (taken ==> status == 409 && deletedPublicId == None && unchanged(db))
      && (!taken ==> deletedPublicId == if hasPhoto && u.profilePicture != "" then Some(PublicId(u.profilePicture)) else None)
      && (!taken && hasPhoto && uploadedUrl.None? ==> status == 500 && unchanged(db))
      && (!taken && !(hasPhoto && uploadedUrl.None?) && (!GenderAllowed(pictured.gender) || storeFault) ==>
            status == 500 && unchanged(db))
      && (!taken && !(hasPhoto && uploadedUrl.None?) && GenderAllowed(pictured.gender) && !storeFault ==>
            status == 200 && db.users == old(db.users)[userId := pictured])
    ensures UniqueUsernames(old(db.users)) ==> UniqueUsernames(db.users)
  {
    deletedPublicId := None;
    if userId !in db.users {
      return 404, deletedPublicId;
    }
    var user := db.users[userId];
    if Truthy(username) && username.value != user.username {
      if exists k :: k in db.users && db.users[k].username == username.value {
        return 409, deletedPublicId;
      }
    }
    var edited := EditedFields(user, bio, gender, username, name);
    if hasPhoto {
      if user.profilePicture != "" {
        deletedPublicId := Some(PublicId(user.profilePicture));
      }
      if uploadedUrl.None? {
        return 500, deletedPublicId;
      }
      edited := edited.(profilePicture := uploadedUrl.value);
    }
    if !GenderAllowed(edited.gender) || storeFault {
      return 500, deletedPublicId;
    }
    db.users := db.users[userId := edited];
    status := 200;
  }

  /** `searchUser`'s guard: a falsy query answers 200 with no users, otherwise the store's matches. */
  function SearchResult(query: Option<string>, matches: seq<Id>): (r: seq<Id>)
    ensures !Truthy(query) ==> r == []
    ensures Truthy(query) ==> r == matches
  {
    if Truthy(query) then matches else []
  }

  /** `following` and `followers` are mirror images among existing users. */
  predicate Mirrored(users: map<Id, User>) {
    forall a, b :: a in users && b in users ==> (b in users[a].following <==> a in users[b].followers)
  }

  /** No user lists anyone twice. */
  predicate DuplicateFree(users: map<Id, User>) {
    forall a :: a in users ==> NoDup(users[a].following) && NoDup(users[a].followers)
  }

  /**
   * The two updates of a follow toggle: `$pull` both ids when `a` follows `b`,
   * `$push` both otherwise.
   */
  function FollowToggle(users: map<Id, User>, a: Id, b: Id): (r: map<Id, User>)
    requires a in users && b in users && a != b
    ensures r.Keys == users.Keys
  {
    var ua := users[a];
    var ub := users[b];
    if b in ua.following then
      users[a := ua.(following := Without(ua.following, b))][b := ub.(followers := Without(ub.followers, a))]
    else
      users[a := ua.(following := ua.following + [b])][b := ub.(followers := ub.followers + [a])]
  }

  /** Only the two lists involved change, and `a`'s following flips its membership of `b`. */
  lemma FollowToggleFlips(users: map<Id, User>, a: Id, b: Id)
    requires a in users && b in users && a != b
    ensures var r := FollowToggle(users, a, b);
      && (b in r[a].following <==> b !in users[a].following)
      && (forall y :: y != b ==> (y in r[a].following <==> y in users[a].following))
      && r[a].followers == users[a].followers && r[b].following == users[b].following
      && (forall c :: c in users && c != a && c != b ==> r[c] == users[c])
  {
  }

  /** A toggle between two distinct existing users keeps the lists mirrored and duplicate-free. */
  lemma FollowToggleKeepsMirror(users: map<Id, User>, a: Id, b: Id)
    requires a in users && b in users && a != b
    requires Mirrored(users) && DuplicateFree(users)
    ensures Mirrored(FollowToggle(users, a, b)) && DuplicateFree(FollowToggle(users, a, b))
  {
    ToggleKeepsMirror(users, a, b);
    ToggleKeepsDuplicateFree(users, a, b);
  }

  /** The mirror half: `a` gains or loses `b` exactly when `b` gains or loses `a`. */
  lemma ToggleKeepsMirror(users: map<Id, User>, a: Id, b: Id)
    requires a in users && b in users && a != b
    requires Mirrored(users)
    ensures Mirrored(FollowToggle(users, a, b))
  {
    var r := FollowToggle(users, a, b);
    FollowToggleFlips(users, a, b);
    assert (b in users[a].following) == (a in users[b].followers);
    assert forall x :: x != a ==> (x in r[b].followers <==> x in users[b].followers);
    assert a in r[b].followers <==> a !in users[b].followers;
    forall x, y | x in r && y in r ensures (y in r[x].following <==> x in r[y].followers) {
      assert y in users[x].following <==> x in users[y].followers;
    }
  }

  /** The duplicate-free half: `$pull` keeps a list duplicate-free, `$push` of an absent id too. */
  lemma ToggleKeepsDuplicateFree(users: map<Id, User>, a: Id, b: Id)
    requires a in users && b in users && a != b
    requires Mirrored(users) && DuplicateFree(users)
    ensures DuplicateFree(FollowToggle(users, a, b))
  {
    assert (b in users[a].following) == (a in users[b].followers);
    if b in users[a].following {
      WithoutNoDup(users[a].following, b);
      WithoutNoDup(users[b].followers, a);
    }
  }

  /** The `newNotification` a follow sends to the followed user. */
  function FollowNotification(users: map<Id, User>, userId: Id, targetId: Id): Event
    requires userId in users
  {
    NewNotification(userId, targetId, "follow", users[userId].username + " started following you", None,
                    SenderBlock(userId, users[userId], false))
  }

  /**
   * `followOrUnfollow`: 400 for yourself; 404 when either user is missing.
   * Otherwise both lists are toggled and the action is "unfollow" or
   * "follow"; only a follow notifies the followed user.
   */
  method FollowOrUnfollow(db: DocumentStore, userId: Id, targetId: Id, socketThrows: bool, storeFault: bool)
    returns (status: int, action: string)
    modifies db`users, db`outbox
    ensures userId == targetId ==> status == 400 && unchanged(db)
    ensures userId != targetId && (userId !in old(db.users) || targetId !in old(db.users)) ==>
      status == 404 && unchanged(db)
    ensures userId != targetId && userId in old(db.users) && targetId in old(db.users) && storeFault ==>
      status == 500 && unchanged(db)
    ensures userId != targetId && userId in old(db.users) && targetId in old(db.users) && !storeFault ==>
      var following := targetId in old(db.users)[userId].following;
      && status == 200
      && db.users == FollowToggle(old(db.users), userId, targetId)
      && action == (if following then "unfollow" else "follow")
      && db.outbox == old(db.outbox) +
           if !following && Emits(db.ioReady, socketThrows)
           then [Emission(Room(targetId), FollowNotification(db.users, userId, targetId))]
           else []
    ensures Mirrored(old(db.users)) && DuplicateFree(old(db.users)) ==>
      Mirrored(db.users) && DuplicateFree(db.users)
  {
    action := "";
    if userId == targetId {
      return 400, action;
    }
    if userId !in db.users || targetId !in db.users {
      return 404, action;
    }
    if storeFault {
      return 500, action;
    }
    var isFollowing := targetId in db.users[userId].following;
    if Mirrored(db.users) && DuplicateFree(db.users) {
      FollowToggleKeepsMirror(db.users, userId, targetId);
    }
    db.users := FollowToggle(db.users, userId, targetId);
    if isFollowing {
      action := "unfollow";
    } else {
      action := "follow";
      if Emits(db.ioReady, socketThrows) {
        db.outbox := db.outbox + [Emission(Room(targetId), FollowNotification(db.users, userId, targetId))];
      }
    }
    status := 200;
  }
}
