# A verified model of a social-media app's real-time core

The system is a MERN social-media application. An Express/MongoDB backend
stores users, posts, comments, stories and direct messages. A Socket.IO
layer on the same server tracks who is online and pushes events:
`newMessage`, `userTyping`, `newNotification`, `postUpdate`,
`userOnline`/`userOffline`. A React/Redux frontend keeps local copies of
that state and patches them optimistically after each request.

This project models both tiers.

- **Backend.**
  - The Socket.IO layer: handshake authentication, the online registry,
    the room naming and the fan-out of emissions.
  - The `isAuth` middleware and the `Post` schema.
  - The message, post, user and story controllers, written as methods on
    a `DocumentStore` class that they modify.
- **Frontend.**
  - The socket listeners and the pages' state updates: chat, search,
    story tray and viewer, reels, feed, post card, reel card, profile,
    suggestions, follower lists, comment dialog and notification dropdown.
  - The `posts` Redux slice.
  - Most handlers are pure functions from the old state to the new. The
    slice, the story viewer, the chat composer and the socket registry
    are classes, because the source updates them in place.
- **Cross-tier lemmas.** These connect a client update with the server
  function it mirrors:
  - after a successful follow, like or comment, the client holds exactly
    the list the server stores (for a like, when the button's flag agrees
    with the client's copy of the post);
  - a `postUpdate` broadcast makes the client's copy of a post equal to
    the stored one.

Shared vocabulary:

- `IdLists`: `$pull`/filter (`Without`), `$addToSet`, and the client toggle.
- `Records`: keyed lists, i.e. `find`, `some`, and `filter` by `_id`.
- `Text`: `trim`, `split`/`join`, `includes`.
- `Wrappers`: `Option` and JavaScript truthiness.

## Model

| member | source | states |
|---|---|---|
| IdLists.Without | backend/src/controllers/user.controller.js:276-283 | `$pull` removes every occurrence of the id and nothing else (membership and multiset) |
| IdLists.WithoutAppend | frontend/src/components/main/ReelCard.jsx:174-176 | filtering a concatenation filters each side, so kept ids keep their order |
| IdLists.WithoutNoDup | backend/src/controllers/user.controller.js:276-283 | `$pull` keeps a duplicate-free list duplicate-free |
| IdLists.AddToSet | backend/src/controllers/post.controller.js:114 | `$addToSet`: the id is present afterwards, nothing else is added, the list only grows by at most one, an existing id leaves the list unchanged |
| IdLists.ToggleFlips | frontend/src/components/main/Post.jsx:121-127 | the client's filter-or-append with a correct flag flips membership of the target and of nothing else |
| IdLists.ToggleNoDup | frontend/src/components/main/Profile.jsx:53-61 | a correct toggle keeps a duplicate-free list duplicate-free |
| IdLists.ToggleTwice | frontend/src/components/main/Profile.jsx:53-74 | two correct toggles restore the list up to order, and exactly when the id started absent |
| Records.DropKey | frontend/src/components/main/ChatPage.jsx:160 | `filter` by `_id`: exactly the records with another key stay, and one fewer when the key was there |
| Records.DropKeyCount | frontend/src/components/main/ReelCard.jsx:174-177 | the `_id` filter keeps every record with another key as many times as it occurs |
| Records.DropKeyAppend | frontend/src/components/main/SearchUser.jsx:24-27 | filtering by key distributes over concatenation (order kept) |
| Records.DropKeyUnique | frontend/src/components/main/SearchUser.jsx:186-188 | filtering keeps unique keys unique |
| Records.FindKey | frontend/src/components/main/ChatPage.jsx:135 | `find` by `_id` returns a record exactly when some record has the key, and that record has it |
| Records.FrontAt | frontend/src/components/main/ChatPage.jsx:157-161 | moving a record to the front of a uniquely keyed list is a permutation that keeps keys unique |
| Text.TrimStart | frontend/src/components/main/SearchUser.jsx:57 | drops exactly the leading white space |
| Text.TrimEnd | frontend/src/components/main/SearchUser.jsx:57 | drops exactly the trailing white space |
| Text.Normalized | frontend/src/components/main/Post.jsx:40-47 | the comment input rule: blank input becomes "", any other input is kept as typed |
| Text.TrimIdempotent | frontend/src/components/main/ChatPage.jsx:203-205 | trimming the trimmed draft changes nothing |
| Text.Split | backend/src/socket/socket.js:30 | `split` on one character yields separator-free pieces that join back to the input |
| Text.SplitJoin | backend/src/socket/socket.js:156 | splitting joined separator-free parts gives the parts back |
| Text.ContainsAt | frontend/src/components/main/FollowersPage.jsx:18 | `includes` holds iff the pattern occurs at some index |
| Rooms.SortPair | backend/src/socket/socket.js:156 | `[a, b].sort()` returns the same two ids in non-decreasing string order |
| Rooms.PairRoomCommutes | backend/src/controllers/message.controller.js:39-41 | both participants compute the same conversation room name |
| Rooms.PairRoomDeterminesPair | backend/src/socket/socket.js:201 | for dash-free ids the room name determines the unordered pair |
| Rooms.PairRoomNotPersonal | backend/src/socket/socket.js:127 | a conversation room never collides with a personal room named by a dash-free id |
| Events.Recipients | backend/src/socket/socket.js:130-136 | `io.emit`, `io.to`, `socket.to`, `socket.emit` reach only connected sockets, as selected by their joined rooms |
| Events.RelayExcludesSender | backend/src/socket/socket.js:199-207 | `socket.to(room)` reaches what `io.to(room)` reaches minus the sending socket |
| Events.ConversationRoomReachesBoth | backend/src/socket/socket.js:151-207 | a typing relay from one participant reaches the other and not itself; a message to the room reaches both |
| SocketAuth.CookieValue | backend/src/socket/socket.js:32 | the value between the first and second `=`, absent without `=` |
| SocketAuth.TokenIndex | backend/src/socket/socket.js:31-37 | the index of the first cookie named `token`, with no earlier one |
| SocketAuth.FirstTokenCookieIsFirst | backend/src/socket/socket.js:31-37 | the scan yields the value of the cookie at that first index, and nothing when there is none |
| SocketAuth.ExplicitTokenWins | backend/src/socket/socket.js:26-29 | a truthy `auth.token` wins; the cookie header is consulted only when it is falsy |
| SocketAuth.ScanCookies | backend/src/socket/socket.js:30-37 | the `for…of` loop with `break` returns what the reference scan returns |
| SocketAuth.ResolveToken | backend/src/socket/socket.js:26-38 | the token the handshake uses equals the reference definition |
| SocketAuth.Authenticate | backend/src/socket/socket.js:40-113 | accepted iff a truthy token verifies and the user exists; "User not found" exactly for a verified token with no user; every other failure is "Authentication error" |
| Presence.SnapshotOnePerUser | backend/src/socket/socket.js:136 | `Array.from(onlineUsers.values())` lists every online user exactly once with the current entry |
| Presence.SetEntry | backend/src/socket/socket.js:120-124 | `Map.set`: a new key goes last, an existing key keeps its place and takes the new entry |
| Presence.DeleteEntry | backend/src/socket/socket.js:231 | `Map.delete`: that entry goes, the others keep their order |
| Presence.Registry.constructor | backend/src/socket/socket.js:5-8 | no `io`, an empty registry and no emissions |
| Presence.Registry.Initialize | backend/src/socket/socket.js:10-19 | assigns `io`, touching nothing else |
| Presence.Registry.GetIO | backend/src/socket/socket.js:243-248 | succeeds iff the server was initialised |
| Presence.Registry.Handshake | backend/src/socket/socket.js:24-136 | the verdict is `SocketAuth.Authenticate` of the resolved token; a rejected handshake changes nothing; an accepted one runs the connection handler |
| Presence.Registry.Connect | backend/src/socket/socket.js:116-136 | registers the entry, joins the personal room, broadcasts `userOnline` and sends the snapshot only to this socket |
| Presence.Registry.JoinRoom | backend/src/socket/socket.js:139-142 | the socket's rooms gain exactly the named room |
| Presence.Registry.LeaveRoom | backend/src/socket/socket.js:145-148 | the socket's rooms lose exactly the named room |
| Presence.Registry.RelayMessage | backend/src/socket/socket.js:151-196 | appends one `newMessage` to the pair room through `io.to` |
| Presence.Registry.Typing | backend/src/socket/socket.js:199-207 | appends one `userTyping` to the pair room through `socket.to`, which never reaches the typing socket |
| Presence.Registry.SendNotification | backend/src/socket/socket.js:210-226 | appends one `newNotification` to the receiver's personal room |
| Presence.Registry.Disconnect | backend/src/socket/socket.js:229-237 | deletes the entry keyed by the user id, drops the socket and broadcasts `userOffline` |
| Presence.StaleDisconnect | backend/src/socket/socket.js:229-237 | with two sockets of one user, closing the older leaves the user offline although the newer is connected |
| IsAuth.ErrorResponse | backend/src/middlewares/isAuth.middleware.js:40-63 | 401 exactly for `TokenExpiredError` and `JsonWebTokenError`, 500 otherwise, cookie never cleared |
| IsAuth.Authenticate | backend/src/middlewares/isAuth.middleware.js:4-63 | `next()` iff a truthy token verifies and the user exists; the cookie is cleared exactly for a verified token with no user; a thrown verification or lookup is answered by `ErrorResponse` of its error name; every response is 401 or 500 |
| IsAuth.NoTokenNoVerification | backend/src/middlewares/isAuth.middleware.js:8-13 | without a token the verdict does not depend on verification or lookup |
| IsAuth.BadSignatureSkipsLookup | backend/src/middlewares/isAuth.middleware.js:15-22 | a failed verification never depends on the user lookup |
| PostSchema.Validate | backend/src/models/post.model.js:2-44 | an accepted post has the defaults applied and empty likes and comments; a rejection names at least one path |
| PostSchema.RequiredMedia | backend/src/models/post.model.js:8-24 | `image` is required exactly for posts, `video` exactly for reels, a missing type means post |
| PostSchema.OtherMediaOptional | backend/src/models/post.model.js:8-19 | a reel needs no image and a post needs no video |
| MessageController.SendMessage | backend/src/controllers/message.controller.js:6-74 | reuses or creates the conversation, stores the message, appends its id, emits `newMessage` to the pair room at best effort; a store failure is 500 with nothing written |
| MessageController.GetMessage | backend/src/controllers/message.controller.js:76-109 | the message ids of the pair's conversation, or `[]` and a null id when there is none; 500 on a store failure |
| PostController.BroadcastMatchesStored | backend/src/controllers/post.controller.js:113-156 | the `likes` list a like or dislike broadcasts equals what `$addToSet`/`$pull` stores |
| PostController.LikeIdempotent | backend/src/controllers/post.controller.js:114 | liking twice stores what one like stores; a dislike afterwards removes the user entirely |
| PostController.LikeNotifiesOnlyFirstLikeByOthers | backend/src/controllers/post.controller.js:113-145 | a like notifies exactly on the user's first like of someone else's post, and only to the author |
| PostController.LikeUpdateListsLiker | backend/src/controllers/post.controller.js:147-156 | every `postUpdate` after a like lists the liker and equals the stored list |
| PostController.LikePost | backend/src/controllers/post.controller.js:102-169 | 404 for an unknown post; otherwise the like is stored and the emissions are `LikeEmissions`; 500 only when the author document is gone |
| PostController.DislikePost | backend/src/controllers/post.controller.js:170-203 | 404 for an unknown post; otherwise `$pull` and a broadcast of the filtered list |
| PostController.CommentNeverNotifiesAuthorSelf | backend/src/controllers/post.controller.js:231-252 | commenting on one's own post sends no notification |
| PostController.AddComment | backend/src/controllers/post.controller.js:205-288 | as written: 400 without text; an unknown post gives 500 and leaves the created comment behind; otherwise the comment is appended and announced |
| PostController.AttachComment | backend/src/controllers/post.controller.js:228-276 | appends the comment id to the post, notifies a different author, broadcasts the stored comment list |
| PostController.AddCommentChecked | backend/src/controllers/post.controller.js:205-288 | corrected: 404 for an unknown post before any write, so no comment ever refers to a missing post |
| PostController.DeletePost | backend/src/controllers/post.controller.js:315-346 | 404 / 403 change nothing; otherwise the post, its id in the author's `posts` and every comment on it go |
| PostController.DeleteLeavesNoTrace | backend/src/controllers/post.controller.js:330-336 | after a delete no comment refers to the post and the author no longer lists it |
| PostController.Toggled | backend/src/controllers/post.controller.js:361-372 | `$pull` if present else `$addToSet`: the id's membership flips, nothing else changes |
| PostController.ToggledTwice | backend/src/controllers/post.controller.js:348-385 | two toggles restore membership, and the exact list when the id was absent |
| PostController.BookmarkPost | backend/src/controllers/post.controller.js:348-385 | 404 for an unknown post, 500 for a missing user; otherwise `bookmarks` is toggled and the type says "saved"/"unsaved" |
| PostController.FavoritePost | backend/src/controllers/post.controller.js:387-424 | the same on `favorites`, with "favorited"/"unfavorited" |
| PostController.AddNewPost | backend/src/controllers/post.controller.js:7-44 | 400 without a file, 500 for a failed upload or a schema rejection; otherwise the post is stored and pushed onto the author's `posts` |
| PostController.AuthoredFeed | backend/src/controllers/post.controller.js:61-63 | exactly the posts whose author document exists |
| PostController.AuthoredFeedAppend | backend/src/controllers/post.controller.js:61-63 | the author filter keeps the feed's order |
| UserController.NewUser | backend/src/controllers/user.controller.js:27-32 | `name` starts as the username, every list empty |
| UserController.RegisterUser | backend/src/controllers/user.controller.js:8-44 | 400 for a missing field, 409 exactly for a taken email, 201 stores `NewUser`; usernames and emails stay unique |
| UserController.PublicId | backend/src/controllers/user.controller.js:180 | the last `/` segment up to the first `.` |
| UserController.PublicIdOfUploadUrl | backend/src/controllers/user.controller.js:180 | for `…/<id>.<ext>` the public id is `<id>` |
| UserController.EditedFields | backend/src/controllers/user.controller.js:175-177 | only truthy inputs overwrite, every other field is kept |
| UserController.EmptyNeverClears | backend/src/controllers/user.controller.js:175-177 | empty strings and absent fields change nothing |
| UserController.EditProfile | backend/src/controllers/user.controller.js:148-198 | 404 for a missing user, 409 for a taken new username; the old picture's public id is deleted when a new photo replaces it |
| UserController.SearchResult | backend/src/controllers/user.controller.js:200-216 | a falsy query answers `[]`, any other the store's matches |
| UserController.FollowToggleFlips | backend/src/controllers/user.controller.js:270-306 | `a`'s following flips membership of `b`, and `b`'s followers of `a` |
| UserController.FollowToggleKeepsMirror | backend/src/controllers/user.controller.js:270-306 | following/followers stay mirror images and duplicate-free |
| UserController.FollowOrUnfollow | backend/src/controllers/user.controller.js:250-346 | 400 for oneself, 404 for a missing user; otherwise the toggle is stored, a follow notifies the target, and the mirror invariant is kept |
| StoryController.AddStory | backend/src/controllers/story.controller.js:5-46 | 400 without a file, 500 for a failed upload; otherwise a story with `video` for `video*` mimetypes and `image` otherwise |
| StoryController.Authors | backend/src/controllers/story.controller.js:66-81 | the distinct authors, each once, exactly those with a story |
| StoryController.StoriesBy | backend/src/controllers/story.controller.js:66-81 | one author's stories, exactly those |
| StoryController.AuthorsOfPrefix | backend/src/controllers/story.controller.js:66-81 | groups appear in order of first occurrence |
| StoryController.StoriesByKeepsOrder | backend/src/controllers/story.controller.js:63-75 | within a group the stories stay newest first |
| StoryController.EveryStoryInOneGroup | backend/src/controllers/story.controller.js:66-81 | every story lands in the group of its author |
| StoryController.GroupStories | backend/src/controllers/story.controller.js:67-81 | the `reduce` loop produces the reference grouping |
| StoryController.GetAllStories | backend/src/controllers/story.controller.js:48-88 | 404 for a missing user; otherwise the grouping of the selected stories, each group newest first |
| StoryController.Selected | backend/src/controllers/story.controller.js:60-62 | `$in` keeps exactly the stories by the listed authors |
| StoryController.SelectedKeepsOrder | backend/src/controllers/story.controller.js:60-63 | the selection keeps newest-first order |
| StoryController.DeleteStory | backend/src/controllers/story.controller.js:90-114 | 404 / 403 change nothing; otherwise only that story is deleted |
| Client.Present | frontend/src/components/main/Posts.jsx:8-10 | `filter(p => p && keep(p))`: only non-null passing entries, all of them |
| Client.PresentAppend | frontend/src/components/main/Posts.jsx:8-10 | the filter keeps feed order |
| SocketContext.OnOnlineUsers | frontend/src/context/SocketContext.jsx:58-60 | the snapshot replaces the list entry for entry |
| SocketContext.SnapshotListUnique | frontend/src/context/SocketContext.jsx:58-60 | a snapshot from the server's registry lists each user once |
| SocketContext.OnUserOnline | frontend/src/context/SocketContext.jsx:62-70 | appended unless an entry with that user id exists; afterwards the user is listed |
| SocketContext.UserOnlineKeepsUnique | frontend/src/context/SocketContext.jsx:62-70 | never a second entry per user; a repeated announcement is a no-op |
| SocketContext.OnUserOffline | frontend/src/context/SocketContext.jsx:72-74 | the user is offline afterwards and everyone else's presence is unchanged |
| SocketContext.IsUserOnline | frontend/src/context/SocketContext.jsx:160-167 | false for a falsy id, otherwise whether some online entry has that user id |
| SocketContext.OnNewNotification | frontend/src/context/SocketContext.jsx:77-78 | the notification goes to the head of the feed |
| SocketContext.FeedIsNewestFirst | frontend/src/context/SocketContext.jsx:77-78 | the feed is exactly the arrivals in reverse order |
| SocketContext.Patched | frontend/src/context/SocketContext.jsx:125-129 | an absent field keeps its value; id, author and type never change |
| SocketContext.OnPostUpdate | frontend/src/context/SocketContext.jsx:117-133 | only posts with the event's id are patched; the keys are unchanged |
| SocketContext.OnSelectedUpdate | frontend/src/context/SocketContext.jsx:135-144 | the open post is patched only when it is the post the event is about |
| SocketContext.PostUpdateIdempotent | frontend/src/context/SocketContext.jsx:117-144 | receiving the same update twice equals receiving it once |
| SocketContext.ClientSeesStoredLikes | frontend/src/context/SocketContext.jsx:117-133 | after a like broadcast the client's copy of the post has exactly the stored likes (`$addToSet` of the liker) and keeps its comments |
| SocketContext.Receive | frontend/src/context/SocketContext.jsx:58-146 | each event changes only the state its listener owns |
| ChatPage.JoinedRoom | frontend/src/components/main/ChatPage.jsx:42-56 | a room is joined iff user, selected user and socket are present, and it is the pair room |
| ChatPage.JoinedRoomReceivesConversation | frontend/src/components/main/ChatPage.jsx:47-50 | whichever side sends, the server's room is the one the page joined |
| ChatPage.OnNewMessage | frontend/src/components/main/ChatPage.jsx:112-127 | appended iff the message is in the open conversation and not already listed |
| ChatPage.NewMessageDedup | frontend/src/components/main/ChatPage.jsx:116-127 | ids stay distinct, a redelivery is a no-op, a message without id is never a duplicate |
| ChatPage.OnMessageSender | frontend/src/components/main/ChatPage.jsx:133-165 | a sender other than the user who is listed moves to the front: the first entry with that id, then every other entry in order; an unlisted one triggers the profile fetch; in every other case the list is unchanged |
| ChatPage.MoveToFrontIsPermutation | frontend/src/components/main/ChatPage.jsx:157-161 | moving the sender to the front keeps every contact exactly once |
| ChatPage.PrependIfAbsent | frontend/src/components/main/ChatPage.jsx:142-150 | prepends unless the id is listed |
| ChatPage.PrependKeepsUnique | frontend/src/components/main/ChatPage.jsx:333-341 | prepending never lists anyone twice, and repeating it is a no-op |
| ChatPage.OnUserTyping | frontend/src/components/main/ChatPage.jsx:168-172 | only the selected user's event changes the indicator |
| ChatPage.Composer.constructor | frontend/src/components/main/ChatPage.jsx:19-24 | empty draft, not typing, nothing sent |
| ChatPage.Composer.Type | frontend/src/components/main/ChatPage.jsx:233-243 | the draft follows the input; the first keystroke signals "typing" to the selected user |
| ChatPage.Composer.Send | frontend/src/components/main/ChatPage.jsx:202-231 | sends the trimmed draft iff it is non-blank, a user is selected and nothing is loading; a failure restores the trimmed text |
| SearchUser.Take | frontend/src/components/main/SearchUser.jsx:27 | `slice(0, n)` is the prefix of length `min(n, len)` |
| SearchUser.AddToRecent | frontend/src/components/main/SearchUser.jsx:23-30 | the user goes to the head, followed by the other entries in order with any earlier entry of that id dropped, cut to five in all |
| SearchUser.AddToRecentUnique | frontend/src/components/main/SearchUser.jsx:23-30 | unique keys are kept, and picking again changes nothing |
| SearchUser.ApplyRecent | frontend/src/components/main/SearchUser.jsx:23-35 | a pick is `AddToRecent`; clearing empties the list; removing is the `_id` filter, which keeps every other entry in order |
| SearchUser.RecentInvariant | frontend/src/components/main/SearchUser.jsx:23-35 | every action keeps the list duplicate-free and at most five long |
| SearchUser.OnQuery | frontend/src/components/main/SearchUser.jsx:55-78 | the query is sent as typed iff it has a non-space character |
| SearchUser.SentQueriesReachStore | frontend/src/components/main/SearchUser.jsx:57-61 | a query the panel sends, once escaped, reaches the server intact and truthy, so the server answers with its matches |
| SearchUser.Received | frontend/src/components/main/SearchUser.jsx:61 | the value the server reads from the URL: cut at `#`, then at `&`, then form-decoded; text without reserved characters arrives unchanged |
| SearchUser.Encode | frontend/src/components/main/SearchUser.jsx:61 | the escaped query contains no `#` or `&` |
| SearchUser.EncodedQueryReachesStore | frontend/src/components/main/SearchUser.jsx:61 | corrected: the server reads an escaped query back exactly as typed |
| SearchUser.UnencodedQueryLosesText | frontend/src/components/main/SearchUser.jsx:61 | as written: "#ann" is sent but read as "" and answered with no users; "a&b" is read as "a" and "a+b" as "a b" |
| StoryTray.Keep | frontend/src/components/main/StoryTray.jsx:71-75 | one ownership class, in original order |
| StoryTray.KeepSplits | frontend/src/components/main/StoryTray.jsx:71-75 | the two classes together are a permutation of the tray |
| StoryTray.MineFirstIsStableSort | frontend/src/components/main/StoryTray.jsx:71-75 | the sorted tray is a permutation, ordered by the comparator, and stable within each class |
| StoryTray.DisplayStories | frontend/src/components/main/StoryTray.jsx:71-85 | with a logged-in user the first entry is the user's own; without a group it is the placeholder in front of the unchanged list; otherwise the stable sort |
| StoryTray.OwnGroupLeads | frontend/src/components/main/StoryTray.jsx:71-77 | a user with a group sees it first |
| StoryTray.OnStoryClick | frontend/src/components/main/StoryTray.jsx:63-69 | a group with stories opens the viewer, one's own empty entry opens the picker |
| StoryTray.PlaceholderLeads | frontend/src/components/main/StoryTray.jsx:79-85 | for a user without stories the first entry is labelled "Your Story" and opens the picker |
| StoryTray.Label | frontend/src/components/main/StoryTray.jsx:130-134 | "Your Story" under the user's own entry, the author's username under any other |
| StoryTray.EntryOf | backend/src/controllers/story.controller.js:67-81 | a server group arrives with the same author and the same stories in order, not flagged as the placeholder |
| StoryTray.EntriesOf | frontend/src/components/main/StoryTray.jsx:18-24 | the slice holds one tray entry per server group, in the server's order |
| StoryTray.ServerTrayOneEntryPerAuthor | backend/src/controllers/story.controller.js:67-81 | the tray built from the grouping has one entry per author, every fetched story shows in its author's entry, and every story in an entry is by that entry's author |
| StoryViewer.BarsCountPlayed | frontend/src/components/main/StoryViewer.jsx:159-165 | exactly `current` bars are full and exactly one runs |
| StoryViewer.Viewer.constructor | frontend/src/components/main/StoryViewer.jsx:17-19 | starts at index 0, open |
| StoryViewer.Viewer.Replace | frontend/src/components/main/StoryViewer.jsx:26-33 | the stories change and the index stays |
| StoryViewer.Viewer.Render | frontend/src/components/main/StoryViewer.jsx:26-48 | no stories closes, an index past the end resets to 0, otherwise that story is shown, flagged as a video iff `IsVideo` and as the user's own iff `IsOwner` |
| StoryViewer.IsVideo | frontend/src/components/main/StoryViewer.jsx:47 | the shown story plays as a video exactly when its `video` is truthy |
| StoryViewer.IsOwner | frontend/src/components/main/StoryViewer.jsx:48 | the user owns the story when the two ids compare equal, absent ids included |
| StoryViewer.Viewer.HandleNext | frontend/src/components/main/StoryViewer.jsx:89-95 | the next story, or close after the last |
| StoryViewer.Viewer.HandlePrev | frontend/src/components/main/StoryViewer.jsx:97-101 | the previous story; nothing at the first |
| Reels.ReelsView | frontend/src/components/main/Reels.jsx:12 | only reels, all of them, `[]` without a feed |
| Reels.Unseen | frontend/src/components/main/Reels.jsx:20-23 | exactly the fetched reels whose id the feed lacks |
| Reels.MergeReels | frontend/src/components/main/Reels.jsx:20-24 | the feed is kept as a prefix, then exactly the new reels |
| Reels.UnseenOfFeed | frontend/src/components/main/Reels.jsx:20-23 | the id set test is the same as a key lookup in the feed |
| Reels.MergeTwice | frontend/src/components/main/Reels.jsx:20-24 | fetching the same reels again adds nothing |
| Reels.MergeKeepsUnique | frontend/src/components/main/Reels.jsx:20-24 | a feed and a fetch with unique ids merge into a feed with unique ids |
| PostsView.ValidPosts | frontend/src/components/main/Posts.jsx:8-10 | only authored regular posts, `[]` without a feed |
| PostsView.ValidPostsKeepOrder | frontend/src/components/main/Posts.jsx:8-10 | the filter keeps feed order and drops no showable post |
| PostCard.InitialLike | frontend/src/components/main/Post.jsx:17-22 | liked iff the likes include the user; the count is the number of likes |
| PostCard.OnLikeResult | frontend/src/components/main/Post.jsx:65-73 | on success the flag flips and the count moves by one; a failure changes nothing |
| PostCard.LikeButtonMatchesStore | frontend/src/components/main/Post.jsx:65-79 | after a successful click the button shows the state and count the server stores |
| PostCard.FeedAfterLike | frontend/src/components/main/Post.jsx:76-77 | only posts with this id lose or gain the user's like |
| PostCard.FeedLikesMatchStore | frontend/src/components/main/Post.jsx:76-77 | when the flag agrees with each copy, the feed's copies hold exactly the list the server stores after the request |
| PostCard.OnCommentAdded | frontend/src/components/main/Post.jsx:93-94 | the new comment is appended |
| PostCard.FeedAfterComment | frontend/src/components/main/Post.jsx:96-97 | only posts with this id take the card's list |
| PostCard.OnFollowResult | frontend/src/components/main/Post.jsx:109-127 | on success the flag flips and `following` is toggled when present |
| PostCard.FollowFlagStaysAccurate | frontend/src/components/main/Post.jsx:28-33 | a flag computed from the user record stays in step with it |
| PostCard.Renders | frontend/src/components/main/Post.jsx:37-39 | the card renders only with a post that has an author |
| PostCard.FeedCardsRender | frontend/src/components/main/Post.jsx:37-39 | every post the home feed keeps passes the card's render guard |
| PostCard.MayFollow | frontend/src/components/main/Post.jsx:109 | the request goes out only with an author and a user who differ and no request in flight |
| PostCard.HandleFollowUnfollow | frontend/src/components/main/Post.jsx:108-135 | a blocked click changes nothing; otherwise a failure changes nothing, a success flips the flag and toggles a present `following`, and loading ends cleared |
| PostCard.OwnPostFollowIsNoop | frontend/src/components/main/Post.jsx:109 | following from one's own post changes nothing |
| ReelCard.InitialLiked | frontend/src/components/main/ReelCard.jsx:29 | liked iff the likes include the user |
| ReelCard.OnLikeResult | frontend/src/components/main/ReelCard.jsx:84-95 | the flag flips exactly when the request succeeds |
| ReelCard.DisplayedLikesFixed | frontend/src/components/main/ReelCard.jsx:280-281 | corrected count: the others' likes plus one while the flag is set |
| ReelCard.UnlikeKeepsStaleCount | frontend/src/components/main/ReelCard.jsx:280-281 | as written: after unliking a reel only the user liked, the count still shows 1 |
| ReelCard.FixedCountMatchesStore | frontend/src/components/main/ReelCard.jsx:84-95 | the corrected count equals the stored count after a like or unlike, before and after the broadcast |
| ReelCard.LikeCountAgrees | frontend/src/components/main/ReelCard.jsx:280-281 | after a like the as-written and corrected counts agree |
| ReelCard.OnBookmarkResult | frontend/src/components/main/ReelCard.jsx:97-111 | the reel id's membership of `bookmarks` flips, nothing else changes |
| ReelCard.OnFollow | frontend/src/components/main/ReelCard.jsx:113-132 | no user asks to log in; one's own reel does nothing; on success the flag flips and `following` is toggled |
| ReelCard.FeedAfterDelete | frontend/src/components/main/ReelCard.jsx:174-177 | exactly the entries with the reel's id go; the rest stay in order, each as many times as before |
| Profile.FollowingFlag | frontend/src/components/main/Profile.jsx:24-36 | for another's profile, whether `following` lists it; otherwise unchanged |
| Profile.OnFollowResult | frontend/src/components/main/Profile.jsx:38-74 | on success the flag flips and both lists are toggled when present |
| Profile.FollowMatchesServer | frontend/src/components/main/Profile.jsx:38-74 | the client then holds exactly the lists the server's toggle stores |
| Profile.MayFollow | frontend/src/components/main/Profile.jsx:39 | the request goes out only with a user and a profile that is not the user's own |
| Profile.HandleFollowUnfollow | frontend/src/components/main/Profile.jsx:38-84 | a blocked click or a failure changes nothing; a success flips the flag and toggles the present lists on both sides, leaving absent ones absent |
| Profile.OwnProfileFollowIsNoop | frontend/src/components/main/Profile.jsx:39 | following on one's own profile changes nothing |
| Profile.DisplayedPosts | frontend/src/components/main/Profile.jsx:95-96 | posts on the "posts" tab, bookmarks otherwise, `[]` when absent |
| SuggestedUsers.FlagsOfIsMembership | frontend/src/components/main/SuggestedUsers.jsx:16-27 | the flags have exactly the suggested ids as keys, each set iff the user follows that id |
| SuggestedUsers.InitFlags | frontend/src/components/main/SuggestedUsers.jsx:16-27 | the `forEach` builds the reference flags, one per suggestion; without data they stay |
| SuggestedUsers.HandleFollow | frontend/src/components/main/SuggestedUsers.jsx:29-69 | ignored without a user or while in flight; on success the flag flips, a present `following` becomes its toggle by the old flag, an absent one stays absent, the target's suggestion has its followers toggled by the user's id and the others are unchanged; the in-flight flag is cleared |
| SuggestedUsers.FollowKeepsFlagAccurate | frontend/src/components/main/SuggestedUsers.jsx:29-69 | flag, `following` and the target's followers stay in agreement |
| FollowersPage.Endpoint | frontend/src/components/main/FollowersPage.jsx:27-29 | the followers or following endpoint of that profile |
| FollowersPage.Picked | frontend/src/components/main/FollowersPage.jsx:32-34 | `followers` on a followers page, `following` otherwise |
| FollowersPage.SyncedUser | frontend/src/components/main/FollowersPage.jsx:38-41 | on one's own following page `following` becomes the fetched ids; otherwise unchanged |
| FollowersPage.SyncedRowsShowFollowed | frontend/src/components/main/FollowersPage.jsx:38-41 | after the sync every row shows as followed |
| FollowersPage.IsFollowing | frontend/src/components/main/FollowersPage.jsx:89-93 | the user's `following` lists the target; no user or no list reads false |
| FollowersPage.ShowsFollowButton | frontend/src/components/main/FollowersPage.jsx:169 | every row but the user's own has a follow button |
| FollowersPage.RowButtonOf | frontend/src/components/main/FollowersPage.jsx:169-187 | no button on the user's own row; a disabled spinner while in flight; otherwise "Following" iff `IsFollowing`, else "Follow" |
| FollowersPage.SyncedButtonsReadFollowing | frontend/src/components/main/FollowersPage.jsx:37-41 | on one's own following page, after the sync every idle button reads "Following" |
| FollowersPage.HandleFollow | frontend/src/components/main/FollowersPage.jsx:53-87 | on success with a `following` list it is toggled and the rows refetched; the in-progress flag is always cleared |
| FollowersPage.FollowMatchesServer | frontend/src/components/main/FollowersPage.jsx:53-93 | the client's `following` then equals the server's and `isFollowing` flips |
| FollowersPage.CountLabel | frontend/src/components/main/FollowersPage.jsx:110 | "person" iff exactly one row |
| CommentDialog.SendableTextIsTruthy | frontend/src/components/main/CommentDialog.jsx:22-29 | text the enabled button sends is the input as typed and passes the server's `!text` check |
| CommentDialog.SendEnabled | frontend/src/components/main/CommentDialog.jsx:124 | Send is enabled exactly when the text has a character that is not white space |
| CommentDialog.OnSendResult | frontend/src/components/main/CommentDialog.jsx:31-55 | on success the comment is appended to matching feed posts and the selected post, and the input cleared; otherwise nothing |
| CommentDialog.CommentKeepsInStep | frontend/src/components/main/CommentDialog.jsx:39-52 | the selected post stays equal to its feed entries and both hold the server's list after its append |
| NotificationDropdown.IconFor | frontend/src/components/main/NotificationDropdown.jsx:31-42 | one icon per known type, iff; the grey heart for any other |
| NotificationDropdown.OnClick | frontend/src/components/main/NotificationDropdown.jsx:44-53 | follow leads to the sender's profile, a truthy `postId` to "/", else nowhere; always closes |
| NotificationDropdown.ProfileRouteNamesSender | frontend/src/components/main/NotificationDropdown.jsx:45-46 | the same profile route means the same sender |
| NotificationDropdown.Cleared | frontend/src/components/main/NotificationDropdown.jsx:55-57 | the feed becomes empty |
| NotificationDropdown.ClearThenArrive | frontend/src/components/main/NotificationDropdown.jsx:55-72 | no "Clear all" after clearing, and the next arrival is the only notification |
| NotificationDropdown.ShowsClearAll | frontend/src/components/main/NotificationDropdown.jsx:70-75 | "Clear all" is shown only while the feed is non-empty |
| NotificationDropdown.Rows | frontend/src/components/main/NotificationDropdown.jsx:59-96 | nothing when closed, otherwise one row per notification with its icon |
| PostSlice.PostState.constructor | frontend/src/redux/postSlice.js:3-7 | no posts, no selected post, no stories |
| PostSlice.PostState.SetPosts | frontend/src/redux/postSlice.js:13-15 | the feed becomes the payload; the other fields are untouched |
| PostSlice.PostState.SetSelectedPost | frontend/src/redux/postSlice.js:16-18 | the selected post becomes the payload; the other fields are untouched |
| PostSlice.PostState.SetStories | frontend/src/redux/postSlice.js:19-21 | the grouped story entries become the payload; the other fields are untouched |

## Left out

- Timers: the typing timeout, search debounces, the story progress
  interval and its floating-point increment. Only the bar widths they
  drive are modelled.
- Uploads to the media host, JWT signing and verification, and bcrypt.
  Their outcomes are parameters.
- Mongoose `populate`, `sort`, `select` and regex search. Query results
  are parameters, and `sort({createdAt: -1})` is a `NewestFirst`
  precondition.
- Concurrency between requests. Each handler runs atomically against the
  store. A store fault is modelled as failing at the first write.
- Socket.IO transport internals, the debug `fetch` beacons, `console`
  logging and toasts.
- `getReels` and `getMessagedUsers` are called by the frontend but not
  defined in the backend controllers shown.
- `loginUser`, `logoutUser`, `getProfile`, `getSuggestedUsers`,
  `getFollowers`, `getFollowing` and `getCommentOfPost` are outside this
  model.
- The user, story, comment, message and conversation schemas are not part
  of this model. Their creates succeed unless the store faults.
- PostController.AttachComment: the broadcast comment list is the stored
  order; the newest-first `populate` sort is not modelled.
- Rooms.SortPair: JavaScript compares UTF-16 code units. Here characters
  are compared, which is the same for the hex ids used.
- Comments, likes and followers are held as id lists. Populated documents
  are reduced to their ids.
- Null feed entries are handled only where the source filters them
  (`Posts`, `Reels`). Elsewhere the feed holds present posts.
- StoryTray.MineFirstIsStableSort: `Array.prototype.sort` is modelled by
  the stable partition it produces.
- SearchUser.ApplyRecent: `localStorage` persistence is left out.
- Navigation is a value (`Click.route`) rather than a router call.
- FollowersPage.HandleFollow: a failed refetch is `None`, and an absent
  `following` list is treated as the caught TypeError.
- SuggestedUsers.HandleFollow: the suggestions are taken as present,
  because the button is rendered only from them.
- SearchUser.Received: only the escapes of `#`, `&`, `+` and `%` are
  decoded. Other percent escapes, malformed escapes and a repeated `query=`
  key (which Express reads as an array) are not modelled.
- The chat page's user search (ChatPage.jsx:78-100) builds the same
  unescaped URL; it is covered by the search panel's model and not modelled
  again.
- StoryViewer.Viewer.Replace: the tray passes a fixed snapshot and a delete
  closes the viewer, so this prop change does not occur in the app as
  written. The guards at StoryViewer.jsx:26-45 return before the hooks at
  lines 50 and 60; a render taking them would break React's hook order,
  which the model does not capture.
- SuggestedUsers.InitFlags: key order of the flags object is not observable
  and is not modelled.

## Findings

| source | as written | input that shows it | evidently intended | confidence | as-written member | corrected member |
|---|---|---|---|---|---|---|
| backend/src/controllers/post.controller.js:216-228 | `Comment.create` runs before the post is checked; `post.comments` then throws for an unknown post | a comment with text on a post id that does not exist | answer 404 before writing, leaving no orphan comment | not executed | PostController.AddComment | PostController.AddCommentChecked |
| frontend/src/components/main/ReelCard.jsx:280-281 | the count adds one while liked but never subtracts after an unlike | a reel whose likes are `["u"]`, unliked by `u`: shows 1 while the server stores 0, until dislikePost's `postUpdate` broadcast (post.controller.js:186-188) refreshes the reel's likes | others' likes plus one while liked | not executed | ReelCard.UnlikeKeepsStaleCount | ReelCard.FixedCountMatchesStore |
| frontend/src/components/main/SearchUser.jsx:61 | the query is interpolated into `/user/search?query=` without escaping (ChatPage.jsx:87 does the same) | the query "#ann": the panel sends it, the server reads `query` as "" and answers no users; "a&b" is read as "a" and "a+b" as "a b" | escape the query (`encodeURIComponent` or axios `params`) so the server reads it as typed | not executed | SearchUser.UnencodedQueryLosesText | SearchUser.EncodedQueryReachesStore |
