# Social app backend: a Dafny model

This project models the server side of a small social network. It covers:
- users who register, log in, follow, block and edit their profile;
- posts with likes, bookmarks and comments;
- stories that expire after a day;
- short video reels;
- direct messages between two users, filed in conversations and pushed to the receiver's live socket.

It also models the two client reducers that hold the chat and the post feed.

The database is one immutable `Store.Store`:
- a map per collection (users, posts, comments, stories, reels, messages);
- the conversations as a sequence, so that `findOne` keeps the collection's natural order;
- one global id counter, `nextId`, standing in for ObjectIds. The counter is global because ObjectIds are unique across collections.

Every controller is a pure function. It takes the authenticated caller's id and the request fields. It returns a `Store.Reply`, which holds:
- the new store;
- the HTTP status, or `NoResponse` for handlers whose catch block only logs;
- the socket events emitted, in order;
- the response body.

Some failing database calls are parameters that select the catch branch: `Messages.Fault` for the message handlers, the `createFails` flag of `Posts.AddNewPost`, and the `lookupFails` flag of `Messages.GetMessages`. The other storage failures are not modelled (see "Left out").

Lists that Mongo updates with `$addToSet`, `$pull`, or "pull if present, else add" are `Lists.AddToSet`, `Lists.Pull` and `Lists.Toggle`. Newest-first listings are built by `Listing.NewestFirst`, an insertion loop over a map of creation times.

`Store.Wf` is the store invariant. Every handler that changes the store has a lemma showing that it preserves `Wf`; the others leave the store as it was. It states:
- all ids are below the counter;
- every message is stored under its own id, and conversations list only stored messages;
- at most one conversation covers any pair of users;
- `following` and `followers` mirror each other, and only name existing users;
- usernames and emails are unique.

Three things the source promises are hard to pin down, and the model settles them as follows:
- **The conversation lookup.** It is `findOne({participants: {$all: [a, b]}})`. `Store.FindThread` returns the first conversation whose participants include both users, so the lookup does not depend on argument order. A self-send matches any conversation the user is in (`Messages.SelfSendUsesFirstConversation`).
- **The two saves after `Message.create`.** They are not atomic. When the conversation save fails, the stored message is listed by no conversation (`Messages.ConversationSaveFailureOrphansMessage`).
- **`addCount` on a missing post.** It creates the comment and only then dereferences the missing post. The throw is caught and only logged, so the orphan comment stays and no response is sent.

Several controllers write fields that their schema does not define, or leave out fields it requires. The model keeps the record the controller evidently means to write, and lets the failing path be taken through a parameter:
- `sendMessage` passes `receiverId` and no `conversationId` (backend/controllers/message_controllers.js:28-32 against backend/models/message_models.js:4-10). It also passes the text as `message`, a path the schema does not define. The model stores the intended record, including the text, and `Messages.Fault.MessageCreateFails` covers the validation failure.
- `addNewPost` passes `image` where the schema requires `mediaUrl` and `mediaType` (backend/controllers/post_controllers.js:27-31). `createFails` covers that failure.
- `savePost` reads `user.bookmarks`, which `userSchema` does not define (backend/controllers/post_controllers.js:205). `addCommentToStory` pushes onto `story.comments`, which `storySchema` does not define (backend/controllers/story_controllers.js:133). The model gives `Schema.User` a `bookmarks` list and `Schema.Story` a `comments` list, as the handlers expect. A `pathDefined` parameter says whether the schema defines the list. When it is false, as in the schemas as written, the read or push throws and the catch answers 500. `savePost` then changes nothing (`Posts.SavePostAsWrittenNeverSaves`). `addCommentToStory` has already stored the comment, which stays with no story listing it (`Stories.StoryCommentAsWrittenOrphaned`).

## Model

| member | source | states |
|---|---|---|
| Lists.AddToSet | backend/controllers/post_controllers.js:111 | the value is present afterwards, nothing else is added, and the earlier entries keep their order |
| Lists.Pull | backend/controllers/post_controllers.js:154 | every occurrence of the value is removed and every other entry keeps its multiplicity |
| Lists.Toggle | backend/controllers/user_controllers.js:309-329 | the value is present afterwards exactly when it was absent before; no other value changes membership |
| Lists.PullIdempotent | backend/controllers/post_controllers.js:154 | pulling twice equals pulling once |
| Lists.AddToSetIdempotent | backend/controllers/post_controllers.js:111 | adding to a set twice equals adding once |
| Lists.ToggleTwice | backend/controllers/user_controllers.js:309-329 | toggling twice restores membership, and restores the exact list when the value was absent |
| Lists.PullAppended | backend/controllers/post_controllers.js:292-300 | pulling a value just appended to a list that lacked it gives back the list |
| Lists.PullConcat | backend/controllers/post_controllers.js:154 | pull distributes over concatenation |
| Lists.AddToSetDistinct | backend/controllers/story_controllers.js:95-98 | add-if-absent keeps a duplicate-free list duplicate-free |
| Schema.ParseGender | backend/models/user_models.js:9 | a gender string is accepted exactly when it is male, female or trans |
| Schema.ParseVisibility | backend/models/post_models.js:15 | a visibility string is accepted exactly when it is public, followers or private |
| Schema.ParseGenderRoundTrip | backend/models/user_models.js:9 | the stored string of each gender parses back to it, and only that string does |
| Schema.ParseVisibilityRoundTrip | backend/models/reels_model.js:11 | the stored string of each visibility parses back to it, and only that string does |
| Store.FindThread | backend/controllers/message_controllers.js:16-18 | the result is the first conversation whose participants include both users; None exactly when no conversation does |
| Store.FindThreadSymmetric | backend/controllers/message_controllers.js:16-18 | the lookup for (A, B) and for (B, A) finds the same conversation |
| Store.FindThreadSelf | backend/controllers/message_controllers.js:16-18 | with the same id twice, `$all` matches the first conversation that user is in |
| Store.FindThreadAppend | backend/controllers/message_controllers.js:21-25 | after a conversation for the pair is appended to a list that had none, the lookup finds it |
| Store.ThreadsUniqueAppend | backend/controllers/message_controllers.js:16-25 | creating a conversation only when the lookup failed keeps at most one conversation per pair |
| Store.EmptyStoreWf | backend/models/user_models.js:4-5 | the empty database satisfies the store invariant |
| Messages.FindOrCreate | backend/controllers/message_controllers.js:16-25 | afterwards the pair has a conversation; an existing one is reused with no change, and otherwise exactly one conversation `[sender, receiver]` with no messages is appended |
| Messages.Append | backend/controllers/message_controllers.js:28-36 | a failed create changes nothing; otherwise the message is stored under the next id. A failed conversation save leaves every conversation as it was. When the conversation save runs, which includes a failed message save since both saves go through `Promise.all`, the id is appended to that conversation's list and its `updatedAt` becomes the current time (the `timestamps` option of backend/models/conversation_models.js:14). Other conversations and all participants stay unchanged, and the message is answered back only when every step succeeds |
| Messages.Persist | backend/controllers/message_controllers.js:16-36 | a message exactly when no storage call throws; then the message is stored with the given sender, receiver, text and media, and its id is appended to the pair's conversation after the ids listed before; a conversation is added only when the lookup found none; other conversations, users, posts, comments, stories and reels are unchanged |
| Realtime.LiveSocket | backend/controllers/message_controllers.js:39-42 | a socket to emit to exactly when the receiver has a non-empty socket id, and it is that id |
| Messages.Send | backend/controllers/message_controllers.js:7-51 | 201 with the message exactly when no storage call throws, else 500; at most one `newMessage` event, emitted exactly on 201 when the receiver has a socket, and carrying the stored message |
| Messages.SendMessage | backend/controllers/message_controllers.js:7-51 | status is 201 or 500; a 500 emits nothing and returns no body; the created message has the caller as sender, the given receiver and text, the schema defaults for its media fields, and `isRead` false |
| Messages.SendMediaMessage | backend/controllers/message_controllers.js:55-102 | as `SendMessage`, with `mediaUrl` equal to the uploaded file's path, or null when no file came |
| Messages.Populate | backend/controllers/message_controllers.js:115 | the records are taken in list order, and when every id is stored the result is exactly their records |
| Messages.GetMessages | backend/controllers/message_controllers.js:105-121 | never changes the store; an empty list when no conversation covers the pair; otherwise the conversation's stored messages in stored order; 500 on a failed lookup |
| Messages.SendPreservesWf | backend/controllers/message_controllers.js:16-36 | a send, failed or not, keeps the store invariant and so at most one conversation per pair |
| Messages.PersistPreservesWf | backend/controllers/message_controllers.js:16-36 | the lookup-or-create and the message writes, failed or not, keep the store invariant |
| Messages.FindOrCreatePreservesWf | backend/controllers/message_controllers.js:16-25 | find-or-create keeps the store invariant |
| Messages.AppendPreservesWf | backend/controllers/message_controllers.js:28-36 | storing and linking a message keeps the store invariant |
| Messages.SendThenGetMessages | backend/controllers/message_controllers.js:7-121 | after a successful send, both participants' `getMessages` return what they returned before plus the new message at the end |
| Messages.SecondSendCreatesNothing | backend/controllers/message_controllers.js:16-25 | once a send has found or created the pair's conversation, a later send in either direction creates no conversation |
| Messages.SelfSendUsesFirstConversation | backend/controllers/message_controllers.js:16-25 | a message to oneself is filed in the first conversation the user is in, and nothing is created |
| Messages.ConversationSaveFailureOrphansMessage | backend/controllers/message_controllers.js:28-51 | when the conversation save throws, the reply is 500 with no event, and the new message stays stored but is listed by no conversation |
| Messages.ThreadMessagesSymmetric | backend/controllers/message_controllers.js:109-111 | the listed ids do not depend on which participant asks |
| Messages.PopulateConcat | backend/controllers/message_controllers.js:115 | populating a concatenation populates each part in turn |
| Users.Register | backend/controllers/user_controllers.js:9-54 | 401 when a field is missing; then 402 when the email is taken; then 403 when the username is taken; otherwise 200 with one new user holding the hashed password, schema defaults and empty relation lists; nothing else changes |
| Users.RegisterPreservesWf | backend/models/user_models.js:4-5 | registration keeps usernames and emails unique and the rest of the invariant |
| Users.NewUserPreservesWf | backend/models/user_models.js:4-5 | adding a user with no relations and an unused username and email, under the next id, keeps the store invariant |
| Users.Login | backend/controllers/user_controllers.js:59-135 | 401 on a missing field, 402 on an unknown email; for a known email, 200 exactly when the password matches the stored hash, and the session is the user that email belongs to; on 200 each session list is the user's own list passed through `KeepOwned`, so the posts are exactly the user's own existing posts in the user's order; stories and reels are looked up among posts, as written |
| Users.FindByEmail | backend/controllers/user_controllers.js:70 | finds a user exactly when one has that email, and the user found has it |
| Users.RegisterThenLogin | backend/controllers/user_controllers.js:8-135 | a user that registration has just created logs in with the password they chose, provided the comparison accepts a password against its own hash; the session is that user's, with no followers or following |
| Users.LoginHidesWhichCredentialFailed | backend/controllers/user_controllers.js:70-84 | a wrong password gets the same 402 and the same message as an unknown email |
| Users.LoginListsNoReels | backend/controllers/user_controllers.js:91-117 | when no reel id is a post id, a successful login lists no reels |
| Users.OwnReelMissingFromLogin | backend/controllers/user_controllers.js:91-117 | for a user who owns reel 1, the login as written lists no reels, while the intended login lists `[1]` |
| Users.LoginIntended | backend/controllers/user_controllers.js:91-117 | the same status as `Login`; on 200 the posts, stories and reels are the user's lists passed through `KeepOwned` against their own collections: exactly the user's own existing records, in the user's order |
| Users.KeepOwned | backend/controllers/user_controllers.js:91-117 | keeps exactly the ids that exist and belong to the user, never more ids than given, and the whole list when all do |
| Users.KeepOwnedConcat | backend/controllers/user_controllers.js:91-117 | the filter of a concatenation is the concatenation of the filters, so kept ids keep their relative order |
| Users.KeepOwnedOne | backend/controllers/user_controllers.js:95 | a single id is kept exactly when its lookup finds a document owned by the user |
| Users.KeepOwnedExample | backend/controllers/user_controllers.js:100-117 | of `[1, 2, 3]` with 1 and 3 owned and 2 missing, the session lists `[1, 3]` |
| Users.EditProfile | backend/controllers/user_controllers.js:164-198 | 404 for an unknown user; an invalid non-empty gender throws, and the catch only logs; otherwise 200, with bio, gender and picture overwritten only by truthy inputs and every other field unchanged |
| Users.EditProfilePreservesWf | backend/controllers/user_controllers.js:183-187 | a profile edit keeps the store invariant |
| Users.GetSuggestedUsers | backend/controllers/user_controllers.js:201-218 | the suggested users are exactly every user except the caller, and nothing changes |
| Users.RegisteredUserIsSuggested | backend/controllers/user_controllers.js:203 | after a registration the newcomer is suggested to every other user, and the newcomer is offered exactly the users there before |
| Users.FollowKeepsSuggestions | backend/controllers/user_controllers.js:203 | following or unfollowing leaves everyone's suggestions unchanged, since only the caller is filtered out |
| Users.FollowOrUnfollow | backend/controllers/user_controllers.js:221-280 | 400, with no change, exactly for a self-follow or a missing user; otherwise 200 with both sides of the edge toggled together |
| Users.FollowEdge | backend/controllers/user_controllers.js:243-276 | the target's membership in the caller's following and the caller's membership in the target's followers both flip; nothing else about any user changes |
| Users.FollowKeepsConsistent | backend/controllers/user_controllers.js:243-276 | a two-sided toggle keeps "B follows-list contains A exactly when A's followers contain B" for all pairs |
| Users.FollowPreservesWf | backend/controllers/user_controllers.js:221-280 | follow or unfollow keeps the store invariant, including follow consistency |
| Users.FollowTwiceRestores | backend/controllers/user_controllers.js:243-276 | following and then unfollowing restores each user's membership in the two lists |
| Users.FollowThenUnfollow | backend/controllers/user_controllers.js:243-276 | starting from no edge, follow then unfollow returns exactly the original users |
| Users.BlockOrReport | backend/controllers/user_controllers.js:285-337 | 400 for self, then 404 for an unknown target, then 500 for an unknown caller, each with no change; otherwise 200 with the target toggled in the caller's `blockedUsers` and nothing else changed |
| Users.BlockPreservesWf | backend/controllers/user_controllers.js:309-329 | blocking keeps the store invariant |
| Users.BlockTwiceRestores | backend/controllers/user_controllers.js:309-329 | blocking twice restores the caller's blocked set |
| Listing.Insert | backend/controllers/post_controllers.js:55 | inserting a new id keeps the list newest-first and free of repeats, and adds exactly that id |
| Listing.NewestFirst | backend/controllers/post_controllers.js:55 | lists every keyed id exactly once, ordered by non-increasing creation time |
| Posts.AddNewPost | backend/controllers/post_controllers.js:10-49 | 400 with no image, before anything is created; a failed create only logs; otherwise 201 with a new post holding the schema defaults, its id appended to the author's posts |
| Posts.AddNewPostPreservesWf | backend/controllers/post_controllers.js:27-36 | creating a post keeps the store invariant |
| Posts.GetAllPost | backend/controllers/post_controllers.js:53-72 | every post exactly once, newest first |
| Posts.GetUserPost | backend/controllers/post_controllers.js:75-96 | exactly the caller's posts, each once, newest first |
| Posts.NotifyOwner | backend/controllers/post_controllers.js:115-129 | no notification when the owner is the actor; otherwise one, of the given kind, naming the actor and the post |
| Posts.LikePost | backend/controllers/post_controllers.js:99-138 | 404 with no change for an unknown post; otherwise the likers are the earlier likers plus the caller, only that post's likes change, and the owner is notified unless they are the caller |
| Posts.DisLikePost | backend/controllers/post_controllers.js:140-183 | 404 with no change for an unknown post; otherwise the likers are the earlier likers minus the caller, only that post's likes change, and the owner is notified unless they are the caller |
| Posts.LikePostPreservesWf | backend/controllers/post_controllers.js:111 | liking keeps the store invariant |
| Posts.DisLikePostPreservesWf | backend/controllers/post_controllers.js:154 | disliking keeps the store invariant |
| Posts.NoSelfNotification | backend/controllers/post_controllers.js:115-129 | a like or dislike never notifies the acting user, and notifies any other owner |
| Posts.LikeIdempotent | backend/controllers/post_controllers.js:111 | liking twice leaves the store as liking once |
| Posts.DislikeUndoesLike | backend/controllers/post_controllers.js:111-154 | a dislike after a like leaves the caller out of the likes, and every other liker stays |
| Posts.SavePost | backend/controllers/post_controllers.js:187-230 | 401 for an unknown post; 500 with no change for an unknown caller or when the user schema has no `bookmarks` path; otherwise 200 with the post toggled in the caller's bookmarks and nothing else changed |
| Posts.SavePostAsWrittenNeverSaves | backend/controllers/post_controllers.js:193-205 | with the schema as written every call answers 401 or 500 and leaves the store unchanged |
| Posts.SaveTwiceRestores | backend/controllers/post_controllers.js:202-222 | saving twice restores the bookmark membership |
| Posts.SavePostPreservesWf | backend/controllers/post_controllers.js:202-222 | saving keeps the store invariant |
| Posts.AddCount | backend/controllers/post_controllers.js:234-260 | 400 with no text; otherwise a comment is created; for a missing post there is no response and the comment stays as an orphan; otherwise 200 with the comment id appended to the post's comments |
| Posts.AddCountPreservesWf | backend/controllers/post_controllers.js:242-253 | commenting keeps the store invariant |
| Posts.DropPostComments | backend/controllers/post_controllers.js:296-298 | keeps exactly the comments that are not on that post |
| Posts.DeletePost | backend/controllers/post_controllers.js:280-309 | 404, then 403 for a non-author, each with no change; otherwise the post is deleted; then the id is pulled from the author's posts and the post's comments are deleted, with 200 |
| Posts.DeletePostPreservesWf | backend/controllers/post_controllers.js:292-300 | deleting a post keeps the store invariant |
| Posts.AddThenDeletePost | backend/controllers/post_controllers.js:10-309 | creating a post and deleting it gives back the original store apart from the id counter |
| Posts.DeleteUndoesAdd | backend/controllers/post_controllers.js:280-309 | deleting a post just added under a fresh id, with no comments on it, answers 200 and restores the store apart from the id counter |
| Posts.DeletePostDropsItsComments | backend/controllers/post_controllers.js:292-300 | a comment added to a post is gone once the post is deleted |
| Stories.AddNewStory | backend/controllers/story_controllers.js:8-62 | 400 for a missing file or a mimetype that is neither `image/…` nor `video/…`, with no change; otherwise 201 with a new story whose caption defaults to the empty string |
| Stories.MimetypeExamples | backend/controllers/story_controllers.js:21-41 | image and video types are accepted; other types, the bare word video and the empty string are not |
| Stories.GetUserStories | backend/controllers/story_controllers.js:65-81 | exactly the caller's stories, each once, newest first |
| Stories.ViewStory | backend/controllers/story_controllers.js:84-108 | 404 for an unknown story; otherwise the viewer is present and appended only if absent, earlier viewers are kept, and a duplicate-free list stays duplicate-free |
| Stories.ViewStoryIdempotent | backend/controllers/story_controllers.js:95-98 | viewing twice leaves the store as viewing once |
| Stories.AddCommentToStory | backend/controllers/story_controllers.js:111-145 | 400 for no text before the lookup, then 404; otherwise a new comment is stored; with no `comments` path in the story schema the push throws and the answer is 500 with only the comment added; otherwise 200 with its id appended to the story's comments |
| Stories.StoryCommentAsWrittenOrphaned | backend/controllers/story_controllers.js:127-144 | with the schema as written the reply is 500, the comment on that story is stored under a fresh id, and no story changes |
| Stories.DeleteStory | backend/controllers/story_controllers.js:148-174 | 404, then 403 for a non-owner, each with no change; otherwise only that story is removed |
| Stories.AutoDeleteExpiredStories | backend/controllers/story_controllers.js:177-185 | keeps exactly the stories created at or after `now` minus 86,400,000 ms; nothing else changes |
| Stories.SweepIdempotent | backend/controllers/story_controllers.js:179-180 | a second sweep at the same time removes nothing |
| Stories.SweepMonotone | backend/controllers/story_controllers.js:179-180 | a later sweep keeps a subset of what an earlier one keeps, and sweeping early then late equals sweeping late |
| Stories.SweepBoundary | backend/controllers/story_controllers.js:179-180 | a story exactly 24 hours old is kept; one millisecond older is removed |
| Stories.AddNewStoryPreservesWf | backend/controllers/story_controllers.js:44-48 | creating a story keeps the store invariant |
| Stories.ViewStoryPreservesWf | backend/controllers/story_controllers.js:95-98 | viewing keeps the store invariant |
| Stories.AddCommentToStoryPreservesWf | backend/controllers/story_controllers.js:127-134 | commenting keeps the store invariant |
| Stories.DeleteStoryPreservesWf | backend/controllers/story_controllers.js:167 | deleting a story keeps the store invariant |
| Stories.SweepPreservesWf | backend/controllers/story_controllers.js:179-180 | the sweep keeps the store invariant |
| Reels.AddNewReel | backend/controllers/reels_controllers.js:8-61 | 401 with no video; then 400 when the duration exceeds 60; then 500 for an invalid visibility; otherwise 200 with a new reel whose caption defaults to the empty string and visibility to public, appended to the user's reels |
| Reels.DurationBoundary | backend/controllers/reels_controllers.js:19-22 | a 60-second reel is accepted and a 61-second one is refused with 400 |
| Reels.AddNewReelPreservesWf | backend/controllers/reels_controllers.js:35-47 | creating a reel keeps the store invariant |
| Reels.GetAllReels | backend/controllers/reels_controllers.js:64-82 | every reel exactly once, newest first |
| Reels.LikeReel | backend/controllers/reels_controllers.js:85-111 | 404 for an unknown reel; otherwise the caller toggled in the likes and nothing else changed |
| Reels.LikeReelTwiceRestores | backend/controllers/reels_controllers.js:95-101 | liking a reel twice restores the likes' membership |
| Reels.AddCommentToReel | backend/controllers/reels_controllers.js:114-148 | 400 for no text before the lookup, then 404; otherwise 200 with a new comment whose id is appended to the reel's comments |
| Reels.DropReelComments | backend/controllers/reels_controllers.js:170-178 | keeps exactly the comments that are not on that reel |
| Reels.DeleteReel | backend/controllers/reels_controllers.js:151-185 | 404, then 403 for a non-owner, each with no change; otherwise the reel is deleted, then 500 for a missing user, or 200 with the id pulled from the user's reels and its comments deleted |
| Reels.AddThenDeleteReel | backend/controllers/reels_controllers.js:8-185 | creating a reel and deleting it gives back the original store apart from the id counter |
| Reels.DeleteUndoesAdd | backend/controllers/reels_controllers.js:151-185 | deleting a reel just added under a fresh id, with no comments on it, answers 200 and restores the store apart from the id counter |
| Reels.LikeReelPreservesWf | backend/controllers/reels_controllers.js:95-101 | liking keeps the store invariant |
| Reels.AddCommentToReelPreservesWf | backend/controllers/reels_controllers.js:130-137 | commenting keeps the store invariant |
| Reels.DeleteReelPreservesWf | backend/controllers/reels_controllers.js:170-178 | deleting a reel keeps the store invariant |
| ChatSlice.SetOnlineUsers | frontend/src/redux/chatSlice.js:10-12 | replaces the online list and leaves the messages |
| ChatSlice.SetMessages | frontend/src/redux/chatSlice.js:13-15 | replaces the messages and leaves the online list |
| ChatSlice.AddMessage | frontend/src/redux/chatSlice.js:16-18 | exactly one message more, at the end, with the earlier ones unchanged |
| ChatSlice.OnlineUsersIndependent | frontend/src/redux/chatSlice.js:10-18 | setting the online list commutes with adding a message and with setting the messages |
| ChatSlice.AddAllIsSetMessages | frontend/src/redux/chatSlice.js:13-18 | adding messages one at a time ends in the same state as setting the concatenated list |
| ChatSlice.ReplayFromInitial | frontend/src/redux/chatSlice.js:5-18 | replaying messages into the initial state shows them in order, with nobody online |
| PostSlice.SetPosts | frontend/src/redux/postSlice.js:10-12 | replaces the feed and leaves the selection |
| PostSlice.SetSelectedPost | frontend/src/redux/postSlice.js:13-15 | replaces the selection and leaves the feed |
| PostSlice.FindIndex | frontend/src/redux/postSlice.js:19 | the first position holding that id, or None exactly when no post has it |
| PostSlice.UpdatePostBookmarks | frontend/src/redux/postSlice.js:17-23 | only the first post with that id gets the new bookmarks; every other post and the selection are unchanged; with no match the state is unchanged |
| PostSlice.SelectionIndependent | frontend/src/redux/postSlice.js:13-23 | selecting a post commutes with a bookmark update |
| PostSlice.SetPostsOverridesBookmarks | frontend/src/redux/postSlice.js:10-23 | setting the feed discards an earlier bookmark update, and an update after it depends on the new feed alone |
| PostSlice.LastBookmarksWin | frontend/src/redux/postSlice.js:17-23 | of two bookmark updates to one post, the later wins |
| PostSlice.BookmarkUpdatesCommute | frontend/src/redux/postSlice.js:17-23 | bookmark updates to different posts commute |

## Left out

- Express routing, middleware order, multer storage and server start-up are not modelled. The authenticated caller's id is a parameter, and the jsonwebtoken check in the authentication middleware is dropped with it.
- bcrypt is a parameter: `Users.Register` takes the hash it stores, and `Users.Login` takes the comparison as a function. The token signing and the cookie of `login` are dropped.
- The cloudinary upload and the sharp resizing are not modelled. The resulting URLs are inputs: the picture of `Users.EditProfile`, the image of `Posts.AddNewPost`, and the media of stories and reels.
- `getVideoDuration` is not defined anywhere in the code. `Reels.AddNewReel` takes the duration as an integer input.
- `getReceiverSocketId` lives in socket/socket.js, which is not part of this model. It is a map from user id to socket id (`Realtime.Sockets`).
- The comment schema is not part of this model. A comment is a record with its text, author and target.
- Mongoose engine behaviour is not modelled: `populate` and `select` projections, the removal of passwords from responses, ObjectId casting and schema validation. Listings and the login session return ids where the server returns documents.
- The TTL indexes that make MongoDB expire stories and reels after 24 hours are not modelled. Only the handler's explicit sweep is.
- Concurrency is not modelled. Requests are handled one after another, so the race between two first messages and the `Promise.all` saves are out of scope.
- Times are integer milliseconds passed in as `now`. The clock is not modelled.
- `logout`, `getProfile` and `getComment` are not modelled.
- The frontend components are not modelled: they are rendering and HTTP calls.
- Users.Register: storage failures (a failing hash, lookup or create) that the catch turns into 500 are not modelled.
- Users.GetSuggestedUsers: returns the set of ids. The order of the returned documents is not modelled.
- Users.Login: the response's message texts other than the shared credential message, and the cookie options, are not modelled.
- Posts.LikePost: a database failure, which the catch only logs, is not modelled. Neither is the 500 that `disLikePost`'s catch sends.
- Posts.GetAllPost: a failed query is not modelled. The same holds for `Posts.GetUserPost`, `Stories.GetUserStories` and `Reels.GetAllReels`.
- Stories.AddNewStory: a failing upload or create, which the catch answers with 500, is not modelled.
- Stories.DeleteStory: as written, the handler removes only the story. It leaves the owner's lists and the story's comments alone, and the model does the same.
- Storage failures other than the fault parameters named above are not modelled. This covers the 500 that the catch of `viewStory`, `likeReel`, `addCommentToReel`, `deleteReel`, `deletePost`, `login`, `savePost` and `blockOrReport` would send on a failing query or save, and the logging-only catches of `followOrUnfollow`, `editProfile` and `addCount`. The model takes those handlers' database calls to succeed.
- Posts.DisLikePost: the notification text is "Your post was liked", as written, although the type is `dislike`.

## Findings

| source | as written | input that shows it | evidently intended | confidence | as-written member | corrected member |
|---|---|---|---|---|---|---|
| backend/controllers/user_controllers.js:91-117 | `login` looks up the ids in `user.stories` and `user.reels` with `Post.findById`, so a story or reel is listed only if a post with the same id exists, which never happens for unique ids | a user who owns reel 1 and has no posts logs in: the session lists no reels | look up stories in the story collection and reels in the reel collection | not executed | Users.OwnReelMissingFromLogin | Users.LoginIntended |
