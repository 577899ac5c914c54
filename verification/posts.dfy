/**
 The post handlers: create, list, like and dislike with an owner
 notification, bookmark, comment and delete. The cloudinary upload is the
 `image` parameter (its secure URL, None when no file came).
 */
module Posts {

  import opened Base
  import opened Schema
  import opened Realtime
  import opened Store
  import opened Lists
  import opened Listing

  /** The actor's `username profilePicture`, as `User.findById(..).select(..)`
      gives it; None when there is no such user. */
  function Details(st: Store, u: UserId): (r: Option<UserDetails>)
    ensures r.Some? <==> u in st.users
    ensures r.Some? ==> r.value == UserDetails(st.users[u].username, st.users[u].profilePicture)
  {
    if u in st.users then Some(UserDetails(st.users[u].username, st.users[u].profilePicture)) else None
  }

  // ---------------------------------------------------------- addNewPost

  /** `addNewPost`: 400 without an image. `createFails` stands for a failing
      `Post.create`, whose catch block only logs. Otherwise the post is
      created under a fresh id, appended to the author's `posts` when the
      author's record exists, and the answer is 201 with its id. */
  function AddNewPost(st: Store, caller: UserId, caption: string, image: Option<string>,
                      createFails: bool, now: Millis): (r: Reply<PostId>)
    ensures r.events == []
    ensures image.None? ==> r.status == Http(400) && r.store == st
    ensures image.Some? && createFails ==> r.status == NoResponse && r.store == st
    ensures r.status == Http(201) <==> image.Some? && !createFails
    ensures r.status == Http(201) ==>
      && r.body == Some(st.nextId)
      && r.store.nextId == st.nextId + 1
      && r.store.posts.Keys == st.posts.Keys + {st.nextId}
      && (forall k :: k in st.posts && k != st.nextId ==> r.store.posts[k] == st.posts[k])
      && var p := r.store.posts[st.nextId];
         && p.author == caller && p.caption == caption && p.mediaUrl == image.value
         && p.mediaType == PostImage && p.likes == [] && p.comments == []
         && p.likeCount == 0 && p.commentCount == 0 && p.shareCount == 0
         && p.visibility == Public && !p.isSponsored && !p.isArchived && p.location == ""
         && p.createdAt == now
    ensures r.status == Http(201) ==>
      && r.store.users.Keys == st.users.Keys
      && (caller in st.users ==> r.store.users[caller] == st.users[caller].(posts := st.users[caller].posts + [st.nextId]))
      && (forall k :: k in st.users && k != caller ==> r.store.users[k] == st.users[k])
      && r.store.comments == st.comments && r.store.stories == st.stories && r.store.reels == st.reels
      && r.store.conversations == st.conversations && r.store.messages == st.messages
  {
    if image.None? then Refuse(st, Http(400))
    else if createFails then Refuse(st, NoResponse)
    else
      var id := st.nextId;
      var st1 := st.(posts := st.posts[id := NewPost(caption, image.value, PostImage, caller, now)], nextId := id + 1);
      var st2 :=
        if caller in st.users then
          st1.(users := st.users[caller := st.users[caller].(posts := st.users[caller].posts + [id])])
        else st1;
      Reply(st2, Http(201), [], Some(id))
  }

  lemma AddNewPostPreservesWf(st: Store, caller: UserId, caption: string, image: Option<string>,
                              createFails: bool, now: Millis)
    requires Wf(st)
    ensures Wf(AddNewPost(st, caller, caption, image, createFails, now).store)
  {
    var r := AddNewPost(st, caller, caption, image, createFails, now);
    if r.status == Http(201) {
      assert SameGraph(st.users, r.store.users) by {
        forall k | k in st.users
          ensures r.store.users[k].following == st.users[k].following
          ensures r.store.users[k].followers == st.users[k].followers
          ensures r.store.users[k].username == st.users[k].username
          ensures r.store.users[k].email == st.users[k].email
        {
          if k == caller {
            assert r.store.users[k] == st.users[k].(posts := st.users[k].posts + [st.nextId]);
          }
        }
      }
      assert KeysFrom(st.posts, r.store.posts, st.nextId, r.store.nextId);
      WfContentEdit(st, r.store);
    }
  }

  // ------------------------------------------------ getAllPost / getUserPost

  function AuthoredBy(posts: map<PostId, Post>, u: UserId): (r: map<PostId, Post>)
    ensures forall k :: k in r <==> k in posts && posts[k].author == u
    ensures forall k :: k in r ==> r[k] == posts[k]
  {
    map k | k in posts && posts[k].author == u :: posts[k]
  }

  /** `getAllPost`: every post, newest first; the store is read only. */
  method GetAllPost(st: Store) returns (r: Reply<seq<PostId>>)
    ensures r.store == st && r.events == [] && r.status == Http(200) && r.body.Some?
    ensures forall p :: p in r.body.value <==> p in st.posts
    ensures NoRepeats(r.body.value)
    ensures forall i, j :: 0 <= i < j < |r.body.value| ==>
      st.posts[r.body.value[i]].createdAt >= st.posts[r.body.value[j]].createdAt
  {
    var times := CreationTimes(st.posts, (x: Post) => x.createdAt);
    var ids := NewestFirst(times);
    assert NewestFirstOrder(ids, times);
    r := Reply(st, Http(200), [], Some(ids));
  }

  /** `getUserPost`: the caller's posts only, newest first. */
  method GetUserPost(st: Store, caller: UserId) returns (r: Reply<seq<PostId>>)
    ensures r.store == st && r.events == [] && r.status == Http(200) && r.body.Some?
    ensures forall p :: p in r.body.value <==> p in st.posts && st.posts[p].author == caller
    ensures NoRepeats(r.body.value)
    ensures forall i, j :: 0 <= i < j < |r.body.value| ==>
      st.posts[r.body.value[i]].createdAt >= st.posts[r.body.value[j]].createdAt
  {
    var times := CreationTimes(AuthoredBy(st.posts, caller), (x: Post) => x.createdAt);
    var ids := NewestFirst(times);
    assert NewestFirstOrder(ids, times);
    r := Reply(st, Http(200), [], Some(ids));
  }

  // ------------------------------------------------- likePost / disLikePost

  /** The `notification` event for the post's owner, or nothing when the
      actor owns the post. Both handlers send the text "Your post was
      liked". */
  function NotifyOwner(st: Store, kind: NoteKind, actor: UserId, postId: PostId, owner: UserId,
                       sockets: Sockets): (r: seq<Event>)
    ensures owner == actor <==> r == []
    ensures |r| <= 1
    ensures forall e :: e in r ==>
      && e.NotificationEvent? && e.room == SocketOf(sockets, owner)
      && e.note.kind == kind && e.note.userId == actor && e.note.postId == postId
      && e.note.userDetails == Details(st, actor) && e.note.message == "Your post was liked"
  {
    if owner == actor then []
    else [NotificationEvent(SocketOf(sockets, owner), Notification(kind, actor, Details(st, actor), postId, "Your post was liked"))]
  }

  /** `likePost`: 404 for an unknown post; otherwise `$addToSet` of the
      caller on `likes`, a notification to a different owner, and 200. */
  function LikePost(st: Store, caller: UserId, postId: PostId, sockets: Sockets): (r: Reply<()>)
    ensures postId !in st.posts ==> r.status == Http(404) && r.store == st && r.events == []
    ensures postId in st.posts ==>
      && r.status == Http(200)
      && r.store == st.(posts := r.store.posts)
      && r.store.posts.Keys == st.posts.Keys
      && (forall k :: k in st.posts && k != postId ==> r.store.posts[k] == st.posts[k])
      && r.store.posts[postId].(likes := st.posts[postId].likes) == st.posts[postId]
      && (forall u :: u in r.store.posts[postId].likes <==> u in st.posts[postId].likes || u == caller)
      && r.events == NotifyOwner(st, Like, caller, postId, st.posts[postId].author, sockets)
  {
    if postId !in st.posts then Refuse(st, Http(404))
    else
      var p := st.posts[postId];
      Reply(st.(posts := st.posts[postId := p.(likes := AddToSet(p.likes, caller))]), Http(200),
            NotifyOwner(st, Like, caller, postId, p.author, sockets), Some(()))
  }

  /** `disLikePost`: 404 for an unknown post; otherwise `$pull` of the
      caller from `likes`, a notification to a different owner, and 200. */
  function DisLikePost(st: Store, caller: UserId, postId: PostId, sockets: Sockets): (r: Reply<()>)
    ensures postId !in st.posts ==> r.status == Http(404) && r.store == st && r.events == []
    ensures postId in st.posts ==>
      && r.status == Http(200)
      && r.store == st.(posts := r.store.posts)
      && r.store.posts.Keys == st.posts.Keys
      && (forall k :: k in st.posts && k != postId ==> r.store.posts[k] == st.posts[k])
      && r.store.posts[postId].(likes := st.posts[postId].likes) == st.posts[postId]
      && (forall u :: u in r.store.posts[postId].likes <==> u in st.posts[postId].likes && u != caller)
      && r.events == NotifyOwner(st, Dislike, caller, postId, st.posts[postId].author, sockets)
  {
    if postId !in st.posts then Refuse(st, Http(404))
    else
      var p := st.posts[postId];
      Reply(st.(posts := st.posts[postId := p.(likes := Pull(p.likes, caller))]), Http(200),
            NotifyOwner(st, Dislike, caller, postId, p.author, sockets), Some(()))
  }

  /** A like or dislike is never notified to the acting user, and reaches
      the owner's socket when there is one. */
  lemma NoSelfNotification(st: Store, caller: UserId, postId: PostId, sockets: Sockets)
    ensures forall e :: e in LikePost(st, caller, postId, sockets).events ==>
      postId in st.posts && st.posts[postId].author != caller && e.note.userId == caller
    ensures forall e :: e in DisLikePost(st, caller, postId, sockets).events ==>
      postId in st.posts && st.posts[postId].author != caller && e.note.userId == caller
    ensures postId in st.posts && st.posts[postId].author != caller ==>
      |LikePost(st, caller, postId, sockets).events| == 1
  {
  }

  /** Liking twice changes the store no more than liking once. */
  lemma LikeIdempotent(st: Store, caller: UserId, postId: PostId, sockets: Sockets)
    ensures var st1 := LikePost(st, caller, postId, sockets).store;
      LikePost(st1, caller, postId, sockets).store == st1
  {
    if postId in st.posts {
      var p := st.posts[postId];
      AddToSetIdempotent(p.likes, caller);
      var st1 := LikePost(st, caller, postId, sockets).store;
      assert st1.posts[postId] == p.(likes := AddToSet(p.likes, caller));
    }
  }

  /** A dislike undoes a like: the caller is gone from `likes`; when the
      caller had not liked the post before, the store is back as it was. */
  lemma DislikeUndoesLike(st: Store, caller: UserId, postId: PostId, sockets: Sockets)
    requires postId in st.posts
    ensures var st2 := DisLikePost(LikePost(st, caller, postId, sockets).store, caller, postId, sockets).store;
      && caller !in st2.posts[postId].likes
      && (caller !in st.posts[postId].likes ==> st2 == st)
  {
    var p := st.posts[postId];
    if caller !in p.likes {
      PullAppended(p.likes, caller);
      var st1 := LikePost(st, caller, postId, sockets).store;
      assert st1.posts[postId].likes == p.likes + [caller];
      var st2 := DisLikePost(st1, caller, postId, sockets).store;
      assert st2.posts[postId] == p;
      assert st2.posts == st.posts;
    }
  }

  lemma LikePostPreservesWf(st: Store, caller: UserId, postId: PostId, sockets: Sockets)
    requires Wf(st)
    ensures Wf(LikePost(st, caller, postId, sockets).store)
  {
    WfContentEdit(st, LikePost(st, caller, postId, sockets).store);
  }

  lemma DisLikePostPreservesWf(st: Store, caller: UserId, postId: PostId, sockets: Sockets)
    requires Wf(st)
    ensures Wf(DisLikePost(st, caller, postId, sockets).store)
  {
    WfContentEdit(st, DisLikePost(st, caller, postId, sockets).store);
  }

  // --------------------------------------------------------------- savePost

  /** `savePost`: 401 for an unknown post; 500 (the catch block) when the
      caller's record is missing, or when the user document has no
      `bookmarks` array to read: `pathDefined` says whether the user schema
      defines that path, and `userSchema` as written does not. Otherwise the
      post is pulled from the caller's `bookmarks` if there and added if
      not, and the answer is 200. Only that list changes. */
  function SavePost(st: Store, caller: UserId, postId: PostId, pathDefined: bool): (r: Reply<()>)
    ensures r.events == []
    ensures postId !in st.posts ==> r.status == Http(401) && r.store == st
    ensures postId in st.posts && caller !in st.users ==> r.status == Http(500) && r.store == st
    ensures postId in st.posts && !pathDefined ==> r.status == Http(500) && r.store == st
    ensures r.status == Http(200) <==> postId in st.posts && caller in st.users && pathDefined
    ensures r.status == Http(200) ==>
      && r.store == st.(users := r.store.users)
      && r.store.users.Keys == st.users.Keys
      && (forall k :: k in st.users && k != caller ==> r.store.users[k] == st.users[k])
      && r.store.users[caller].(bookmarks := st.users[caller].bookmarks) == st.users[caller]
      && (postId in r.store.users[caller].bookmarks <==> postId !in st.users[caller].bookmarks)
      && (forall p :: p != postId ==>
            (p in r.store.users[caller].bookmarks <==> p in st.users[caller].bookmarks))
  {
    if postId !in st.posts then Refuse(st, Http(401))
    else if caller !in st.users || !pathDefined then Refuse(st, Http(500))
    else
      var u := st.users[caller];
      Reply(st.(users := st.users[caller := u.(bookmarks := Toggle(u.bookmarks, postId))]), Http(200), [], Some(()))
  }

  /** Saving twice restores which posts are bookmarked, and restores the
      store exactly when the post was not bookmarked. */
  lemma SaveTwiceRestores(st: Store, caller: UserId, postId: PostId)
    requires postId in st.posts && caller in st.users
    ensures var st2 := SavePost(SavePost(st, caller, postId, true).store, caller, postId, true).store;
      && (forall p :: p in st2.users[caller].bookmarks <==> p in st.users[caller].bookmarks)
      && (postId !in st.users[caller].bookmarks ==> st2 == st)
  {
    var u := st.users[caller];
    ToggleTwice(u.bookmarks, postId);
    var st1 := SavePost(st, caller, postId, true).store;
    assert st1.users[caller] == u.(bookmarks := Toggle(u.bookmarks, postId));
    var st2 := SavePost(st1, caller, postId, true).store;
    assert st2.users[caller] == u.(bookmarks := Toggle(Toggle(u.bookmarks, postId), postId));
  }

  /** As written, with no `bookmarks` path in the user schema, reading
      `user.bookmarks.includes` throws: every call is refused, and no
      bookmark is ever stored. */
  lemma SavePostAsWrittenNeverSaves(st: Store, caller: UserId, postId: PostId)
    ensures var r := SavePost(st, caller, postId, false);
      && r.store == st
      && r.status == (if postId in st.posts then Http(500) else Http(401))
  {
  }

  lemma SavePostPreservesWf(st: Store, caller: UserId, postId: PostId, pathDefined: bool)
    requires Wf(st)
    ensures Wf(SavePost(st, caller, postId, pathDefined).store)
  {
    var r := SavePost(st, caller, postId, pathDefined);
    if r.status == Http(200) {
      WfContentEdit(st, r.store);
    }
  }

  // --------------------------------------------------------------- addCount

  /** `addCount`: 400 without text. Otherwise the comment is created first;
      with no such post the following push throws and the catch block only
      logs, leaving the comment behind; else its id is appended to the
      post's comments and the answer is 200 with the comment's id. */
  function AddCount(st: Store, caller: UserId, postId: PostId, text: string): (r: Reply<CommentId>)
    ensures r.events == []
    ensures !Given(text) ==> r.status == Http(400) && r.store == st
    ensures Given(text) ==>
      && r.store.nextId == st.nextId + 1
      && r.store.comments == st.comments[st.nextId := Comment(text, caller, OnPost(postId))]
      && r.store.users == st.users && r.store.stories == st.stories && r.store.reels == st.reels
      && r.store.conversations == st.conversations && r.store.messages == st.messages
    ensures Given(text) && postId !in st.posts ==> r.status == NoResponse && r.store.posts == st.posts
    ensures r.status == Http(200) <==> Given(text) && postId in st.posts
    ensures r.status == Http(200) ==>
      && r.body == Some(st.nextId)
      && r.store.posts.Keys == st.posts.Keys
      && (forall k :: k in st.posts && k != postId ==> r.store.posts[k] == st.posts[k])
      && r.store.posts[postId].(comments := st.posts[postId].comments) == st.posts[postId]
      && |r.store.posts[postId].comments| == |st.posts[postId].comments| + 1
      && r.store.posts[postId].comments[..|st.posts[postId].comments|] == st.posts[postId].comments
      && r.store.posts[postId].comments[|st.posts[postId].comments|] == st.nextId
  {
    if !Given(text) then Refuse(st, Http(400))
    else
      var id := st.nextId;
      var st1 := st.(comments := st.comments[id := Comment(text, caller, OnPost(postId))], nextId := id + 1);
      if postId !in st.posts then Refuse(st1, NoResponse)
      else
        var p := st.posts[postId];
        Reply(st1.(posts := st.posts[postId := p.(comments := p.comments + [id])]), Http(200), [], Some(id))
  }

  lemma AddCountPreservesWf(st: Store, caller: UserId, postId: PostId, text: string)
    requires Wf(st)
    ensures Wf(AddCount(st, caller, postId, text).store)
  {
    var r := AddCount(st, caller, postId, text);
    if Given(text) {
      WfContentEdit(st, r.store);
    }
  }

  // ------------------------------------------------------------- deletePost

  /** The comments that do not belong to the given post. */
  function DropPostComments(comments: map<CommentId, Comment>, postId: PostId): (r: map<CommentId, Comment>)
    ensures forall c :: c in r <==> c in comments && comments[c].target != OnPost(postId)
    ensures forall c :: c in r ==> r[c] == comments[c]
  {
    map c | c in comments && comments[c].target != OnPost(postId) :: comments[c]
  }

  /** `deletePost`: 404 for an unknown post, 403 for anyone but its author,
      both with no change. Otherwise the post is deleted; when the author's
      record is missing the next step throws and the catch block only logs;
      else the id leaves the author's `posts`, every comment on the post is
      deleted, and the answer is 200. */
  function DeletePost(st: Store, caller: UserId, postId: PostId): (r: Reply<()>)
    ensures r.events == []
    ensures postId !in st.posts ==> r.status == Http(404) && r.store == st
    ensures postId in st.posts && st.posts[postId].author != caller ==> r.status == Http(403) && r.store == st
    ensures postId in st.posts && st.posts[postId].author == caller ==>
      && postId !in r.store.posts
      && (forall k :: k in st.posts && k != postId ==> k in r.store.posts && r.store.posts[k] == st.posts[k])
      && r.store.posts.Keys == st.posts.Keys - {postId}
    ensures postId in st.posts && st.posts[postId].author == caller && caller !in st.users ==>
      r.status == NoResponse && r.store == st.(posts := r.store.posts)
    ensures r.status == Http(200) <==> postId in st.posts && st.posts[postId].author == caller && caller in st.users
    ensures r.status == Http(200) ==>
      && (forall c :: c in r.store.comments <==> c in st.comments && st.comments[c].target != OnPost(postId))
      && (forall c :: c in r.store.comments ==> r.store.comments[c] == st.comments[c])
      && r.store.users.Keys == st.users.Keys
      && (forall k :: k in st.users && k != caller ==> r.store.users[k] == st.users[k])
      && r.store.users[caller].(posts := st.users[caller].posts) == st.users[caller]
      && postId !in r.store.users[caller].posts
      && (forall p :: p != postId ==> (p in r.store.users[caller].posts <==> p in st.users[caller].posts))
      && r.store.stories == st.stories && r.store.reels == st.reels && r.store.nextId == st.nextId
      && r.store.conversations == st.conversations && r.store.messages == st.messages
  {
    if postId !in st.posts then Refuse(st, Http(404))
    else if st.posts[postId].author != caller then Refuse(st, Http(403))
    else
      var st1 := st.(posts := st.posts - {postId});
      if caller !in st.users then Refuse(st1, NoResponse)
      else
        var u := st.users[caller];
        Reply(st1.(users := st.users[caller := u.(posts := Pull(u.posts, postId))],
                   comments := DropPostComments(st.comments, postId)), Http(200), [], Some(()))
  }

  lemma DeletePostPreservesWf(st: Store, caller: UserId, postId: PostId)
    requires Wf(st)
    ensures Wf(DeletePost(st, caller, postId).store)
  {
    var r := DeletePost(st, caller, postId);
    if postId in st.posts && st.posts[postId].author == caller {
      WfContentEdit(st, r.store);
    }
  }

  /** Deleting a post just created by its author takes the store back to
      where it was, except that the id counter has moved on. */
  lemma AddThenDeletePost(st: Store, caller: UserId, caption: string, url: string, now: Millis)
    requires caller in st.users
    requires st.nextId !in st.posts && st.nextId !in st.users[caller].posts
    requires forall c :: c in st.comments ==> st.comments[c].target != OnPost(st.nextId)
    ensures var r1 := AddNewPost(st, caller, caption, Some(url), false, now);
      var r2 := DeletePost(r1.store, caller, st.nextId);
      r2.status == Http(200) && r2.store == st.(nextId := st.nextId + 1)
  {
    var id := st.nextId;
    var u := st.users[caller];
    var st1 := AddNewPost(st, caller, caption, Some(url), false, now).store;
    assert st1.posts == st.posts[id := st1.posts[id]];
    assert st1.users == st.users[caller := u.(posts := u.posts + [id])];
    DeleteUndoesAdd(st, caller, id, st1.posts[id]);
  }

  /** Deleting a post that was just added under a fresh id takes the store
      back to where it was, apart from the spent id. */
  lemma DeleteUndoesAdd(st: Store, caller: UserId, id: PostId, post: Post)
    requires caller in st.users && post.author == caller
    requires id !in st.posts && id !in st.users[caller].posts
    requires forall c :: c in st.comments ==> st.comments[c].target != OnPost(id)
    ensures var u := st.users[caller];
      var st1 := st.(posts := st.posts[id := post], users := st.users[caller := u.(posts := u.posts + [id])],
                     nextId := st.nextId + 1);
      var r2 := DeletePost(st1, caller, id);
      r2.status == Http(200) && r2.store == st.(nextId := st.nextId + 1)
  {
    var u := st.users[caller];
    var st1 := st.(posts := st.posts[id := post], users := st.users[caller := u.(posts := u.posts + [id])],
                   nextId := st.nextId + 1);
    RemoveAdded(st.posts, id, post);
    DropNoPostComments(st.comments, id);
    PullAppended(u.posts, id);
    assert st1.users[caller := u] == st.users;
  }

  lemma DropNoPostComments(comments: map<CommentId, Comment>, postId: PostId)
    requires forall c :: c in comments ==> comments[c].target != OnPost(postId)
    ensures DropPostComments(comments, postId) == comments
  {
    assert DropPostComments(comments, postId).Keys == comments.Keys;
  }

  /** Comments added to a post go away with it. */
  lemma DeletePostDropsItsComments(st: Store, caller: UserId, postId: PostId, text: string)
    requires postId in st.posts && st.posts[postId].author == caller && caller in st.users
    requires Given(text)
    ensures var st1 := AddCount(st, caller, postId, text).store;
      var r := DeletePost(st1, caller, postId);
      r.status == Http(200) && st.nextId in st1.comments && st.nextId !in r.store.comments
  {
  }
}
