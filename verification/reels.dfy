/**
 The reel handlers: create, list, like/unlike, comment and delete. The
 upload is the `video` parameter (the URL the upload gives, None when no
 file came) and the measured length of the video is the `duration`
 parameter, in seconds.
 */
module Reels {

  import opened Base
  import opened Schema
  import opened Store
  import opened Lists
  import opened Listing

  /** The longest reel accepted, in seconds. */
  const MaxDuration: int := 60

  /** `x || default` for an optional string field of the request body. */
  function OrDefault(x: Option<string>, default: string): (r: string)
    ensures x.Some? && Given(x.value) ==> r == x.value
    ensures !(x.Some? && Given(x.value)) ==> r == default
  {
    if x.Some? && Given(x.value) then x.value else default
  }

  /** `addNewReel`: 401 without a video, then 400 for a video longer than a
      minute. A visibility outside the enum fails `Reel.create` and the
      catch answers 500. Otherwise the reel is created under a fresh id
      (caption defaulting to "" and visibility to public), appended to the
      owner's `reels` when the owner's record exists, and the answer is 200
      with its id. */
  function AddNewReel(st: Store, caller: UserId, caption: Option<string>, visibility: Option<string>,
                      video: Option<string>, duration: int, now: Millis): (r: Reply<ReelId>)
    ensures r.events == []
    ensures video.None? ==> r.status == Http(401) && r.store == st
    ensures video.Some? && duration > MaxDuration ==> r.status == Http(400) && r.store == st
    ensures video.Some? && duration <= MaxDuration && ParseVisibility(OrDefault(visibility, "public")).None? ==>
      r.status == Http(500) && r.store == st
    ensures r.status == Http(200) <==>
      video.Some? && duration <= MaxDuration && ParseVisibility(OrDefault(visibility, "public")).Some?
    ensures r.status == Http(200) ==>
      && r.body == Some(st.nextId)
      && r.store.nextId == st.nextId + 1
      && r.store.reels.Keys == st.reels.Keys + {st.nextId}
      && (forall k :: k in st.reels && k != st.nextId ==> r.store.reels[k] == st.reels[k])
      && r.store.users.Keys == st.users.Keys
      && (caller in st.users ==> r.store.users[caller] == st.users[caller].(reels := st.users[caller].reels + [st.nextId]))
      && (forall k :: k in st.users && k != caller ==> r.store.users[k] == st.users[k])
      && r.store == st.(reels := r.store.reels, users := r.store.users, nextId := st.nextId + 1)
    ensures r.status == Http(200) ==>
      var reel := r.store.reels[st.nextId];
      && reel.user == caller && reel.mediaUrl == video.value
      && reel.caption == OrDefault(caption, "")
      && Some(reel.visibility) == ParseVisibility(OrDefault(visibility, "public"))
      && reel.likes == [] && reel.comments == [] && !reel.isLikedByCurrentUser && reel.createdAt == now
  {
    if video.None? then Refuse(st, Http(401))
    else if duration > MaxDuration then Refuse(st, Http(400))
    else
      var vis := ParseVisibility(OrDefault(visibility, "public"));
      if vis.None? then Refuse(st, Http(500))
      else
        var id := st.nextId;
        var st1 := st.(reels := st.reels[id := NewReel(caller, video.value, OrDefault(caption, ""), vis.value, now)],
                       nextId := id + 1);
        var st2 :=
          if caller in st.users then st1.(users := st.users[caller := st.users[caller].(reels := st.users[caller].reels + [id])])
          else st1;
        Reply(st2, Http(200), [], Some(id))
  }

  /** The duration gate at its edge: a one-minute reel is accepted, one a
      second longer is refused. */
  lemma DurationBoundary(st: Store, caller: UserId, url: string, now: Millis)
    ensures AddNewReel(st, caller, None, None, Some(url), 60, now).status == Http(200)
    ensures AddNewReel(st, caller, None, None, Some(url), 61, now).status == Http(400)
  {
  }

  lemma AddNewReelPreservesWf(st: Store, caller: UserId, caption: Option<string>, visibility: Option<string>,
                              video: Option<string>, duration: int, now: Millis)
    requires Wf(st)
    ensures Wf(AddNewReel(st, caller, caption, visibility, video, duration, now).store)
  {
    var r := AddNewReel(st, caller, caption, visibility, video, duration, now);
    if r.status == Http(200) {
      AddNewReelGraph(st, caller, r.store, st.nextId);
      WfContentEdit(st, r.store);
    }
  }

  /** Creating a reel touches one user's `reels` list only. */
  lemma AddNewReelGraph(st: Store, caller: UserId, st2: Store, id: ReelId)
    requires id == st.nextId && st2.nextId == id + 1
    requires st2.reels.Keys == st.reels.Keys + {id}
    requires st2.users.Keys == st.users.Keys
    requires caller in st.users ==> st2.users[caller] == st.users[caller].(reels := st.users[caller].reels + [id])
    requires forall k :: k in st.users && k != caller ==> st2.users[k] == st.users[k]
    ensures SameGraph(st.users, st2.users)
    ensures KeysFrom(st.reels, st2.reels, st.nextId, st2.nextId)
  {
  }

  /** `getAllReels`: every reel, newest first; the store is read only. */
  method GetAllReels(st: Store) returns (r: Reply<seq<ReelId>>)
    ensures r.store == st && r.events == [] && r.status == Http(200) && r.body.Some?
    ensures forall k :: k in r.body.value <==> k in st.reels
    ensures NoRepeats(r.body.value)
    ensures forall i, j :: 0 <= i < j < |r.body.value| ==>
      st.reels[r.body.value[i]].createdAt >= st.reels[r.body.value[j]].createdAt
  {
    var times := CreationTimes(st.reels, (x: Reel) => x.createdAt);
    var ids := NewestFirst(times);
    assert NewestFirstOrder(ids, times);
    r := Reply(st, Http(200), [], Some(ids));
  }

  /** `likeReel`: 404 for an unknown reel; otherwise the caller is appended
      to `likes` when absent and every occurrence removed when present, and
      the answer is 200. */
  function LikeReel(st: Store, caller: UserId, reelId: ReelId): (r: Reply<()>)
    ensures r.events == []
    ensures reelId !in st.reels ==> r.status == Http(404) && r.store == st
    ensures reelId in st.reels ==>
      && r.status == Http(200)
      && r.store == st.(reels := r.store.reels)
      && r.store.reels.Keys == st.reels.Keys
      && (forall k :: k in st.reels && k != reelId ==> r.store.reels[k] == st.reels[k])
      && r.store.reels[reelId].(likes := st.reels[reelId].likes) == st.reels[reelId]
      && (caller in r.store.reels[reelId].likes <==> caller !in st.reels[reelId].likes)
      && (forall u :: u != caller ==> (u in r.store.reels[reelId].likes <==> u in st.reels[reelId].likes))
  {
    if reelId !in st.reels then Refuse(st, Http(404))
    else
      var reel := st.reels[reelId];
      Reply(st.(reels := st.reels[reelId := reel.(likes := Toggle(reel.likes, caller))]), Http(200), [], Some(()))
  }

  /** Liking twice restores who likes the reel, and restores the store
      exactly when the caller had not liked it. */
  lemma LikeReelTwiceRestores(st: Store, caller: UserId, reelId: ReelId)
    requires reelId in st.reels
    ensures var st2 := LikeReel(LikeReel(st, caller, reelId).store, caller, reelId).store;
      && (forall u :: u in st2.reels[reelId].likes <==> u in st.reels[reelId].likes)
      && (caller !in st.reels[reelId].likes ==> st2 == st)
  {
    var reel := st.reels[reelId];
    ToggleTwice(reel.likes, caller);
    var st1 := LikeReel(st, caller, reelId).store;
    assert st1.reels[reelId] == reel.(likes := Toggle(reel.likes, caller));
    var st2 := LikeReel(st1, caller, reelId).store;
    assert st2.reels[reelId] == reel.(likes := Toggle(Toggle(reel.likes, caller), caller));
  }

  /** `addCommentToReel`: 400 without text before any lookup, then 404 for
      an unknown reel; otherwise a comment is created under a fresh id and
      appended to the reel's comments, and the answer is 200 with its id. */
  function AddCommentToReel(st: Store, caller: UserId, reelId: ReelId, text: string): (r: Reply<CommentId>)
    ensures r.events == []
    ensures !Given(text) ==> r.status == Http(400) && r.store == st
    ensures Given(text) && reelId !in st.reels ==> r.status == Http(404) && r.store == st
    ensures r.status == Http(200) <==> Given(text) && reelId in st.reels
    ensures r.status == Http(200) ==>
      && r.body == Some(st.nextId)
      && r.store.nextId == st.nextId + 1
      && r.store.comments == st.comments[st.nextId := Comment(text, caller, OnReel(reelId))]
      && r.store.reels.Keys == st.reels.Keys
      && (forall k :: k in st.reels && k != reelId ==> r.store.reels[k] == st.reels[k])
      && r.store == st.(reels := r.store.reels, comments := r.store.comments, nextId := st.nextId + 1)
    ensures r.status == Http(200) ==>
      var before, after := st.reels[reelId], r.store.reels[reelId];
      && after.(comments := before.comments) == before
      && after.comments == before.comments + [st.nextId]
  {
    if !Given(text) then Refuse(st, Http(400))
    else if reelId !in st.reels then Refuse(st, Http(404))
    else
      var id := st.nextId;
      var reel := st.reels[reelId];
      Reply(st.(comments := st.comments[id := Comment(text, caller, OnReel(reelId))],
                reels := st.reels[reelId := reel.(comments := reel.comments + [id])],
                nextId := id + 1), Http(200), [], Some(id))
  }

  /** The comments that do not belong to the given reel. */
  function DropReelComments(comments: map<CommentId, Comment>, reelId: ReelId): (r: map<CommentId, Comment>)
    ensures forall c :: c in r <==> c in comments && comments[c].target != OnReel(reelId)
    ensures forall c :: c in r ==> r[c] == comments[c]
  {
    map c | c in comments && comments[c].target != OnReel(reelId) :: comments[c]
  }

  /** `deleteReel`: 404 for an unknown reel, 403 for anyone but its owner,
      both with no change. Otherwise the reel is deleted; when the owner's
      record is missing the next step throws and the catch answers 500;
      else the id leaves the owner's `reels`, every comment on the reel is
      deleted, and the answer is 200. */
  function DeleteReel(st: Store, caller: UserId, reelId: ReelId): (r: Reply<()>)
    ensures r.events == []
    ensures reelId !in st.reels ==> r.status == Http(404) && r.store == st
    ensures reelId in st.reels && st.reels[reelId].user != caller ==> r.status == Http(403) && r.store == st
    ensures reelId in st.reels && st.reels[reelId].user == caller ==>
      && reelId !in r.store.reels
      && r.store.reels.Keys == st.reels.Keys - {reelId}
      && (forall k :: k in r.store.reels ==> r.store.reels[k] == st.reels[k])
    ensures reelId in st.reels && st.reels[reelId].user == caller && caller !in st.users ==>
      r.status == Http(500) && r.store == st.(reels := r.store.reels)
    ensures r.status == Http(200) <==> reelId in st.reels && st.reels[reelId].user == caller && caller in st.users
    ensures r.status == Http(200) ==>
      && (forall c :: c in r.store.comments <==> c in st.comments && st.comments[c].target != OnReel(reelId))
      && (forall c :: c in r.store.comments ==> r.store.comments[c] == st.comments[c])
      && r.store.users.Keys == st.users.Keys
      && (forall k :: k in st.users && k != caller ==> r.store.users[k] == st.users[k])
      && r.store.users[caller].(reels := st.users[caller].reels) == st.users[caller]
      && reelId !in r.store.users[caller].reels
      && (forall x :: x != reelId ==> (x in r.store.users[caller].reels <==> x in st.users[caller].reels))
      && r.store == st.(reels := r.store.reels, users := r.store.users, comments := r.store.comments)
  {
    if reelId !in st.reels then Refuse(st, Http(404))
    else if st.reels[reelId].user != caller then Refuse(st, Http(403))
    else
      var st1 := st.(reels := st.reels - {reelId});
      if caller !in st.users then Refuse(st1, Http(500))
      else
        var u := st.users[caller];
        Reply(st1.(users := st.users[caller := u.(reels := Pull(u.reels, reelId))],
                   comments := DropReelComments(st.comments, reelId)), Http(200), [], Some(()))
  }

  /** Deleting a reel just created by its owner takes the store back to
      where it was, except that the id counter has moved on. */
  lemma AddThenDeleteReel(st: Store, caller: UserId, url: string, now: Millis)
    requires caller in st.users
    requires st.nextId !in st.reels && st.nextId !in st.users[caller].reels
    requires forall c :: c in st.comments ==> st.comments[c].target != OnReel(st.nextId)
    ensures var r1 := AddNewReel(st, caller, None, None, Some(url), 0, now);
      var r2 := DeleteReel(r1.store, caller, st.nextId);
      r2.status == Http(200) && r2.store == st.(nextId := st.nextId + 1)
  {
    var id := st.nextId;
    var u := st.users[caller];
    var r1 := AddNewReel(st, caller, None, None, Some(url), 0, now);
    var st1 := r1.store;
    assert st1.reels == st.reels[id := st1.reels[id]];
    assert st1.users == st.users[caller := u.(reels := u.reels + [id])];
    DeleteUndoesAdd(st, caller, id, st1.reels[id]);
  }

  /** Deleting a reel that was just added under a fresh id takes the store
      back to where it was, apart from the spent id. */
  lemma DeleteUndoesAdd(st: Store, caller: UserId, id: ReelId, reel: Reel)
    requires caller in st.users && reel.user == caller
    requires id !in st.reels && id !in st.users[caller].reels
    requires forall c :: c in st.comments ==> st.comments[c].target != OnReel(id)
    ensures var u := st.users[caller];
      var st1 := st.(reels := st.reels[id := reel], users := st.users[caller := u.(reels := u.reels + [id])],
                     nextId := st.nextId + 1);
      var r2 := DeleteReel(st1, caller, id);
      r2.status == Http(200) && r2.store == st.(nextId := st.nextId + 1)
  {
    var u := st.users[caller];
    var st1 := st.(reels := st.reels[id := reel], users := st.users[caller := u.(reels := u.reels + [id])],
                   nextId := st.nextId + 1);
    RemoveAdded(st.reels, id, reel);
    DropNoReelComments(st.comments, id);
    PullAppended(u.reels, id);
    assert st1.users[caller := u] == st.users;
  }

  lemma DropNoReelComments(comments: map<CommentId, Comment>, reelId: ReelId)
    requires forall c :: c in comments ==> comments[c].target != OnReel(reelId)
    ensures DropReelComments(comments, reelId) == comments
  {
    assert DropReelComments(comments, reelId).Keys == comments.Keys;
  }

  lemma LikeReelPreservesWf(st: Store, caller: UserId, reelId: ReelId)
    requires Wf(st)
    ensures Wf(LikeReel(st, caller, reelId).store)
  {
    WfContentEdit(st, LikeReel(st, caller, reelId).store);
  }

  lemma AddCommentToReelPreservesWf(st: Store, caller: UserId, reelId: ReelId, text: string)
    requires Wf(st)
    ensures Wf(AddCommentToReel(st, caller, reelId, text).store)
  {
    WfContentEdit(st, AddCommentToReel(st, caller, reelId, text).store);
  }

  lemma DeleteReelPreservesWf(st: Store, caller: UserId, reelId: ReelId)
    requires Wf(st)
    ensures Wf(DeleteReel(st, caller, reelId).store)
  {
    WfContentEdit(st, DeleteReel(st, caller, reelId).store);
  }
}
