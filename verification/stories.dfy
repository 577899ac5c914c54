/**
 The story handlers: create, list, view, comment, delete, and the periodic
 sweep of stories older than a day. The upload is a pair of parameters: the
 file's mimetype (None when no file came) and the URL the upload gives.
 */
module Stories {

  import opened Base
  import opened Schema
  import opened Store
  import opened Lists
  import opened Listing

  /** The two kinds of upload a story accepts, by mimetype prefix. */
  predicate Playable(mimetype: string) {
    StartsWith(mimetype, "image/") || StartsWith(mimetype, "video/")
  }

  /** `caption || ''`. */
  function CaptionOrEmpty(caption: Option<string>): (r: string)
    ensures caption.Some? ==> r == caption.value
    ensures caption.None? ==> r == ""
  {
    if caption.Some? then caption.value else ""
  }

  /** `addNewStory`: 400 without a file, 400 for a mimetype that is neither
      `image/…` nor `video/…`; otherwise a story is created under a fresh
      id with an empty viewer list and the answer is 201 with its id. The
      owner's `stories` list is not touched. */
  function AddNewStory(st: Store, caller: UserId, caption: Option<string>, mimetype: Option<string>,
                       url: string, now: Millis): (r: Reply<StoryId>)
    ensures r.events == []
    ensures mimetype.None? ==> r.status == Http(400) && r.store == st
    ensures mimetype.Some? && !Playable(mimetype.value) ==> r.status == Http(400) && r.store == st
    ensures r.status == Http(201) <==> mimetype.Some? && Playable(mimetype.value)
    ensures r.status == Http(201) ==>
      && r.body == Some(st.nextId)
      && r.store.nextId == st.nextId + 1
      && r.store.stories.Keys == st.stories.Keys + {st.nextId}
      && (forall k :: k in st.stories && k != st.nextId ==> r.store.stories[k] == st.stories[k])
      && r.store == st.(stories := r.store.stories, nextId := st.nextId + 1)
    ensures r.status == Http(201) ==>
      var s := r.store.stories[st.nextId];
      && s.user == caller && s.mediaUrl == url && s.caption == CaptionOrEmpty(caption)
      && s.viewers == [] && !s.isHighlight && s.createdAt == now
  {
    if mimetype.None? then Refuse(st, Http(400))
    else if !Playable(mimetype.value) then Refuse(st, Http(400))
    else
      var id := st.nextId;
      Reply(st.(stories := st.stories[id := NewStory(caller, url, CaptionOrEmpty(caption), now)], nextId := id + 1),
            Http(201), [], Some(id))
  }

  /** The mimetype gate, on concrete uploads: images and videos pass, and a
      bare "video" without the slash does not. */
  lemma MimetypeExamples()
    ensures Playable("image/png") && Playable("video/mp4")
    ensures !Playable("application/pdf") && !Playable("video") && !Playable("")
  {
    assert "image/png"[..6] == "image/";
    assert "video/mp4"[..6] == "video/";
    assert "application/pdf"[0] == 'a';
  }

  function OwnedBy(stories: map<StoryId, Story>, u: UserId): (r: map<StoryId, Story>)
    ensures forall k :: k in r <==> k in stories && stories[k].user == u
    ensures forall k :: k in r ==> r[k] == stories[k]
  {
    map k | k in stories && stories[k].user == u :: stories[k]
  }

  /** `getUserStories`: the caller's stories only, newest first. */
  method GetUserStories(st: Store, caller: UserId) returns (r: Reply<seq<StoryId>>)
    ensures r.store == st && r.events == [] && r.status == Http(200) && r.body.Some?
    ensures forall s :: s in r.body.value <==> s in st.stories && st.stories[s].user == caller
    ensures NoRepeats(r.body.value)
    ensures forall i, j :: 0 <= i < j < |r.body.value| ==>
      st.stories[r.body.value[i]].createdAt >= st.stories[r.body.value[j]].createdAt
  {
    var times := CreationTimes(OwnedBy(st.stories, caller), (x: Story) => x.createdAt);
    var ids := NewestFirst(times);
    assert NewestFirstOrder(ids, times);
    r := Reply(st, Http(200), [], Some(ids));
  }

  /** `viewStory`: 404 for an unknown story; otherwise the caller is
      appended to `viewers` unless already there, and the answer is 200. */
  function ViewStory(st: Store, caller: UserId, storyId: StoryId): (r: Reply<Story>)
    ensures r.events == []
    ensures storyId !in st.stories ==> r.status == Http(404) && r.store == st
    ensures storyId in st.stories ==>
      && r.status == Http(200)
      && r.store == st.(stories := r.store.stories)
      && r.store.stories.Keys == st.stories.Keys
      && (forall k :: k in st.stories && k != storyId ==> r.store.stories[k] == st.stories[k])
    ensures storyId in st.stories ==>
      var before, after := st.stories[storyId], r.store.stories[storyId];
      && after.(viewers := before.viewers) == before
      && (forall u :: u in after.viewers <==> u in before.viewers || u == caller)
      && |before.viewers| <= |after.viewers|
      && after.viewers[..|before.viewers|] == before.viewers
      && (Distinct(before.viewers) ==> Distinct(after.viewers))
      && r.body == Some(after)
  {
    if storyId !in st.stories then Refuse(st, Http(404))
    else
      var s := st.stories[storyId];
      AddToSetDistinctIf(s.viewers, caller);
      var s2 := s.(viewers := AddToSet(s.viewers, caller));
      Reply(st.(stories := st.stories[storyId := s2]), Http(200), [], Some(s2))
  }

  /** `AddToSetDistinct` in implication form, for use inside a function. */
  lemma AddToSetDistinctIf(s: seq<Id>, x: Id)
    ensures Distinct(s) ==> Distinct(AddToSet(s, x))
  {
    if Distinct(s) {
      AddToSetDistinct(s, x);
    }
  }

  /** Viewing twice leaves the store as viewing once. */
  lemma ViewStoryIdempotent(st: Store, caller: UserId, storyId: StoryId)
    ensures var st1 := ViewStory(st, caller, storyId).store;
      ViewStory(st1, caller, storyId).store == st1
  {
    if storyId in st.stories {
      var s := st.stories[storyId];
      AddToSetIdempotent(s.viewers, caller);
      var st1 := ViewStory(st, caller, storyId).store;
      assert st1.stories[storyId] == s.(viewers := AddToSet(s.viewers, caller));
    }
  }

  /** `addCommentToStory`: 400 without text before any lookup, then 404 for
      an unknown story; otherwise a comment is created under a fresh id.
      Then it is appended to the story's comments and the answer is 200
      with its id; but when the story document has no `comments` array
      (`pathDefined` false, as in `storySchema` as written) the push throws,
      the catch answers 500, and the comment stays stored. */
  function AddCommentToStory(st: Store, caller: UserId, storyId: StoryId, text: string,
                             pathDefined: bool): (r: Reply<CommentId>)
    ensures r.events == []
    ensures !Given(text) ==> r.status == Http(400) && r.store == st
    ensures Given(text) && storyId !in st.stories ==> r.status == Http(404) && r.store == st
    ensures Given(text) && storyId in st.stories && !pathDefined ==>
      && r.status == Http(500) && r.body.None?
      && r.store == st.(comments := st.comments[st.nextId := Comment(text, caller, OnStory(storyId))],
                        nextId := st.nextId + 1)
    ensures r.status == Http(200) <==> Given(text) && storyId in st.stories && pathDefined
    ensures r.status == Http(200) ==>
      && r.body == Some(st.nextId)
      && r.store.nextId == st.nextId + 1
      && r.store.comments == st.comments[st.nextId := Comment(text, caller, OnStory(storyId))]
      && r.store.stories.Keys == st.stories.Keys
      && (forall k :: k in st.stories && k != storyId ==> r.store.stories[k] == st.stories[k])
      && r.store == st.(stories := r.store.stories, comments := r.store.comments, nextId := st.nextId + 1)
    ensures r.status == Http(200) ==>
      var before, after := st.stories[storyId], r.store.stories[storyId];
      && after.(comments := before.comments) == before
      && after.comments == before.comments + [st.nextId]
  {
    if !Given(text) then Refuse(st, Http(400))
    else if storyId !in st.stories then Refuse(st, Http(404))
    else if !pathDefined then
      Reply(st.(comments := st.comments[st.nextId := Comment(text, caller, OnStory(storyId))],
                nextId := st.nextId + 1), Http(500), [], None)
    else
      var id := st.nextId;
      var s := st.stories[storyId];
      Reply(st.(comments := st.comments[id := Comment(text, caller, OnStory(storyId))],
                stories := st.stories[storyId := s.(comments := s.comments + [id])],
                nextId := id + 1), Http(200), [], Some(id))
  }

  /** `deleteStory`: 404 for an unknown story, 403 for anyone but its owner,
      both with no change; otherwise only the story itself is deleted. */
  function DeleteStory(st: Store, caller: UserId, storyId: StoryId): (r: Reply<()>)
    ensures r.events == []
    ensures storyId !in st.stories ==> r.status == Http(404) && r.store == st
    ensures storyId in st.stories && st.stories[storyId].user != caller ==> r.status == Http(403) && r.store == st
    ensures r.status == Http(200) <==> storyId in st.stories && st.stories[storyId].user == caller
    ensures r.status == Http(200) ==>
      && r.store == st.(stories := r.store.stories)
      && storyId !in r.store.stories
      && r.store.stories.Keys == st.stories.Keys - {storyId}
      && (forall k :: k in r.store.stories ==> r.store.stories[k] == st.stories[k])
  {
    if storyId !in st.stories then Refuse(st, Http(404))
    else if st.stories[storyId].user != caller then Refuse(st, Http(403))
    else Reply(st.(stories := st.stories - {storyId}), Http(200), [], Some(()))
  }

  // --------------------------------------------------- the 24-hour sweep

  /** `createdAt < now - 24h`: the story has outlived its day. */
  predicate Expired(s: Story, now: Millis) {
    s.createdAt < now - DayMillis
  }

  /** `autoDeleteExpiredStories`: every expired story is deleted, every
      other story is kept as it was, and nothing else changes. */
  function AutoDeleteExpiredStories(st: Store, now: Millis): (r: Store)
    ensures forall k :: k in r.stories <==> k in st.stories && st.stories[k].createdAt >= now - 86_400_000
    ensures forall k :: k in r.stories ==> r.stories[k] == st.stories[k]
    ensures r == st.(stories := r.stories)
  {
    st.(stories := map k | k in st.stories && !Expired(st.stories[k], now) :: st.stories[k])
  }

  /** A sweep right after a sweep finds nothing more to delete. */
  lemma SweepIdempotent(st: Store, now: Millis)
    ensures AutoDeleteExpiredStories(AutoDeleteExpiredStories(st, now), now) == AutoDeleteExpiredStories(st, now)
  {
    var r1 := AutoDeleteExpiredStories(st, now);
    var r2 := AutoDeleteExpiredStories(r1, now);
    assert r2.stories == r1.stories;
  }

  /** A later sweep deletes everything an earlier one would have. */
  lemma SweepMonotone(st: Store, earlier: Millis, later: Millis)
    requires earlier <= later
    ensures AutoDeleteExpiredStories(st, later).stories.Keys <= AutoDeleteExpiredStories(st, earlier).stories.Keys
    ensures AutoDeleteExpiredStories(AutoDeleteExpiredStories(st, earlier), later) == AutoDeleteExpiredStories(st, later)
  {
    var a := AutoDeleteExpiredStories(AutoDeleteExpiredStories(st, earlier), later);
    var b := AutoDeleteExpiredStories(st, later);
    assert a.stories == b.stories;
  }

  /** The cutoff is strict: a story exactly one day old survives, one a
      millisecond older does not. */
  lemma SweepBoundary(st: Store, k: StoryId, now: Millis)
    requires k in st.stories
    ensures st.stories[k].createdAt == now - 86_400_000 ==> k in AutoDeleteExpiredStories(st, now).stories
    ensures st.stories[k].createdAt == now - 86_400_001 ==> k !in AutoDeleteExpiredStories(st, now).stories
  {
  }

  lemma AddNewStoryPreservesWf(st: Store, caller: UserId, caption: Option<string>,
                               mimetype: Option<string>, url: string, now: Millis)
    requires Wf(st)
    ensures Wf(AddNewStory(st, caller, caption, mimetype, url, now).store)
  {
    WfContentEdit(st, AddNewStory(st, caller, caption, mimetype, url, now).store);
  }

  lemma ViewStoryPreservesWf(st: Store, caller: UserId, storyId: StoryId)
    requires Wf(st)
    ensures Wf(ViewStory(st, caller, storyId).store)
  {
    WfContentEdit(st, ViewStory(st, caller, storyId).store);
  }

  /** As written the comment is stored but the story is left as it was:
      the reply is 500, the comment is on record under the fresh id, and a
      story that did not list that id still does not. */
  lemma StoryCommentAsWrittenOrphaned(st: Store, caller: UserId, storyId: StoryId, text: string)
    requires Wf(st) && Given(text) && storyId in st.stories
    ensures var r := AddCommentToStory(st, caller, storyId, text, false);
      && r.status == Http(500)
      && st.nextId in r.store.comments && st.nextId !in st.comments
      && r.store.comments[st.nextId].target == OnStory(storyId)
      && r.store.stories == st.stories
  {
  }

  lemma AddCommentToStoryPreservesWf(st: Store, caller: UserId, storyId: StoryId, text: string, pathDefined: bool)
    requires Wf(st)
    ensures Wf(AddCommentToStory(st, caller, storyId, text, pathDefined).store)
  {
    WfContentEdit(st, AddCommentToStory(st, caller, storyId, text, pathDefined).store);
  }

  lemma DeleteStoryPreservesWf(st: Store, caller: UserId, storyId: StoryId)
    requires Wf(st)
    ensures Wf(DeleteStory(st, caller, storyId).store)
  {
    WfContentEdit(st, DeleteStory(st, caller, storyId).store);
  }

  lemma SweepPreservesWf(st: Store, now: Millis)
    requires Wf(st)
    ensures Wf(AutoDeleteExpiredStories(st, now))
  {
    WfContentEdit(st, AutoDeleteExpiredStories(st, now));
  }
}
