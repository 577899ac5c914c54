/**
 The client's post reducer: the feed and the post opened in detail.
 */
module PostSlice {

  import opened Base
  import opened Schema

  /** A post as the feed holds it: its `_id`, the server's fields, and the
      `bookmarks` the client sets on it (None until set). */
  datatype FeedPost = FeedPost(id: PostId, post: Post, bookmarks: Option<seq<Id>>)

  datatype PostState = PostState(posts: seq<FeedPost>, selectedPost: Option<FeedPost>)

  /** An empty feed and no selected post. */
  const Initial: PostState := PostState([], None)

  /** `setPosts`: replaces the feed; the selection stays. */
  function SetPosts(s: PostState, posts: seq<FeedPost>): (r: PostState)
    ensures r.posts == posts
    ensures r.selectedPost == s.selectedPost
  {
    s.(posts := posts)
  }

  /** `setSelectedPost`: replaces the selection; the feed stays. */
  function SetSelectedPost(s: PostState, p: Option<FeedPost>): (r: PostState)
    ensures r.selectedPost == p
    ensures r.posts == s.posts
  {
    s.(selectedPost := p)
  }

  /** `findIndex(post => post._id === postId)`, None for -1. */
  function FindIndex(posts: seq<FeedPost>, postId: PostId): (r: Option<nat>)
    ensures r.Some? ==> r.value < |posts| && posts[r.value].id == postId
    ensures r.Some? ==> forall j :: 0 <= j < r.value ==> posts[j].id != postId
    ensures r.None? <==> forall j :: 0 <= j < |posts| ==> posts[j].id != postId
    decreases |posts|
  {
    if posts == [] then None
    else if posts[0].id == postId then Some(0)
    else
      var rest := FindIndex(posts[1..], postId);
      if rest.None? then None else Some(rest.value + 1)
  }

  /** Position j holds the first post with that id. */
  predicate FirstWithId(posts: seq<FeedPost>, j: nat, postId: PostId)
    requires j < |posts|
  {
    posts[j].id == postId && forall i :: 0 <= i < j ==> posts[i].id != postId
  }

  /** `updatePostBookmarks`: the first feed post with that id gets the new
      bookmarks; every other post, and the selection, stay as they were.
      With no such post the state is unchanged. */
  function UpdatePostBookmarks(s: PostState, postId: PostId, bookmarks: seq<Id>): (r: PostState)
    ensures r.selectedPost == s.selectedPost
    ensures |r.posts| == |s.posts|
    ensures (forall j :: 0 <= j < |s.posts| ==> s.posts[j].id != postId) ==> r == s
    ensures forall j :: 0 <= j < |s.posts| ==> r.posts[j].id == s.posts[j].id && r.posts[j].post == s.posts[j].post
    ensures forall j :: 0 <= j < |s.posts| ==>
      if FirstWithId(s.posts, j, postId) then r.posts[j].bookmarks == Some(bookmarks)
      else r.posts[j] == s.posts[j]
  {
    var k := FindIndex(s.posts, postId);
    if k.None? then s
    else s.(posts := s.posts[k.value := s.posts[k.value].(bookmarks := Some(bookmarks))])
  }

  /** The selection and the feed are independent: selecting a post
      commutes with a bookmark update of the feed. */
  lemma SelectionIndependent(s: PostState, p: Option<FeedPost>, postId: PostId, bookmarks: seq<Id>)
    ensures UpdatePostBookmarks(SetSelectedPost(s, p), postId, bookmarks)
         == SetSelectedPost(UpdatePostBookmarks(s, postId, bookmarks), p)
  {
  }

  /** Replacing the feed discards any earlier bookmark update, and an update
      after it acts on the new feed alone, whatever the state held before. */
  lemma SetPostsOverridesBookmarks(s: PostState, t: PostState, posts: seq<FeedPost>,
                                   postId: PostId, bookmarks: seq<Id>)
    ensures SetPosts(UpdatePostBookmarks(s, postId, bookmarks), posts) == SetPosts(s, posts)
    ensures UpdatePostBookmarks(SetPosts(s, posts), postId, bookmarks).posts
         == UpdatePostBookmarks(SetPosts(t, posts), postId, bookmarks).posts
  {
  }

  /** The later of two bookmark updates to the same post wins. */
  lemma LastBookmarksWin(s: PostState, postId: PostId, b1: seq<Id>, b2: seq<Id>)
    ensures UpdatePostBookmarks(UpdatePostBookmarks(s, postId, b1), postId, b2) == UpdatePostBookmarks(s, postId, b2)
  {
    var s1 := UpdatePostBookmarks(s, postId, b1);
    var k := FindIndex(s.posts, postId);
    assert forall j :: 0 <= j < |s.posts| ==> s1.posts[j].id == s.posts[j].id;
    SameIdsSameIndex(s.posts, s1.posts, postId);
  }

  /** `findIndex` reads ids only. */
  lemma SameIdsSameIndex(a: seq<FeedPost>, b: seq<FeedPost>, postId: PostId)
    requires |a| == |b|
    requires forall j :: 0 <= j < |a| ==> a[j].id == b[j].id
    ensures FindIndex(a, postId) == FindIndex(b, postId)
  {
    var ra, rb := FindIndex(a, postId), FindIndex(b, postId);
    if ra.Some? && rb.Some? {
      assert !(ra.value < rb.value) && !(rb.value < ra.value);
    }
  }

  /** Updates to two different posts do not interfere. */
  lemma BookmarkUpdatesCommute(s: PostState, p: PostId, q: PostId, bp: seq<Id>, bq: seq<Id>)
    requires p != q
    ensures UpdatePostBookmarks(UpdatePostBookmarks(s, p, bp), q, bq)
         == UpdatePostBookmarks(UpdatePostBookmarks(s, q, bq), p, bp)
  {
    var sp := UpdatePostBookmarks(s, p, bp);
    var sq := UpdatePostBookmarks(s, q, bq);
    SameIdsSameIndex(s.posts, sp.posts, q);
    SameIdsSameIndex(s.posts, sq.posts, p);
  }
}
