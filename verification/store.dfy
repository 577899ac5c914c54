/**
 The database as one immutable value, the `$all` conversation lookup, the
 reply every handler produces, and the invariants the handlers keep.
 */
module Store {

  import opened Base
  import opened Schema
  import opened Realtime

  /** Every collection the handlers touch. Conversations are a list so that
      `findOne` sees them in insertion (natural) order; `nextId` is the next
      ObjectId to hand out. */
  datatype Store = Store(
    users: map<UserId, User>,
    posts: map<PostId, Post>,
    comments: map<CommentId, Comment>,
    stories: map<StoryId, Story>,
    reels: map<ReelId, Reel>,
    conversations: seq<Conversation>,
    messages: map<MessageId, Message>,
    nextId: Id)

  const EmptyStore: Store := Store(map[], map[], map[], map[], map[], [], map[], 0)

  /** What a handler leaves behind: the database after it, the status it
      answered with, the socket events it emitted, and the JSON payload of a
      successful answer. */
  datatype Reply<+T> = Reply(store: Store, status: Status, events: seq<Event>, body: Option<T>)

  /** A handler that returns early: nothing written, nothing emitted. */
  function Refuse<T>(st: Store, status: Status): Reply<T> {
    Reply(st, status, [], None)
  }

  // ------------------------------------------------ the `$all` lookup

  /** `participants: { $all: [a, b] }`: the list contains both ids. */
  predicate Covers(c: Conversation, a: UserId, b: UserId) {
    a in c.participants && b in c.participants
  }

  /** `Conversation.findOne({ participants: { $all: [a, b] } })`: the index
      of the first conversation, in natural order, that contains both. */
  function FindThread(convs: seq<Conversation>, a: UserId, b: UserId): (r: Option<nat>)
    ensures r.Some? ==> r.value < |convs| && Covers(convs[r.value], a, b)
    ensures r.Some? ==> forall j :: 0 <= j < r.value ==> !Covers(convs[j], a, b)
    ensures r.None? <==> forall j :: 0 <= j < |convs| ==> !Covers(convs[j], a, b)
  {
    FindFrom(convs, a, b, 0)
  }

  function FindFrom(convs: seq<Conversation>, a: UserId, b: UserId, k: nat): (r: Option<nat>)
    requires k <= |convs|
    ensures r.Some? ==> k <= r.value < |convs| && Covers(convs[r.value], a, b)
    ensures r.Some? ==> forall j :: k <= j < r.value ==> !Covers(convs[j], a, b)
    ensures r.None? <==> forall j :: k <= j < |convs| ==> !Covers(convs[j], a, b)
    decreases |convs| - k
  {
    if k == |convs| then None
    else if Covers(convs[k], a, b) then Some(k)
    else FindFrom(convs, a, b, k + 1)
  }

  /** The lookup treats the pair as unordered. */
  lemma FindThreadSymmetric(convs: seq<Conversation>, a: UserId, b: UserId)
    ensures FindThread(convs, a, b) == FindThread(convs, b, a)
  {
  }

  /** With the same id twice, `$all` only asks for that one id: a user's
      self-addressed lookup lands on the first conversation they are in,
      whoever the other participant is. */
  lemma FindThreadSelf(convs: seq<Conversation>, a: UserId, i: nat)
    requires i < |convs| && a in convs[i].participants
    requires forall j :: 0 <= j < i ==> a !in convs[j].participants
    ensures FindThread(convs, a, a) == Some(i)
  {
  }

  /** The lookup reads participants only. */
  lemma FindThreadParticipantsOnly(c1: seq<Conversation>, c2: seq<Conversation>, a: UserId, b: UserId)
    requires |c1| == |c2|
    requires forall j :: 0 <= j < |c1| ==> c1[j].participants == c2[j].participants
    ensures FindThread(c1, a, b) == FindThread(c2, a, b)
  {
    var r1, r2 := FindThread(c1, a, b), FindThread(c2, a, b);
    assert forall j :: 0 <= j < |c1| ==> (Covers(c1[j], a, b) <==> Covers(c2[j], a, b));
    if r1.Some? && r2.Some? {
      assert !(r1.value < r2.value) && !(r2.value < r1.value);
    }
  }

  /** Appending a conversation that covers the pair, when none did, makes
      the new one the lookup's answer. */
  lemma FindThreadAppend(convs: seq<Conversation>, c: Conversation, a: UserId, b: UserId)
    requires FindThread(convs, a, b).None?
    requires Covers(c, a, b)
    ensures FindThread(convs + [c], a, b) == Some(|convs|)
  {
    assert (convs + [c])[|convs|] == c;
  }

  // ------------------------------------------------------- invariants

  /** Every id in use was handed out before `nextId`. */
  ghost predicate IdsBelow(st: Store) {
    && (forall k :: k in st.users ==> k < st.nextId)
    && (forall k :: k in st.posts ==> k < st.nextId)
    && (forall k :: k in st.comments ==> k < st.nextId)
    && (forall k :: k in st.stories ==> k < st.nextId)
    && (forall k :: k in st.reels ==> k < st.nextId)
    && (forall k :: k in st.messages ==> k < st.nextId)
    && (forall i :: 0 <= i < |st.conversations| ==> st.conversations[i].id < st.nextId)
  }

  /** A message record knows its own id. */
  ghost predicate MessagesKeyed(st: Store) {
    forall k :: k in st.messages ==> st.messages[k].id == k
  }

  /** Every message id a conversation lists names a stored message. */
  ghost predicate ThreadsLinked(st: Store) {
    forall i, m :: 0 <= i < |st.conversations| && m in st.conversations[i].messages ==> m in st.messages
  }

  /** At most one conversation holds both a and b. */
  ghost predicate AtMostOneThread(convs: seq<Conversation>, a: UserId, b: UserId) {
    forall i, j :: 0 <= i < |convs| && 0 <= j < |convs| && Covers(convs[i], a, b) && Covers(convs[j], a, b) ==> i == j
  }

  /** One conversation per pair of distinct users. */
  ghost predicate ThreadsUnique(convs: seq<Conversation>) {
    forall a, b :: a != b ==> AtMostOneThread(convs, a, b)
  }

  /** b follows-list a exactly when a is in b's followers. */
  ghost predicate FollowConsistent(users: map<UserId, User>) {
    forall a, b :: a in users && b in users ==> (b in users[a].following <==> a in users[b].followers)
  }

  /** Follow lists only name existing users. */
  ghost predicate FollowClosed(users: map<UserId, User>) {
    && (forall a, x :: a in users && x in users[a].following ==> x in users)
    && (forall a, x :: a in users && x in users[a].followers ==> x in users)
  }

  /** `unique: true` on username and email. */
  ghost predicate UniqueCredentials(users: map<UserId, User>) {
    forall a, b :: a in users && b in users && a != b ==>
      users[a].username != users[b].username && users[a].email != users[b].email
  }

  ghost predicate Wf(st: Store) {
    && IdsBelow(st)
    && MessagesKeyed(st)
    && ThreadsLinked(st)
    && ThreadsUnique(st.conversations)
    && FollowConsistent(st.users)
    && FollowClosed(st.users)
    && UniqueCredentials(st.users)
  }

  /** Uniqueness of threads depends on participants only. */
  lemma ThreadsUniqueParticipantsOnly(c1: seq<Conversation>, c2: seq<Conversation>)
    requires ThreadsUnique(c1)
    requires |c1| == |c2|
    requires forall j :: 0 <= j < |c1| ==> c1[j].participants == c2[j].participants
    ensures ThreadsUnique(c2)
  {
    forall a, b | a != b
      ensures AtMostOneThread(c2, a, b)
    {
      assert AtMostOneThread(c1, a, b);
      forall i, j | 0 <= i < |c2| && 0 <= j < |c2| && Covers(c2[i], a, b) && Covers(c2[j], a, b)
        ensures i == j
      {
        assert Covers(c1[i], a, b) && Covers(c1[j], a, b);
      }
    }
  }

  /** Adding a conversation for a pair no conversation covers keeps one
      conversation per pair. */
  lemma ThreadsUniqueAppend(convs: seq<Conversation>, c: Conversation, x: UserId, y: UserId)
    requires ThreadsUnique(convs)
    requires c.participants == [x, y]
    requires FindThread(convs, x, y).None?
    ensures ThreadsUnique(convs + [c])
  {
    var all := convs + [c];
    forall a, b | a != b
      ensures AtMostOneThread(all, a, b)
    {
      assert AtMostOneThread(convs, a, b);
      forall i, j | 0 <= i < |all| && 0 <= j < |all| && Covers(all[i], a, b) && Covers(all[j], a, b)
        ensures i == j
      {
        if i < |convs| && j < |convs| {
          assert all[i] == convs[i] && all[j] == convs[j];
        } else if i < |convs| {
          assert all[i] == convs[i];
          assert Covers(convs[i], x, y);
        }
      }
    }
  }

  /** A handler that only rewrites user records keeps the invariant once the
      three user-level parts of it hold of the new records. */
  lemma WfUsersOnly(st: Store, users: map<UserId, User>)
    requires Wf(st)
    requires users.Keys == st.users.Keys
    requires FollowConsistent(users) && FollowClosed(users) && UniqueCredentials(users)
    ensures Wf(st.(users := users))
  {
    var st2 := st.(users := users);
    assert IdsBelow(st2);
  }

  /** Two user maps that agree on everything the invariant reads: who
      exists, the follow lists, usernames and emails. */
  ghost predicate SameGraph(u1: map<UserId, User>, u2: map<UserId, User>) {
    && u1.Keys == u2.Keys
    && forall k :: k in u1 ==>
         && u2[k].following == u1[k].following && u2[k].followers == u1[k].followers
         && u2[k].username == u1[k].username && u2[k].email == u1[k].email
  }

  /** A document written by a handler is either one that was there or one
      created with a fresh id. */
  ghost predicate KeysFrom<V, W>(before: map<Id, V>, after: map<Id, W>, lo: Id, hi: Id) {
    forall k :: k in after ==> k in before || lo <= k < hi
  }

  /** Inserting under a fresh key and then removing that key gives the
      map back. */
  lemma RemoveAdded<V>(m: map<Id, V>, k: Id, v: V)
    requires k !in m
    ensures m[k := v] - {k} == m
  {
    assert (m[k := v] - {k}).Keys == m.Keys;
  }

  /** A handler that leaves users' graph fields and the chat collections
      alone, and only adds documents under fresh ids, keeps the invariant. */
  lemma WfContentEdit(st: Store, st2: Store)
    requires Wf(st)
    requires SameGraph(st.users, st2.users)
    requires st2.conversations == st.conversations && st2.messages == st.messages
    requires st.nextId <= st2.nextId
    requires KeysFrom(st.posts, st2.posts, st.nextId, st2.nextId)
    requires KeysFrom(st.comments, st2.comments, st.nextId, st2.nextId)
    requires KeysFrom(st.stories, st2.stories, st.nextId, st2.nextId)
    requires KeysFrom(st.reels, st2.reels, st.nextId, st2.nextId)
    ensures Wf(st2)
  {
    assert IdsBelow(st2);
    assert ThreadsLinked(st2);
    forall a, b | a in st2.users && b in st2.users
      ensures b in st2.users[a].following <==> a in st2.users[b].followers
    {
      assert b in st.users[a].following <==> a in st.users[b].followers;
    }
    forall a, b | a in st2.users && b in st2.users && a != b
      ensures st2.users[a].username != st2.users[b].username && st2.users[a].email != st2.users[b].email
    {
      assert st.users[a].username != st.users[b].username;
    }
  }

  lemma EmptyStoreWf()
    ensures Wf(EmptyStore)
  {
  }
}
