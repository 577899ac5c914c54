/**
 The user handlers: `register`, `login`, `editProfile`, `getSuggestedUsers`,
 `followOrUnfollow` and `blockOrReport`. bcrypt is a pair of parameters: the
 hash applied at registration and the password comparison at login.
 */
module Users {

  import opened Base
  import opened Schema
  import opened Realtime
  import opened Store
  import opened Lists

  predicate EmailTaken(users: map<UserId, User>, email: string) {
    exists u :: u in users && users[u].email == email
  }

  predicate UsernameTaken(users: map<UserId, User>, username: string) {
    exists u :: u in users && users[u].username == username
  }

  // ------------------------------------------------------------ register

  /** `register`: 401 when a field is missing, before any lookup; then 402
      for a taken email, 403 for a taken username; otherwise the user is
      created with the hashed password and the schema defaults, and the
      answer is 200. */
  function Register(st: Store, username: string, email: string, password: string,
                    hash: string -> string, now: Millis): (r: Reply<()>)
    ensures r.events == []
    ensures !Given(username) || !Given(email) || !Given(password) ==>
      r.status == Http(401) && r.store == st
    ensures Given(username) && Given(email) && Given(password) && EmailTaken(st.users, email) ==>
      r.status == Http(402) && r.store == st
    ensures Given(username) && Given(email) && Given(password) && !EmailTaken(st.users, email)
            && UsernameTaken(st.users, username) ==>
      r.status == Http(403) && r.store == st
    ensures r.status == Http(200) <==>
      Given(username) && Given(email) && Given(password)
      && !EmailTaken(st.users, email) && !UsernameTaken(st.users, username)
    ensures r.status == Http(200) ==>
      && r.store.users.Keys == st.users.Keys + {st.nextId}
      && r.store.nextId == st.nextId + 1
      && (forall k :: k in st.users && k != st.nextId ==> r.store.users[k] == st.users[k])
      && var u := r.store.users[st.nextId];
         && u.username == username && u.email == email && u.password == hash(password)
         && u.status == Active && !u.isPrivate && !u.isVerified
         && u.profilePicture == "" && u.bio == "" && u.gender.None?
         && NoRelations(u) && u.createdAt == now
    ensures r.store.posts == st.posts && r.store.comments == st.comments && r.store.stories == st.stories
    ensures r.store.reels == st.reels && r.store.conversations == st.conversations && r.store.messages == st.messages
  {
    if !Given(username) || !Given(email) || !Given(password) then Refuse(st, Http(401))
    else if EmailTaken(st.users, email) then Refuse(st, Http(402))
    else if UsernameTaken(st.users, username) then Refuse(st, Http(403))
    else
      var u := NewUser(username, email, hash(password), now);
      Reply(st.(users := st.users[st.nextId := u], nextId := st.nextId + 1), Http(200), [], Some(()))
  }

  /** Registration keeps usernames and emails unique and the follow graph
      consistent. */
  lemma RegisterPreservesWf(st: Store, username: string, email: string, password: string,
                            hash: string -> string, now: Millis)
    requires Wf(st)
    ensures Wf(Register(st, username, email, password, hash, now).store)
  {
    var r := Register(st, username, email, password, hash, now);
    if r.status == Http(200) {
      var u := NewUser(username, email, hash(password), now);
      assert r.store == st.(users := st.users[st.nextId := u], nextId := st.nextId + 1);
      NewUserPreservesWf(st, u);
    }
  }

  /** A username and an email nobody holds keep credentials unique. */
  lemma NewUserUnique(users: map<UserId, User>, id: UserId, u: User)
    requires UniqueCredentials(users)
    requires !EmailTaken(users, u.email) && !UsernameTaken(users, u.username)
    ensures UniqueCredentials(users[id := u])
  {
    var users2 := users[id := u];
    forall a, b | a in users2 && b in users2 && a != b
      ensures users2[a].username != users2[b].username && users2[a].email != users2[b].email
    {
      if a == id {
        assert !(users[b].email == u.email);
      } else if b == id {
        assert !(users[a].email == u.email);
      }
    }
  }

  /** Adding a user with no relations, under the next id and with a fresh
      username and email, keeps the invariant. */
  lemma NewUserPreservesWf(st: Store, u: User)
    requires Wf(st)
    requires NoRelations(u) && !EmailTaken(st.users, u.email) && !UsernameTaken(st.users, u.username)
    ensures Wf(st.(users := st.users[st.nextId := u], nextId := st.nextId + 1))
  {
    var users := st.users[st.nextId := u];
    var id := st.nextId;
    assert id !in st.users;
    NewUserUnique(st.users, id, u);
    assert forall a, x :: a in st.users && x in st.users[a].following ==> x != id;
    assert forall a, x :: a in st.users && x in st.users[a].followers ==> x != id;
    assert FollowConsistent(users);
    assert FollowClosed(users);
    var st2 := st.(users := users, nextId := st.nextId + 1);
    assert IdsBelow(st2);
    assert ThreadsLinked(st2) && MessagesKeyed(st2);
  }

  // --------------------------------------------------------------- login

  /** The user object a successful login answers with: no password. */
  datatype SessionUser = SessionUser(
    id: UserId,
    username: string,
    email: string,
    profilePicture: string,
    bio: string,
    followers: seq<UserId>,
    following: seq<UserId>,
    posts: seq<PostId>,
    storyHighlights: seq<StoryId>,
    isPrivate: bool,
    isVerified: bool,
    reels: seq<ReelId>,
    stories: seq<StoryId>)

  datatype LoginBody = Denied(message: string) | Welcome(user: SessionUser)

  const MissingFields: string := "Something is missing, please check!"
  const BadCredentials: string := "Incorrect email or Password"

  /** `User.findOne({ email })`; emails are unique, so which match is
      chosen only matters for a store that breaks the invariant. */
  ghost function FindByEmail(users: map<UserId, User>, email: string): (r: Option<UserId>)
    ensures r.Some? <==> EmailTaken(users, email)
    ensures r.Some? ==> r.value in users && users[r.value].email == email
  {
    if EmailTaken(users, email) then
      var u :| u in users && users[u].email == email; Some(u)
    else None
  }

  /** Who owns each document of a collection. */
  function PostAuthors(st: Store): map<Id, UserId> {
    map k | k in st.posts :: st.posts[k].author
  }

  function StoryOwners(st: Store): map<Id, UserId> {
    map k | k in st.stories :: st.stories[k].user
  }

  function ReelOwners(st: Store): map<Id, UserId> {
    map k | k in st.reels :: st.reels[k].user
  }

  /** `populateItems` followed by `filter(Boolean)`: the ids whose lookup
      finds a document owned by `u`, in list order. */
  function KeepOwned(ids: seq<Id>, owners: map<Id, UserId>, u: UserId): (r: seq<Id>)
    ensures |r| <= |ids|
    ensures forall x :: x in r <==> x in ids && x in owners && owners[x] == u
    ensures (forall k :: 0 <= k < |ids| ==> ids[k] in owners && owners[ids[k]] == u) ==> r == ids
  {
    if ids == [] then []
    else
      var rest := KeepOwned(ids[1..], owners, u);
      assert ids == [ids[0]] + ids[1..];
      if ids[0] in owners && owners[ids[0]] == u then [ids[0]] + rest else rest
  }

  function Session(id: UserId, u: User, posts: seq<PostId>, stories: seq<StoryId>, reels: seq<ReelId>): SessionUser {
    SessionUser(id, u.username, u.email, u.profilePicture, u.bio, u.followers, u.following,
                posts, u.storyHighlights, u.isPrivate, u.isVerified, reels, stories)
  }

  /** `login` as written: 401 on a missing field; 402 with one and the same
      message for an unknown email and for a wrong password; otherwise 200
      with the user, where posts, stories and reels are all looked up with
      `Post.findById` and kept when found and authored by the user. */
  ghost function Login(st: Store, email: string, password: string,
                       matches: (string, string) -> bool): (r: Reply<LoginBody>)
    ensures r.store == st && r.events == [] && r.body.Some?
    ensures !Given(email) || !Given(password) ==>
      r.status == Http(401) && r.body.value == Denied(MissingFields)
    ensures Given(email) && Given(password) && !EmailTaken(st.users, email) ==>
      r.status == Http(402) && r.body.value == Denied(BadCredentials)
    ensures r.status == Http(200) <==> r.body.value.Welcome?
    ensures r.status == Http(200) ==>
      && Given(email) && Given(password)
      && var s := r.body.value.user;
         && s.id in st.users && st.users[s.id].email == email
         && matches(password, st.users[s.id].password)
         && (forall p :: p in s.posts <==> p in st.users[s.id].posts && p in st.posts && st.posts[p].author == s.id)
         && (forall x :: x in s.stories ==> x in st.posts)
         && (forall x :: x in s.reels ==> x in st.posts)
    ensures r.status == Http(200) ==>
      var s := r.body.value.user;
      && s.id in st.users
      && s.posts == KeepOwned(st.users[s.id].posts, PostAuthors(st), s.id)
      && s.stories == KeepOwned(st.users[s.id].stories, PostAuthors(st), s.id)
      && s.reels == KeepOwned(st.users[s.id].reels, PostAuthors(st), s.id)
    ensures Given(email) && Given(password) && EmailTaken(st.users, email) ==>
      (r.status == Http(200) <==> matches(password, st.users[FindByEmail(st.users, email).value].password))
    ensures r.status == Http(200) ==> r.body.value.user.id == FindByEmail(st.users, email).value
    ensures r.status in {Http(200), Http(401), Http(402)}
  {
    if !Given(email) || !Given(password) then Reply(st, Http(401), [], Some(Denied(MissingFields)))
    else
      var found := FindByEmail(st.users, email);
      if found.None? then Reply(st, Http(402), [], Some(Denied(BadCredentials)))
      else
        var id := found.value;
        var u := st.users[id];
        if !matches(password, u.password) then Reply(st, Http(402), [], Some(Denied(BadCredentials)))
        else
          var authors := PostAuthors(st);
          var s := Session(id, u, KeepOwned(u.posts, authors, id), KeepOwned(u.stories, authors, id),
                           KeepOwned(u.reels, authors, id));
          Reply(st, Http(200), [], Some(Welcome(s)))
  }

  /** A freshly registered user can log in with the password they chose,
      provided the hash and the compare agree on it; the session is theirs. */
  lemma RegisterThenLogin(st: Store, username: string, email: string, password: string,
                          hash: string -> string, now: Millis, matches: (string, string) -> bool)
    requires Register(st, username, email, password, hash, now).status == Http(200)
    requires matches(password, hash(password))
    ensures var r := Login(Register(st, username, email, password, hash, now).store, email, password, matches);
      && r.status == Http(200)
      && r.body.value.user.id == st.nextId
      && r.body.value.user.username == username
      && r.body.value.user.followers == [] && r.body.value.user.following == []
  {
    var st2 := Register(st, username, email, password, hash, now).store;
    assert st.nextId in st2.users && st2.users[st.nextId].email == email;
    assert EmailTaken(st2.users, email);
    var found := FindByEmail(st2.users, email);
    assert found.value == st.nextId;
    assert st2.users[st.nextId].password == hash(password);
  }

  /** A wrong password is answered exactly like an unknown email. */
  lemma LoginHidesWhichCredentialFailed(st: Store, email: string, password: string,
                                        matches: (string, string) -> bool)
    requires Given(email) && Given(password)
    requires EmailTaken(st.users, email)
    requires !matches(password, st.users[FindByEmail(st.users, email).value].password)
    ensures Login(st, email, password, matches).status == Http(402)
    ensures Login(st, email, password, matches).body == Some(Denied(BadCredentials))
  {
  }

  /** As written, a reel id is looked up among posts; since ids are never
      shared between collections, a login never lists any reel. */
  lemma LoginListsNoReels(st: Store, email: string, password: string,
                          matches: (string, string) -> bool)
    requires forall u, x :: u in st.users && x in st.users[u].reels ==> x !in st.posts
    ensures var r := Login(st, email, password, matches);
      r.status == Http(200) ==> r.body.value.user.reels == []
  {
    var r := Login(st, email, password, matches);
    if r.status == Http(200) {
      var s := r.body.value.user;
      var u := st.users[s.id];
      KeepOwnedNone(u.reels, PostAuthors(st), s.id);
    }
  }

  /** No id has an owner on record: nothing is kept. */
  lemma {:induction false} KeepOwnedNone(ids: seq<Id>, owners: map<Id, UserId>, u: UserId)
    requires forall k :: 0 <= k < |ids| ==> ids[k] !in owners
    ensures KeepOwned(ids, owners, u) == []
  {
    if ids != [] {
      KeepOwnedNone(ids[1..], owners, u);
    }
  }

  /** The filter works id by id: filtering a concatenation filters each
      part, so the kept ids keep their relative order. */
  lemma {:induction false} KeepOwnedConcat(a: seq<Id>, b: seq<Id>, owners: map<Id, UserId>, u: UserId)
    ensures KeepOwned(a + b, owners, u) == KeepOwned(a, owners, u) + KeepOwned(b, owners, u)
    decreases |a|
  {
    if a == [] {
      assert a + b == b;
    } else {
      assert (a + b)[1..] == a[1..] + b;
      assert (a + b)[0] == a[0];
      KeepOwnedConcat(a[1..], b, owners, u);
    }
  }

  /** One id is kept exactly when it is on record as owned by `u`. */
  lemma KeepOwnedOne(x: Id, owners: map<Id, UserId>, u: UserId)
    ensures KeepOwned([x], owners, u) == if x in owners && owners[x] == u then [x] else []
  {
    assert [x][1..] == [];
  }

  /** Together: the session lists are the user's lists with the ids that
      fail the lookup dropped, in the user's order. For instance, of
      `[1, 2, 3]` with 1 and 3 owned, the list `[1, 3]` is kept. */
  lemma KeepOwnedExample(owners: map<Id, UserId>, u: UserId)
    requires 1 in owners && owners[1] == u && 3 in owners && owners[3] == u && 2 !in owners
    ensures KeepOwned([1, 2, 3], owners, u) == [1, 3]
  {
    KeepOwnedConcat([1], [2, 3], owners, u);
    KeepOwnedConcat([2], [3], owners, u);
    KeepOwnedOne(1, owners, u);
    KeepOwnedOne(2, owners, u);
    KeepOwnedOne(3, owners, u);
    assert [1, 2, 3] == [1] + ([2] + [3]);
    assert [2, 3] == [2] + [3];
  }

  /** `login` with each list looked up in its own collection, by its own
      owner path: what the inline comment in the handler asks for. */
  ghost function LoginIntended(st: Store, email: string, password: string,
                               matches: (string, string) -> bool): (r: Reply<LoginBody>)
    ensures r.store == st && r.events == [] && r.body.Some?
    ensures r.status == Login(st, email, password, matches).status
    ensures r.status == Http(200) <==> r.body.value.Welcome?
    ensures r.status == Http(200) ==>
      var s := r.body.value.user;
      && s.id in st.users
      && (forall p :: p in s.posts <==> p in st.users[s.id].posts && p in st.posts && st.posts[p].author == s.id)
      && (forall x :: x in s.stories <==> x in st.users[s.id].stories && x in st.stories && st.stories[x].user == s.id)
      && (forall x :: x in s.reels <==> x in st.users[s.id].reels && x in st.reels && st.reels[x].user == s.id)
    ensures r.status == Http(200) ==>
      var s := r.body.value.user;
      && s.id in st.users
      && s.posts == KeepOwned(st.users[s.id].posts, PostAuthors(st), s.id)
      && s.stories == KeepOwned(st.users[s.id].stories, StoryOwners(st), s.id)
      && s.reels == KeepOwned(st.users[s.id].reels, ReelOwners(st), s.id)
  {
    var r := Login(st, email, password, matches);
    if r.status != Http(200) then r
    else
      var id := r.body.value.user.id;
      var u := st.users[id];
      var s := Session(id, u, KeepOwned(u.posts, PostAuthors(st), id), KeepOwned(u.stories, StoryOwners(st), id),
                       KeepOwned(u.reels, ReelOwners(st), id));
      Reply(st, Http(200), [], Some(Welcome(s)))
  }

  /** The discrepancy on one store: a user who owns one live reel logs in;
      the handler as written lists no reel, the intended one lists it. */
  lemma OwnReelMissingFromLogin(matches: (string, string) -> bool)
    requires matches("pw", "hash")
    ensures var u := NewUser("ana", "ana@x", "hash", 0).(reels := [1]);
      var st := EmptyStore.(users := map[0 := u], reels := map[1 := NewReel(0, "url", "", Public, 0)], nextId := 2);
      && Login(st, "ana@x", "pw", matches).status == Http(200)
      && Login(st, "ana@x", "pw", matches).body.value.user.reels == []
      && LoginIntended(st, "ana@x", "pw", matches).body.value.user.reels == [1]
  {
    var u := NewUser("ana", "ana@x", "hash", 0).(reels := [1]);
    var st := EmptyStore.(users := map[0 := u], reels := map[1 := NewReel(0, "url", "", Public, 0)], nextId := 2);
    assert EmailTaken(st.users, "ana@x") by { assert st.users[0].email == "ana@x"; }
    assert FindByEmail(st.users, "ana@x") == Some(0);
    assert KeepOwned([1], ReelOwners(st), 0) == [1];
  }

  // --------------------------------------------------------- editProfile

  /** `editProfile`: 404 for an unknown caller. Only a non-empty bio, a
      non-empty gender and an uploaded picture overwrite; everything else
      stays. A gender outside the enum fails the save, whose catch block
      only logs. */
  function EditProfile(st: Store, caller: UserId, bio: string, gender: string,
                       pictureUrl: Option<string>): (r: Reply<User>)
    ensures r.events == []
    ensures caller !in st.users ==> r.status == Http(404) && r.store == st
    ensures caller in st.users && Given(gender) && ParseGender(gender).None? ==>
      r.status == NoResponse && r.store == st
    ensures r.status == Http(200) <==>
      caller in st.users && (Given(gender) ==> ParseGender(gender).Some?)
    ensures r.status == Http(200) ==> r.body.Some?
    ensures r.status == Http(200) ==>
      && r.store == st.(users := st.users[caller := r.body.value])
      && var before, u := st.users[caller], r.body.value;
         && u.bio == (if Given(bio) then bio else before.bio)
         && u.gender == (if Given(gender) then ParseGender(gender) else before.gender)
         && u.profilePicture == (if pictureUrl.Some? then pictureUrl.value else before.profilePicture)
         && u.(bio := before.bio, gender := before.gender, profilePicture := before.profilePicture) == before
  {
    if caller !in st.users then Refuse(st, Http(404))
    else if Given(gender) && ParseGender(gender).None? then Refuse(st, NoResponse)
    else
      var u := st.users[caller];
      var u1 := if Given(bio) then u.(bio := bio) else u;
      var u2 := if Given(gender) then u1.(gender := ParseGender(gender)) else u1;
      var u3 := if pictureUrl.Some? then u2.(profilePicture := pictureUrl.value) else u2;
      Reply(st.(users := st.users[caller := u3]), Http(200), [], Some(u3))
  }

  lemma EditProfilePreservesWf(st: Store, caller: UserId, bio: string, gender: string,
                               pictureUrl: Option<string>)
    requires Wf(st)
    ensures Wf(EditProfile(st, caller, bio, gender, pictureUrl).store)
  {
    var r := EditProfile(st, caller, bio, gender, pictureUrl);
    if r.status == Http(200) {
      assert SameGraph(st.users, r.store.users) by {
        forall k | k in st.users
          ensures r.store.users[k].following == st.users[k].following
          ensures r.store.users[k].followers == st.users[k].followers
          ensures r.store.users[k].username == st.users[k].username
          ensures r.store.users[k].email == st.users[k].email
        {
          if k == caller {
            assert r.store.users[k] == r.body.value;
          }
        }
      }
      WfContentEdit(st, r.store);
    }
  }

  // --------------------------------------------------- getSuggestedUsers

  /** `getSuggestedUsers`: every user but the caller; `find` always yields
      an array, so the 400 branch never fires. */
  function GetSuggestedUsers(st: Store, caller: UserId): (r: Reply<set<UserId>>)
    ensures r.store == st && r.events == [] && r.status == Http(200) && r.body.Some?
    ensures forall u :: u in r.body.value <==> u in st.users && u != caller
  {
    Reply(st, Http(200), [], Some(st.users.Keys - {caller}))
  }

  /** Suggestions filter on the caller alone: a new registration is
      suggested to everyone else, and the newcomer is offered every user
      who was there before. */
  lemma RegisteredUserIsSuggested(st: Store, username: string, email: string, password: string,
                                  hash: string -> string, now: Millis, viewer: UserId)
    requires Register(st, username, email, password, hash, now).status == Http(200)
    ensures var st2 := Register(st, username, email, password, hash, now).store;
      && (viewer != st.nextId ==> st.nextId in GetSuggestedUsers(st2, viewer).body.value)
      && GetSuggestedUsers(st2, st.nextId).body.value == st.users.Keys - {st.nextId}
  {
  }

  /** Following someone does not remove them from the suggestions: the
      handler filters only on the caller's own id. */
  lemma FollowKeepsSuggestions(st: Store, caller: UserId, target: UserId, viewer: UserId)
    ensures GetSuggestedUsers(FollowOrUnfollow(st, caller, target).store, viewer).body
         == GetSuggestedUsers(st, viewer).body
  {
    var r := FollowOrUnfollow(st, caller, target);
    if r.status == Http(200) {
      assert r.store.users.Keys == st.users.Keys;
    }
  }

  // ---------------------------------------------------- followOrUnfollow

  /** `followOrUnfollow`: 400 for following oneself or for a missing user.
      Otherwise, if the caller follows the target, both sides are pulled;
      if not, both sides are pushed. */
  function FollowOrUnfollow(st: Store, caller: UserId, target: UserId): (r: Reply<()>)
    ensures r.events == []
    ensures r.status == Http(200) || r.status == Http(400)
    ensures r.status == Http(400) <==> caller == target || caller !in st.users || target !in st.users
    ensures r.status == Http(400) ==> r.store == st
    ensures r.status == Http(200) ==> r.store == st.(users := FollowEdge(st.users, caller, target))
  {
    if caller == target then Refuse(st, Http(400))
    else if caller !in st.users || target !in st.users then Refuse(st, Http(400))
    else Reply(st.(users := FollowEdge(st.users, caller, target)), Http(200), [], Some(()))
  }

  /** The two writes of `followOrUnfollow`: the caller's `following` and
      the target's `followers` flip together, and nothing else changes. */
  function FollowEdge(users: map<UserId, User>, caller: UserId, target: UserId): (r: map<UserId, User>)
    requires caller != target && caller in users && target in users
    ensures r.Keys == users.Keys
    ensures var was := target in users[caller].following;
      && (target in r[caller].following <==> !was)
      && (caller in r[target].followers <==> !was)
    ensures forall x :: x != target ==> (x in r[caller].following <==> x in users[caller].following)
    ensures forall x :: x != caller ==> (x in r[target].followers <==> x in users[target].followers)
    ensures r[caller].(following := users[caller].following) == users[caller]
    ensures r[target].(followers := users[target].followers) == users[target]
    ensures forall k :: k in users && k != caller && k != target ==> r[k] == users[k]
  {
    var u, t := users[caller], users[target];
    var was := target in u.following;
    users[caller := u.(following := Flip(u.following, target, was))]
         [target := t.(followers := Flip(t.followers, caller, was))]
  }

  /** One side of the edge: `$pull` when the edge was there, `push` when not. */
  function Flip(s: seq<Id>, x: Id, remove: bool): (r: seq<Id>)
    ensures x in r <==> !remove
    ensures forall y :: y != x ==> (y in r <==> y in s)
  {
    if remove then Pull(s, x) else s + [x]
  }

  /** Following and unfollowing update both sides together, so "b is in
      a's following exactly when a is in b's followers" survives. */
  lemma FollowPreservesWf(st: Store, caller: UserId, target: UserId)
    requires Wf(st)
    ensures Wf(FollowOrUnfollow(st, caller, target).store)
  {
    if caller != target && caller in st.users && target in st.users {
      var users := FollowEdge(st.users, caller, target);
      FollowEdgeKeepsUsers(st.users, caller, target);
      WfUsersOnly(st, users);
    }
  }

  lemma FollowEdgeKeepsUsers(prior: map<UserId, User>, caller: UserId, target: UserId)
    requires caller != target && caller in prior && target in prior
    requires FollowConsistent(prior) && FollowClosed(prior) && UniqueCredentials(prior)
    ensures var users := FollowEdge(prior, caller, target);
      FollowConsistent(users) && FollowClosed(users) && UniqueCredentials(users)
  {
    var users := FollowEdge(prior, caller, target);
    assert users[caller].followers == prior[caller].followers;
    assert users[target].following == prior[target].following;
    FollowKeepsConsistent(prior, users, caller, target);
    forall a, b | a in users && b in users && a != b
      ensures users[a].username != users[b].username && users[a].email != users[b].email
    {
      assert users[a].username == prior[a].username && users[a].email == prior[a].email;
      assert users[b].username == prior[b].username && users[b].email == prior[b].email;
    }
    forall a, x | a in users && x in users[a].following
      ensures x in users
    {
      if a != caller || x != target {
        assert x in prior[a].following;
      }
    }
    forall a, x | a in users && x in users[a].followers
      ensures x in users
    {
      if a != target || x != caller {
        assert x in prior[a].followers;
      }
    }
  }

  /** The two-sided update, stated on the user maps alone. */
  lemma FollowKeepsConsistent(prior: map<UserId, User>, users: map<UserId, User>, caller: UserId, target: UserId)
    requires FollowConsistent(prior)
    requires caller != target && caller in prior && target in prior && users.Keys == prior.Keys
    requires target in users[caller].following <==> caller in users[target].followers
    requires forall x :: x != target ==> (x in users[caller].following <==> x in prior[caller].following)
    requires forall x :: x != caller ==> (x in users[target].followers <==> x in prior[target].followers)
    requires users[caller].followers == prior[caller].followers
    requires users[target].following == prior[target].following
    requires forall k :: k in prior && k != caller && k != target ==> users[k] == prior[k]
    ensures FollowConsistent(users)
  {
    forall a, b | a in users && b in users
      ensures b in users[a].following <==> a in users[b].followers
    {
      assert b in prior[a].following <==> a in prior[b].followers;
      if a == caller && b == target {
      } else if a == caller {
        assert b in users[a].following <==> b in prior[a].following;
        assert a in users[b].followers <==> a in prior[b].followers;
      } else if b == target {
        assert a in users[b].followers <==> a in prior[b].followers;
        assert users[a].following == prior[a].following;
      } else {
        assert users[a].following == prior[a].following;
        assert users[b].followers == prior[b].followers;
      }
    }
  }

  /** Following twice undoes itself: membership on both sides is restored,
      and a follow followed by an unfollow restores both lists exactly. */
  lemma FollowTwiceRestores(st: Store, caller: UserId, target: UserId)
    requires FollowConsistent(st.users)
    requires caller != target && caller in st.users && target in st.users
    ensures var st2 := FollowOrUnfollow(FollowOrUnfollow(st, caller, target).store, caller, target).store;
      && (forall x :: x in st2.users[caller].following <==> x in st.users[caller].following)
      && (forall x :: x in st2.users[target].followers <==> x in st.users[target].followers)
      && (target !in st.users[caller].following ==> st2 == st)
  {
    FollowEdgeTwice(st.users, caller, target);
  }

  lemma FollowEdgeTwice(users: map<UserId, User>, caller: UserId, target: UserId)
    requires FollowConsistent(users)
    requires caller != target && caller in users && target in users
    ensures var u2 := FollowEdge(FollowEdge(users, caller, target), caller, target);
      && (forall x :: x in u2[caller].following <==> x in users[caller].following)
      && (forall x :: x in u2[target].followers <==> x in users[target].followers)
      && (target !in users[caller].following ==> u2 == users)
  {
    if target !in users[caller].following {
      FollowThenUnfollow(users, caller, target);
    }
  }

  lemma FollowThenUnfollow(users: map<UserId, User>, caller: UserId, target: UserId)
    requires caller != target && caller in users && target in users
    requires target !in users[caller].following && caller !in users[target].followers
    ensures FollowEdge(FollowEdge(users, caller, target), caller, target) == users
  {
    PullAppended(users[caller].following, target);
    PullAppended(users[target].followers, caller);
  }

  // -------------------------------------------------------- blockOrReport

  /** `blockOrReport`: 400 for oneself, 404 for an unknown target, 500 when
      the caller's own record is missing; otherwise the target is removed
      from the caller's `blockedUsers` if there, else appended. Only that
      list changes. */
  function BlockOrReport(st: Store, caller: UserId, target: UserId): (r: Reply<()>)
    ensures r.events == []
    ensures caller == target ==> r.status == Http(400)
    ensures caller != target && target !in st.users ==> r.status == Http(404)
    ensures caller != target && target in st.users && caller !in st.users ==> r.status == Http(500)
    ensures r.status != Http(200) ==> r.store == st
    ensures r.status == Http(200) <==> caller != target && caller in st.users && target in st.users
    ensures r.status == Http(200) ==>
      && r.store.users.Keys == st.users.Keys
      && (target in r.store.users[caller].blockedUsers <==> target !in st.users[caller].blockedUsers)
      && (forall x :: x != target ==>
            (x in r.store.users[caller].blockedUsers <==> x in st.users[caller].blockedUsers))
      && r.store.users[caller].(blockedUsers := st.users[caller].blockedUsers) == st.users[caller]
      && (forall k :: k in st.users && k != caller ==> r.store.users[k] == st.users[k])
      && r.store == st.(users := r.store.users)
  {
    if caller == target then Refuse(st, Http(400))
    else if target !in st.users then Refuse(st, Http(404))
    else if caller !in st.users then Refuse(st, Http(500))
    else
      var u := st.users[caller];
      Reply(st.(users := st.users[caller := u.(blockedUsers := Toggle(u.blockedUsers, target))]), Http(200), [], Some(()))
  }

  lemma BlockPreservesWf(st: Store, caller: UserId, target: UserId)
    requires Wf(st)
    ensures Wf(BlockOrReport(st, caller, target).store)
  {
    var r := BlockOrReport(st, caller, target);
    if r.status == Http(200) {
      assert SameGraph(st.users, r.store.users) by {
        forall k | k in st.users
          ensures r.store.users[k].following == st.users[k].following
          ensures r.store.users[k].followers == st.users[k].followers
          ensures r.store.users[k].username == st.users[k].username
          ensures r.store.users[k].email == st.users[k].email
        {
          if k == caller {
            assert r.store.users[k].(blockedUsers := st.users[k].blockedUsers) == st.users[k];
          }
        }
      }
      WfContentEdit(st, r.store);
    }
  }

  /** Blocking twice restores who is blocked; starting from "not blocked"
      it restores the store exactly. */
  lemma BlockTwiceRestores(st: Store, caller: UserId, target: UserId)
    requires caller != target && caller in st.users && target in st.users
    ensures var st2 := BlockOrReport(BlockOrReport(st, caller, target).store, caller, target).store;
      && (forall x :: x in st2.users[caller].blockedUsers <==> x in st.users[caller].blockedUsers)
      && (target !in st.users[caller].blockedUsers ==> st2 == st)
  {
    var u := st.users[caller];
    BlockShape(st, caller, target);
    var st1 := st.(users := st.users[caller := u.(blockedUsers := Toggle(u.blockedUsers, target))]);
    BlockShape(st1, caller, target);
    ToggleTwice(u.blockedUsers, target);
    if target !in u.blockedUsers {
      assert st.users[caller := u] == st.users;
    }
  }

  /** On success the one write is a toggle of the caller's list. */
  lemma BlockShape(st: Store, caller: UserId, target: UserId)
    requires caller != target && caller in st.users && target in st.users
    ensures var u := st.users[caller];
      BlockOrReport(st, caller, target).store
        == st.(users := st.users[caller := u.(blockedUsers := Toggle(u.blockedUsers, target))])
  {
  }
}
