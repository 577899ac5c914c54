/**
 The Mongoose schemas as datatypes: one record per collection, the string
 enums as datatypes with their parsers, and one constructor per record that
 fills in the schema defaults. Ids are carried only by the records a handler
 hands back by value (conversations and messages); the others are keyed by
 their id in the store.
 */
module Schema {

  import opened Base

  // ---------------------------------------------------------------- enums

  datatype Gender = Male | Female | Trans
  datatype AccountStatus = Active | Suspended | Deactivated
  datatype Visibility = Public | FollowersOnly | Private
  /** A post's media kind. */
  datatype PostMedia = PostImage | PostVideo
  /** A message attachment's media kind. */
  datatype MessageMedia = MediaImage | MediaVideo | MediaFile

  /** The user schema's gender enum; None for any other string. */
  function ParseGender(s: string): (r: Option<Gender>)
    ensures r.Some? <==> s in {"male", "female", "trans"}
  {
    if s == "male" then Some(Male)
    else if s == "female" then Some(Female)
    else if s == "trans" then Some(Trans)
    else None
  }

  /** The post and reel schemas' visibility enum; None for any other string. */
  function ParseVisibility(s: string): (r: Option<Visibility>)
    ensures r.Some? <==> s in {"public", "followers", "private"}
  {
    if s == "public" then Some(Public)
    else if s == "followers" then Some(FollowersOnly)
    else if s == "private" then Some(Private)
    else None
  }

  /** The string each enum value is stored as. */
  function GenderName(g: Gender): string {
    match g
    case Male => "male"
    case Female => "female"
    case Trans => "trans"
  }

  function VisibilityName(v: Visibility): string {
    match v
    case Public => "public"
    case FollowersOnly => "followers"
    case Private => "private"
  }

  /** Parsing a stored enum string gives back the value, and only stored
      strings parse. */
  lemma ParseGenderRoundTrip(g: Gender, s: string)
    ensures ParseGender(GenderName(g)) == Some(g)
    ensures ParseGender(s) == Some(g) ==> s == GenderName(g)
  {
  }

  lemma ParseVisibilityRoundTrip(v: Visibility, s: string)
    ensures ParseVisibility(VisibilityName(v)) == Some(v)
    ensures ParseVisibility(s) == Some(v) ==> s == VisibilityName(v)
  {
  }

  // ------------------------------------------------------------- records

  datatype User = User(
    username: string,
    email: string,
    password: string,
    profilePicture: string,
    bio: string,
    gender: Option<Gender>,
    isPrivate: bool,
    isVerified: bool,
    status: AccountStatus,
    followers: seq<UserId>,
    following: seq<UserId>,
    posts: seq<PostId>,
    savedPosts: seq<PostId>,
    /** Read and written by the bookmark handler; the schema declares no
        such path (it has `savedPosts`). */
    bookmarks: seq<PostId>,
    storyHighlights: seq<StoryId>,
    blockedUsers: seq<UserId>,
    reportedUsers: seq<UserId>,
    passwordResetToken: Option<string>,
    passwordResetExpires: Option<Millis>,
    notifications: seq<Id>,
    createdAt: Millis,
    updatedAt: Millis,
    stories: seq<StoryId>,
    reels: seq<ReelId>)

  datatype Post = Post(
    caption: string,
    mediaUrl: string,
    mediaType: PostMedia,
    author: UserId,
    location: string,
    likes: seq<UserId>,
    comments: seq<CommentId>,
    tags: seq<string>,
    mentions: seq<UserId>,
    isSponsored: bool,
    isArchived: bool,
    visibility: Visibility,
    likeCount: int,
    commentCount: int,
    shareCount: int,
    createdAt: Millis,
    updatedAt: Millis)

  datatype Story = Story(
    user: UserId,
    mediaUrl: string,
    caption: string,
    viewers: seq<UserId>,
    isHighlight: bool,
    /** Expires 24 hours after this instant. */
    createdAt: Millis,
    /** Pushed to by the story comment handler; the schema declares no such
        path. */
    comments: seq<CommentId>)

  datatype Reel = Reel(
    user: UserId,
    mediaUrl: string,
    caption: string,
    likes: seq<UserId>,
    comments: seq<CommentId>,
    isLikedByCurrentUser: bool,
    /** Expires 24 hours after this instant. */
    createdAt: Millis,
    visibility: Visibility)

  /** What a comment is attached to: the `post`, `story` or `reel` path the
      handlers set when they create it. */
  datatype Target = OnPost(post: PostId) | OnStory(story: StoryId) | OnReel(reel: ReelId)

  datatype Comment = Comment(text: string, author: UserId, target: Target)

  datatype Conversation = Conversation(
    id: ConversationId,
    participants: seq<UserId>,
    /** Ids of Message records, oldest first. */
    messages: seq<MessageId>,
    createdAt: Millis,
    updatedAt: Millis)

  datatype Message = Message(
    id: MessageId,
    senderId: UserId,
    recipientId: UserId,
    conversationId: ConversationId,
    /** The `message` text the handlers pass; the schema declares no such
        path. */
    text: string,
    media: string,
    /** None is the JSON null the media handler stores when no file came. */
    mediaUrl: Option<string>,
    mediaType: Option<MessageMedia>,
    isRead: bool,
    createdAt: Millis,
    updatedAt: Millis)

  /** A user with every relation list still at its default, empty. */
  predicate NoRelations(u: User) {
    && u.followers == [] && u.following == [] && u.posts == [] && u.savedPosts == []
    && u.bookmarks == [] && u.storyHighlights == [] && u.blockedUsers == []
    && u.reportedUsers == [] && u.notifications == [] && u.stories == [] && u.reels == []
  }

  // ------------------------------------------- records with schema defaults

  function NewUser(username: string, email: string, password: string, now: Millis): User {
    User(username, email, password, "", "", None, false, false, Active,
         [], [], [], [], [], [], [], [], None, None, [], now, now, [], [])
  }

  function NewPost(caption: string, mediaUrl: string, mediaType: PostMedia,
                   author: UserId, now: Millis): Post {
    Post(caption, mediaUrl, mediaType, author, "", [], [], [], [],
         false, false, Public, 0, 0, 0, now, now)
  }

  function NewStory(user: UserId, mediaUrl: string, caption: string, now: Millis): Story {
    Story(user, mediaUrl, caption, [], false, now, [])
  }

  function NewReel(user: UserId, mediaUrl: string, caption: string,
                   visibility: Visibility, now: Millis): Reel {
    Reel(user, mediaUrl, caption, [], [], false, now, visibility)
  }

  function NewConversation(id: ConversationId, participants: seq<UserId>, now: Millis): Conversation {
    Conversation(id, participants, [], now, now)
  }

  /** A message as the handlers create it: `media` and `mediaType` keep
      their defaults. */
  function NewMessage(id: MessageId, sender: UserId, recipient: UserId,
                      conversation: ConversationId, text: string,
                      mediaUrl: Option<string>, now: Millis): Message {
    Message(id, sender, recipient, conversation, text, "", mediaUrl, None, false, now, now)
  }
}
