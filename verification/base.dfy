/**
 Shared vocabulary of the backend model: optional values, identifiers,
 timestamps and the HTTP outcome of a request handler.
 */
module Base {

  datatype Option<+T> = None | Some(value: T)

  /** Mongo ObjectIds. One counter allocates all of them, so an id names at
      most one document across every collection. */
  type Id = nat
  type UserId = Id
  type PostId = Id
  type CommentId = Id
  type StoryId = Id
  type ReelId = Id
  type ConversationId = Id
  type MessageId = Id

  /** Wall-clock time as integer milliseconds since the epoch. */
  type Millis = int

  /** 24 hours in milliseconds: the story expiry window. */
  const DayMillis: int := 24 * 60 * 60 * 1000

  /** What the client receives: a status code, or nothing at all when the
      handler's catch block only logs the error and never answers. */
  datatype Status = Http(code: int) | NoResponse

  /** JavaScript truthiness of a request string: undefined and "" are falsy. */
  predicate Given(s: string) {
    s != ""
  }

  /** `s.startsWith(prefix)` */
  predicate StartsWith(s: string, prefix: string) {
    |prefix| <= |s| && s[..|prefix|] == prefix
  }
}
