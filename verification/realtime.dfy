/**
 The socket.io side of the handlers: the user-to-socket lookup the socket
 module exposes, and the events a handler emits.
 */
module Realtime {

  import opened Base
  import opened Schema

  type SocketId = string

  /** `getReceiverSocketId`: the one socket a user currently has, if any. */
  type Sockets = map<UserId, SocketId>

  /** The lookup's result; None stands for `undefined`. */
  function SocketOf(sockets: Sockets, u: UserId): (r: Option<SocketId>)
    ensures r.Some? <==> u in sockets
    ensures r.Some? ==> r.value == sockets[u]
  {
    if u in sockets then Some(sockets[u]) else None
  }

  /** `if (receiverSocketId)`: a socket id the handler treats as present. */
  function LiveSocket(sockets: Sockets, u: UserId): (r: Option<SocketId>)
    ensures r.Some? <==> u in sockets && Given(sockets[u])
    ensures r.Some? ==> r.value == sockets[u]
  {
    if u in sockets && Given(sockets[u]) then Some(sockets[u]) else None
  }

  datatype NoteKind = Like | Dislike

  /** The actor's `username profilePicture` projection, read when the event
      is built; None when the actor's record is missing. */
  datatype UserDetails = UserDetails(username: string, profilePicture: string)

  datatype Notification = Notification(
    kind: NoteKind,
    userId: UserId,
    userDetails: Option<UserDetails>,
    postId: PostId,
    message: string)

  /** One `io.to(socket).emit(name, payload)`. A notification is emitted even
      when the owner's socket lookup gave `undefined`; such an emit reaches
      no client. */
  datatype Event =
    | NewMessageEvent(to: SocketId, message: Message)
    | NotificationEvent(room: Option<SocketId>, note: Notification)
}
