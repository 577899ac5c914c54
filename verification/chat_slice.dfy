/**
 The client's chat reducer: who is online and the messages of the open
 conversation.
 */
module ChatSlice {

  import opened Base
  import opened Schema

  datatype ChatState = ChatState(onlineUsers: seq<UserId>, messages: seq<Message>)

  /** Nobody online, no messages. */
  const Initial: ChatState := ChatState([], [])

  /** `setOnlineUsers`: replaces the online list; the messages stay. */
  function SetOnlineUsers(s: ChatState, users: seq<UserId>): (r: ChatState)
    ensures r.onlineUsers == users
    ensures r.messages == s.messages
  {
    s.(onlineUsers := users)
  }

  /** `setMessages`: replaces the whole message list; the online list stays. */
  function SetMessages(s: ChatState, messages: seq<Message>): (r: ChatState)
    ensures r.messages == messages
    ensures r.onlineUsers == s.onlineUsers
  {
    s.(messages := messages)
  }

  /** `addMessage`: exactly one message more, at the end. */
  function AddMessage(s: ChatState, m: Message): (r: ChatState)
    ensures |r.messages| == |s.messages| + 1
    ensures r.messages[..|s.messages|] == s.messages
    ensures r.messages[|s.messages|] == m
    ensures r.onlineUsers == s.onlineUsers
  {
    s.(messages := s.messages + [m])
  }

  /** The online list and the message list are independent: setting who
      is online commutes with both message reducers. */
  lemma OnlineUsersIndependent(s: ChatState, users: seq<UserId>, m: Message, ms: seq<Message>)
    ensures SetOnlineUsers(AddMessage(s, m), users) == AddMessage(SetOnlineUsers(s, users), m)
    ensures SetOnlineUsers(SetMessages(s, ms), users) == SetMessages(SetOnlineUsers(s, users), ms)
  {
  }

  /** Dispatching `addMessage` once per message, in order. */
  function AddAll(s: ChatState, ms: seq<Message>): ChatState
    decreases |ms|
  {
    if ms == [] then s else AddAll(AddMessage(s, ms[0]), ms[1..])
  }

  /** Adding messages one by one ends where appending them all at once
      with `setMessages` does. */
  lemma {:induction false} AddAllIsSetMessages(s: ChatState, ms: seq<Message>)
    ensures AddAll(s, ms) == SetMessages(s, s.messages + ms)
    decreases |ms|
  {
    if ms != [] {
      var s1 := AddMessage(s, ms[0]);
      AddAllIsSetMessages(s1, ms[1..]);
      assert s1.messages + ms[1..] == s.messages + ms;
    }
  }

  /** Replaying a conversation into an empty chat shows it in order. */
  lemma ReplayFromInitial(ms: seq<Message>)
    ensures AddAll(Initial, ms).messages == ms
    ensures AddAll(Initial, ms).onlineUsers == []
  {
    AddAllIsSetMessages(Initial, ms);
  }
}
