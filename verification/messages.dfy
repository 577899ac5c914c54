/**
 The direct-message handlers: `sendMessage`, `sendMediaMessage` and
 `getMessages`. A send finds or creates the conversation of the pair, creates
 the message, appends its id to the conversation, saves both, and only then
 emits `newMessage` to the receiver's socket.
 */
module Messages {

  import opened Base
  import opened Schema
  import opened Realtime
  import opened Store

  /** The storage call that throws, if any. Every throw lands in the catch
      block, which answers 500. `MessageCreateFails` covers the schema
      rejecting the created message: the handlers pass `receiverId` and no
      `conversationId`, while the schema requires `recipientId` and
      `conversationId`. */
  datatype Fault =
    | NoFault
    | LookupFails
    | ConversationCreateFails
    | MessageCreateFails
    | ConversationSaveFails
    | MessageSaveFails

  /** The conversation is created exactly when the lookup ran and found none. */
  predicate Creates(st: Store, sender: UserId, receiver: UserId, fault: Fault) {
    fault != LookupFails && FindThread(st.conversations, sender, receiver).None?
  }

  /** The faulty call is one the handler makes (a failing create is never
      reached when the conversation already exists). */
  predicate Strikes(st: Store, sender: UserId, receiver: UserId, fault: Fault) {
    fault != NoFault && (fault == ConversationCreateFails ==> Creates(st, sender, receiver, fault))
  }

  /** Ids listed by the pair's conversation, or none when there is none. */
  function ThreadMessages(st: Store, a: UserId, b: UserId): seq<MessageId> {
    var found := FindThread(st.conversations, a, b);
    if found.Some? then st.conversations[found.value].messages else []
  }

  /** `findOne` with `$all`, then `Conversation.create({ participants:
      [a, b] })` when nothing was found. */
  function FindOrCreate(st: Store, a: UserId, b: UserId, now: Millis): (r: (Store, nat))
    ensures r.1 < |r.0.conversations|
    ensures FindThread(r.0.conversations, a, b) == Some(r.1)
    ensures FindThread(st.conversations, a, b).Some? ==> r.0 == st
    ensures FindThread(st.conversations, a, b).None? ==>
      r.0 == st.(conversations := st.conversations + [NewConversation(st.nextId, [a, b], now)],
                 nextId := st.nextId + 1)
  {
    var found := FindThread(st.conversations, a, b);
    if found.Some? then (st, found.value)
    else
      var c := NewConversation(st.nextId, [a, b], now);
      FindThreadAppend(st.conversations, c, a, b);
      (st.(conversations := st.conversations + [c], nextId := st.nextId + 1), |st.conversations|)
  }

  /** `Message.create`, the push of its id onto conversation i, and the
      two saves. The message is answered back only when all of them
      succeed. A failed message save still lets the conversation save run,
      so the id is linked; a failed conversation save leaves the stored
      message unlinked. The conversation's save stamps `updatedAt`. */
  function Append(st: Store, i: nat, sender: UserId, receiver: UserId, text: string,
                  mediaUrl: Option<string>, fault: Fault, now: Millis): (r: (Store, Option<Message>))
    requires i < |st.conversations|
    ensures |r.0.conversations| == |st.conversations|
    ensures r.1.Some? <==> fault !in {MessageCreateFails, ConversationSaveFails, MessageSaveFails}
    ensures r.1.Some? ==>
      var m := r.1.value;
      && m.senderId == sender && m.recipientId == receiver && m.conversationId == st.conversations[i].id
      && m.text == text && m.mediaUrl == mediaUrl && !m.isRead && m.createdAt == now
      && m.id in r.0.messages && r.0.messages[m.id] == m
      && r.0.conversations[i].messages == st.conversations[i].messages + [m.id]
    ensures fault == MessageCreateFails ==> r.0 == st
    ensures fault != MessageCreateFails ==>
      st.nextId in r.0.messages && r.0.nextId == st.nextId + 1
    ensures fault in {MessageCreateFails, ConversationSaveFails} ==> r.0.conversations == st.conversations
    ensures fault !in {MessageCreateFails, ConversationSaveFails} ==>
      && r.0.conversations[i].messages == st.conversations[i].messages + [st.nextId]
      && r.0.conversations[i].updatedAt == now
      && r.0.conversations[i].createdAt == st.conversations[i].createdAt
    ensures r.0.conversations[i].id == st.conversations[i].id
    ensures forall j :: 0 <= j < |st.conversations| ==>
      r.0.conversations[j].participants == st.conversations[j].participants
    ensures forall j :: 0 <= j < |st.conversations| && j != i ==> r.0.conversations[j] == st.conversations[j]
    ensures r.0.users == st.users && r.0.posts == st.posts && r.0.comments == st.comments
    ensures r.0.stories == st.stories && r.0.reels == st.reels
    ensures forall k :: k in st.messages && k != st.nextId ==> k in r.0.messages && r.0.messages[k] == st.messages[k]
  {
    if fault == MessageCreateFails then (st, None)
    else
      var conv := st.conversations[i];
      var m := NewMessage(st.nextId, sender, receiver, conv.id, text, mediaUrl, now);
      var st2 := st.(messages := st.messages[m.id := m], nextId := st.nextId + 1);
      if fault == ConversationSaveFails then (st2, None)
      else
        var linked := conv.(messages := conv.messages + [m.id], updatedAt := now);
        var st3 := st2.(conversations := st2.conversations[i := linked]);
        (st3, if fault == MessageSaveFails then None else Some(m))
  }

  /** The storage half of a send: lookup, find-or-create, then `Append`. */
  function Persist(st: Store, sender: UserId, receiver: UserId, text: string,
                   mediaUrl: Option<string>, fault: Fault, now: Millis): (r: (Store, Option<Message>))
    ensures r.1.Some? <==> !Strikes(st, sender, receiver, fault)
    ensures r.1.Some? ==>
      var m := r.1.value;
      && m.senderId == sender && m.recipientId == receiver
      && m.text == text && m.mediaUrl == mediaUrl && !m.isRead && m.createdAt == now
      && m.id in r.0.messages && r.0.messages[m.id] == m
      && FindThread(r.0.conversations, sender, receiver).Some?
      && var i := FindThread(r.0.conversations, sender, receiver).value;
         && r.0.conversations[i].messages == ThreadMessages(st, sender, receiver) + [m.id]
         && r.0.conversations[i].id == m.conversationId
    ensures fault != LookupFails && fault != ConversationCreateFails ==>
      FindThread(r.0.conversations, sender, receiver).Some?
    ensures |r.0.conversations| ==
      |st.conversations| + (if Creates(st, sender, receiver, fault) && fault != ConversationCreateFails then 1 else 0)
    ensures |r.0.conversations| > |st.conversations| ==>
      r.0.conversations[|st.conversations|].participants == [sender, receiver]
    ensures forall j :: 0 <= j < |st.conversations| ==>
      r.0.conversations[j].participants == st.conversations[j].participants
    ensures forall j :: 0 <= j < |st.conversations| ==> r.0.conversations[j].id == st.conversations[j].id
    ensures forall j :: 0 <= j < |st.conversations| && Some(j) != FindThread(st.conversations, sender, receiver) ==>
      r.0.conversations[j] == st.conversations[j]
    ensures r.0.users == st.users && r.0.posts == st.posts && r.0.comments == st.comments
    ensures r.0.stories == st.stories && r.0.reels == st.reels
    ensures forall k :: k in st.messages && k != st.nextId && k != st.nextId + 1 ==>
      k in r.0.messages && r.0.messages[k] == st.messages[k]
  {
    if fault == LookupFails then (st, None)
    else if Creates(st, sender, receiver, fault) && fault == ConversationCreateFails then (st, None)
    else
      var (st1, i) := FindOrCreate(st, sender, receiver, now);
      var r := Append(st1, i, sender, receiver, text, mediaUrl, fault, now);
      FindThreadParticipantsOnly(st1.conversations, r.0.conversations, sender, receiver);
      r
  }

  /** The flow both send handlers share; they differ only in the message
      fields they pass. */
  function Send(st: Store, sender: UserId, receiver: UserId, text: string,
                mediaUrl: Option<string>, fault: Fault, sockets: Sockets, now: Millis): (r: Reply<Message>)
    ensures r.status == (if Strikes(st, sender, receiver, fault) then Http(500) else Http(201))
    ensures r.body.Some? <==> r.status == Http(201)
    ensures r.store == Persist(st, sender, receiver, text, mediaUrl, fault, now).0
    ensures r.body == Persist(st, sender, receiver, text, mediaUrl, fault, now).1
    ensures |r.events| <= 1
    ensures |r.events| == 1 <==> r.status == Http(201) && LiveSocket(sockets, receiver).Some?
    ensures |r.events| == 1 ==> r.events[0] == NewMessageEvent(sockets[receiver], r.body.value)
  {
    var (st', m) := Persist(st, sender, receiver, text, mediaUrl, fault, now);
    if m.None? then Refuse(st', Http(500))
    else
      var live := LiveSocket(sockets, receiver);
      Reply(st', Http(201), if live.Some? then [NewMessageEvent(live.value, m.value)] else [], m)
  }

  // ------------------------------------------------------- the handlers

  /** `sendMessage`: a text message; the record keeps the schema defaults
      for `media`, `mediaUrl` and `mediaType`. */
  function SendMessage(st: Store, caller: UserId, receiverId: UserId, textMessage: string,
                       fault: Fault, sockets: Sockets, now: Millis): (r: Reply<Message>)
    ensures r.status == Http(201) || r.status == Http(500)
    ensures r.status == Http(500) ==> r.events == [] && r.body.None?
    ensures r.body.Some? ==>
      var m := r.body.value;
      && m.senderId == caller && m.recipientId == receiverId && m.text == textMessage
      && m.media == "" && m.mediaUrl == Some("") && m.mediaType.None? && !m.isRead
  {
    Send(st, caller, receiverId, textMessage, Some(""), fault, sockets, now)
  }

  /** `sendMediaMessage`: `mediaUrl` is the uploaded file's path, or null
      when no file came; `isRead` is set to false. */
  function SendMediaMessage(st: Store, caller: UserId, receiverId: UserId, textMessage: string,
                            filePath: Option<string>, fault: Fault, sockets: Sockets, now: Millis): (r: Reply<Message>)
    ensures r.status == Http(201) || r.status == Http(500)
    ensures r.status == Http(500) ==> r.events == [] && r.body.None?
    ensures r.body.Some? ==>
      var m := r.body.value;
      && m.senderId == caller && m.recipientId == receiverId && m.text == textMessage
      && (filePath.None? ==> m.mediaUrl.None?)
      && (filePath.Some? ==> m.mediaUrl == filePath)
      && !m.isRead
  {
    Send(st, caller, receiverId, textMessage, filePath, fault, sockets, now)
  }

  /** `.populate('messages')`: the records the ids name, in list order;
      an id without a record is dropped. */
  function Populate(ids: seq<MessageId>, messages: map<MessageId, Message>): (r: seq<Message>)
    ensures |r| <= |ids|
    ensures forall k :: 0 <= k < |r| ==> r[k] in messages.Values
    ensures (forall k :: 0 <= k < |ids| ==> ids[k] in messages) ==>
      |r| == |ids| && forall k :: 0 <= k < |r| ==> r[k] == messages[ids[k]]
  {
    if ids == [] then []
    else
      var rest := Populate(ids[1..], messages);
      if ids[0] in messages then [messages[ids[0]]] + rest else rest
  }

  /** `getMessages`: the caller's conversation with the other user, or an
      empty list when they have none. Reads only. */
  function GetMessages(st: Store, caller: UserId, otherId: UserId, lookupFails: bool): (r: Reply<seq<Message>>)
    ensures r.store == st && r.events == []
    ensures r.status == (if lookupFails then Http(500) else Http(200))
    ensures r.body.Some? <==> !lookupFails
    ensures !lookupFails && FindThread(st.conversations, caller, otherId).None? ==> r.body == Some([])
    ensures r.body.Some? && ThreadsLinked(st) ==>
      var ids := ThreadMessages(st, caller, otherId);
      |r.body.value| == |ids| && forall k :: 0 <= k < |ids| ==> r.body.value[k] == st.messages[ids[k]]
  {
    if lookupFails then Refuse(st, Http(500))
    else Reply(st, Http(200), [], Some(Populate(ThreadMessages(st, caller, otherId), st.messages)))
  }

  // ------------------------------------------------------------- lemmas

  lemma {:induction false} PopulateConcat(a: seq<MessageId>, b: seq<MessageId>, messages: map<MessageId, Message>)
    ensures Populate(a + b, messages) == Populate(a, messages) + Populate(b, messages)
  {
    if a == [] {
      assert a + b == b;
    } else {
      assert (a + b)[1..] == a[1..] + b;
      PopulateConcat(a[1..], b, messages);
    }
  }

  /** Populate reads only the records its ids name. */
  lemma {:induction false} PopulateFrame(ids: seq<MessageId>, m1: map<MessageId, Message>, m2: map<MessageId, Message>)
    requires forall k :: k in ids ==> (k in m1 <==> k in m2) && (k in m1 ==> m1[k] == m2[k])
    ensures Populate(ids, m1) == Populate(ids, m2)
  {
    if ids != [] {
      PopulateFrame(ids[1..], m1, m2);
    }
  }

  /** Find-or-create keeps the store well formed: a conversation is only
      added for a pair no conversation covers. */
  lemma FindOrCreatePreservesWf(st: Store, a: UserId, b: UserId, now: Millis)
    requires Wf(st)
    ensures Wf(FindOrCreate(st, a, b, now).0)
  {
    if FindThread(st.conversations, a, b).None? {
      ThreadsUniqueAppend(st.conversations, NewConversation(st.nextId, [a, b], now), a, b);
    }
  }

  /** Creating and linking a message keeps the store well formed: the new
      id is fresh and names the stored record it is listed for. */
  lemma AppendPreservesWf(st: Store, i: nat, sender: UserId, receiver: UserId, text: string,
                          mediaUrl: Option<string>, fault: Fault, now: Millis)
    requires i < |st.conversations|
    requires Wf(st)
    ensures Wf(Append(st, i, sender, receiver, text, mediaUrl, fault, now).0)
  {
    var r := Append(st, i, sender, receiver, text, mediaUrl, fault, now).0;
    ThreadsUniqueParticipantsOnly(st.conversations, r.conversations);
    if fault != MessageCreateFails {
      assert r.nextId == st.nextId + 1;
      assert IdsBelow(r);
      assert MessagesKeyed(r);
      if fault == ConversationSaveFails {
        assert r.conversations == st.conversations;
      } else {
        forall j, k | 0 <= j < |r.conversations| && k in r.conversations[j].messages
          ensures k in r.messages
        {
          if j != i {
            assert r.conversations[j] == st.conversations[j];
          }
        }
      }
      assert ThreadsLinked(r);
      assert r.users == st.users;
    }
  }

  /** A send keeps the store well formed. */
  lemma SendPreservesWf(st: Store, sender: UserId, receiver: UserId, text: string,
                        mediaUrl: Option<string>, fault: Fault, sockets: Sockets, now: Millis)
    requires Wf(st)
    ensures Wf(Send(st, sender, receiver, text, mediaUrl, fault, sockets, now).store)
  {
    PersistPreservesWf(st, sender, receiver, text, mediaUrl, fault, now);
  }

  lemma PersistPreservesWf(st: Store, sender: UserId, receiver: UserId, text: string,
                           mediaUrl: Option<string>, fault: Fault, now: Millis)
    requires Wf(st)
    ensures Wf(Persist(st, sender, receiver, text, mediaUrl, fault, now).0)
  {
    if !(fault == LookupFails || (Creates(st, sender, receiver, fault) && fault == ConversationCreateFails)) {
      var (st1, i) := FindOrCreate(st, sender, receiver, now);
      FindOrCreatePreservesWf(st, sender, receiver, now);
      AppendPreservesWf(st1, i, sender, receiver, text, mediaUrl, fault, now);
    }
  }

  /** The pair's conversation is the same whichever side asks. */
  lemma ThreadMessagesSymmetric(st: Store, a: UserId, b: UserId)
    ensures ThreadMessages(st, a, b) == ThreadMessages(st, b, a)
  {
    FindThreadSymmetric(st.conversations, a, b);
  }

  /** In a well-formed store every listed id names a stored message. */
  lemma ThreadMessagesStored(st: Store, a: UserId, b: UserId)
    requires Wf(st)
    ensures forall k :: k in ThreadMessages(st, a, b) ==> k in st.messages && k < st.nextId
  {
    var found := FindThread(st.conversations, a, b);
    if found.Some? {
      assert forall k :: k in st.conversations[found.value].messages ==> k in st.messages;
    }
  }

  lemma PopulateExtend(before: seq<MessageId>, m: Message,
                       m1: map<MessageId, Message>, m2: map<MessageId, Message>)
    requires forall k :: k in before ==> k in m1 && k in m2 && m1[k] == m2[k]
    requires m.id in m2 && m2[m.id] == m
    ensures Populate(before + [m.id], m2) == Populate(before, m1) + [m]
  {
    PopulateConcat(before, [m.id], m2);
    PopulateFrame(before, m1, m2);
  }

  /** After a successful send, each side's `getMessages` answers what it
      answered before, followed by the new message. */
  lemma SendThenGetMessages(st: Store, sender: UserId, receiver: UserId, text: string,
                            mediaUrl: Option<string>, sockets: Sockets, now: Millis)
    requires Wf(st)
    ensures var r := Send(st, sender, receiver, text, mediaUrl, NoFault, sockets, now);
      && r.status == Http(201)
      && GetMessages(r.store, sender, receiver, false).body.value
         == GetMessages(st, sender, receiver, false).body.value + [r.body.value]
      && GetMessages(r.store, receiver, sender, false).body.value
         == GetMessages(st, receiver, sender, false).body.value + [r.body.value]
  {
    var r := Send(st, sender, receiver, text, mediaUrl, NoFault, sockets, now);
    var m := r.body.value;
    var before := ThreadMessages(st, sender, receiver);
    var after := ThreadMessages(r.store, sender, receiver);
    assert after == before + [m.id];
    ThreadMessagesStored(st, sender, receiver);
    assert forall k :: k in before ==> k in r.store.messages && r.store.messages[k] == st.messages[k];
    PopulateExtend(before, m, st.messages, r.store.messages);
    ThreadMessagesSymmetric(st, sender, receiver);
    ThreadMessagesSymmetric(r.store, sender, receiver);
    assert GetMessages(r.store, sender, receiver, false).body.value == Populate(after, r.store.messages);
    assert GetMessages(r.store, receiver, sender, false).body.value == Populate(after, r.store.messages);
    assert GetMessages(st, sender, receiver, false).body.value == Populate(before, st.messages);
    assert GetMessages(st, receiver, sender, false).body.value == Populate(before, st.messages);
  }

  /** Sequential sends: once a send has looked up or created the pair's
      conversation, a later send between the same two users, in either
      direction, adds no conversation. */
  lemma SecondSendCreatesNothing(st: Store, a: UserId, b: UserId, t1: string, t2: string,
                                 u1: Option<string>, u2: Option<string>, f1: Fault, f2: Fault,
                                 sockets: Sockets, now1: Millis, now2: Millis)
    requires f1 !in {LookupFails, ConversationCreateFails}
    ensures var st1 := Send(st, a, b, t1, u1, f1, sockets, now1).store;
      && |Send(st1, a, b, t2, u2, f2, sockets, now2).store.conversations| == |st1.conversations|
      && |Send(st1, b, a, t2, u2, f2, sockets, now2).store.conversations| == |st1.conversations|
  {
    var st1 := Send(st, a, b, t1, u1, f1, sockets, now1).store;
    FindThreadSymmetric(st1.conversations, a, b);
  }

  /** Sending to oneself: `$all` with the same id twice matches the first
      conversation the user is in, whoever else is in it, so the message is
      filed there and no conversation is created. */
  lemma SelfSendUsesFirstConversation(st: Store, a: UserId, i: nat, text: string,
                                      mediaUrl: Option<string>, sockets: Sockets, now: Millis)
    requires i < |st.conversations| && a in st.conversations[i].participants
    requires forall j :: 0 <= j < i ==> a !in st.conversations[j].participants
    ensures var r := Send(st, a, a, text, mediaUrl, NoFault, sockets, now);
      && r.status == Http(201)
      && r.body.value.conversationId == st.conversations[i].id
      && |r.store.conversations| == |st.conversations|
  {
    FindThreadSelf(st.conversations, a, i);
    var (st2, m) := Persist(st, a, a, text, mediaUrl, NoFault, now);
    FindThreadParticipantsOnly(st.conversations, st2.conversations, a, a);
  }

  /** A failed conversation save leaves the new message stored but listed
      by no conversation: the two writes are not atomic. */
  lemma ConversationSaveFailureOrphansMessage(st: Store, sender: UserId, receiver: UserId, text: string,
                                              mediaUrl: Option<string>, sockets: Sockets, now: Millis)
    requires Wf(st)
    ensures var r := Send(st, sender, receiver, text, mediaUrl, ConversationSaveFails, sockets, now);
      && r.status == Http(500) && r.events == []
      && |r.store.messages| == |st.messages| + 1
      && exists id :: id in r.store.messages && id !in st.messages &&
           forall j :: 0 <= j < |r.store.conversations| ==> id !in r.store.conversations[j].messages
  {
    var r := Send(st, sender, receiver, text, mediaUrl, ConversationSaveFails, sockets, now);
    var (st1, i) := FindOrCreate(st, sender, receiver, now);
    var id := st1.nextId;
    assert id !in st.messages;
    assert r.store.messages == st1.messages[id := r.store.messages[id]];
    assert r.store.conversations == st1.conversations;
    assert forall j :: 0 <= j < |st1.conversations| ==> id !in st1.conversations[j].messages;
  }
}
