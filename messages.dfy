/**
 * The message store: the append-only message log and `createMessage`, which
 * guards on membership, appends the message, upserts the conversation's meta
 * row and appends one `chat.message.created` outbox event.
 */
module Messages {
  import opened Base
  import Conversations
  import Outbox

  datatype Message = Message(id: string, conversationId: string, senderId: string, content: string, createdAt: int)

  const MessageCreated := "chat.message.created"
  const NotInConversation := Plain("not_in_conversation")

  /** The payload `{messageId, conversationId, senderId}` of the created event. */
  function CreatedPayload(m: Message): (p: Outbox.Payload)
    ensures p.Keys == {"messageId", "conversationId", "senderId"}
    ensures p["messageId"] == m.id && p["conversationId"] == m.conversationId && p["senderId"] == m.senderId
  {
    map["messageId" := m.id, "conversationId" := m.conversationId, "senderId" := m.senderId]
  }

  function MessageIds(ms: seq<Message>): set<string>
  {
    set m | m in ms :: m.id
  }

  ghost predicate UniqueMessageIds(ms: seq<Message>)
  {
    forall i, j :: 0 <= i < j < |ms| ==> ms[i].id != ms[j].id
  }

  /** The message with the given id, if the log holds one. */
  function Lookup(ms: seq<Message>, id: string): (r: Option<Message>)
    ensures r.Some? <==> id in MessageIds(ms)
    ensures r.Some? ==> r.value in ms && r.value.id == id
  {
    if ms == [] then None
    else if ms[0].id == id then Some(ms[0])
    else
      assert MessageIds(ms) == {ms[0].id} + MessageIds(ms[1..]);
      Lookup(ms[1..], id)
  }

  class MessageLog {
    var messages: seq<Message>

    ghost predicate Valid()
      reads this
    {
      UniqueMessageIds(messages)
    }

    constructor ()
      ensures Valid() && messages == []
    {
      messages := [];
    }

    /** `findUnique` by id: the one message with that id, or none. */
    function FindMessage(id: string): (r: Option<Message>)
      reads this
      ensures r.Some? <==> id in MessageIds(messages)
      ensures r.Some? ==> r.value in messages && r.value.id == id
    {
      Lookup(messages, id)
    }
  }

  /**
   * Guard, then the three writes. A sender who is not a participant gets
   * `not_in_conversation` and nothing is written; otherwise exactly one
   * message is appended and returned, the conversation's meta row now names
   * it (created or overwritten), and exactly one outbox event is appended.
   * `messageId`, `eventId` and `now` are assigned by the store.
   */
  method CreateMessage(dir: Conversations.Directory, log: MessageLog, outbox: Outbox.OutboxLog,
                       conversationId: string, senderId: string, content: string,
                       messageId: string, eventId: string, now: int)
    returns (r: Result<Message, Error>)
    requires dir.Valid() && log.Valid() && outbox.Valid()
    requires messageId !in MessageIds(log.messages)
    requires eventId !in Outbox.EventIds(outbox.events)
    modifies dir`meta, log, outbox
    ensures dir.Valid() && log.Valid() && outbox.Valid()
    ensures r.Failure? <==> !old(dir.IsParticipant(senderId, conversationId))
    ensures r.Failure? ==>
              && r.error == NotInConversation
              && log.messages == old(log.messages)
              && dir.meta == old(dir.meta)
              && outbox.events == old(outbox.events)
    ensures r.Success? ==>
              && r.value == Message(messageId, conversationId, senderId, content, now)
              && log.messages == old(log.messages) + [r.value]
              && dir.meta == old(dir.meta)[conversationId := Conversations.Meta(now, messageId)]
              && outbox.events ==
                   old(outbox.events) + [Outbox.Queued(eventId, MessageCreated, CreatedPayload(r.value), None, now)]
  {
    if !dir.IsParticipant(senderId, conversationId) {
      return Failure(NotInConversation);
    }
    var msg := Message(messageId, conversationId, senderId, content, now);
    log.messages := log.messages + [msg];
    // upsert: the create and the update branch write the same two fields
    dir.meta := dir.meta[conversationId := Conversations.Meta(msg.createdAt, msg.id)];
    outbox.ProduceOutbox(MessageCreated, CreatedPayload(msg), None, eventId, now);
    r := Success(msg);
  }

  /** The most recently appended message of conversation `c`, if any. */
  function LastIn(ms: seq<Message>, c: string): Option<Message>
  {
    if ms == [] then None
    else if ms[|ms| - 1].conversationId == c then Some(ms[|ms| - 1])
    else LastIn(ms[..|ms| - 1], c)
  }

  /** Every conversation with messages has a meta row naming its latest one. */
  ghost predicate MetaTracksLog(meta: map<string, Conversations.Meta>, ms: seq<Message>)
  {
    forall c :: LastIn(ms, c).Some? ==>
      c in meta && meta[c] == Conversations.Meta(LastIn(ms, c).value.createdAt, LastIn(ms, c).value.id)
  }

  /** The writes of a successful `CreateMessage` keep the meta rows in step with the log. */
  lemma {:induction false} CreateMessageKeepsMetaInStep(meta: map<string, Conversations.Meta>, ms: seq<Message>, m: Message)
    requires MetaTracksLog(meta, ms)
    ensures MetaTracksLog(meta[m.conversationId := Conversations.Meta(m.createdAt, m.id)], ms + [m])
  {
    var ms' := ms + [m];
    assert ms'[..|ms'| - 1] == ms;
    forall c ensures LastIn(ms', c) == if c == m.conversationId then Some(m) else LastIn(ms, c) {
    }
  }

  /**
   * Creating a conversation that has no messages yet keeps the meta rows in
   * step with the log, whether or not its meta row already existed.
   */
  lemma {:induction false} CreateConversationKeepsMetaInStep(meta: map<string, Conversations.Meta>, ms: seq<Message>,
                                                             id: string, createdAt: int)
    requires MetaTracksLog(meta, ms)
    requires LastIn(ms, id).None?
    ensures MetaTracksLog(if id in meta then meta else meta[id := Conversations.Meta(createdAt, "")], ms)
  {
  }
}
