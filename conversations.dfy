/**
 * The conversation directory: conversations, their participant rows and the
 * per-conversation meta row that orders a user's conversation list.
 */
module Conversations {
  import opened Base
  import Sorting

  /** A conversation, optionally linked to a service record. */
  datatype Conversation = Conversation(id: string, serviceId: Option<string>, createdAt: int)

  /** Membership row: the only authorisation predicate of the chat layer. */
  datatype Participant = Participant(conversationId: string, userId: string)

  /** Recency row used to order conversation listings. */
  datatype Meta = Meta(lastMessageAt: int, lastMessageId: string)

  const ParticipantIdsRequired := Plain("participant_ids_required")
  const NotInConversation := Error("not_in_conversation", Some("FORBIDDEN"))
  /** What the store raises when the (conversationId, userId) pair is inserted twice. */
  const ParticipantPairTaken := Error("Unique constraint failed", Some("P2002"))

  function Ids(cs: seq<Conversation>): set<string>
  {
    set c | c in cs :: c.id
  }

  ghost predicate UniqueIds(cs: seq<Conversation>)
  {
    forall i, j :: 0 <= i < j < |cs| ==> cs[i].id != cs[j].id
  }

  predicate NoDuplicates<T(==)>(s: seq<T>)
  {
    forall i, j :: 0 <= i < j < |s| ==> s[i] != s[j]
  }

  /** The link stored for a conversation: an empty service id counts as none. */
  function ServiceLink(serviceId: Option<string>): Option<string>
  {
    if serviceId.Some? && serviceId.value != "" then serviceId else None
  }

  /** The participant rows created for conversation `id`, one per user id, in order. */
  function NewRows(id: string, userIds: seq<string>): (r: seq<Participant>)
    ensures |r| == |userIds|
    ensures forall k :: 0 <= k < |r| ==> r[k] == Participant(id, userIds[k])
  {
    if userIds == [] then [] else [Participant(id, userIds[0])] + NewRows(id, userIds[1..])
  }

  /** The user ids of the rows of conversation `c`, in table order. */
  function UserIdsOf(rows: seq<Participant>, c: string): (r: seq<string>)
    ensures forall u :: u in r <==> Participant(c, u) in rows
    ensures NoDuplicates(rows) ==> NoDuplicates(r)
  {
    if rows == [] then []
    else
      var rest := UserIdsOf(rows[1..], c);
      assert forall u :: Participant(c, u) in rows <==> Participant(c, u) == rows[0] || Participant(c, u) in rows[1..];
      if rows[0].conversationId == c then [rows[0].userId] + rest else rest
  }

  /** The conversation ids of the rows of user `u`, in table order. */
  function ConversationIdsOf(rows: seq<Participant>, u: string): (r: seq<string>)
    ensures forall c :: c in r <==> Participant(c, u) in rows
  {
    if rows == [] then []
    else
      var rest := ConversationIdsOf(rows[1..], u);
      assert forall c :: Participant(c, u) in rows <==> Participant(c, u) == rows[0] || Participant(c, u) in rows[1..];
      if rows[0].userId == u then [rows[0].conversationId] + rest else rest
  }

  /** The conversations `u` participates in, in table order. */
  function ConversationsOfUser(cs: seq<Conversation>, rows: seq<Participant>, u: string): (r: seq<Conversation>)
    ensures forall c :: c in r <==> c in cs && Participant(c.id, u) in rows
  {
    if cs == [] then []
    else
      var rest := ConversationsOfUser(cs[1..], rows, u);
      assert forall c :: c in cs <==> c == cs[0] || c in cs[1..];
      if Participant(cs[0].id, u) in rows then [cs[0]] + rest else rest
  }

  /** `lastMessageAt` of the conversation's meta row, if it has one. */
  function LastMessageAt(meta: map<string, Meta>, c: Conversation): Option<int>
  {
    if c.id in meta then Some(meta[c.id].lastMessageAt) else None
  }

  /**
   * `a` may be listed before `b`: `lastMessageAt` descending, then `createdAt`
   * descending. A conversation without a meta row (a NULL key) is listed
   * first, as PostgreSQL orders NULL under DESC.
   */
  predicate ListedBefore(meta: map<string, Meta>, a: Conversation, b: Conversation)
  {
    match (LastMessageAt(meta, a), LastMessageAt(meta, b))
    case (None, None) => a.createdAt >= b.createdAt
    case (None, Some(_)) => true
    case (Some(_), None) => false
    case (Some(x), Some(y)) => x > y || (x == y && a.createdAt >= b.createdAt)
  }

  function ListingOrder(meta: map<string, Meta>): (Conversation, Conversation) -> bool
  {
    (a: Conversation, b: Conversation) => ListedBefore(meta, a, b)
  }

  lemma ListingOrderIsTotalPreorder(meta: map<string, Meta>)
    ensures Sorting.TotalPreorder(ListingOrder(meta))
  {
  }

  class Directory {
    var conversations: seq<Conversation>
    var participants: seq<Participant>
    var meta: map<string, Meta>

    /**
     * Conversation ids are unique, participant rows are unique pairs that
     * refer to existing conversations, and every conversation has a meta row.
     */
    ghost predicate Valid()
      reads this
    {
      && UniqueIds(conversations)
      && NoDuplicates(participants)
      && (forall p :: p in participants ==> p.conversationId in Ids(conversations))
      && (forall c :: c in conversations ==> c.id in meta)
    }

    constructor ()
      ensures Valid()
      ensures conversations == [] && participants == [] && meta == map[]
    {
      conversations, participants, meta := [], [], map[];
    }

    /**
     * Creates the conversation, one participant row per given user id and,
     * unless one already exists, a meta row with `lastMessageAt = createdAt`
     * and an empty `lastMessageId`. `id` and `createdAt` are assigned by the
     * store.
     */
    method CreateConversation(serviceId: Option<string>, participantIds: Option<seq<string>>,
                              id: string, createdAt: int)
      returns (r: Result<Conversation, Error>)
      requires Valid()
      requires id !in Ids(conversations)
      modifies this
      ensures Valid()
      ensures participantIds.None? || participantIds == Some([]) ==> r == Failure(ParticipantIdsRequired)
      ensures participantIds.Some? && participantIds.value != [] && !NoDuplicates(participantIds.value) ==>
                r == Failure(ParticipantPairTaken)
      ensures r.Failure? ==>
                conversations == old(conversations) && participants == old(participants) && meta == old(meta)
      ensures r.Success? ==>
                && participantIds.Some? && participantIds.value != [] && NoDuplicates(participantIds.value)
                && r.value == Conversation(id, ServiceLink(serviceId), createdAt)
                && conversations == old(conversations) + [r.value]
                && participants == old(participants) + NewRows(id, participantIds.value)
                && meta == if id in old(meta) then old(meta) else old(meta)[id := Meta(createdAt, "")]
    {
      if participantIds.None? || participantIds.value == [] {
        return Failure(ParticipantIdsRequired);
      }
      var ids := participantIds.value;
      if !NoDuplicates(ids) {
        return Failure(ParticipantPairTaken);
      }
      var conversation := Conversation(id, ServiceLink(serviceId), createdAt);
      var rows := NewRows(id, ids);
      forall p | p in participants ensures p !in rows {
        assert p.conversationId in Ids(conversations);
      }
      conversations := conversations + [conversation];
      participants := participants + rows;
      // the meta upsert: create when absent, `update: {}` otherwise
      if id !in meta {
        meta := meta[id := Meta(createdAt, "")];
      }
      r := Success(conversation);
    }

    predicate IsParticipant(userId: string, conversationId: string)
      reads this
    {
      Participant(conversationId, userId) in participants
    }

    /** The membership guard: a function of the tables, so it cannot write. */
    function AssertUserInConversation(userId: string, conversationId: string): (r: Outcome<Error>)
      reads this
      ensures r == Pass <==> Participant(conversationId, userId) in participants
      ensures r != Pass ==> r == Fail(NotInConversation)
    {
      if IsParticipant(userId, conversationId) then Pass else Fail(NotInConversation)
    }

    /** The user ids of exactly the participant rows of the conversation. */
    function GetConversationParticipantIds(conversationId: string): (r: seq<string>)
      reads this
      ensures forall u :: u in r <==> Participant(conversationId, u) in participants
      ensures Valid() ==> NoDuplicates(r)
    {
      UserIdsOf(participants, conversationId)
    }

    /**
     * The conversations `userId` participates in, most recent first:
     * `lastMessageAt` descending, then `createdAt` descending.
     */
    function ListUserConversations(userId: string): (r: seq<Conversation>)
      reads this
      ensures forall c :: c in r <==> c in conversations && Participant(c.id, userId) in participants
      ensures multiset(r) == multiset(ConversationsOfUser(conversations, participants, userId))
      ensures forall i, j :: 0 <= i < j < |r| ==> ListedBefore(meta, r[i], r[j])
    {
      var mine := ConversationsOfUser(conversations, participants, userId);
      ListingOrderIsTotalPreorder(meta);
      Sorting.SortBySorted(mine, ListingOrder(meta));
      var r := Sorting.SortBy(mine, ListingOrder(meta));
      assert forall c :: c in r <==> c in multiset(mine);
      r
    }
  }

  /**
   * In a listing of a valid directory, a conversation with a more recent
   * last message comes first, and equal recency falls back to creation time.
   */
  lemma {:induction false} ListingIsByRecency(d: Directory, userId: string, i: nat, j: nat)
    requires d.Valid()
    requires i < j < |d.ListUserConversations(userId)|
    ensures var r := d.ListUserConversations(userId);
            && r[i].id in d.meta && r[j].id in d.meta
            && d.meta[r[i].id].lastMessageAt >= d.meta[r[j].id].lastMessageAt
            && (d.meta[r[i].id].lastMessageAt == d.meta[r[j].id].lastMessageAt ==> r[i].createdAt >= r[j].createdAt)
  {
    var r := d.ListUserConversations(userId);
    assert r[i] in r && r[j] in r;
    assert ListedBefore(d.meta, r[i], r[j]);
  }

  /**
   * After a conversation is created with distinct participant ids, each given
   * user has exactly one row for it, nobody else has one, and the participant
   * query returns exactly the given ids in the given order.
   */
  lemma {:induction false} CreatedRowsAreExact(rows: seq<Participant>, id: string, userIds: seq<string>)
    requires forall p :: p in rows ==> p.conversationId != id
    requires NoDuplicates(userIds)
    ensures forall u :: multiset(rows + NewRows(id, userIds))[Participant(id, u)] == if u in userIds then 1 else 0
    ensures UserIdsOf(rows + NewRows(id, userIds), id) == userIds
  {
    var added := NewRows(id, userIds);
    forall u ensures multiset(rows + added)[Participant(id, u)] == if u in userIds then 1 else 0 {
      assert multiset(rows)[Participant(id, u)] == 0;
      NewRowsCount(id, userIds, u);
    }
    UserIdsOfAppend(rows, added, id);
    UserIdsOfNew(id, userIds);
  }

  lemma {:induction false} NewRowsCount(id: string, userIds: seq<string>, u: string)
    requires NoDuplicates(userIds)
    ensures multiset(NewRows(id, userIds))[Participant(id, u)] == if u in userIds then 1 else 0
  {
    if userIds != [] {
      var tail := userIds[1..];
      assert NoDuplicates(tail) by {
        forall i, j | 0 <= i < j < |tail| ensures tail[i] != tail[j] {
          assert tail[i] == userIds[i + 1] && tail[j] == userIds[j + 1];
        }
      }
      NewRowsCount(id, tail, u);
      assert multiset(NewRows(id, userIds)) == multiset{Participant(id, userIds[0])} + multiset(NewRows(id, tail));
      assert u in userIds <==> u == userIds[0] || u in tail;
      if u == userIds[0] {
        assert u !in tail;
      }
    }
  }

  lemma {:induction false} UserIdsOfAppend(a: seq<Participant>, b: seq<Participant>, c: string)
    requires forall p :: p in a ==> p.conversationId != c
    ensures UserIdsOf(a + b, c) == UserIdsOf(b, c)
  {
    if a == [] {
      assert a + b == b;
    } else {
      var ab := a + b;
      assert a[0] in a && ab[0] == a[0];
      assert ab[1..] == a[1..] + b;
      assert UserIdsOf(ab, c) == UserIdsOf(ab[1..], c);
      UserIdsOfAppend(a[1..], b, c);
    }
  }

  lemma {:induction false} UserIdsOfNew(id: string, userIds: seq<string>)
    ensures UserIdsOf(NewRows(id, userIds), id) == userIds
  {
    if userIds != [] {
      assert NewRows(id, userIds)[1..] == NewRows(id, userIds[1..]);
      UserIdsOfNew(id, userIds[1..]);
    }
  }
}
