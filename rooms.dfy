/**
 * The realtime gateway's room registry: room names, one connection's room
 * set (auto-join at connect, join and leave on demand) and the targets of
 * the typing and presence broadcasts.
 */
module Rooms {
  import opened Base
  import Conversations

  /** `roomOf`: the room of a conversation, which decodes back to it and to no user. */
  function RoomOf(conversationId: string): (r: string)
    ensures ConversationOfRoom(r) == Some(conversationId) && UserOfRoom(r) == None
  {
    var r := "conv:" + conversationId;
    assert r[..5] == "conv:" && r[5..] == conversationId;
    r
  }

  /** `userRoom`: the personal room of a user, which decodes back to it and to no conversation. */
  function UserRoom(userId: string): (r: string)
    ensures UserOfRoom(r) == Some(userId) && ConversationOfRoom(r) == None
  {
    var r := "user:" + userId;
    assert r[..5] == "user:" && r[5..] == userId;
    r
  }

  /** The conversation a room is for, if it is a conversation room. */
  function ConversationOfRoom(room: string): Option<string>
  {
    if |room| >= 5 && room[..5] == "conv:" then Some(room[5..]) else None
  }

  /** The user a room is for, if it is a personal room. */
  function UserOfRoom(room: string): Option<string>
  {
    if |room| >= 5 && room[..5] == "user:" then Some(room[5..]) else None
  }

  /** Both naming functions are injective, and their ranges are disjoint. */
  lemma {:induction false} RoomNamesInjective(a: string, b: string)
    ensures RoomOf(a) == RoomOf(b) ==> a == b
    ensures UserRoom(a) == UserRoom(b) ==> a == b
    ensures RoomOf(a) != UserRoom(b)
  {
    assert ConversationOfRoom(RoomOf(a)) == Some(a) && ConversationOfRoom(RoomOf(b)) == Some(b);
    assert UserOfRoom(UserRoom(a)) == Some(a) && UserOfRoom(UserRoom(b)) == Some(b);
  }

  /** A value as JavaScript's `!!` sees it. */
  datatype Value = Undefined | Null | Bool(b: bool) | Number(n: int) | Text(s: string) | Object

  predicate Truthy(v: Value)
  {
    match v
    case Undefined => false
    case Null => false
    case Bool(b) => b
    case Number(n) => n != 0
    case Text(s) => s != ""
    case Object => true
  }

  datatype WireEvent =
    | Typing(userId: string, isTyping: bool)
    | Presence(userId: string, online: bool)
    | ReceiptNew(messageId: string, readerId: string, readAt: int)

  /** Who a broadcast reaches: a set of rooms, or every connected socket. */
  datatype Target = Everyone | InRooms(rooms: set<string>)

  /** A broadcast: its target, the socket it skips (`socket.to`), and the event. */
  datatype Emit = Emit(target: Target, except: Option<string>, event: WireEvent)

  /** `io.to([...rooms])`: an empty room list selects no room, so the emit goes to everyone. */
  function ToRooms(rooms: set<string>): (t: Target)
    ensures rooms != {} ==> t == InRooms(rooms)
    ensures rooms == {} ==> t == Everyone
  {
    if rooms == {} then Everyone else InRooms(rooms)
  }

  function RoomsOf(conversationIds: seq<string>): set<string>
  {
    set c | c in conversationIds :: RoomOf(c)
  }

  /** The room set after `conversation:join`. */
  function AfterJoin(rooms: set<string>, conversationId: string): (r: set<string>)
    ensures conversationId != "" ==> RoomOf(conversationId) in r
    ensures forall x :: x != RoomOf(conversationId) ==> (x in r <==> x in rooms)
    ensures conversationId == "" ==> r == rooms
  {
    if conversationId == "" then rooms else rooms + {RoomOf(conversationId)}
  }

  /** The room set after `conversation:leave`. */
  function AfterLeave(rooms: set<string>, conversationId: string): (r: set<string>)
    ensures conversationId != "" ==> RoomOf(conversationId) !in r
    ensures forall x :: x != RoomOf(conversationId) ==> (x in r <==> x in rooms)
    ensures conversationId == "" ==> r == rooms
  {
    if conversationId == "" then rooms else rooms - {RoomOf(conversationId)}
  }

  /** Joining or leaving twice is the same as doing it once. */
  lemma JoinLeaveIdempotent(rooms: set<string>, c: string)
    ensures AfterJoin(AfterJoin(rooms, c), c) == AfterJoin(rooms, c)
    ensures AfterLeave(AfterLeave(rooms, c), c) == AfterLeave(rooms, c)
  {
  }

  /**
   * The rooms auto-joined at connect are exactly the rooms of the
   * conversations the user has a participant row for.
   */
  lemma {:induction false} AutoJoinMatchesMembership(rows: seq<Conversations.Participant>, u: string, c: string)
    ensures RoomOf(c) in RoomsOf(Conversations.ConversationIdsOf(rows, u)) <==> Conversations.Participant(c, u) in rows
  {
    var ids := Conversations.ConversationIdsOf(rows, u);
    if RoomOf(c) in RoomsOf(ids) {
      var c' :| c' in ids && RoomOf(c') == RoomOf(c);
      RoomNamesInjective(c', c);
    }
  }

  /** What Socket.IO does to a closing socket before it emits `disconnect`: it leaves every room. */
  function LeaveAll(rooms: set<string>): (r: set<string>)
    ensures r == {}
  {
    rooms - rooms
  }

  /**
   * The offline notice as written: the rooms a connection held are first
   * left by Socket.IO, then the `disconnect` handler reads the rooms left.
   */
  function OfflineAsWritten(held: set<string>, userId: string): (e: Emit)
    ensures e.target == Everyone
    ensures e.except == None && e.event == Presence(userId, false)
  {
    Emit(ToRooms(LeaveAll(held)), None, Presence(userId, false))
  }

  /** The offline notice for the rooms the connection held when it started to close. */
  function OfflinePresence(rooms: set<string>, userId: string): (e: Emit)
    ensures rooms != {} ==> e.target == InRooms(rooms)
    ensures e.except == None && e.event == Presence(userId, false)
  {
    Emit(ToRooms(rooms), None, Presence(userId, false))
  }

  /**
   * Whatever rooms the connection was in, the offline notice as written
   * does not go to those rooms: it goes to every connected socket.
   */
  lemma OfflineAsWrittenMissesRooms(rooms: set<string>, userId: string)
    requires rooms != {}
    ensures OfflineAsWritten(rooms, userId).target == Everyone
    ensures OfflineAsWritten(rooms, userId) != OfflinePresence(rooms, userId)
  {
  }

  /**
   * With the membership query's answer, the connect handler leaves the
   * socket in the room of exactly the user's conversations, besides the
   * rooms it already held and its personal room.
   */
  lemma {:induction false} AutoJoinedRooms(held: set<string>, rows: seq<Conversations.Participant>, u: string, c: string)
    ensures RoomOf(c) in held + RoomsOf(Conversations.ConversationIdsOf(rows, u)) + {UserRoom(u)} <==>
            RoomOf(c) in held || Conversations.Participant(c, u) in rows
  {
    AutoJoinMatchesMembership(rows, u, c);
    RoomNamesInjective(c, u);
  }

  /** One live socket of user `userId`. */
  class Connection {
    const socketId: string
    const userId: string
    var rooms: set<string>

    /** A socket always sits in the room named by its own id. */
    ghost predicate Valid()
      reads this
    {
      socketId in rooms && ':' !in socketId
    }

    /** Socket.IO's ids never contain ':', so no conversation or user room can be one. */
    constructor (socketId: string, userId: string)
      requires ':' !in socketId
      ensures Valid()
      ensures this.socketId == socketId && this.userId == userId && rooms == {socketId}
    {
      this.socketId, this.userId := socketId, userId;
      rooms := {socketId};
    }

    /**
     * The connection handler: join the room of every conversation the
     * membership query returned, then the personal room, then announce
     * presence to all held rooms. A failed query (`None`) is logged and
     * joins nothing.
     */
    method OnConnection(lookup: Option<seq<string>>) returns (presence: Emit)
      requires Valid()
      modifies this
      ensures Valid()
      ensures lookup.Some? ==> rooms == old(rooms) + RoomsOf(lookup.value) + {UserRoom(userId)}
      ensures lookup.None? ==> rooms == old(rooms)
      ensures presence == Emit(InRooms(rooms), None, Presence(userId, true))
    {
      if lookup.Some? {
        var ids := lookup.value;
        for i := 0 to |ids|
          invariant rooms == old(rooms) + RoomsOf(ids[..i])
        {
          assert ids[..i + 1] == ids[..i] + [ids[i]];
          assert RoomsOf(ids[..i + 1]) == RoomsOf(ids[..i]) + {RoomOf(ids[i])};
          rooms := rooms + {RoomOf(ids[i])};
        }
        assert ids[..|ids|] == ids;
        rooms := rooms + {UserRoom(userId)};
      }
      presence := Emit(ToRooms(rooms), None, Presence(userId, true));
    }

    method JoinConversation(conversationId: string)
      requires Valid()
      modifies this
      ensures Valid()
      ensures rooms == AfterJoin(old(rooms), conversationId)
    {
      if conversationId == "" {
        return;
      }
      rooms := rooms + {RoomOf(conversationId)};
    }

    method LeaveConversation(conversationId: string)
      requires Valid()
      modifies this
      ensures Valid()
      ensures rooms == AfterLeave(old(rooms), conversationId)
    {
      if conversationId == "" {
        return;
      }
      assert RoomOf(conversationId)[4] == ':';
      rooms := rooms - {RoomOf(conversationId)};
    }

    /**
     * The typing indicator: nothing for an empty conversation id, otherwise
     * the conversation's room minus this socket, with `isTyping` coerced to
     * a boolean.
     */
    function TypingBroadcast(conversationId: string, isTyping: Value): (r: Option<Emit>)
      ensures r.None? <==> conversationId == ""
      ensures r.Some? ==> r.value.target == InRooms({RoomOf(conversationId)}) && r.value.except == Some(socketId)
      ensures r.Some? ==> r.value.event == Typing(userId, Truthy(isTyping))
    {
      if conversationId == "" then None
      else Some(Emit(InRooms({RoomOf(conversationId)}), Some(socketId), Typing(userId, Truthy(isTyping))))
    }

    /**
     * Closing as written: Socket.IO leaves every room, then the `disconnect`
     * handler reads the rooms and announces offline presence to them.
     */
    method DisconnectAsWritten() returns (presence: Emit)
      requires Valid()
      modifies this
      ensures rooms == {}
      ensures presence == OfflineAsWritten(old(rooms), userId)
    {
      rooms := LeaveAll(rooms);
      presence := Emit(ToRooms(rooms), None, Presence(userId, false));
    }

    /**
     * Closing the connection: the offline notice goes to exactly the rooms
     * held (taken while closing starts), then every room is left.
     */
    method Disconnect() returns (presence: Emit)
      requires Valid()
      modifies this
      ensures presence == OfflinePresence(old(rooms), userId)
      ensures presence.target == InRooms(old(rooms))
      ensures rooms == {}
    {
      presence := OfflinePresence(rooms, userId);
      rooms := {};
    }
  }
}
