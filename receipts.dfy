/**
 * The receipt tracker: read receipts keyed by (message, user), written by an
 * idempotent upsert from two entry points — the HTTP route, which throws on
 * a bad request, and the `receipt:read` socket event, which drops it.
 */
module Receipts {
  import opened Base
  import Conversations
  import Messages
  import Rooms

  datatype Receipt = Receipt(messageId: string, userId: string, readAt: int)

  const MessageNotFound := Plain("Message not found")
  const ParticipantNotFound := Plain("Participant not found")

  predicate HasKey(r: Receipt, messageId: string, userId: string)
  {
    r.messageId == messageId && r.userId == userId
  }

  /** No two receipts share a (message, user) key. */
  ghost predicate UniqueKeys(rs: seq<Receipt>)
  {
    forall i, j :: 0 <= i < j < |rs| ==> !HasKey(rs[j], rs[i].messageId, rs[i].userId)
  }

  /** Exactly one receipt carries the key. */
  ghost predicate ExactlyOne(rs: seq<Receipt>, messageId: string, userId: string)
  {
    exists i :: 0 <= i < |rs| && HasKey(rs[i], messageId, userId) &&
      forall j :: 0 <= j < |rs| && j != i ==> !HasKey(rs[j], messageId, userId)
  }

  /** The index of the first receipt with the key. */
  function FindKey(rs: seq<Receipt>, messageId: string, userId: string): (r: Option<nat>)
    ensures r.Some? ==> r.value < |rs| && HasKey(rs[r.value], messageId, userId)
    ensures r.Some? ==> forall j :: 0 <= j < r.value ==> !HasKey(rs[j], messageId, userId)
    ensures r.None? ==> forall j :: 0 <= j < |rs| ==> !HasKey(rs[j], messageId, userId)
  {
    if rs == [] then None
    else if HasKey(rs[0], messageId, userId) then Some(0)
    else match FindKey(rs[1..], messageId, userId)
      case None => None
      case Some(k) => Some(k + 1)
  }

  /**
   * The receipt upsert: overwrite `readAt` of the receipt with the key, or
   * append a new one. The created row's `readAt` is the table default, the
   * time of the write, so both branches record `now`.
   */
  function Upsert(rs: seq<Receipt>, messageId: string, userId: string, now: int): (r: seq<Receipt>)
    ensures Receipt(messageId, userId, now) in r
    ensures |r| == |rs| + (if FindKey(rs, messageId, userId).None? then 1 else 0)
    ensures forall x :: !HasKey(x, messageId, userId) ==> (x in r <==> x in rs)
  {
    match FindKey(rs, messageId, userId)
    case Some(k) =>
      ReplaceKeyed(rs, k, Receipt(messageId, userId, now));
      assert rs[k := Receipt(messageId, userId, now)][k] == Receipt(messageId, userId, now);
      rs[k := Receipt(messageId, userId, now)]
    case None =>
      assert (rs + [Receipt(messageId, userId, now)])[|rs|] == Receipt(messageId, userId, now);
      rs + [Receipt(messageId, userId, now)]
  }

  /** Overwriting the receipt at `k` with one of the same key leaves the receipts of other keys alone. */
  lemma {:induction false} ReplaceKeyed(rs: seq<Receipt>, k: nat, n: Receipt)
    requires k < |rs| && HasKey(rs[k], n.messageId, n.userId)
    ensures forall x :: !HasKey(x, n.messageId, n.userId) ==> (x in rs[k := n] <==> x in rs)
  {
    var r := rs[k := n];
    forall x | !HasKey(x, n.messageId, n.userId) ensures x in r <==> x in rs {
      if x in rs {
        var j :| 0 <= j < |rs| && rs[j] == x;
        assert j != k && r[j] == x;
      }
      if x in r {
        var j :| 0 <= j < |r| && r[j] == x;
        assert j != k && rs[j] == x;
      }
    }
  }

  /**
   * After the upsert there is exactly one receipt for the pair and it reads
   * `now`; receipts of every other pair are exactly those before.
   */
  lemma {:induction false} UpsertEffect(rs: seq<Receipt>, messageId: string, userId: string, now: int)
    requires UniqueKeys(rs)
    ensures var r := Upsert(rs, messageId, userId, now);
            && UniqueKeys(r)
            && ExactlyOne(r, messageId, userId)
            && Receipt(messageId, userId, now) in r
            && |r| == |rs| + (if FindKey(rs, messageId, userId).None? then 1 else 0)
            && forall x :: !HasKey(x, messageId, userId) ==> (x in r <==> x in rs)
  {
    match FindKey(rs, messageId, userId)
    case Some(k) => OverwriteEffect(rs, messageId, userId, now, k);
    case None => AppendEffect(rs, messageId, userId, now);
  }

  lemma {:induction false} OverwriteEffect(rs: seq<Receipt>, messageId: string, userId: string, now: int, k: nat)
    requires UniqueKeys(rs)
    requires k < |rs| && HasKey(rs[k], messageId, userId)
    ensures var r := rs[k := Receipt(messageId, userId, now)];
            && UniqueKeys(r)
            && ExactlyOne(r, messageId, userId)
            && forall x :: !HasKey(x, messageId, userId) ==> (x in r <==> x in rs)
  {
    var r := rs[k := Receipt(messageId, userId, now)];
    assert forall j :: 0 <= j < |r| ==> HasKey(r[j], rs[j].messageId, rs[j].userId) && HasKey(rs[j], r[j].messageId, r[j].userId);
    forall j | 0 <= j < |r| && j != k ensures !HasKey(r[j], messageId, userId) {
      if j < k {
        assert !HasKey(rs[k], rs[j].messageId, rs[j].userId);
      } else {
        assert !HasKey(rs[j], rs[k].messageId, rs[k].userId);
      }
    }
    assert HasKey(r[k], messageId, userId);
    forall x | !HasKey(x, messageId, userId) ensures x in r <==> x in rs {
      if x in rs {
        var j :| 0 <= j < |rs| && rs[j] == x;
        assert j != k && r[j] == x;
      }
      if x in r {
        var j :| 0 <= j < |r| && r[j] == x;
        assert j != k && rs[j] == x;
      }
    }
  }

  lemma {:induction false} AppendEffect(rs: seq<Receipt>, messageId: string, userId: string, now: int)
    requires UniqueKeys(rs)
    requires forall j :: 0 <= j < |rs| ==> !HasKey(rs[j], messageId, userId)
    ensures var r := rs + [Receipt(messageId, userId, now)];
            && UniqueKeys(r)
            && ExactlyOne(r, messageId, userId)
            && forall x :: !HasKey(x, messageId, userId) ==> (x in r <==> x in rs)
  {
    var n := |rs|;
    var r := rs + [Receipt(messageId, userId, now)];
    assert HasKey(r[n], messageId, userId);
    forall i, j | 0 <= i < j < |r| ensures !HasKey(r[j], r[i].messageId, r[i].userId) {
      assert r[i] == rs[i];
      if j < n {
        assert r[j] == rs[j];
      }
    }
    assert forall j :: 0 <= j < |r| && j != n ==> !HasKey(r[j], messageId, userId);
    forall x | !HasKey(x, messageId, userId) ensures x in r <==> x in rs {
      assert x in r <==> x in rs || x == r[n];
    }
  }

  /** Marking read twice leaves what marking read once at the later time leaves. */
  lemma {:induction false} UpsertIdempotent(rs: seq<Receipt>, messageId: string, userId: string, t1: int, t2: int)
    ensures Upsert(Upsert(rs, messageId, userId, t1), messageId, userId, t2) == Upsert(rs, messageId, userId, t2)
  {
    var once := Upsert(rs, messageId, userId, t1);
    match FindKey(rs, messageId, userId)
    case Some(k) =>
      assert forall j :: 0 <= j < k ==> once[j] == rs[j];
      assert FindKey(once, messageId, userId) == Some(k) by {
        FindKeyFirst(once, messageId, userId, k);
      }
    case None =>
      assert forall j :: 0 <= j < |rs| ==> once[j] == rs[j];
      assert FindKey(once, messageId, userId) == Some(|rs|) by {
        FindKeyFirst(once, messageId, userId, |rs|);
      }
      assert once[|rs| := Receipt(messageId, userId, t2)] == rs + [Receipt(messageId, userId, t2)];
  }

  lemma {:induction false} FindKeyFirst(rs: seq<Receipt>, messageId: string, userId: string, k: nat)
    requires k < |rs| && HasKey(rs[k], messageId, userId)
    requires forall j :: 0 <= j < k ==> !HasKey(rs[j], messageId, userId)
    ensures FindKey(rs, messageId, userId) == Some(k)
  {
    match FindKey(rs, messageId, userId)
    case None =>
    case Some(i) =>
  }

  /**
   * The lookups both entry points make: the message, then the reader's
   * participation in its conversation.
   */
  function ReadAccess(messages: seq<Messages.Message>, participants: seq<Conversations.Participant>,
                      userId: string, messageId: string): (r: Result<Messages.Message, Error>)
    ensures r.Success? <==>
              (&& messageId in Messages.MessageIds(messages)
               && Conversations.Participant(Messages.Lookup(messages, messageId).value.conversationId, userId) in participants)
    ensures r.Success? ==> r.value in messages && r.value.id == messageId
    ensures messageId !in Messages.MessageIds(messages) ==> r == Failure(MessageNotFound)
    ensures r.Failure? && messageId in Messages.MessageIds(messages) ==> r == Failure(ParticipantNotFound)
  {
    match Messages.Lookup(messages, messageId)
    case None => Failure(MessageNotFound)
    case Some(msg) =>
      if Conversations.Participant(msg.conversationId, userId) in participants then Success(msg)
      else Failure(ParticipantNotFound)
  }

  class ReceiptTable {
    var receipts: seq<Receipt>

    ghost predicate Valid()
      reads this
    {
      UniqueKeys(receipts)
    }

    constructor ()
      ensures Valid() && receipts == []
    {
      receipts := [];
    }

    method UpsertReceipt(messageId: string, userId: string, now: int) returns (receipt: Receipt)
      requires Valid()
      modifies this
      ensures Valid()
      ensures receipts == Upsert(old(receipts), messageId, userId, now)
      ensures receipt == Receipt(messageId, userId, now)
    {
      UpsertEffect(receipts, messageId, userId, now);
      receipts := Upsert(receipts, messageId, userId, now);
      receipt := Receipt(messageId, userId, now);
    }
  }

  /**
   * `POST /receipts`: throws `Message not found` or `Participant not found`
   * without writing; otherwise upserts the receipt, broadcasts `receipt:new`
   * to the whole conversation room and replies `{ok: true}` (the `Success`).
   */
  method MarkReadHttp(log: Messages.MessageLog, dir: Conversations.Directory, table: ReceiptTable,
                      userId: string, messageId: string, now: int)
    returns (r: Result<Rooms.Emit, Error>)
    requires table.Valid()
    modifies table
    ensures table.Valid()
    ensures messageId !in Messages.MessageIds(log.messages) ==> r == Failure(MessageNotFound)
    ensures r.Failure? <==> ReadAccess(log.messages, dir.participants, userId, messageId).Failure?
    ensures r.Failure? ==> r.error == ReadAccess(log.messages, dir.participants, userId, messageId).error
    ensures r.Failure? ==> table.receipts == old(table.receipts)
    ensures r.Success? ==>
              var msg := ReadAccess(log.messages, dir.participants, userId, messageId).value;
              && table.receipts == Upsert(old(table.receipts), messageId, userId, now)
              && r.value == Rooms.Emit(Rooms.InRooms({Rooms.RoomOf(msg.conversationId)}), None,
                                       Rooms.ReceiptNew(messageId, userId, now))
  {
    var access := ReadAccess(log.messages, dir.participants, userId, messageId);
    if access.Failure? {
      return Failure(access.error);
    }
    var msg := access.value;
    var receipt := table.UpsertReceipt(msg.id, userId, now);
    r := Success(Rooms.Emit(Rooms.InRooms({Rooms.RoomOf(msg.conversationId)}), None,
                            Rooms.ReceiptNew(msg.id, userId, receipt.readAt)));
  }

  /**
   * `receipt:read` on socket `socketId`: a missing message or a reader who
   * is not a participant is dropped silently; otherwise the receipt is
   * upserted and `receipt:new` goes to the room, except this socket.
   */
  method MarkReadSocket(log: Messages.MessageLog, dir: Conversations.Directory, table: ReceiptTable,
                        socketId: string, userId: string, messageId: string, now: int)
    returns (r: Option<Rooms.Emit>)
    requires table.Valid()
    modifies table
    ensures table.Valid()
    ensures r.None? <==> ReadAccess(log.messages, dir.participants, userId, messageId).Failure?
    ensures r.None? ==> table.receipts == old(table.receipts)
    ensures r.Some? ==>
              var msg := ReadAccess(log.messages, dir.participants, userId, messageId).value;
              && table.receipts == Upsert(old(table.receipts), messageId, userId, now)
              && r.value == Rooms.Emit(Rooms.InRooms({Rooms.RoomOf(msg.conversationId)}), Some(socketId),
                                       Rooms.ReceiptNew(messageId, userId, now))
  {
    var access := ReadAccess(log.messages, dir.participants, userId, messageId);
    if access.Failure? {
      return None;
    }
    var msg := access.value;
    var receipt := table.UpsertReceipt(messageId, userId, now);
    r := Some(Rooms.Emit(Rooms.InRooms({Rooms.RoomOf(msg.conversationId)}), Some(socketId),
                         Rooms.ReceiptNew(messageId, userId, receipt.readAt)));
  }
}
