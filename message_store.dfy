/**
 * The `chat_messages` and `message_read_receipts` tables, shared by the socket handlers, the
 * bot helpers and the history queries, and the socket form of a message (`message:new`).
 */
module MessageStore {
  import opened Wrappers
  import opened Membership
  import Ordering

  /** Message ids are serial in this model. */
  type MessageId = nat

  /** The content a soft-deleted message is overwritten with. */
  const TOMBSTONE := "[Message deleted]"

  /** A `chat_messages` row. `content` is whatever the client sent, so it may be absent. */
  datatype ChatMessage = ChatMessage(
    id: MessageId,
    groupId: GroupId,
    senderId: UserId,
    messageType: string,
    content: Option<string>,
    mediaUrl: Option<string>,
    replyToId: Option<MessageId>,
    isEdited: bool,
    isDeleted: bool,
    createdAt: int,
    updatedAt: int)

  /** The order of `ORDER BY created_at`; rows created at the same instant are taken in id
      order. */
  function MessageKey(m: ChatMessage): Ordering.Key {
    (m.createdAt, m.id)
  }

  /** `WHERE p ORDER BY created_at DESC LIMIT limit`, then reversed: the `limit` newest rows
      satisfying `p`, oldest first, each once. Every row satisfying `p` that is newer than a
      returned row is returned too, and when fewer than `limit` come back, every row
      satisfying `p` does. */
  function NewestMatching(rows: map<MessageId, ChatMessage>, nextId: MessageId, p: ChatMessage -> bool,
                          limit: nat): (r: seq<ChatMessage>)
    requires forall id :: id in rows ==> id < nextId && rows[id].id == id
    ensures |r| <= limit
    ensures forall m :: m in r ==> m in rows.Values && p(m)
    ensures Ordering.SortedBy(r, MessageKey)
    ensures forall i, j :: 0 <= i < j < |r| ==> r[i].id != r[j].id
    ensures forall x, y :: x in rows.Values && p(x) && y in r
                           && MessageKey(y) != MessageKey(x) && Ordering.KeyLe(MessageKey(y), MessageKey(x))
                           ==> x in r
    ensures |r| < limit ==> forall x :: x in rows.Values && p(x) ==> x in r
  {
    var all := Ordering.Listing(rows, nextId);
    var candidates := Ordering.Filter(all, p);
    var r := Ordering.NewestInOrder(candidates, MessageKey, limit);
    Ordering.ListingHasValues(rows, nextId);
    Ordering.SubMembers(r, candidates);
    assert |r| < limit ==> forall x :: x in candidates ==> x in r by {
      if |r| < limit {
        Ordering.SameMembers(candidates, r);
      }
    }
    EachRowOnce(rows, nextId, all, candidates, r);
    r
  }

  /** A page drawn from the listing of the table holds each message id at most once. */
  lemma EachRowOnce(rows: map<MessageId, ChatMessage>, nextId: MessageId, all: seq<ChatMessage>,
                    candidates: seq<ChatMessage>, r: seq<ChatMessage>)
    requires forall id :: id in rows ==> rows[id].id == id
    requires all == Ordering.Listing(rows, nextId)
    requires multiset(candidates) <= multiset(all) && multiset(r) <= multiset(candidates)
    requires forall m :: m in r ==> m in rows.Values
    ensures forall i, j :: 0 <= i < j < |r| ==> r[i].id != r[j].id
  {
    Ordering.ListingNoRepeats(rows, nextId, (m: ChatMessage) => m.id);
    Ordering.SubNoRepeats(candidates, all);
    Ordering.SubNoRepeats(r, candidates);
    Ordering.DistinctIds(r, rows, (m: ChatMessage) => m.id);
  }

  /** The sender block of a `message:new` payload. */
  datatype Sender = Sender(id: UserId, username: string, displayName: Option<string>, avatarUrl: Option<string>)

  /** The `message:new` payload. `isBot` is absent (falsy) in payloads of human messages. */
  datatype Payload = Payload(
    id: MessageId,
    groupId: GroupId,
    sender: Sender,
    messageType: string,
    content: Option<string>,
    mediaUrl: Option<string>,
    replyToId: Option<MessageId>,
    createdAt: int,
    isEdited: bool,
    isBot: bool)

  /** The payload the send handler builds: the stored row, with the sender block taken from
      the authenticated user rather than from the row. */
  function UserPayload(m: ChatMessage, u: User): Payload {
    Payload(m.id, m.groupId, Sender(u.id, u.username, u.displayName, u.avatarUrl), m.messageType,
            m.content, m.mediaUrl, m.replyToId, m.createdAt, m.isEdited, false)
  }

  /** The two tables. A receipt is keyed by the (message_id, user_id) unique constraint and
      holds its `read_at` time. */
  class MessageTable {
    var rows: map<MessageId, ChatMessage>
    var receipts: map<(MessageId, UserId), int>
    var nextId: MessageId

    /** Every row is stored under its own id, and ids below `nextId` have been handed out. */
    ghost predicate Valid()
      reads this
    {
      forall id :: id in rows ==> id < nextId && rows[id].id == id
    }

    constructor ()
      ensures Valid()
      ensures rows == map[] && receipts == map[] && nextId == 0
    {
      rows := map[];
      receipts := map[];
      nextId := 0;
    }

    /** `INSERT INTO chat_messages ... RETURNING *`: a fresh id, `is_edited` and `is_deleted`
        false, both timestamps `now`. */
    method Insert(groupId: GroupId, senderId: UserId, messageType: string, content: Option<string>,
                  mediaUrl: Option<string>, replyToId: Option<MessageId>, now: int)
      returns (m: ChatMessage)
      requires Valid()
      modifies this
      ensures Valid()
      ensures m == ChatMessage(old(nextId), groupId, senderId, messageType, content, mediaUrl,
                               replyToId, false, false, now, now)
      ensures old(nextId) !in old(rows)
      ensures rows == old(rows)[m.id := m] && nextId == old(nextId) + 1
      ensures receipts == old(receipts)
    {
      m := ChatMessage(nextId, groupId, senderId, messageType, content, mediaUrl, replyToId,
                       false, false, now, now);
      rows := rows[nextId := m];
      nextId := nextId + 1;
    }
  }
}
