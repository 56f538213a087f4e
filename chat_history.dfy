/**
 * The two read-only chat queries: a page of a group's history, and the number of unread
 * messages per group for a user.
 */
module ChatHistory {
  import opened Wrappers
  import opened Membership
  import opened MessageStore
  import Ordering

  const DEFAULT_LIMIT: nat := 50

  /** A history entry: the row and its `readBy` list, as reader id to read time. */
  datatype HistoryItem = HistoryItem(message: ChatMessage, readBy: map<UserId, int>)

  /** The receipts of one message. `json_agg` over no rows is NULL, which `|| []` turns into
      the empty list. */
  function ReadBy(receipts: map<(MessageId, UserId), int>, id: MessageId): (r: map<UserId, int>)
    ensures forall u :: u in r <==> (id, u) in receipts
    ensures forall u :: u in r ==> r[u] == receipts[(id, u)]
    ensures r == map[] <==> forall k :: k in receipts ==> k.0 != id
  {
    var r := map u | u in (set k | k in receipts && k.0 == id :: k.1) :: receipts[(id, u)];
    assert forall k :: k in receipts && k.0 == id ==> k.1 in r by {
      forall k | k in receipts && k.0 == id ensures k.1 in r {
        assert (id, k.1) == k;
      }
    }
    r
  }

  /** The rows a page is drawn from: the group's messages that are not deleted, created
      strictly before the cursor when one is given. */
  predicate InHistory(m: ChatMessage, groupId: GroupId, before: Option<int>) {
    m.groupId == groupId && !m.isDeleted && (before.None? || m.createdAt < before.value)
  }

  function PageLimit(limit: Option<nat>): nat {
    if limit.Some? then limit.value else DEFAULT_LIMIT
  }

  /** The messages of a page, in page order. */
  function Messages(items: seq<HistoryItem>): (ms: seq<ChatMessage>)
    ensures |ms| == |items| && forall i :: 0 <= i < |items| ==> ms[i] == items[i].message
  {
    seq(|items|, i requires 0 <= i < |items| => items[i].message)
  }

  /** Each message of a page with its receipts. */
  function WithReceipts(page: seq<ChatMessage>, receipts: map<(MessageId, UserId), int>): (items: seq<HistoryItem>)
    ensures Messages(items) == page
    ensures forall i :: 0 <= i < |items| ==> items[i].readBy == ReadBy(receipts, page[i].id)
  {
    var items := seq(|page|, i requires 0 <= i < |page| => HistoryItem(page[i], ReadBy(receipts, page[i].id)));
    assert Messages(items) == page;
    items
  }

  /** `getChatHistory`: members get the `limit` (default 50) newest qualifying messages, in
      chronological order, each once and with its receipts; anyone else gets the membership error. */
  function GetChatHistory(members: MemberTable, rows: map<MessageId, ChatMessage>, nextId: MessageId,
                          receipts: map<(MessageId, UserId), int>, groupId: GroupId, userId: UserId,
                          limit: Option<nat>, before: Option<int>): (r: Result<seq<HistoryItem>>)
    requires forall id :: id in rows ==> id < nextId && rows[id].id == id
    ensures r.Err? <==> !IsMember(members, groupId, userId)
    ensures r.Err? ==> r.message == NOT_A_MEMBER
    ensures r.Ok? ==> |r.value| <= PageLimit(limit)
    ensures r.Ok? ==> forall m :: m in Messages(r.value) ==> m in rows.Values && InHistory(m, groupId, before)
    ensures r.Ok? ==> forall i :: 0 <= i < |r.value| ==> r.value[i].readBy == ReadBy(receipts, r.value[i].message.id)
    ensures r.Ok? ==> Ordering.SortedBy(Messages(r.value), MessageKey)
    ensures r.Ok? ==> forall i, j :: 0 <= i < j < |r.value| ==> r.value[i].message.id != r.value[j].message.id
    ensures r.Ok? ==> forall x, y :: (x in rows.Values && InHistory(x, groupId, before) && y in Messages(r.value)
                                      && MessageKey(y) != MessageKey(x) && Ordering.KeyLe(MessageKey(y), MessageKey(x)))
                                     ==> x in Messages(r.value)
    ensures r.Ok? && |r.value| < PageLimit(limit) ==>
              forall x :: x in rows.Values && InHistory(x, groupId, before) ==> x in Messages(r.value)
  {
    if !IsMember(members, groupId, userId) then Err(NOT_A_MEMBER)
    else
      var page := NewestMatching(rows, nextId, m => InHistory(m, groupId, before), PageLimit(limit));
      Ok(WithReceipts(page, receipts))
  }

  // ---------------------------------------------------------------------------
  // Unread counts

  /** A message counts as unread for `u` when it is in one of `u`'s groups, was sent by someone
      else, is not deleted, and `u` has no receipt for it. */
  predicate Unread(members: MemberTable, receipts: map<(MessageId, UserId), int>, u: UserId,
                   id: MessageId, m: ChatMessage) {
    IsMember(members, m.groupId, u) && m.senderId != u && !m.isDeleted && (id, u) !in receipts
  }

  function UnreadIn(rows: map<MessageId, ChatMessage>, members: MemberTable, receipts: map<(MessageId, UserId), int>,
                    u: UserId, g: GroupId): set<MessageId> {
    set id | id in rows && rows[id].groupId == g && Unread(members, receipts, u, id, rows[id])
  }

  /** `getUnreadCount`: one entry per group holding at least one unread message, with the
      number of them (`GROUP BY group_id` yields no row for a group with none). */
  function UnreadCounts(rows: map<MessageId, ChatMessage>, members: MemberTable,
                        receipts: map<(MessageId, UserId), int>, u: UserId): (r: map<GroupId, nat>)
    ensures forall g :: g in r <==> UnreadIn(rows, members, receipts, u, g) != {}
    ensures forall g :: g in r ==> r[g] == |UnreadIn(rows, members, receipts, u, g)| && IsMember(members, g, u)
  {
    var groups := set id | id in rows && Unread(members, receipts, u, id, rows[id]) :: rows[id].groupId;
    assert forall g :: g in groups <==> UnreadIn(rows, members, receipts, u, g) != {} by {
      forall g ensures g in groups <==> UnreadIn(rows, members, receipts, u, g) != {} {
        if UnreadIn(rows, members, receipts, u, g) != {} {
          var id :| id in UnreadIn(rows, members, receipts, u, g);
          assert rows[id].groupId == g;
        }
        if g in groups {
          var id :| id in rows && Unread(members, receipts, u, id, rows[id]) && rows[id].groupId == g;
          assert id in UnreadIn(rows, members, receipts, u, g);
        }
      }
    }
    map g | g in groups :: |UnreadIn(rows, members, receipts, u, g)|
  }

  /** Storing a new message the user sent themselves leaves their unread counts as they were. */
  lemma OwnMessagesAreNotUnread(rows: map<MessageId, ChatMessage>, members: MemberTable,
                                receipts: map<(MessageId, UserId), int>, u: UserId, m: ChatMessage)
    requires m.senderId == u && m.id !in rows
    ensures UnreadCounts(rows[m.id := m], members, receipts, u) == UnreadCounts(rows, members, receipts, u)
  {
    var rows' := rows[m.id := m];
    forall g ensures UnreadIn(rows', members, receipts, u, g) == UnreadIn(rows, members, receipts, u, g) {
    }
  }

  lemma ReceiptRemovesOne(rows: map<MessageId, ChatMessage>, members: MemberTable,
                          receipts: map<(MessageId, UserId), int>, u: UserId, id: MessageId, t: int, h: GroupId)
    ensures UnreadIn(rows, members, receipts[(id, u) := t], u, h) == UnreadIn(rows, members, receipts, u, h) - {id}
  {
    var l := UnreadIn(rows, members, receipts[(id, u) := t], u, h);
    var r := UnreadIn(rows, members, receipts, u, h) - {id};
    forall x | x in l ensures x in r {
    }
    forall x | x in r ensures x in l {
    }
  }

  /** Marking an unread message read lowers the count of its group by one, dropping the group
      when that was its last unread message, and leaves the other groups alone. */
  lemma ReadingAMessageLowersItsCount(rows: map<MessageId, ChatMessage>, members: MemberTable,
                                      receipts: map<(MessageId, UserId), int>, u: UserId, id: MessageId, t: int)
    requires id in rows && Unread(members, receipts, u, id, rows[id])
    ensures var before := UnreadCounts(rows, members, receipts, u);
            var after := UnreadCounts(rows, members, receipts[(id, u) := t], u);
            var g := rows[id].groupId;
            && g in before
            && (before[g] == 1 ==> g !in after)
            && (before[g] > 1 ==> g in after && after[g] == before[g] - 1)
            && (forall h :: h != g ==> (h in after <==> h in before))
            && (forall h :: h != g && h in before ==> after[h] == before[h])
  {
    ReadLowersOwnGroup(rows, members, receipts, u, id, t);
    forall h | h != rows[id].groupId
      ensures var before := UnreadCounts(rows, members, receipts, u);
              var after := UnreadCounts(rows, members, receipts[(id, u) := t], u);
              (h in after <==> h in before) && (h in before ==> after[h] == before[h])
    {
      ReadLeavesOtherGroups(rows, members, receipts, u, id, t, h);
    }
  }

  lemma ReadLowersOwnGroup(rows: map<MessageId, ChatMessage>, members: MemberTable,
                           receipts: map<(MessageId, UserId), int>, u: UserId, id: MessageId, t: int)
    requires id in rows && Unread(members, receipts, u, id, rows[id])
    ensures var before := UnreadCounts(rows, members, receipts, u);
            var after := UnreadCounts(rows, members, receipts[(id, u) := t], u);
            var g := rows[id].groupId;
            && g in before
            && (before[g] == 1 ==> g !in after)
            && (before[g] > 1 ==> g in after && after[g] == before[g] - 1)
  {
    var g := rows[id].groupId;
    ReceiptRemovesOne(rows, members, receipts, u, id, t, g);
    var a := UnreadIn(rows, members, receipts, u, g);
    var a' := UnreadIn(rows, members, receipts[(id, u) := t], u, g);
    assert id in a;
    assert a == a' + {id} && id !in a';
    assert |a| == |a'| + 1;
  }

  lemma ReadLeavesOtherGroups(rows: map<MessageId, ChatMessage>, members: MemberTable,
                              receipts: map<(MessageId, UserId), int>, u: UserId, id: MessageId, t: int, h: GroupId)
    requires id in rows && h != rows[id].groupId
    ensures var before := UnreadCounts(rows, members, receipts, u);
            var after := UnreadCounts(rows, members, receipts[(id, u) := t], u);
            (h in after <==> h in before) && (h in before ==> after[h] == before[h])
  {
    ReceiptRemovesOne(rows, members, receipts, u, id, t, h);
    assert id !in UnreadIn(rows, members, receipts, u, h);
    assert UnreadIn(rows, members, receipts[(id, u) := t], u, h) == UnreadIn(rows, members, receipts, u, h);
  }
}
