/**
 * Vaults: a group's private message threads. Messages are validated on the way in (a reply
 * must point into the same vault, there must be content or media, the type must be known),
 * only their sender may edit or delete them, and deletion is soft.
 */
module Vaults {
  import opened Wrappers
  import opened Membership
  import opened JsStrings
  import Ordering

  /** Vault and vault message ids are serial in this model (UUIDs in the database, so a
      given reply id is always truthy). */
  type VaultId = nat
  type VaultMessageId = nat

  const VAULT_NOT_FOUND := "Vault not found"
  const REPLY_NOT_FOUND := "Reply message not found"
  const CONTENT_OR_MEDIA := "Message must have either content or media"
  const INVALID_MESSAGE_TYPE := "Invalid message type"
  const MESSAGE_NOT_FOUND := "Message not found"
  const EDIT_OWN_ONLY := "You can only edit your own messages"
  const DELETE_OWN_ONLY := "You can only delete your own messages"
  const ONLY_CREATOR_DELETE := "Only the creator can delete this vault"
  /** Stands for whatever error the database raises inside a transaction. */
  const DB_ERROR := "database error"

  /** The message types a vault accepts. */
  const MESSAGE_TYPES: seq<string> := ["text", "image", "voice", "video", "file"]

  /** A `vaults` row. */
  datatype Vault = Vault(
    groupId: GroupId,
    createdBy: UserId,
    name: string,
    description: Option<string>,
    isPrivate: bool,
    avatarUrl: Option<string>,
    createdAt: int,
    updatedAt: int)

  /** A `vault_messages` row. */
  datatype VaultMessage = VaultMessage(
    id: VaultMessageId,
    vaultId: VaultId,
    senderId: UserId,
    messageType: string,
    content: Option<string>,
    mediaUrl: Option<string>,
    replyToId: Option<VaultMessageId>,
    isEdited: bool,
    isDeleted: bool,
    createdAt: int,
    updatedAt: int)

  /** The body of a create request; `initialMessage` is `None` when it is not a string. */
  datatype VaultRequest = VaultRequest(
    groupId: GroupId,
    name: string,
    description: Option<string>,
    isPrivate: bool,
    avatarUrl: Option<string>,
    initialMessage: Option<string>)

  /** The body of an add-message request. */
  datatype MessageRequest = MessageRequest(
    messageType: Option<string>,
    content: Option<string>,
    mediaUrl: Option<string>,
    replyToId: Option<VaultMessageId>)

  /** The text of the initial message, if one is stored: the trimmed string, when it is not
      empty. */
  function InitialMessage(initial: Option<string>): (r: Option<string>)
    ensures r.Some? <==> initial.Some? && !AllWhitespace(initial.value)
    ensures r.Some? ==> r.value == Trim(initial.value) && r.value != []
    ensures r.Some? ==> !IsJsWhitespace(r.value[0]) && !IsJsWhitespace(r.value[|r.value| - 1])
  {
    var text := if initial.Some? then Trim(initial.value) else "";
    assert initial.Some? ==> (text == [] <==> AllWhitespace(initial.value)) by {
      if initial.Some? {
        TrimShape(initial.value);
      }
    }
    if Utf16Length(text) > 0 then Some(text) else None
  }

  /** A live message of vault `v`: present, in that vault, and not deleted. */
  predicate IsLive(messages: map<VaultMessageId, VaultMessage>, v: VaultId, id: VaultMessageId) {
    id in messages && messages[id].vaultId == v && !messages[id].isDeleted
  }

  /** `addMessage`'s checks, in order: the vault exists; the user is in its group; a reply
      names a live message of the same vault; there is content or media; the type is known.
      The type check comes before the `'text'` default is applied, so an absent type fails. */
  function AddMessageError(vaults: map<VaultId, Vault>, members: MemberTable,
                           messages: map<VaultMessageId, VaultMessage>, v: VaultId, userId: UserId,
                           q: MessageRequest): (e: Option<string>)
    ensures e.None? <==>
              && v in vaults && IsMember(members, vaults[v].groupId, userId)
              && (q.replyToId.Some? ==> IsLive(messages, v, q.replyToId.value))
              && (Truthy(q.content) || Truthy(q.mediaUrl))
              && q.messageType.Some? && q.messageType.value in MESSAGE_TYPES
    ensures v !in vaults ==> e == Some(VAULT_NOT_FOUND)
    ensures v in vaults && !IsMember(members, vaults[v].groupId, userId) ==> e == Some(NOT_A_MEMBER)
    ensures (&& v in vaults && IsMember(members, vaults[v].groupId, userId)
             && q.replyToId.Some? && !IsLive(messages, v, q.replyToId.value)) ==> e == Some(REPLY_NOT_FOUND)
    ensures (&& v in vaults && IsMember(members, vaults[v].groupId, userId)
             && (q.replyToId.Some? ==> IsLive(messages, v, q.replyToId.value))
             && !Truthy(q.content) && !Truthy(q.mediaUrl)) ==> e == Some(CONTENT_OR_MEDIA)
  {
    if v !in vaults then Some(VAULT_NOT_FOUND)
    else if !IsMember(members, vaults[v].groupId, userId) then Some(NOT_A_MEMBER)
    else if q.replyToId.Some? && !IsLive(messages, v, q.replyToId.value) then Some(REPLY_NOT_FOUND)
    else if !Truthy(q.content) && !Truthy(q.mediaUrl) then Some(CONTENT_OR_MEDIA)
    else if !(q.messageType.Some? && q.messageType.value in MESSAGE_TYPES) then Some(INVALID_MESSAGE_TYPE)
    else None
  }

  /** The row `addMessage` inserts. */
  function NewMessage(id: VaultMessageId, v: VaultId, userId: UserId, q: MessageRequest, now: int): VaultMessage {
    VaultMessage(id, v, userId, OrDefault(q.messageType, "text"), OrNull(q.content), OrNull(q.mediaUrl),
                 q.replyToId, false, false, now, now)
  }

  /** A message that passes the checks is stored with its own type, with content or media,
      and with a reply target that is a live message of the same vault. */
  lemma AcceptedMessageShape(vaults: map<VaultId, Vault>, members: MemberTable,
                             messages: map<VaultMessageId, VaultMessage>, v: VaultId, userId: UserId,
                             q: MessageRequest, id: VaultMessageId, now: int)
    requires AddMessageError(vaults, members, messages, v, userId, q).None?
    ensures var m := NewMessage(id, v, userId, q, now);
            && m.messageType == q.messageType.value && m.messageType in MESSAGE_TYPES
            && (m.content.Some? || m.mediaUrl.Some?)
            && (m.replyToId.Some? ==> IsLive(messages, v, m.replyToId.value))
  {
  }

  /** The `'text'` default is never reached: a request without a type is refused, whatever
      else it holds. */
  lemma MissingTypeIsRejected(vaults: map<VaultId, Vault>, members: MemberTable,
                              messages: map<VaultMessageId, VaultMessage>, v: VaultId, userId: UserId,
                              q: MessageRequest)
    requires q.messageType.None?
    ensures AddMessageError(vaults, members, messages, v, userId, q).Some?
    ensures (&& v in vaults && IsMember(members, vaults[v].groupId, userId)
             && (q.replyToId.Some? ==> IsLive(messages, v, q.replyToId.value))
             && (Truthy(q.content) || Truthy(q.mediaUrl)))
            ==> AddMessageError(vaults, members, messages, v, userId, q) == Some(INVALID_MESSAGE_TYPE)
  {
  }

  /** `updateMessage` and `deleteMessage`: the message must be live in that vault, then it
      must be the user's own. */
  function OwnMessageError(messages: map<VaultMessageId, VaultMessage>, v: VaultId, id: VaultMessageId,
                           userId: UserId, notOwn: string): (e: Option<string>)
    ensures e.None? <==> IsLive(messages, v, id) && messages[id].senderId == userId
    ensures !IsLive(messages, v, id) ==> e == Some(MESSAGE_NOT_FOUND)
    ensures IsLive(messages, v, id) && messages[id].senderId != userId ==> e == Some(notOwn)
  {
    if !IsLive(messages, v, id) then Some(MESSAGE_NOT_FOUND)
    else if messages[id].senderId != userId then Some(notOwn)
    else None
  }

  // ---------------------------------------------------------------------------
  // Reading vaults

  /** `ORDER BY vm.created_at ASC`; messages created at the same instant are taken in id
      order. */
  function MessageKey(m: VaultMessage): Ordering.Key {
    (m.createdAt, m.id)
  }

  /** The live messages of vault `v`, oldest first, each once. */
  function LiveMessages(messages: map<VaultMessageId, VaultMessage>, nextMessage: VaultMessageId, v: VaultId)
    : (r: seq<VaultMessage>)
    requires forall k :: k in messages ==> k < nextMessage && messages[k].id == k
    ensures forall m :: m in r <==> m in messages.Values && m.vaultId == v && !m.isDeleted
    ensures Ordering.SortedBy(r, MessageKey)
    ensures forall i, j :: 0 <= i < j < |r| ==> r[i].id != r[j].id
  {
    var all := Ordering.Listing(messages, nextMessage);
    var live := Ordering.Filter(all, (m: VaultMessage) => m.vaultId == v && !m.isDeleted);
    var r := Ordering.SortBy(live, MessageKey);
    Ordering.ListingHasValues(messages, nextMessage);
    Ordering.SameMembers(live, r);
    Ordering.SameMembers(r, live);
    Ordering.ListingNoRepeats(messages, nextMessage, (m: VaultMessage) => m.id);
    Ordering.SubNoRepeats(r, all);
    Ordering.DistinctIds(r, messages, (m: VaultMessage) => m.id);
    r
  }

  /** `COUNT(DISTINCT vm.id)` over the live messages of vault `v`. */
  function MessageCount(messages: map<VaultMessageId, VaultMessage>, v: VaultId): nat {
    |LiveIds(messages, v)|
  }

  function LiveIds(messages: map<VaultMessageId, VaultMessage>, v: VaultId): set<VaultMessageId> {
    set k | k in messages && IsLive(messages, v, k)
  }

  /** `getVaultById`: "Vault not found", then the membership error, otherwise the vault and
      its live messages in order. */
  function GetVault(vaults: map<VaultId, Vault>, members: MemberTable, messages: map<VaultMessageId, VaultMessage>,
                    nextMessage: VaultMessageId, v: VaultId, userId: UserId): (r: Result<(Vault, seq<VaultMessage>)>)
    requires forall k :: k in messages ==> k < nextMessage && messages[k].id == k
    ensures v !in vaults ==> r == Err(VAULT_NOT_FOUND)
    ensures v in vaults && !IsMember(members, vaults[v].groupId, userId) ==> r == Err(NOT_A_MEMBER)
    ensures r.Ok? <==> v in vaults && IsMember(members, vaults[v].groupId, userId)
    ensures r.Ok? ==> r.value.0 == vaults[v]
    ensures r.Ok? ==> forall m :: m in r.value.1 <==> m in messages.Values && m.vaultId == v && !m.isDeleted
    ensures r.Ok? ==> Ordering.SortedBy(r.value.1, MessageKey)
    ensures r.Ok? ==> forall i, j :: 0 <= i < j < |r.value.1| ==> r.value.1[i].id != r.value.1[j].id
  {
    if v !in vaults then Err(VAULT_NOT_FOUND)
    else if !IsMember(members, vaults[v].groupId, userId) then Err(NOT_A_MEMBER)
    else Ok((vaults[v], LiveMessages(messages, nextMessage, v)))
  }

  /** A row of `getGroupVaults`. */
  datatype VaultSummary = VaultSummary(id: VaultId, vault: Vault, messageCount: nat)

  /** `ORDER BY v.created_at DESC`. */
  function SummaryKey(s: VaultSummary): Ordering.Key {
    (-s.vault.createdAt, 0)
  }

  /** One summary per vault, each listed once. */
  function Summaries(vaults: map<VaultId, Vault>, messages: map<VaultMessageId, VaultMessage>, nextVault: VaultId)
    : (r: seq<VaultSummary>)
    requires forall k :: k in vaults ==> k < nextVault
    ensures forall s: VaultSummary :: s in r <==> s.id in vaults && s == VaultSummary(s.id, vaults[s.id], MessageCount(messages, s.id))
    ensures Ordering.NoRepeats(r)
  {
    var all := map k | k in vaults :: VaultSummary(k, vaults[k], MessageCount(messages, k));
    var r := Ordering.Listing(all, nextVault);
    Ordering.ListingNoRepeats(all, nextVault, (s: VaultSummary) => s.id);
    assert forall s :: s in r ==> s.id in vaults && s == VaultSummary(s.id, vaults[s.id], MessageCount(messages, s.id)) by {
      forall s | s in r ensures s.id in vaults && s == VaultSummary(s.id, vaults[s.id], MessageCount(messages, s.id)) {
        var k :| k < nextVault && k in all && all[k] == s;
      }
    }
    assert forall s: VaultSummary :: s.id in vaults && s == VaultSummary(s.id, vaults[s.id], MessageCount(messages, s.id)) ==> s in r by {
      forall s: VaultSummary | s.id in vaults && s == VaultSummary(s.id, vaults[s.id], MessageCount(messages, s.id)) ensures s in r {
        assert all[s.id] == s;
      }
    }
    r
  }

  /** `getGroupVaults`: for a member, every vault of the group, newest first, each with the
      number of its live messages. */
  function GroupVaults(vaults: map<VaultId, Vault>, members: MemberTable, messages: map<VaultMessageId, VaultMessage>,
                       nextVault: VaultId, g: GroupId, userId: UserId): (r: Result<seq<VaultSummary>>)
    requires forall k :: k in vaults ==> k < nextVault
    ensures r.Err? <==> !IsMember(members, g, userId)
    ensures r.Err? ==> r.message == NOT_A_MEMBER
    ensures r.Ok? ==> forall s :: s in r.value <==>
                        && s.id in vaults && s.vault.groupId == g
                        && s == VaultSummary(s.id, vaults[s.id], MessageCount(messages, s.id))
    ensures r.Ok? ==> forall i, j :: 0 <= i < j < |r.value| ==> r.value[i].vault.createdAt >= r.value[j].vault.createdAt
    ensures r.Ok? ==> forall i, j :: 0 <= i < j < |r.value| ==> r.value[i].id != r.value[j].id
  {
    if !IsMember(members, g, userId) then Err(NOT_A_MEMBER)
    else
      var all := Summaries(vaults, messages, nextVault);
      var mine := Ordering.Filter(all, (s: VaultSummary) => s.vault.groupId == g);
      var r := NewestFirst(mine);
      Ordering.SubNoRepeats(mine, all);
      Ordering.SubNoRepeats(r, mine);
      Ordering.NoRepeatsDistinct(r);
      Ok(r)
  }

  /** The summaries ordered by creation time, newest first. */
  function NewestFirst(ss: seq<VaultSummary>): (r: seq<VaultSummary>)
    ensures forall x :: x in r <==> x in ss
    ensures multiset(r) == multiset(ss)
    ensures forall i, j :: 0 <= i < j < |r| ==> r[i].vault.createdAt >= r[j].vault.createdAt
  {
    var r := Ordering.SortBy(ss, SummaryKey);
    assert forall x :: x in r <==> x in ss by {
      forall x ensures x in r <==> x in multiset(r) {
      }
    }
    assert forall i, j :: 0 <= i < j < |r| ==> Ordering.KeyLe(SummaryKey(r[i]), SummaryKey(r[j]));
    r
  }

  // ---------------------------------------------------------------------------
  // The tables

  /** Every reply points at a stored message of the same vault. */
  ghost predicate RepliesStayInVault(messages: map<VaultMessageId, VaultMessage>) {
    forall k :: k in messages && messages[k].replyToId.Some? ==>
                  messages[k].replyToId.value in messages
                  && messages[messages[k].replyToId.value].vaultId == messages[k].vaultId
  }

  /** Storing a new message whose reply target, if any, is a message of its own vault keeps
      every reply inside its vault. */
  lemma InsertKeepsReplies(messages: map<VaultMessageId, VaultMessage>, k: VaultMessageId, m: VaultMessage)
    requires RepliesStayInVault(messages) && k !in messages
    requires m.replyToId.Some? ==> m.replyToId.value in messages && messages[m.replyToId.value].vaultId == m.vaultId
    ensures RepliesStayInVault(messages[k := m])
  {
  }

  /** Rewriting a message in place, without touching its vault or its reply, keeps every
      reply inside its vault. */
  lemma RewriteKeepsReplies(messages: map<VaultMessageId, VaultMessage>, k: VaultMessageId, m: VaultMessage)
    requires RepliesStayInVault(messages) && k in messages
    requires m.vaultId == messages[k].vaultId && m.replyToId == messages[k].replyToId
    ensures RepliesStayInVault(messages[k := m])
  {
  }

  class VaultStore {
    var vaults: map<VaultId, Vault>
    var messages: map<VaultMessageId, VaultMessage>
    var nextVault: VaultId
    var nextMessage: VaultMessageId

    /** Ids below the counters have been handed out, every message is stored under its own id
        and belongs to an existing vault, and every reply points at a message of the same
        vault. */
    ghost predicate Valid()
      reads this
    {
      && (forall k :: k in vaults ==> k < nextVault)
      && (forall k :: k in messages ==> k < nextMessage && messages[k].id == k && messages[k].vaultId in vaults)
      && RepliesStayInVault(messages)
    }

    constructor ()
      ensures Valid()
      ensures vaults == map[] && messages == map[] && nextVault == 0 && nextMessage == 0
    {
      vaults := map[];
      messages := map[];
      nextVault := 0;
      nextMessage := 0;
    }

    /** `createVault`: in one transaction, insert the vault and, when the trimmed initial
        message is not empty, store it as a text message. `fails` stands for a database error,
        after which everything is rolled back. */
    method CreateVault(members: MemberTable, userId: UserId, q: VaultRequest, now: int, fails: bool)
      returns (r: Result<VaultId>)
      requires Valid()
      modifies this
      ensures Valid()
      ensures !IsMember(members, q.groupId, userId) ==> r == Err(NOT_A_MEMBER)
      ensures IsMember(members, q.groupId, userId) && fails ==> r == Err(DB_ERROR)
      ensures r.Err? ==> vaults == old(vaults) && messages == old(messages)
                         && nextVault == old(nextVault) && nextMessage == old(nextMessage)
      ensures r.Ok? <==> IsMember(members, q.groupId, userId) && !fails
      ensures r.Ok? ==>
                && r.value == old(nextVault) && r.value !in old(vaults) && nextVault == old(nextVault) + 1
                && vaults == old(vaults)[r.value := Vault(q.groupId, userId, q.name, OrNull(q.description),
                                                           q.isPrivate, OrNull(q.avatarUrl), now, now)]
                && var text := InitialMessage(q.initialMessage);
                   && (text.None? ==> messages == old(messages) && nextMessage == old(nextMessage))
                   && (text.Some? ==>
                         && old(nextMessage) !in old(messages) && nextMessage == old(nextMessage) + 1
                         && messages == old(messages)[old(nextMessage) :=
                              VaultMessage(old(nextMessage), r.value, userId, "text", text, None, None,
                                           false, false, now, now)])
    {
      if !IsMember(members, q.groupId, userId) {
        return Err(NOT_A_MEMBER);
      }
      if fails {
        return Err(DB_ERROR);
      }
      var id := nextVault;
      vaults := vaults[id := Vault(q.groupId, userId, q.name, OrNull(q.description), q.isPrivate,
                                   OrNull(q.avatarUrl), now, now)];
      nextVault := nextVault + 1;
      var text := InitialMessage(q.initialMessage);
      if text.Some? {
        var m := VaultMessage(nextMessage, id, userId, "text", text, None, None, false, false, now, now);
        InsertKeepsReplies(messages, nextMessage, m);
        messages := messages[nextMessage := m];
        nextMessage := nextMessage + 1;
        // the vault's updated_at is set to now again, which it already is
      }
      r := Ok(id);
    }

    /** `addMessage`: store a checked message with its defaults and bump the vault's
        `updated_at`; a failed check leaves every table as it was. */
    method AddMessage(members: MemberTable, v: VaultId, userId: UserId, q: MessageRequest, now: int)
      returns (r: Result<VaultMessage>)
      requires Valid()
      modifies this
      ensures Valid()
      ensures nextVault == old(nextVault)
      ensures var e := AddMessageError(old(vaults), members, old(messages), v, userId, q);
              && (e.Some? ==> r == Err(e.value) && vaults == old(vaults) && messages == old(messages)
                              && nextMessage == old(nextMessage))
              && (e.None? ==>
                    && r == Ok(NewMessage(old(nextMessage), v, userId, q, now))
                    && old(nextMessage) !in old(messages)
                    && messages == old(messages)[old(nextMessage) := r.value]
                    && nextMessage == old(nextMessage) + 1
                    && vaults == old(vaults)[v := old(vaults)[v].(updatedAt := now)])
    {
      var e := AddMessageError(vaults, members, messages, v, userId, q);
      if e.Some? {
        return Err(e.value);
      }
      var m := NewMessage(nextMessage, v, userId, q, now);
      InsertKeepsReplies(messages, nextMessage, m);
      messages := messages[nextMessage := m];
      nextMessage := nextMessage + 1;
      vaults := vaults[v := vaults[v].(updatedAt := now)];
      r := Ok(m);
    }

    /** `updateMessage`: the sender rewrites a live message; absent or empty fields become
        NULL, so the result may have neither content nor media. */
    method UpdateMessage(v: VaultId, id: VaultMessageId, userId: UserId, content: Option<string>,
                         mediaUrl: Option<string>, now: int) returns (r: Result<VaultMessage>)
      requires Valid()
      modifies this
      ensures Valid()
      ensures vaults == old(vaults) && nextVault == old(nextVault) && nextMessage == old(nextMessage)
      ensures var e := OwnMessageError(old(messages), v, id, userId, EDIT_OWN_ONLY);
              && (e.Some? ==> r == Err(e.value) && messages == old(messages))
              && (e.None? ==>
                    && r == Ok(old(messages)[id].(content := OrNull(content), mediaUrl := OrNull(mediaUrl),
                                                  isEdited := true, updatedAt := now))
                    && messages == old(messages)[id := r.value])
    {
      var e := OwnMessageError(messages, v, id, userId, EDIT_OWN_ONLY);
      if e.Some? {
        return Err(e.value);
      }
      var m := messages[id].(content := OrNull(content), mediaUrl := OrNull(mediaUrl), isEdited := true,
                             updatedAt := now);
      RewriteKeepsReplies(messages, id, m);
      messages := messages[id := m];
      r := Ok(m);
    }

    /** `deleteMessage`: the sender soft-deletes a live message; the row stays. */
    method DeleteMessage(v: VaultId, id: VaultMessageId, userId: UserId, now: int) returns (r: Result<VaultMessageId>)
      requires Valid()
      modifies this
      ensures Valid()
      ensures vaults == old(vaults) && nextVault == old(nextVault) && nextMessage == old(nextMessage)
      ensures var e := OwnMessageError(old(messages), v, id, userId, DELETE_OWN_ONLY);
              && (e.Some? ==> r == Err(e.value) && messages == old(messages))
              && (e.None? ==> r == Ok(id)
                              && messages == old(messages)[id := old(messages)[id].(isDeleted := true, updatedAt := now)])
    {
      var e := OwnMessageError(messages, v, id, userId, DELETE_OWN_ONLY);
      if e.Some? {
        return Err(e.value);
      }
      RewriteKeepsReplies(messages, id, messages[id].(isDeleted := true, updatedAt := now));
      messages := messages[id := messages[id].(isDeleted := true, updatedAt := now)];
      r := Ok(id);
    }

    /** `deleteVault`: the creator deletes the vault, and its messages go with it. */
    method DeleteVault(v: VaultId, userId: UserId) returns (r: Result<VaultId>)
      requires Valid()
      modifies this
      ensures Valid()
      ensures nextVault == old(nextVault) && nextMessage == old(nextMessage)
      ensures v !in old(vaults) ==> r == Err(VAULT_NOT_FOUND) && vaults == old(vaults) && messages == old(messages)
      ensures v in old(vaults) && old(vaults)[v].createdBy != userId ==>
                r == Err(ONLY_CREATOR_DELETE) && vaults == old(vaults) && messages == old(messages)
      ensures v in old(vaults) && old(vaults)[v].createdBy == userId ==>
                && r == Ok(v) && vaults == old(vaults) - {v}
                && messages == map k | k in old(messages) && old(messages)[k].vaultId != v :: old(messages)[k]
    {
      if v !in vaults {
        return Err(VAULT_NOT_FOUND);
      }
      if vaults[v].createdBy != userId {
        return Err(ONLY_CREATOR_DELETE);
      }
      vaults := vaults - {v};
      messages := map k | k in messages && messages[k].vaultId != v :: messages[k];
      r := Ok(v);
    }
  }

  /** A soft delete takes the message out of its vault's page. */
  lemma DeletedMessageLeavesThePage(messages: map<VaultMessageId, VaultMessage>, nextMessage: VaultMessageId,
                                    v: VaultId, id: VaultMessageId, now: int)
    requires forall k :: k in messages ==> k < nextMessage && messages[k].id == k
    requires IsLive(messages, v, id)
    ensures var after := messages[id := messages[id].(isDeleted := true, updatedAt := now)];
            messages[id] !in LiveMessages(after, nextMessage, v)
  {
    var after := messages[id := messages[id].(isDeleted := true, updatedAt := now)];
    forall k | k in after ensures after[k] != messages[id] {
      if k != id {
        assert after[k].id == k;
      }
    }
  }

  /** A soft delete lowers the vault's message count by one. */
  lemma DeletedMessageIsNotCounted(messages: map<VaultMessageId, VaultMessage>, v: VaultId, id: VaultMessageId, now: int)
    requires IsLive(messages, v, id)
    ensures MessageCount(messages[id := messages[id].(isDeleted := true, updatedAt := now)], v) + 1
            == MessageCount(messages, v)
  {
    var after := messages[id := messages[id].(isDeleted := true, updatedAt := now)];
    var before := LiveIds(messages, v);
    var rest := LiveIds(after, v);
    assert before == rest + {id} && id !in rest;
  }
}
