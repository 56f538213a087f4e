/**
 * The chat socket handlers: joining and leaving a group room, sending, editing and deleting a
 * message, typing indicators, read receipts, and the follow-ups a human message triggers
 * (slash-command games and the Gemini bot).
 *
 * Socket.io is modelled by a set of (socket, room) pairs and an outbox of emissions, each
 * tagged with its audience: one socket (`socket.emit`), a whole room (`io.to(room).emit`),
 * or a room minus the sending socket (`socket.to(room).emit`). Each handler runs atomically.
 */
module SocketServer {
  import opened Wrappers
  import opened Membership
  import opened JsStrings
  import opened MessageStore
  import opened Gemini
  import opened Game

  type SocketId = nat

  /** `user:<id>` and `group:<id>`. */
  datatype Room = UserRoom(user: UserId) | GroupRoom(group: GroupId)

  /** A connected socket and the user the auth middleware attached to it. */
  datatype Client = Client(socket: SocketId, user: User)

  datatype Audience =
    | ToSocket(socket: SocketId)
    | ToRoom(room: Room)
    | ToRoomExcept(room: Room, except: SocketId)

  datatype Event =
    | Error(message: string)
    | UserJoined(userId: UserId, username: string)
    | UserLeft(userId: UserId, username: string)
    | MessageNew(payload: Payload)
    | MessageSent(tempId: Option<string>, messageId: MessageId)
    | MessageEdited(messageId: MessageId, content: Option<string>, isEdited: bool, updatedAt: int)
    | MessageDeleted(messageId: MessageId)
    | TypingUser(userId: UserId, username: string, isTyping: bool)
    | MessageRead(messageId: MessageId, readerId: UserId, readerName: string)

  datatype Emission = Emission(to: Audience, event: Event)

  /** The sockets an emission reaches, given the room memberships at the time it is sent. */
  function Recipients(rooms: set<(SocketId, Room)>, a: Audience): set<SocketId> {
    match a
    case ToSocket(s) => {s}
    case ToRoom(r) => set p | p in rooms && p.1 == r :: p.0
    case ToRoomExcept(r, e) => (set p | p in rooms && p.1 == r :: p.0) - {e}
  }

  /** Every connected socket is in the personal room of its own user and of no other user,
      and only connected sockets are in rooms. */
  ghost predicate SessionsMatchRooms(rooms: set<(SocketId, Room)>, sessions: map<SocketId, UserId>) {
    && (forall s, u :: (s, UserRoom(u)) in rooms <==> s in sessions && sessions[s] == u)
    && (forall p :: p in rooms ==> p.0 in sessions)
  }

  /** A socket is in a group's room only if its user is a member of the group. */
  ghost predicate GroupRoomsHeldByMembers(rooms: set<(SocketId, Room)>, sessions: map<SocketId, UserId>,
                                    members: MemberTable) {
    forall s, g :: (s, GroupRoom(g)) in rooms ==> s in sessions && IsMember(members, g, sessions[s])
  }

  /** A notice sent to `user:<u>` reaches exactly the sockets connected as `u`. */
  lemma PersonalRoomReachesUser(rooms: set<(SocketId, Room)>, sessions: map<SocketId, UserId>, u: UserId)
    requires SessionsMatchRooms(rooms, sessions)
    ensures Recipients(rooms, ToRoom(UserRoom(u))) == set s | s in sessions && sessions[s] == u
  {
    var lhs := Recipients(rooms, ToRoom(UserRoom(u)));
    forall s | s in sessions && sessions[s] == u ensures s in lhs {
      assert (s, UserRoom(u)) in rooms;
    }
  }

  /** A broadcast to `group:<g>` reaches only sockets of members of the group. */
  lemma GroupRoomReachesMembers(rooms: set<(SocketId, Room)>, sessions: map<SocketId, UserId>,
                                members: MemberTable, g: GroupId)
    requires GroupRoomsHeldByMembers(rooms, sessions, members)
    ensures forall s :: s in Recipients(rooms, ToRoom(GroupRoom(g))) ==> s in sessions && IsMember(members, g, sessions[s])
  {
    forall s | s in Recipients(rooms, ToRoom(GroupRoom(g)))
      ensures s in sessions && IsMember(members, g, sessions[s])
    {
      var p :| p in rooms && p.1 == GroupRoom(g) && p.0 == s;
      assert (s, GroupRoom(g)) in rooms;
    }
  }

  // ---------------------------------------------------------------------------
  // Messages

  /** The fields of a `message:send` request. */
  datatype SendData = SendData(groupId: GroupId, content: Option<string>, messageType: Option<string>,
                               mediaUrl: Option<string>, replyToId: Option<MessageId>, tempId: Option<string>)

  /** What the send handler passes on to the game and Gemini follow-ups. */
  datatype FollowUp = FollowUp(groupId: GroupId, senderUsername: string, content: Option<string>)

  const JOIN_FAILED := "Failed to join group"
  const SEND_FAILED := "Failed to send message"
  const EDIT_FAILED := "Failed to edit message"
  const DELETE_FAILED := "Failed to delete message"
  const NOT_FOUND_OR_UNAUTHORIZED := "Message not found or unauthorized"

  /** The row the send handler inserts: the client's content as given, the type defaulting to
      'text', and absent or empty media and reply fields stored as NULL. */
  function NewMessage(id: MessageId, senderId: UserId, data: SendData, now: int): (m: ChatMessage)
    ensures m.id == id && m.groupId == data.groupId && m.senderId == senderId && m.content == data.content
    ensures m.messageType == "text" <==> !Truthy(data.messageType) || data.messageType.value == "text"
    ensures Truthy(data.messageType) ==> m.messageType == data.messageType.value
    ensures m.mediaUrl.Some? <==> Truthy(data.mediaUrl)
    ensures m.mediaUrl.Some? ==> m.mediaUrl == data.mediaUrl
    ensures m.replyToId == data.replyToId
    ensures !m.isEdited && !m.isDeleted && m.createdAt == now && m.updatedAt == now
  {
    ChatMessage(id, data.groupId, senderId, OrDefault(data.messageType, "text"), data.content,
                OrNull(data.mediaUrl), data.replyToId, false, false, now, now)
  }

  /** The edit check: the message exists, the actor sent it, and it is not deleted. */
  predicate CanEdit(rows: map<MessageId, ChatMessage>, id: MessageId, actor: UserId) {
    id in rows && rows[id].senderId == actor && !rows[id].isDeleted
  }

  /** The delete check: the message exists and the actor sent it (deleted or not). */
  predicate CanDelete(rows: map<MessageId, ChatMessage>, id: MessageId, actor: UserId) {
    id in rows && rows[id].senderId == actor
  }

  function Edited(m: ChatMessage, content: Option<string>, now: int): (e: ChatMessage)
    ensures e.content == content && e.isEdited && e.updatedAt == now
    ensures e.(content := m.content, isEdited := m.isEdited, updatedAt := m.updatedAt) == m
  {
    m.(content := content, isEdited := true, updatedAt := now)
  }

  function Tombstoned(m: ChatMessage, now: int): (d: ChatMessage)
    ensures d.isDeleted && d.content == Some(TOMBSTONE) && d.updatedAt == now
    ensures d.(content := m.content, isDeleted := m.isDeleted, updatedAt := m.updatedAt) == m
  {
    m.(isDeleted := true, content := Some(TOMBSTONE), updatedAt := now)
  }

  /** A deleted message can no longer be edited, even by its sender, but its sender may
      delete it again, which leaves the same tombstone. */
  lemma DeletedMessagesStayDeleted(rows: map<MessageId, ChatMessage>, id: MessageId, actor: UserId, t1: int, t2: int)
    requires CanDelete(rows, id, actor)
    ensures !CanEdit(rows[id := Tombstoned(rows[id], t1)], id, actor)
    ensures CanDelete(rows[id := Tombstoned(rows[id], t1)], id, actor)
    ensures Tombstoned(Tombstoned(rows[id], t1), t2) == Tombstoned(rows[id], t2)
  {
  }

  // ---------------------------------------------------------------------------
  // Game commands

  datatype GameCommand = Truth | Dare | Sike

  /** The first letter after the slash tells the three command prefixes apart. */
  lemma CommandLetter(s: string)
    ensures StartsWithCI(s, "/truth") ==> |s| > 1 && Lower(s[1]) == 't'
    ensures StartsWithCI(s, "/dare") ==> |s| > 1 && Lower(s[1]) == 'd'
    ensures StartsWithCI(s, "/sike") ==> |s| > 1 && Lower(s[1]) == 's'
  {
    if StartsWithCI(s, "/truth") {
      assert Lower(s[1]) == Lower("/truth"[1]);
    }
    if StartsWithCI(s, "/dare") {
      assert Lower(s[1]) == Lower("/dare"[1]);
    }
    if StartsWithCI(s, "/sike") {
      assert Lower(s[1]) == Lower("/sike"[1]);
    }
  }

  /** The command tests `/^\/truth/i`, `/^\/dare/i` and `/^\/sike/i`, tried in that order;
      absent content is tested as "undefined" and matches none. The prefixes exclude one
      another, so each command is recognised exactly when its own prefix matches. */
  function ParseCommand(content: Option<string>): (c: Option<GameCommand>)
    ensures c == Some(Truth) <==> content.Some? && StartsWithCI(content.value, "/truth")
    ensures c == Some(Dare) <==> content.Some? && StartsWithCI(content.value, "/dare")
    ensures c == Some(Sike) <==> content.Some? && StartsWithCI(content.value, "/sike")
  {
    if content.None? then None
    else
      var s := content.value;
      CommandLetter(s);
      if StartsWithCI(s, "/truth") then Some(Truth)
      else if StartsWithCI(s, "/dare") then Some(Dare)
      else if StartsWithCI(s, "/sike") then Some(Sike)
      else None
  }

  /** The list a command draws from. The sike question list is not exported by the game data
      module, so no sike question can be drawn. */
  function GameList(c: GameCommand): seq<string> {
    match c
    case Truth => Truths
    case Dare => Dares
    case Sike => []
  }

  function GameHeader(c: GameCommand): string {
    match c
    case Truth => "\U{1F3AD} **TRUTH**: "
    case Dare => "\U{26A1} **DARE**: "
    case Sike => "\U{1F3AF} **SIKE**: "
  }

  /** `${emoji} **${gameType.toUpperCase()}**: ${gameResponse}`. */
  function GameReply(c: GameCommand, pick: string): string {
    GameHeader(c) + pick
  }

  /** The text is the reply to `c` for some element of its list. */
  predicate IsGameText(c: GameCommand, text: string) {
    exists i :: 0 <= i < |GameList(c)| && text == GameReply(c, GameList(c)[i])
  }

  /** The game text names its command and carries the drawn element unchanged after the header. */
  lemma GameTextShape(c: GameCommand, text: string)
    requires IsGameText(c, text)
    ensures GameHeader(c) <= text && text[|GameHeader(c)|..] in GameList(c)
  {
    var i :| 0 <= i < |GameList(c)| && text == GameReply(c, GameList(c)[i]);
    assert text[|GameHeader(c)|..] == GameList(c)[i];
  }

  // ---------------------------------------------------------------------------
  // The bot reply

  /** Everything outside the model that the Gemini follow-up depends on: whether the context
      query fails, the model's answer to a mention (from the context, the sender's name and the
      stripped prompt), whether the random roast gate passes, the model's answer to the roast
      check, `JSON.parse`, and whether storing the reply fails. */
  datatype BotOracles = BotOracles(
    recentFails: bool,
    generate: (seq<ChatMessage>, string, string) -> Option<string>,
    gatePasses: bool,
    roastAnswer: Option<string>,
    parse: string -> Option<RoastJson>,
    saveFails: bool)

  /** The text `processGeminiResponse` posts, if any: the answer to a mention (the glitch reply
      when the model fails, nothing when it answers with an empty string), or otherwise a roast. */
  function GeminiText(rows: map<MessageId, ChatMessage>, nextId: MessageId, f: FollowUp, o: BotOracles): (r: Option<string>)
    requires forall id :: id in rows ==> id < nextId && rows[id].id == id
    ensures r.Some? ==> r.value != ""
    ensures IsMention(f.content) ==>
              var answer := o.generate(RecentMessages(rows, nextId, f.groupId, RECENT_LIMIT, o.recentFails),
                                       f.senderUsername, StripMention(f.content.value));
              && (answer == None ==> r == Some(GLITCH_REPLY))
              && (answer.Some? ==> r == if answer.value == "" then None else Some(answer.value))
    ensures !IsMention(f.content) ==> r == CheckForRoast(f.content, o.gatePasses, o.roastAnswer, o.parse)
    ensures !IsMention(f.content) && r.Some? ==> o.gatePasses && Utf16Length(f.content.value) >= ROAST_MIN_LENGTH
  {
    if IsMention(f.content) then
      var reply := HandleMention(rows, nextId, f.groupId, f.senderUsername, f.content.value, o.recentFails, o.generate);
      if reply == "" then None else Some(reply)
    else
      CheckForRoast(f.content, o.gatePasses, o.roastAnswer, o.parse)
  }

  // ---------------------------------------------------------------------------
  // The server

  class Server {
    const table: MessageTable
    var rooms: set<(SocketId, Room)>
    var outbox: seq<Emission>
    /** The user each connected socket was authenticated as. */
    ghost var sessions: map<SocketId, UserId>

    ghost predicate Valid()
      reads this, table
    {
      table.Valid() && SessionsMatchRooms(rooms, sessions)
    }

    /** The socket is connected and authenticated as the client's user. */
    ghost predicate Connected(c: Client)
      reads this
    {
      c.socket in sessions && sessions[c.socket] == c.user.id
    }

    constructor (table: MessageTable)
      requires table.Valid()
      ensures Valid()
      ensures this.table == table && rooms == {} && outbox == [] && sessions == map[]
    {
      this.table := table;
      rooms := {};
      outbox := [];
      sessions := map[];
    }

    /** On connection the socket joins its user's personal room. */
    method Connect(c: Client)
      requires Valid() && c.socket !in sessions
      modifies this
      ensures Valid() && Connected(c)
      ensures rooms == old(rooms) + {(c.socket, UserRoom(c.user.id))}
      ensures sessions == old(sessions)[c.socket := c.user.id]
      ensures outbox == old(outbox)
    {
      rooms := rooms + {(c.socket, UserRoom(c.user.id))};
      sessions := sessions[c.socket := c.user.id];
    }

    /** `handleJoinGroup`: a member's socket joins `group:<id>` and the rest of the room hears
        `user:joined`; anyone else gets an error. `fails` stands for a database error in the
        membership query, reported as "Failed to join group". */
    method JoinGroup(members: MemberTable, c: Client, groupId: GroupId, fails: bool)
      requires Valid() && Connected(c)
      modifies this
      ensures Valid() && sessions == old(sessions)
      ensures GroupRoomsHeldByMembers(old(rooms), sessions, members) ==> GroupRoomsHeldByMembers(rooms, sessions, members)
      ensures fails ==>
                rooms == old(rooms) && outbox == old(outbox) + [Emission(ToSocket(c.socket), Error(JOIN_FAILED))]
      ensures !fails && IsMember(members, groupId, c.user.id) ==>
                rooms == old(rooms) + {(c.socket, GroupRoom(groupId))}
                && outbox == old(outbox) + [Emission(ToRoomExcept(GroupRoom(groupId), c.socket), UserJoined(c.user.id, c.user.username))]
      ensures !fails && !IsMember(members, groupId, c.user.id) ==>
                rooms == old(rooms) && outbox == old(outbox) + [Emission(ToSocket(c.socket), Error(NOT_A_MEMBER))]
    {
      if fails {
        outbox := outbox + [Emission(ToSocket(c.socket), Error(JOIN_FAILED))];
        return;
      }
      if !IsMember(members, groupId, c.user.id) {
        outbox := outbox + [Emission(ToSocket(c.socket), Error(NOT_A_MEMBER))];
        return;
      }
      rooms := rooms + {(c.socket, GroupRoom(groupId))};
      outbox := outbox + [Emission(ToRoomExcept(GroupRoom(groupId), c.socket), UserJoined(c.user.id, c.user.username))];
    }

    /** `handleLeaveGroup`: no membership check; the socket leaves the room and the rest of the
        room hears `user:left`. */
    method LeaveGroup(c: Client, groupId: GroupId)
      requires Valid()
      modifies this
      ensures Valid() && sessions == old(sessions)
      ensures rooms == old(rooms) - {(c.socket, GroupRoom(groupId))}
      ensures outbox == old(outbox) + [Emission(ToRoomExcept(GroupRoom(groupId), c.socket), UserLeft(c.user.id, c.user.username))]
    {
      rooms := rooms - {(c.socket, GroupRoom(groupId))};
      outbox := outbox + [Emission(ToRoomExcept(GroupRoom(groupId), c.socket), UserLeft(c.user.id, c.user.username))];
    }

    /** `handleSendMessage`. A non-member's message is refused with an error to the sender
        alone. Otherwise the row is stored, `message:new` goes to the whole group room,
        `message:sent` maps the client's `tempId` to the new id on the sending socket only, and
        the follow-ups are dispatched unless the sender is the bot. `insertFails` stands for a
        database error, reported as "Failed to send message". */
    method SendMessage(members: MemberTable, c: Client, data: SendData, now: int, insertFails: bool)
      returns (followUp: Option<FollowUp>)
      requires Valid()
      modifies this, table
      ensures Valid()
      ensures rooms == old(rooms) && sessions == old(sessions) && table.receipts == old(table.receipts)
      ensures !IsMember(members, data.groupId, c.user.id) ==>
                table.rows == old(table.rows) && table.nextId == old(table.nextId) && followUp == None
                && outbox == old(outbox) + [Emission(ToSocket(c.socket), Error(NOT_A_MEMBER))]
      ensures IsMember(members, data.groupId, c.user.id) && insertFails ==>
                table.rows == old(table.rows) && table.nextId == old(table.nextId) && followUp == None
                && outbox == old(outbox) + [Emission(ToSocket(c.socket), Error(SEND_FAILED))]
      ensures IsMember(members, data.groupId, c.user.id) && !insertFails ==>
                var m := NewMessage(old(table.nextId), c.user.id, data, now);
                old(table.nextId) !in old(table.rows)
                && table.rows == old(table.rows)[m.id := m] && table.nextId == old(table.nextId) + 1
                && outbox == old(outbox) + [Emission(ToRoom(GroupRoom(data.groupId)), MessageNew(UserPayload(m, c.user))),
                                            Emission(ToSocket(c.socket), MessageSent(data.tempId, m.id))]
                && (followUp.Some? <==> c.user.id != GEMINI_BOT_ID)
                && (followUp.Some? ==> followUp.value == FollowUp(data.groupId, c.user.username, data.content))
    {
      if !IsMember(members, data.groupId, c.user.id) {
        outbox := outbox + [Emission(ToSocket(c.socket), Error(NOT_A_MEMBER))];
        return None;
      }
      if insertFails {
        outbox := outbox + [Emission(ToSocket(c.socket), Error(SEND_FAILED))];
        return None;
      }
      var m := table.Insert(data.groupId, c.user.id, OrDefault(data.messageType, "text"), data.content,
                            OrNull(data.mediaUrl), data.replyToId, now);
      outbox := outbox + [Emission(ToRoom(GroupRoom(data.groupId)), MessageNew(UserPayload(m, c.user)))];
      outbox := outbox + [Emission(ToSocket(c.socket), MessageSent(data.tempId, m.id))];
      if c.user.id != GEMINI_BOT_ID {
        followUp := Some(FollowUp(data.groupId, c.user.username, data.content));
      } else {
        followUp := None;
      }
    }

    /** `handleEditMessage`: only the sender of a message that is not deleted may edit it; the
        new content is stored with `is_edited` set and announced to the message's group. Any
        other request gets the same error and changes nothing. `fails` stands for a database
        error in either query, reported as "Failed to edit message"; the update is a single
        statement, so nothing changes then either. */
    method EditMessage(c: Client, id: MessageId, content: Option<string>, now: int, fails: bool)
      requires Valid()
      modifies this, table
      ensures Valid()
      ensures rooms == old(rooms) && sessions == old(sessions)
      ensures table.nextId == old(table.nextId) && table.receipts == old(table.receipts)
      ensures fails ==>
                table.rows == old(table.rows)
                && outbox == old(outbox) + [Emission(ToSocket(c.socket), Error(EDIT_FAILED))]
      ensures !fails && CanEdit(old(table.rows), id, c.user.id) ==>
                var e := Edited(old(table.rows)[id], content, now);
                table.rows == old(table.rows)[id := e]
                && outbox == old(outbox) + [Emission(ToRoom(GroupRoom(e.groupId)), MessageEdited(id, content, true, now))]
      ensures !fails && !CanEdit(old(table.rows), id, c.user.id) ==>
                table.rows == old(table.rows)
                && outbox == old(outbox) + [Emission(ToSocket(c.socket), Error(NOT_FOUND_OR_UNAUTHORIZED))]
    {
      if fails {
        outbox := outbox + [Emission(ToSocket(c.socket), Error(EDIT_FAILED))];
        return;
      }
      if !CanEdit(table.rows, id, c.user.id) {
        outbox := outbox + [Emission(ToSocket(c.socket), Error(NOT_FOUND_OR_UNAUTHORIZED))];
        return;
      }
      var e := Edited(table.rows[id], content, now);
      table.rows := table.rows[id := e];
      outbox := outbox + [Emission(ToRoom(GroupRoom(e.groupId)), MessageEdited(id, content, true, now))];
    }

    /** `handleDeleteMessage`: the sender may soft-delete a message, even one already deleted;
        the tombstone is stored and only the id is announced to the message's group. `fails`
        stands for a database error in either query, reported as "Failed to delete message",
        after which nothing has changed. */
    method DeleteMessage(c: Client, id: MessageId, now: int, fails: bool)
      requires Valid()
      modifies this, table
      ensures Valid()
      ensures rooms == old(rooms) && sessions == old(sessions)
      ensures table.nextId == old(table.nextId) && table.receipts == old(table.receipts)
      ensures fails ==>
                table.rows == old(table.rows)
                && outbox == old(outbox) + [Emission(ToSocket(c.socket), Error(DELETE_FAILED))]
      ensures !fails && CanDelete(old(table.rows), id, c.user.id) ==>
                table.rows == old(table.rows)[id := Tombstoned(old(table.rows)[id], now)]
                && outbox == old(outbox) + [Emission(ToRoom(GroupRoom(old(table.rows)[id].groupId)), MessageDeleted(id))]
      ensures !fails && !CanDelete(old(table.rows), id, c.user.id) ==>
                table.rows == old(table.rows)
                && outbox == old(outbox) + [Emission(ToSocket(c.socket), Error(NOT_FOUND_OR_UNAUTHORIZED))]
    {
      if fails {
        outbox := outbox + [Emission(ToSocket(c.socket), Error(DELETE_FAILED))];
        return;
      }
      if !CanDelete(table.rows, id, c.user.id) {
        outbox := outbox + [Emission(ToSocket(c.socket), Error(NOT_FOUND_OR_UNAUTHORIZED))];
        return;
      }
      var groupId := table.rows[id].groupId;
      table.rows := table.rows[id := Tombstoned(table.rows[id], now)];
      outbox := outbox + [Emission(ToRoom(GroupRoom(groupId)), MessageDeleted(id))];
    }

    /** `handleTypingStart` and `handleTypingStop`: relayed to the rest of the group room, with
        no membership check. */
    method Typing(c: Client, groupId: GroupId, isTyping: bool)
      requires Valid()
      modifies this
      ensures Valid()
      ensures rooms == old(rooms) && sessions == old(sessions)
      ensures outbox == old(outbox) + [Emission(ToRoomExcept(GroupRoom(groupId), c.socket), TypingUser(c.user.id, c.user.username, isTyping))]
    {
      outbox := outbox + [Emission(ToRoomExcept(GroupRoom(groupId), c.socket), TypingUser(c.user.id, c.user.username, isTyping))];
    }

    /** `handleMessageRead`: the receipt is inserted unless one exists for this reader
        (`ON CONFLICT DO NOTHING`, so the first read time is kept); then, if the message exists,
        its sender's personal room hears `message:read`, on every read. A database error is
        only logged: `insertFails` stands for the insert failing, which ends the handler with
        nothing changed, and `lookupFails` for the message lookup failing after the receipt is
        stored, which sends no notice. */
    method MarkRead(c: Client, id: MessageId, now: int, insertFails: bool, lookupFails: bool)
      requires Valid()
      modifies this, table
      ensures Valid()
      ensures rooms == old(rooms) && sessions == old(sessions)
      ensures table.rows == old(table.rows) && table.nextId == old(table.nextId)
      ensures insertFails ==> table.receipts == old(table.receipts) && outbox == old(outbox)
      ensures !insertFails && (id, c.user.id) in old(table.receipts) ==> table.receipts == old(table.receipts)
      ensures !insertFails && (id, c.user.id) !in old(table.receipts) ==>
                table.receipts == old(table.receipts)[(id, c.user.id) := now]
      ensures !insertFails && !lookupFails && id in table.rows ==>
                outbox == old(outbox) + [Emission(ToRoom(UserRoom(table.rows[id].senderId)), MessageRead(id, c.user.id, c.user.username))]
      ensures !insertFails && (lookupFails || id !in table.rows) ==> outbox == old(outbox)
    {
      if insertFails {
        return;
      }
      if (id, c.user.id) !in table.receipts {
        table.receipts := table.receipts[(id, c.user.id) := now];
      }
      if !lookupFails && id in table.rows {
        outbox := outbox + [Emission(ToRoom(UserRoom(table.rows[id].senderId)), MessageRead(id, c.user.id, c.user.username))];
      }
    }

    /** `processGameCommand`: a `/truth` or `/dare` message gets a bot reply drawn from the
        matching list, stored and broadcast to the group; anything else, or a failed save,
        posts nothing. */
    method ProcessGameCommand(f: FollowUp, now: int, saveFails: bool) returns (posted: Option<ChatMessage>)
      requires Valid()
      modifies this, table
      ensures Valid()
      ensures rooms == old(rooms) && sessions == old(sessions) && table.receipts == old(table.receipts)
      ensures posted.Some? <==> ParseCommand(f.content) in {Some(Truth), Some(Dare)} && !saveFails
      ensures posted.Some? ==>
                && IsBotRow(posted.value) && posted.value.groupId == f.groupId && posted.value.createdAt == now
                && posted.value.content.Some? && IsGameText(ParseCommand(f.content).value, posted.value.content.value)
                && posted.value.id == old(table.nextId) && old(table.nextId) !in old(table.rows)
                && table.rows == old(table.rows)[posted.value.id := posted.value]
                && table.nextId == old(table.nextId) + 1
                && outbox == old(outbox) + [Emission(ToRoom(GroupRoom(f.groupId)), MessageNew(BuildBotPayload(posted.value)))]
      ensures posted.None? ==>
                table.rows == old(table.rows) && table.nextId == old(table.nextId) && outbox == old(outbox)
    {
      var cmd := ParseCommand(f.content);
      if cmd.None? {
        return None;
      }
      var pick := GetRandom(GameList(cmd.value));
      if pick.None? {
        return None;
      }
      var text := GameReply(cmd.value, pick.value);
      var i :| 0 <= i < |GameList(cmd.value)| && GameList(cmd.value)[i] == pick.value;
      assert IsGameText(cmd.value, text);
      posted := SaveBotMessage(table, f.groupId, text, now, saveFails);
      if posted.Some? {
        outbox := outbox + [Emission(ToRoom(GroupRoom(f.groupId)), MessageNew(BuildBotPayload(posted.value)))];
      }
    }

    /** `processGeminiResponse`: the text `GeminiText` chooses, if any, is stored as a bot
        message and broadcast to the group; nothing happens when there is no text or the save
        fails. */
    method ProcessGeminiResponse(f: FollowUp, now: int, o: BotOracles) returns (posted: Option<ChatMessage>)
      requires Valid()
      modifies this, table
      ensures Valid()
      ensures rooms == old(rooms) && sessions == old(sessions) && table.receipts == old(table.receipts)
      ensures posted.Some? <==> GeminiText(old(table.rows), old(table.nextId), f, o).Some? && !o.saveFails
      ensures posted.Some? ==>
                && IsBotRow(posted.value) && posted.value.groupId == f.groupId && posted.value.createdAt == now
                && posted.value.content == GeminiText(old(table.rows), old(table.nextId), f, o)
                && posted.value.id == old(table.nextId) && old(table.nextId) !in old(table.rows)
                && table.rows == old(table.rows)[posted.value.id := posted.value]
                && table.nextId == old(table.nextId) + 1
                && outbox == old(outbox) + [Emission(ToRoom(GroupRoom(f.groupId)), MessageNew(BuildBotPayload(posted.value)))]
      ensures posted.None? ==>
                table.rows == old(table.rows) && table.nextId == old(table.nextId) && outbox == old(outbox)
    {
      var text := GeminiText(table.rows, table.nextId, f, o);
      assert text == GeminiText(old(table.rows), old(table.nextId), f, o);
      if text.None? {
        return None;
      }
      posted := SaveBotMessage(table, f.groupId, text.value, now, o.saveFails);
      if posted.Some? {
        outbox := outbox + [Emission(ToRoom(GroupRoom(f.groupId)), MessageNew(BuildBotPayload(posted.value)))];
      }
    }
  }
}
