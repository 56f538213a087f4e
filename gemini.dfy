/**
 * The Gemini bot helpers: the bot's fixed identity and profile row, the payload of a bot
 * message, the recent-message window given to the model, the clean-up of the text of a mention
 * and of the model's JSON answer, the roast decision, and storing a bot message.
 *
 * The generative model is not modelled: its answer is a parameter (`None` when the call
 * throws), and so are the random gate and `JSON.parse`.
 */
module Gemini {
  import opened Wrappers
  import opened Membership
  import opened JsStrings
  import opened MessageStore
  import Ordering

  const GEMINI_BOT_ID: UserId := "00000000-0000-0000-0000-000000000001"
  const BOT_AUTH_ID := "00000000-0000-0000-0000-000000000002"
  const BOT_USERNAME := "gemini"
  const BOT_EMAIL := "gemini@bot.com"
  const BOT_DISPLAY_NAME := "Gemini AI \U{2728}"
  const GLITCH_REPLY := "Bro my brain just glitched \U{1F480} try again"
  const MENTION := "@gemini"
  const RECENT_LIMIT: nat := 15
  const ROAST_MIN_LENGTH: nat := 10

  // ---------------------------------------------------------------------------
  // The bot profile

  /** A `profiles` row (its `id` is the map key). */
  datatype ProfileRow = ProfileRow(authId: string, username: string, email: string,
                                   displayName: Option<string>, avatarUrl: Option<string>)

  const BOT_PROFILE := ProfileRow(BOT_AUTH_ID, BOT_USERNAME, BOT_EMAIL, Some(BOT_DISPLAY_NAME), None)

  /** Some other profile already holds the bot's `auth_id` or `email`, so the insert violates
      one of those unique constraints. */
  predicate BotRowClashes(p: map<UserId, ProfileRow>) {
    exists id :: id in p && (p[id].authId == BOT_AUTH_ID || p[id].email == BOT_EMAIL)
  }

  /** The profiles table after `ensureBotProfile`: the bot row is added only when no row has the
      bot's id and the insert breaks no unique constraint (the error is caught and logged);
      no other row is touched. */
  function WithBotProfile(p: map<UserId, ProfileRow>): (r: map<UserId, ProfileRow>)
    ensures GEMINI_BOT_ID in r <==> GEMINI_BOT_ID in p || !BotRowClashes(p)
    ensures GEMINI_BOT_ID in p ==> r[GEMINI_BOT_ID] == p[GEMINI_BOT_ID]
    ensures GEMINI_BOT_ID !in p && GEMINI_BOT_ID in r ==> r[GEMINI_BOT_ID] == BOT_PROFILE
    ensures forall id :: id != GEMINI_BOT_ID ==> (id in r <==> id in p)
    ensures forall id :: id in p ==> r[id] == p[id]
  {
    if GEMINI_BOT_ID in p || BotRowClashes(p) then p else p[GEMINI_BOT_ID := BOT_PROFILE]
  }

  /** Ensuring the profile twice is ensuring it once. */
  lemma EnsureBotProfileIdempotent(p: map<UserId, ProfileRow>)
    ensures WithBotProfile(WithBotProfile(p)) == WithBotProfile(p)
  {
    if GEMINI_BOT_ID !in p && BotRowClashes(p) {
      assert WithBotProfile(p) == p;
    }
  }

  class ProfileTable {
    var rows: map<UserId, ProfileRow>

    constructor (rows0: map<UserId, ProfileRow>)
      ensures rows == rows0
    {
      rows := rows0;
    }

    /** `ensureBotProfile`: look the bot up by id and insert it only if it is absent. */
    method EnsureBotProfile()
      modifies this
      ensures rows == WithBotProfile(old(rows))
    {
      if GEMINI_BOT_ID !in rows {
        if !BotRowClashes(rows) {
          rows := rows[GEMINI_BOT_ID := BOT_PROFILE];
        }
      }
    }
  }

  // ---------------------------------------------------------------------------
  // Bot messages

  /** A row as `saveBotMessage` writes it: sent by the bot, of type 'text', with no media, no
      reply target and the default flags. */
  predicate IsBotRow(m: ChatMessage) {
    m.senderId == GEMINI_BOT_ID && m.messageType == "text" && m.mediaUrl == None
    && m.replyToId == None && !m.isEdited && !m.isDeleted
  }

  /** `buildBotPayload`: the message's id, group, content and creation time under the bot's
      fixed sender block and defaults, flagged `isBot`. */
  function BuildBotPayload(m: ChatMessage): (p: Payload)
    ensures p.id == m.id && p.groupId == m.groupId && p.content == m.content && p.createdAt == m.createdAt
    ensures p.sender == Sender(GEMINI_BOT_ID, BOT_USERNAME, Some(BOT_DISPLAY_NAME), None)
    ensures p.messageType == "text" && p.mediaUrl == None && p.replyToId == None
    ensures !p.isEdited && p.isBot
  {
    Payload(m.id, m.groupId, Sender(GEMINI_BOT_ID, BOT_USERNAME, Some(BOT_DISPLAY_NAME), None),
            "text", m.content, None, None, m.createdAt, false, true)
  }

  /** The bot as the sender block of a socket payload. */
  const BOT_USER := User(GEMINI_BOT_ID, BOT_USERNAME, Some(BOT_DISPLAY_NAME), None)

  /** For a row the bot stored, the bot payload is the socket format of that row with the bot
      as sender, differing only in the `isBot` flag. */
  lemma BotPayloadMatchesSocketFormat(m: ChatMessage)
    requires IsBotRow(m)
    ensures BuildBotPayload(m) == UserPayload(m, BOT_USER).(isBot := true)
  {
  }

  /** `saveBotMessage`: insert a 'text' message from the bot into the group; `null` (here
      `None`) when the insert fails. */
  method SaveBotMessage(table: MessageTable, groupId: GroupId, content: string, now: int, fails: bool)
    returns (m: Option<ChatMessage>)
    requires table.Valid()
    modifies table
    ensures table.Valid()
    ensures fails ==> m == None && table.rows == old(table.rows) && table.nextId == old(table.nextId)
    ensures !fails ==> m.Some? && IsBotRow(m.value) && m.value.groupId == groupId
                       && m.value.content == Some(content) && m.value.id == old(table.nextId)
                       && m.value.createdAt == now
                       && table.rows == old(table.rows)[m.value.id := m.value]
                       && table.nextId == old(table.nextId) + 1
    ensures table.receipts == old(table.receipts)
  {
    if fails {
      m := None;
    } else {
      var row := table.Insert(groupId, GEMINI_BOT_ID, "text", Some(content), None, None, now);
      m := Some(row);
    }
  }

  // ---------------------------------------------------------------------------
  // The recent-message window

  /** The messages `getRecentMessages` may pick from: the group's messages that are not deleted. */
  predicate InWindow(m: ChatMessage, groupId: GroupId) {
    m.groupId == groupId && !m.isDeleted
  }

  /** `getRecentMessages`: the `limit` newest non-deleted messages of the group, oldest first
      and each once;
      `[]` when the query fails. */
  function RecentMessages(rows: map<MessageId, ChatMessage>, nextId: MessageId, groupId: GroupId,
                          limit: nat, fails: bool): (r: seq<ChatMessage>)
    requires forall id :: id in rows ==> id < nextId && rows[id].id == id
    ensures fails ==> r == []
    ensures |r| <= limit
    ensures forall m :: m in r ==> m in rows.Values && InWindow(m, groupId)
    ensures Ordering.SortedBy(r, MessageKey)
    ensures forall i, j :: 0 <= i < j < |r| ==> r[i].id != r[j].id
    ensures forall x, y :: x in rows.Values && InWindow(x, groupId) && y in r
                           && MessageKey(y) != MessageKey(x) && Ordering.KeyLe(MessageKey(y), MessageKey(x))
                           ==> x in r
    ensures !fails && |r| < limit ==> forall x :: x in rows.Values && InWindow(x, groupId) ==> x in r
  {
    if fails then [] else NewestMatching(rows, nextId, m => InWindow(m, groupId), limit)
  }

  // ---------------------------------------------------------------------------
  // Mentions

  /** `/@gemini/i.test(content)`; absent content is tested as the string "undefined". */
  predicate IsMention(content: Option<string>) {
    content.Some? && ContainsCI(content.value, MENTION)
  }

  /** The user's prompt in `handleMention`: every `@gemini`, in any case, removed, then trimmed. */
  function StripMention(s: string): (r: string)
    ensures |r| <= |s| - |MENTION| || !ContainsCI(s, MENTION)
    ensures !ContainsCI(s, MENTION) ==> r == Trim(s)
    ensures r == [] || (!IsJsWhitespace(r[0]) && !IsJsWhitespace(r[|r| - 1]))
  {
    RemoveAllCIBounds(s, MENTION);
    TrimShape(RemoveAllCI(s, MENTION));
    Trim(RemoveAllCI(s, MENTION))
  }

  /** The text before the first mention is kept, that mention is dropped, and the rest is
      stripped in the same way before the whole is trimmed. */
  lemma FirstMentionIsDropped(s: string, k: nat)
    requires k <= |s| && StartsWithCI(s[k..], MENTION)
    requires forall i :: 0 <= i < k ==> !StartsWithCI(s[i..], MENTION)
    ensures StripMention(s) == Trim(s[..k] + RemoveAllCI(s[k + |MENTION|..], MENTION))
  {
    RemoveAllCIFirstMatch(s, MENTION, k);
  }

  /** A message that opens with the mention, in any case, and does not mention the bot again
      becomes the rest of the message, trimmed. */
  lemma {:induction false} LeadingMentionIsDropped(tag: string, rest: string)
    requires |tag| == |MENTION| && StartsWithCI(tag, MENTION) && !ContainsCI(rest, MENTION)
    ensures StripMention(tag + rest) == Trim(rest)
  {
    var s := tag + rest;
    assert StartsWithCI(s, MENTION) by {
      forall i | 0 <= i < |MENTION| ensures Lower(s[i]) == Lower(MENTION[i]) {
        assert s[i] == tag[i];
      }
    }
    assert s[|MENTION|..] == rest;
    assert RemoveAllCI(s, MENTION) == RemoveAllCI(rest, MENTION);
    RemoveAllCIBounds(rest, MENTION);
  }

  /** `handleMention`: the model's answer to the recent context (15 messages) and the stripped
      prompt, or the glitch reply when the call throws. `generate` stands for the model call. */
  function HandleMention(rows: map<MessageId, ChatMessage>, nextId: MessageId, groupId: GroupId,
                         senderUsername: string, content: string, recentFails: bool,
                         generate: (seq<ChatMessage>, string, string) -> Option<string>): (reply: string)
    requires forall id :: id in rows ==> id < nextId && rows[id].id == id
    ensures var answer := generate(RecentMessages(rows, nextId, groupId, RECENT_LIMIT, recentFails), senderUsername,
                                   StripMention(content));
            && (answer == None ==> reply == GLITCH_REPLY)
            && (answer.Some? ==> reply == answer.value)
  {
    var context := RecentMessages(rows, nextId, groupId, RECENT_LIMIT, recentFails);
    match generate(context, senderUsername, StripMention(content))
    case None => GLITCH_REPLY
    case Some(text) => text
  }

  // ---------------------------------------------------------------------------
  // Roasts

  /** The two fields of the parsed answer, as JavaScript reads them: the truthiness of
      `shouldRoast`, and `roast`. */
  datatype RoastJson = RoastJson(shouldRoast: bool, roast: Option<string>)

  /** The markdown fence clean-up: drop every "```json" and then every "```", each with one
      newline after it, and trim. */
  function StripFences(t: string): string {
    Trim(RemoveToken(RemoveToken(t, "```json"), "```"))
  }

  /** A body without backticks wrapped in a ```json fence comes out as the trimmed body. */
  lemma {:induction false} FencedJsonIsUnwrapped(body: string)
    requires forall i :: 0 <= i < |body| ==> body[i] != '`'
    ensures StripFences("```json\n" + body + "\n```") == Trim(body)
  {
    var t := "```json\n" + body + "\n```";
    var j := "```json";
    assert j <= t;
    assert t[|j|..] == "\n" + (body + "\n```");
    assert t[|j|..][1..] == body + "\n```";
    RemoveTokenPrefix(body, "\n```", j);
    assert RemoveToken("```", j) == "```" by {
      assert !(j <= "```");
      assert !(j <= "``");
      assert !(j <= "`");
      assert "```"[1..] == "``" && "``"[1..] == "`" && "`"[1..] == [];
    }
    assert RemoveToken("\n```", j) == "\n```" by {
      assert !(j <= "\n```");
      assert "\n```"[1..] == "```";
    }
    assert RemoveToken(t, j) == body + "\n```";
    var f := "```";
    RemoveTokenPrefix(body, "\n```", f);
    assert RemoveToken("\n```", f) == "\n" by {
      assert !(f <= "\n```");
      assert "\n```"[1..] == "```";
      assert f <= "```";
      assert "```"[|f|..] == [];
    }
    assert RemoveToken(body + "\n```", f) == body + "\n";
    TrimDropsTrailingWhitespace(body, '\n');
  }

  /** `checkForRoast`: content shorter than 10 UTF-16 units (or absent, whose `.length`
      throws) is never roasted; past the random gate, the model's trimmed answer is cleaned of
      fences and parsed, and the roast is returned only if `shouldRoast` is truthy and `roast`
      is a non-empty string. A failed call or parse gives `None`. */
  function CheckForRoast(content: Option<string>, gatePasses: bool, generated: Option<string>,
                         parse: string -> Option<RoastJson>): (r: Option<string>)
    ensures r.Some? <==>
      && content.Some? && Utf16Length(content.value) >= ROAST_MIN_LENGTH
      && gatePasses && generated.Some?
      && parse(StripFences(Trim(generated.value))).Some?
      && parse(StripFences(Trim(generated.value))).value.shouldRoast
      && Truthy(parse(StripFences(Trim(generated.value))).value.roast)
    ensures r.Some? ==> r == parse(StripFences(Trim(generated.value))).value.roast && r.value != ""
  {
    if content.None? || Utf16Length(content.value) < ROAST_MIN_LENGTH then None
    else if !gatePasses then None
    else match generated
      case None => None
      case Some(text) =>
        match parse(StripFences(Trim(text)))
        case None => None
        case Some(answer) => if answer.shouldRoast && Truthy(answer.roast) then answer.roast else None
  }

  /** Text of the Basic Multilingual Plane has one UTF-16 unit per character. */
  lemma {:induction false} BmpLength(s: string)
    requires forall i :: 0 <= i < |s| ==> s[i] as int <= 0xFFFF
    ensures Utf16Length(s) == |s|
  {
    if s != [] {
      BmpLength(s[1..]);
    }
  }

  /** Fewer than ten characters of the Basic Multilingual Plane are never roasted, whatever the
      gate, the model and the parser do. */
  lemma ShortMessagesAreNotRoasted(s: string, gatePasses: bool, generated: Option<string>,
                                   parse: string -> Option<RoastJson>)
    requires |s| < ROAST_MIN_LENGTH
    requires forall i :: 0 <= i < |s| ==> s[i] as int <= 0xFFFF
    ensures CheckForRoast(Some(s), gatePasses, generated, parse) == None
  {
    BmpLength(s);
  }
}
