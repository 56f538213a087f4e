# Beme backend rules in Dafny

A model of the rules that the Beme group-chat backend enforces beneath its SQL. Each database
table is an in-memory map, and each request or socket handler is one atomic method that checks
its guards and then changes the maps. The areas covered:

- **Chat over sockets.** Joining and leaving group rooms; sending, editing and soft-deleting
  messages; typing relays; read receipts; the slash-command games; and the Gemini bot's
  follow-ups. Socket.io is a set of (socket, room) pairs plus an outbox of emissions, each with
  its audience.
- **Chat queries.** The history page (filter, cursor, limit, newest-first then reversed) and
  the unread counts, written as pure functions over the message and receipt tables.
- **Time capsules.** Creation with contributors; edit, delete, add content and delete content
  only while locked; reactions only once unlocked; the creator's unlock; and the hourly sweep,
  all as a locked → unlocked state machine.
- **Vaults.** Creation with an optional initial message, message validation, owner-only edit
  and soft delete, the vault page and the group listing that hide deleted messages, and the
  cascading vault delete.
- **Timeline events.** Creation with de-duplicated participants; creator-only update, delete
  and pin toggle; media and comment deletion rights; one reaction per user; and the search
  guard.
- **Groups.** The creator becomes admin; admin-only update and soft delete; the limited view
  for non-members; and the member order.
- **Bot helpers and the truth-or-dare endpoint.**

Timestamps are integers and "now" is a parameter. Database failures that the code handles are
boolean (or set) parameters. Random choices are the verifier's choice operator or oracle
parameters. Serial ids come from a counter, and user ids are strings.

Layout, one module per source file plus four shared ones:

| file | module | models |
|---|---|---|
| wrappers.dfy | Wrappers | `Option`, `Result` |
| js_strings.dfy | JsStrings | JavaScript truthiness and `x \|\| d`, UTF-16 length, `trim()`, case-insensitive regex tests and removals |
| ordering.dfy | Ordering | `ORDER BY` keys, sorting, `reverse()`, `WHERE`, `ORDER BY … DESC LIMIT n` then `reverse()` |
| membership.dfy | Membership | the `group_members` table and the membership and admin tests |
| message_store.dfy | MessageStore | the `chat_messages` and `message_read_receipts` tables |
| socket_server.dfy | SocketServer | backend/utils/socketserver.js |
| gemini.dfy | Gemini | backend/utils/gemini.js |
| game.dfy | Game | backend/controllers/GameController.js |
| chat_history.dfy | ChatHistory | backend/controllers/ChatControllers.js |
| groups.dfy | Groups | backend/controllers/groupController.js |
| capsules.dfy | Capsules | backend/controllers/capsuleController.js |
| capsule_unlock.dfy | CapsuleUnlock | backend/utils/capsuleUnlock.js |
| vaults.dfy | Vaults | backend/controllers/vaultController.js |
| timeline.dfy | Timeline | backend/controllers/timelineController.js |

In these places the model follows the code:

- The `message:read` notice goes to the sender on every read of an existing message, repeat
  reads included.
- Re-deleting an already deleted chat message is accepted.
- A vault message with no `message_type` is rejected. The type whitelist runs before the
  `'text'` default is applied, so that default never takes effect.
- Deleting a capsule removes only the capsule row. No cascade is visible in the code, while
  the vault and timeline deletes say in comments that they cascade.

## Model

| member | source | states |
|---|---|---|
| SocketServer.Server.JoinGroup | backend/utils/socketserver.js:110-140 | a member's socket joins `group:<id>` and the rest of the room hears `user:joined`; a non-member only gets the error, and no room changes; a failing membership query only sends "Failed to join group" to the socket; sockets in group rooms stay members' sockets |
| SocketServer.Server.LeaveGroup | backend/utils/socketserver.js:142-152 | the socket leaves the room with no membership check, and the others hear `user:left` |
| SocketServer.NewMessage | backend/utils/socketserver.js:180-187 | the stored row keeps the content as sent; its type is 'text' exactly when no truthy type is given (or 'text' itself); media is NULL exactly when absent or empty; it is neither edited nor deleted |
| SocketServer.Server.SendMessage | backend/utils/socketserver.js:154-236 | a non-member's send stores nothing and only emits an error to the sender; a member's send stores `NewMessage`, broadcasts `message:new` to the group, sends `message:sent` (tempId → id) to the sending socket only, and hands on a follow-up exactly when the sender is not the bot |
| SocketServer.Server.EditMessage | backend/utils/socketserver.js:238-281 | edit succeeds exactly when the message exists, is the actor's, and is not deleted; it stores the content with `is_edited` and keeps the rest of the row, then emits `message:edited` to the group; otherwise nothing changes and the single shared error is sent; a failing query sends "Failed to edit message" and changes nothing |
| SocketServer.Edited | backend/utils/socketserver.js:258-266 | only content, `is_edited` and `updated_at` change |
| SocketServer.Server.DeleteMessage | backend/utils/socketserver.js:283-321 | the owner's delete (deleted or not) writes the tombstone and emits only the id; anyone else gets the shared error and nothing changes; a failing query sends "Failed to delete message" and changes nothing |
| SocketServer.Tombstoned | backend/utils/socketserver.js:302-309 | sets `is_deleted`, the "[Message deleted]" content and `updated_at`, and nothing else |
| SocketServer.DeletedMessagesStayDeleted | backend/utils/socketserver.js:243-253 | after a delete the message can no longer be edited but can be deleted again, leaving the same tombstone |
| SocketServer.Server.Typing | backend/utils/socketserver.js:323-336 | typing start/stop are relayed to the rest of the group room with no membership check, and nothing else changes |
| SocketServer.Server.MarkRead | backend/utils/socketserver.js:338-371 | at most one receipt per (message, reader), keeping the first read time; the sender's personal room is notified whenever the message exists, repeat reads included; no notice for a missing message; a failing insert changes nothing and a failing lookup sends no notice, with no error event either way |
| SocketServer.PersonalRoomReachesUser | backend/utils/socketserver.js:360 | a notice to `user:<u>` reaches exactly the sockets connected as `u` |
| SocketServer.GroupRoomReachesMembers | backend/utils/socketserver.js:210 | a broadcast to `group:<g>` reaches only sockets of members of `g` |
| SocketServer.ParseCommand | backend/utils/socketserver.js:398-411 | each command is recognised exactly when its case-insensitive prefix matches, and absent content matches none |
| SocketServer.CommandLetter | backend/utils/socketserver.js:398-406 | the three prefixes are told apart by their first letter, so they exclude one another |
| SocketServer.GameTextShape | backend/utils/socketserver.js:418-420 | a game text is the command's header followed by an element of that command's list, unchanged |
| SocketServer.Server.ProcessGameCommand | backend/utils/socketserver.js:391-436 | a bot message is posted exactly for `/truth` or `/dare` when the save succeeds; it is a bot row holding a game text for that command, and it is broadcast to the group; otherwise nothing changes |
| SocketServer.GeminiText | backend/utils/socketserver.js:438-474 | a mention yields exactly the model's answer to the recent messages and the stripped prompt (the glitch reply when it fails; nothing when it is empty); other content yields the roast check's result, which needs the gate to pass and at least ten UTF-16 units |
| SocketServer.Server.ProcessGeminiResponse | backend/utils/socketserver.js:438-479 | the text `GeminiText` chooses is stored as a bot message and broadcast exactly when it exists and the save succeeds; otherwise nothing changes |
| MessageStore.MessageTable.Insert | backend/utils/socketserver.js:174-189 | the insert takes a fresh id with both flags false and both timestamps now, and leaves the receipts alone |
| MessageStore.NewestMatching | backend/controllers/ChatControllers.js:41-75 | at most `limit` qualifying rows, each once, ascending by creation; every qualifying row newer than a returned one is returned; fewer than `limit` means all qualifying rows |
| Gemini.WithBotProfile | backend/utils/gemini.js:56-78 | the bot row is added only when absent and no other row holds its auth id or email; existing rows are untouched |
| Gemini.EnsureBotProfileIdempotent | backend/utils/gemini.js:61-72 | ensuring the bot profile twice is ensuring it once |
| Gemini.ProfileTable.EnsureBotProfile | backend/utils/gemini.js:56-78 | the table becomes `WithBotProfile` of the old table |
| Gemini.BuildBotPayload | backend/utils/gemini.js:204-222 | copies id, group, content and creation time; the sender is the bot; type 'text'; media and reply NULL; not edited; `isBot` set |
| Gemini.BotPayloadMatchesSocketFormat | backend/utils/gemini.js:201-222 | for a bot row, the bot payload is the socket payload of that row with the bot as sender, plus `isBot` |
| Gemini.SaveBotMessage | backend/utils/gemini.js:185-199 | on failure returns none and stores nothing; otherwise stores and returns a bot-sent 'text' row with the given content in the group |
| Gemini.RecentMessages | backend/utils/gemini.js:83-99 | `[]` on error; otherwise at most `limit` non-deleted messages of the group, each once, oldest first, the newest ones, and all of them when fewer come back |
| Gemini.StripMention | backend/utils/gemini.js:115 | the prompt starts and ends with non-white-space (or is empty); removing mentions shortens the text by at least the tag's length when one occurs, and is plain `trim()` when none does |
| Gemini.FirstMentionIsDropped | backend/utils/gemini.js:115 | the text before the first mention is kept, that mention goes, and the rest is stripped the same way before trimming |
| Gemini.LeadingMentionIsDropped | backend/utils/gemini.js:115 | "@Gemini rest" (any case), with no further mention in rest, becomes `trim(rest)` |
| Gemini.HandleMention | backend/utils/gemini.js:104-136 | a failed generation gives the glitch reply; a successful one gives exactly the model's answer to the 15 recent messages and the stripped prompt |
| Gemini.FencedJsonIsUnwrapped | backend/utils/gemini.js:163-166 | a body without backticks inside a ```json fence comes out as the trimmed body |
| Gemini.CheckForRoast | backend/utils/gemini.js:142-180 | the roast is returned exactly when the content has at least 10 UTF-16 units, the gate passes, generation succeeds and the fence-stripped answer parses with a truthy `shouldRoast` and a non-empty `roast`; otherwise null |
| Gemini.ShortMessagesAreNotRoasted | backend/utils/gemini.js:145 | content of fewer than ten characters of the Basic Multilingual Plane is never roasted, whatever the model says |
| Game.GetRandom | backend/controllers/GameController.js:5 | an empty list gives `undefined`; otherwise the result is an element of the list |
| Game.GetTruthOrDare | backend/controllers/GameController.js:8-27 | "truth" gives a 200 echoing the type with an element of `truths`, "dare" with an element of `dares`, and any other type a 400 with the fixed message |
| ChatHistory.ReadBy | backend/controllers/ChatControllers.js:31-38 | `readBy` holds exactly the message's receipts with their read times, and is empty exactly when there are none |
| ChatHistory.WithReceipts | backend/controllers/ChatControllers.js:59-75 | each page message is paired with its own receipts, in page order |
| ChatHistory.GetChatHistory | backend/controllers/ChatControllers.js:7-85 | non-members get the error; members get at most `limit` (default 50) non-deleted messages of the group, created before the cursor when one is given, in chronological order; they are the newest such messages, each once, all of them when fewer come back, each with its receipts |
| ChatHistory.UnreadCounts | backend/controllers/ChatControllers.js:91-121 | one entry per group of the user that has unread messages, i.e. messages by others, not deleted and without the user's receipt; the entry is their number |
| ChatHistory.OwnMessagesAreNotUnread | backend/controllers/ChatControllers.js:102 | a message the user sends leaves their unread counts unchanged |
| ChatHistory.ReceiptRemovesOne | backend/controllers/ChatControllers.js:104-107 | a receipt removes exactly that message from the unread set |
| ChatHistory.ReadingAMessageLowersItsCount | backend/controllers/ChatControllers.js:95-109 | reading an unread message lowers its group's count by one (dropping the group at zero) and leaves other groups alone |
| ChatHistory.ReadLowersOwnGroup | backend/controllers/ChatControllers.js:95-109 | the group of the message read loses exactly one unread message |
| ChatHistory.ReadLeavesOtherGroups | backend/controllers/ChatControllers.js:95-109 | the counts of other groups are unchanged by the read |
| Groups.GroupStore.CreateGroup | backend/controllers/groupController.js:3-49 | on failure nothing persists; otherwise the group row (optional fields NULL when empty) is inserted and its creator is an admin member |
| Groups.Updated | backend/controllers/groupController.js:164-181 | name, description, avatar and settings are overwritten (NULL or `{}` defaults) and `updated_at` set; invite code, creator, active flag and creation time are kept |
| Groups.GroupStore.UpdateGroup | backend/controllers/groupController.js:143-194 | non-admins get "Only admins can update group details"; a missing row gets "Group not found"; otherwise the row becomes `Updated` |
| Groups.GroupStore.DeleteGroup | backend/controllers/groupController.js:196-233 | only an admin may delete; the row stays, marked inactive |
| Groups.Entries | backend/controllers/groupController.js:99-109 | the member list holds exactly the group's member rows |
| Groups.GetGroupById | backend/controllers/groupController.js:52-140 | a missing or inactive group is "Group not found"; a non-member gets exactly id, name, description, avatar and member count; a member gets the row, the count, `is_admin` and every member exactly once, sorted by (admin first, join time) |
| Groups.AdminsComeFirst | backend/controllers/groupController.js:110-115 | in the member list every admin comes before every other member, and members of one role are in joining order |
| Groups.DeletedGroupIsNotFound | backend/controllers/groupController.js:62-70 | after a soft delete the group page says "Group not found" to everybody |
| Capsules.NewCapsule | backend/controllers/capsuleController.js:38-61 | a new capsule is locked and not read-only, with the request's fields and the NULL/'default' defaults |
| Capsules.Invited | backend/controllers/capsuleController.js:69-77 | extra contributors are exactly the listed users, and only for a collaborative capsule |
| Capsules.CreateError | backend/controllers/capsuleController.js:22-36 | creation is refused exactly for non-members, then for an unlock date that is not after now |
| Capsules.CapsuleStore.CreateCapsule | backend/controllers/capsuleController.js:3-93 | on any failure nothing persists; otherwise the capsule is inserted and the contributors are the creator plus the invited users, each once |
| Capsules.UpdateError | backend/controllers/capsuleController.js:300-312 | update is allowed exactly for the creator of a locked, not read-only capsule, with the source's three errors in order |
| Capsules.CapsuleStore.UpdateCapsule | backend/controllers/capsuleController.js:288-339 | a permitted update rewrites title, description, thumbnail and theme with their defaults and nothing else; a refused one changes nothing |
| Capsules.DeleteError | backend/controllers/capsuleController.js:352-364 | delete is allowed exactly for the creator of a locked capsule |
| Capsules.CapsuleStore.DeleteCapsule | backend/controllers/capsuleController.js:341-377 | a permitted delete removes the capsule row; a refused one changes nothing |
| Capsules.AddContentError | backend/controllers/capsuleController.js:405-433 | adding content needs, in this order, the capsule to exist and be locked, the actor to be the creator (not collaborative) or a contributor (collaborative), the deadline not to have passed, and a whitelisted type |
| Capsules.CapsuleStore.AddContent | backend/controllers/capsuleController.js:379-470 | an accepted item is stored under a fresh id with the NULL/0/`{}` defaults; a refused one changes nothing |
| Capsules.DeleteContentError | backend/controllers/capsuleController.js:483-489 | content may be deleted only from an existing locked capsule |
| Capsules.CapsuleStore.DeleteContent | backend/controllers/capsuleController.js:472-512 | removes the item only if it is the actor's and in that capsule, else "Content not found or unauthorized" |
| Capsules.ReactError | backend/controllers/capsuleController.js:526-532 | reactions are refused on a missing or locked capsule |
| Capsules.CapsuleStore.AddReaction | backend/controllers/capsuleController.js:514-554 | on an unlocked capsule the (capsule, user) reaction is set to the emoji, replacing any earlier one |
| Capsules.CapsuleStore.RemoveReaction | backend/controllers/capsuleController.js:556-582 | removes the user's reaction, or reports "Reaction not found" and changes nothing |
| Capsules.UnlockError | backend/controllers/capsuleController.js:595-607 | unlock is allowed exactly for the creator of a locked capsule |
| Capsules.CapsuleStore.UnlockCapsule | backend/controllers/capsuleController.js:584-628 | a permitted unlock clears `is_locked` and nothing else; a refused one changes nothing |
| Capsules.PhasesExclude | backend/controllers/capsuleController.js:288-532 | when reactions are allowed, update, delete, add content and delete content are all refused, and a locked capsule refuses reactions |
| Capsules.UnlockHappensOnce | backend/controllers/capsuleController.js:605-617 | after a permitted unlock a second unlock reports "already unlocked", and reactions go from refused to allowed |
| Capsules.ContentsOf | backend/controllers/capsuleController.js:151-165 | the capsule's contents are exactly its items, each once, ordered by (order index, creation time) |
| Capsules.CapsulePage | backend/controllers/capsuleController.js:96-233 | missing capsule and non-member errors; contents only when unlocked (empty while locked), each item once; the contributors, the `is_contributor` flag and the users who reacted |
| Capsules.CapsuleStore.ViewCapsule | backend/controllers/capsuleController.js:96-233 | returns `CapsulePage` and records a view exactly when an unlocked capsule is shown |
| CapsuleUnlock.DueIds | backend/utils/capsuleUnlock.js:9-16 | the selected capsules are exactly the locked ones whose unlock date is at or before now |
| CapsuleUnlock.Swept | backend/utils/capsuleUnlock.js:8-43 | after a sweep a capsule is unlocked exactly when it already was, or was due and its own update did not fail; only the lock flag changes; a failed selection changes nothing |
| CapsuleUnlock.UnlockEach | backend/utils/capsuleUnlock.js:25-39 | the loop unlocks every selected capsule whose update does not fail, skipping failures without stopping |
| CapsuleUnlock.Sweep | backend/utils/capsuleUnlock.js:5-44 | one run leaves the capsules as `Swept` says and every other table unchanged |
| CapsuleUnlock.SweepNeverRelocks | backend/utils/capsuleUnlock.js:27-30 | the sweep never locks a capsule |
| CapsuleUnlock.SweepLeavesOthers | backend/utils/capsuleUnlock.js:9-13 | capsules that are already unlocked or not yet due are left exactly as they were |
| CapsuleUnlock.SecondSweepRetriesOnlyFailures | backend/utils/capsuleUnlock.js:11-21 | a second sweep at the same instant changes only capsules whose first update failed, and after a first sweep without failures it changes nothing |
| Vaults.InitialMessage | backend/controllers/vaultController.js:51-52 | an initial message is stored exactly when it is not all white space; the stored text is the trimmed one, non-empty, starting and ending with non-white-space |
| Vaults.VaultStore.CreateVault | backend/controllers/vaultController.js:3-81 | non-members and failures leave nothing; otherwise the vault is inserted, plus the trimmed initial message as 'text' (bumping `updated_at`) when there is one |
| Vaults.AddMessageError | backend/controllers/vaultController.js:228-262 | a message is accepted exactly when the vault exists, the actor is a member, any reply target is a live message of the same vault, it has content or media, and its type is whitelisted; the errors come in that order |
| Vaults.AcceptedMessageShape | backend/controllers/vaultController.js:255-281 | an accepted message has content or media, a whitelisted type, and a reply target in the same vault |
| Vaults.MissingTypeIsRejected | backend/controllers/vaultController.js:260-277 | a message without a type is always refused, with "Invalid message type" once the earlier checks pass |
| Vaults.VaultStore.AddMessage | backend/controllers/vaultController.js:206-319 | an accepted message is stored under a fresh id and the vault's `updated_at` is bumped; a refused one persists nothing |
| Vaults.OwnMessageError | backend/controllers/vaultController.js:329-340 | edit and delete need a live message in that vault ("Message not found") sent by the actor (a separate error) |
| Vaults.VaultStore.UpdateMessage | backend/controllers/vaultController.js:322-366 | a permitted edit sets content and media (NULL when empty), `is_edited` and `updated_at`; a refused one changes nothing |
| Vaults.VaultStore.DeleteMessage | backend/controllers/vaultController.js:368-401 | a permitted delete only sets `is_deleted` and `updated_at`; a refused one changes nothing |
| Vaults.VaultStore.DeleteVault | backend/controllers/vaultController.js:403-441 | only the creator may delete; the vault and all its messages go |
| Vaults.LiveMessages | backend/controllers/vaultController.js:120-131 | the vault page lists exactly the vault's non-deleted messages, each once, ascending by creation |
| Vaults.GetVault | backend/controllers/vaultController.js:83-162 | missing vault and non-member errors; otherwise the vault and its live messages, each once, in order |
| Vaults.GroupVaults | backend/controllers/vaultController.js:164-204 | non-members get the error; members get every vault of the group once, with its live-message count, newest first |
| Vaults.DeletedMessageLeavesThePage | backend/controllers/vaultController.js:388-391 | after a soft delete the message is gone from the vault page |
| Vaults.DeletedMessageIsNotCounted | backend/controllers/vaultController.js:185-188 | a soft delete lowers the vault's message count by one |
| Vaults.InsertKeepsReplies | backend/controllers/vaultController.js:243-252 | storing a message whose reply target is in its vault keeps every reply inside its own vault |
| Timeline.WithFields | backend/controllers/timelineController.js:46-56 | the editable fields take the request's values with NULL, 'memory' and `[]` defaults; group, creator, pin flag and creation time are kept |
| Timeline.NewParticipants | backend/controllers/timelineController.js:61-75 | the new participants are exactly the creator and the listed users, all added by the creator |
| Timeline.AddParticipants | backend/controllers/timelineController.js:61-75 | the insert loop adds the creator, then each listed user unless already present, giving `NewParticipants` |
| Timeline.TimelineStore.CreateEvent | backend/controllers/timelineController.js:7-94 | non-members and failures leave no rows; otherwise the event is inserted with its defaults and its participants are `NewParticipants` |
| Timeline.CreatorError | backend/controllers/timelineController.js:394-400 | update, delete and pin need an existing event ("Event not found") created by the actor |
| Timeline.TimelineStore.UpdateEvent | backend/controllers/timelineController.js:374-433 | a permitted update applies `WithFields`; a refused one changes nothing |
| Timeline.TimelineStore.DeleteEvent | backend/controllers/timelineController.js:438-470 | a permitted delete removes the event and its participants, media, comments and reactions |
| Timeline.MediaDeletionRights | backend/controllers/timelineController.js:558-573 | the uploader or the event's creator may delete a media row of that event, and nobody else may |
| Timeline.TimelineStore.DeleteMedia | backend/controllers/timelineController.js:552-586 | the row is removed exactly when `MayDeleteMedia` holds; otherwise the error, and nothing changes |
| Timeline.TimelineStore.DeleteComment | backend/controllers/timelineController.js:635-662 | only the comment's author removes it; anyone else gets the error, and nothing changes |
| Timeline.TimelineStore.AddReaction | backend/controllers/timelineController.js:666-691 | the (event, user) reaction is set to the emoji, replacing any earlier one |
| Timeline.TimelineStore.RemoveReaction | backend/controllers/timelineController.js:697-720 | removes the user's reaction, or reports "Reaction not found" and changes nothing |
| Timeline.Toggled | backend/controllers/timelineController.js:747-754 | the pin flag is negated and nothing else changes |
| Timeline.PinTwiceRestores | backend/controllers/timelineController.js:747-754 | toggling twice restores the event |
| Timeline.TimelineStore.TogglePin | backend/controllers/timelineController.js:728-767 | the creator flips the pin flag and gets "Event pinned" or "Event unpinned" to match; others get the error |
| Timeline.SearchQuery | backend/controllers/timelineController.js:776-781 | a query is refused exactly when it is missing, empty, or shorter than two UTF-16 units once trimmed; the search uses the trimmed text |
| Timeline.SearchIgnoresSurroundingWhitespace | backend/controllers/timelineController.js:776-781 | a query and its trimmed form are accepted or refused alike and search for the same text |
| JsStrings.TrimShape | backend/controllers/vaultController.js:51-52 | `trim()` is empty exactly for all-white-space text, and otherwise starts and ends with non-white-space |
| JsStrings.TrimIdempotent | backend/controllers/timelineController.js:776-781 | trimming twice is trimming once |
| JsStrings.RemoveAllCIBounds | backend/utils/gemini.js:115 | removing every case-insensitive match never lengthens the text, shortens it by at least the pattern when it occurs, and changes nothing when it does not |
| JsStrings.RemoveAllCIFirstMatch | backend/utils/gemini.js:115 | the text before the first match is kept, the match is removed and the scan resumes after it; with the no-match case this fixes the result for every input |
| JsStrings.RemoveTokenAbsent | backend/utils/gemini.js:163-166 | removing a fence that does not occur changes nothing |
| Ordering.NewestInOrder | backend/controllers/ChatControllers.js:53-75 | `ORDER BY … DESC LIMIT n` then `reverse()` gives the `n` newest elements, ascending, a sub-multiset of the input and all of it when `n` is large enough |
| Ordering.SortBy | backend/controllers/groupController.js:110-115 | sorting gives an ascending permutation |

## Left out

- Socket.io, auth and server plumbing are not modelled: server construction, CORS, the token middleware, event wiring, auto-join at connect and disconnect logging. They are I/O and calls into the identity provider.
- The Gemini model, its prompts, the 25% random gate and the reply delays are foreign calls, randomness and timing. They are oracle parameters of `GeminiText`.
- The `/sike` paths: the sike question list is not exported by the game data module, so drawing from it fails. The model recognises the command and posts nothing, and `getSikeQuestion` is not modelled.
- The cron schedule: one run of the sweep is `Sweep` at an explicit instant.
- Database-side work: `generate_invite_code`, `get_timeline_event_stats`, `search_timeline_events`, the recursive comment query and the `json_agg` reaction groups by emoji. `Capsules.CapsulePage` reports the set of users who reacted, not the per-emoji grouping.
- Profile joins, which add sender, creator and member names to rows, are not modelled.
- Foreign keys and cascades that the code does not show are not modelled. The exceptions are the cascades the source's comments name, for vaults and timeline events.
- The schema is not part of this model, so the columns the INSERT statements leave out take assumed defaults: `is_active` true and `settings` NULL for groups, `is_locked` true and `is_read_only` false for capsules (`Capsules.NewCapsule`), `is_pinned` false for timeline events (`Timeline.NewEvent`), `is_edited` and `is_deleted` false for chat and vault messages, and the current instant for every creation, update, join and read time.
- Interleavings between awaits are not modelled: each handler runs atomically.
- Database errors are modelled where the code reacts to them in a way the model can state: transactions rolling back, the sweep's per-capsule failures, null or `[]` returns in the bot helpers, and the socket handlers' error events (`SendMessage`, `JoinGroup`, `EditMessage`, `DeleteMessage`) and logged read-receipt failures (`MarkRead`). The request handlers answer any other failing query with status 500; those failures are not modelled.
- Timestamps are integers, and unparseable dates are not modelled. `Capsules.DeadlinePassed` compares integers where the source compares JavaScript dates.
- getGroupTimeline, `getEventById`, `addMedia`, `addComment`, `getGroupCapsules` and the other handlers of these controllers are outside the modelled rules. The post, user and auth controllers and the route files are plain row CRUD.
- The group settings are kept as JSON text, and the capsule `metadata` is an opaque string.
- ChatHistory.GetChatHistory: `limit` is a natural number. A `limit` that `parseInt` cannot read, or a negative one, is not modelled.
- Groups.GroupStore.UpdateGroup does not check `is_active`, so an inactive group can still be updated. The model follows the source here.
- Vaults.VaultStore.UpdateMessage does not re-check that content or media is present, so an edit can leave a message with neither. The model follows the source here.
- Timeline.TimelineStore.AddReaction returns the emoji rather than the whole reaction row. Like the source, it does not check that the event exists.
- Gemini.CheckForRoast measures length in UTF-16 units. The ten-character lemma `Gemini.ShortMessagesAreNotRoasted` is stated for Basic Multilingual Plane text only.
