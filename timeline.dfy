/**
 * Timeline events: a group's dated memories, with participants, media, comments and one
 * reaction per user. Only an event's creator may change, pin or delete it; media may be
 * removed by their uploader or the event's creator, comments only by their author.
 */
module Timeline {
  import opened Wrappers
  import opened Membership
  import opened JsStrings

  /** Event, media and comment ids are serial in this model. */
  type EventId = nat
  type MediaId = nat
  type CommentId = nat

  const EVENT_NOT_FOUND := "Event not found"
  const ONLY_CREATOR_UPDATE := "Only the creator can update this event"
  const ONLY_CREATOR_DELETE := "Only the creator can delete this event"
  const ONLY_CREATOR_PIN := "Only the creator can pin/unpin this event"
  const MEDIA_NOT_FOUND := "Media not found or unauthorized"
  const COMMENT_NOT_FOUND := "Comment not found or unauthorized"
  const REACTION_NOT_FOUND := "Reaction not found"
  const QUERY_TOO_SHORT := "Search query must be at least 2 characters"
  const EVENT_PINNED := "Event pinned"
  const EVENT_UNPINNED := "Event unpinned"
  /** Stands for whatever error the database raises inside the creation transaction. */
  const DB_ERROR := "database error"

  /** A `timeline_events` row. */
  datatype Event = Event(
    groupId: GroupId,
    createdBy: UserId,
    title: string,
    description: Option<string>,
    eventDate: int,
    location: Option<string>,
    eventType: string,
    coverImageUrl: Option<string>,
    tags: seq<string>,
    isPinned: bool,
    createdAt: int)

  /** A `timeline_event_media` row. */
  datatype Media = Media(eventId: EventId, uploadedBy: UserId, mediaType: string, mediaUrl: string)

  /** A `timeline_event_comments` row. */
  datatype Comment = Comment(eventId: EventId, userId: UserId, text: string, parentId: Option<CommentId>)

  /** The editable fields of an event, as a create or update request carries them. */
  datatype EventFields = EventFields(
    title: string,
    description: Option<string>,
    eventDate: int,
    location: Option<string>,
    eventType: Option<string>,
    coverImageUrl: Option<string>,
    tags: Option<seq<string>>)

  /** `event` with the request's fields written over it: optional text defaults to NULL, the
      type to 'memory' and the tags to the empty list (an array is always truthy). */
  function WithFields(e: Event, f: EventFields): (r: Event)
    ensures r.description == OrNull(f.description) && r.location == OrNull(f.location)
    ensures r.coverImageUrl == OrNull(f.coverImageUrl)
    ensures r.eventType == OrDefault(f.eventType, "memory")
    ensures r.tags == (if f.tags.Some? then f.tags.value else [])
    ensures r.title == f.title && r.eventDate == f.eventDate
    ensures r.groupId == e.groupId && r.createdBy == e.createdBy && r.isPinned == e.isPinned && r.createdAt == e.createdAt
  {
    e.(title := f.title, description := OrNull(f.description), eventDate := f.eventDate,
       location := OrNull(f.location), eventType := OrDefault(f.eventType, "memory"),
       coverImageUrl := OrNull(f.coverImageUrl), tags := if f.tags.Some? then f.tags.value else [])
  }

  /** The row `createEvent` inserts: the request's fields with their defaults, unpinned. */
  function NewEvent(g: GroupId, userId: UserId, f: EventFields, now: int): Event {
    WithFields(Event(g, userId, "", None, 0, None, "", None, [], false, now), f)
  }

  /** The participant rows of a new event: the creator and every listed user, each once, all
      added by the creator. */
  function NewParticipants(id: EventId, creator: UserId, listed: seq<UserId>): (r: map<(EventId, UserId), UserId>)
    ensures forall k :: k in r <==> k.0 == id && (k.1 == creator || k.1 in listed)
    ensures forall k :: k in r ==> r[k] == creator
  {
    var keys := {(id, creator)} + set u | u in listed :: (id, u);
    map k | k in keys :: creator
  }

  lemma AddOneParticipant(base: map<(EventId, UserId), UserId>, id: EventId, creator: UserId, prefix: seq<UserId>,
                          u: UserId)
    requires forall k :: k in base ==> k.0 != id
    ensures var cur := base + NewParticipants(id, creator, prefix);
            (if (id, u) in cur then cur else cur[(id, u) := creator]) == base + NewParticipants(id, creator, prefix + [u])
  {
    var cur := base + NewParticipants(id, creator, prefix);
    var next := base + NewParticipants(id, creator, prefix + [u]);
    var lhs := if (id, u) in cur then cur else cur[(id, u) := creator];
    forall k ensures k in lhs <==> k in next {
      assert k.1 in prefix + [u] <==> k.1 in prefix || k.1 == u;
    }
    forall k | k in lhs ensures lhs[k] == next[k] {
      assert k.1 in prefix + [u] <==> k.1 in prefix || k.1 == u;
    }
  }

  /** The participant rows after `createEvent`'s inserts into `base`: the creator first, then
      each listed user unless already present. */
  method AddParticipants(base: map<(EventId, UserId), UserId>, id: EventId, creator: UserId, listed: seq<UserId>)
    returns (parts: map<(EventId, UserId), UserId>)
    requires forall k :: k in base ==> k.0 != id
    ensures parts == base + NewParticipants(id, creator, listed)
  {
    parts := base[(id, creator) := creator];
    assert parts == base + NewParticipants(id, creator, []);
    for i := 0 to |listed|
      invariant parts == base + NewParticipants(id, creator, listed[..i])
    {
      AddOneParticipant(base, id, creator, listed[..i], listed[i]);
      assert listed[..i + 1] == listed[..i] + [listed[i]];
      if (id, listed[i]) !in parts {
        parts := parts[(id, listed[i]) := creator];
      }
    }
    assert listed[..|listed|] == listed;
  }

  /** Event ids below `next` have been handed out, and every event's creator is one of its
      participants. */
  ghost predicate TablesValid(events: map<EventId, Event>, participants: map<(EventId, UserId), UserId>, next: EventId) {
    && (forall id :: id in events ==> id < next && (id, events[id].createdBy) in participants)
    && (forall k :: k in participants ==> k.0 < next)
  }

  /** Creating an event keeps the tables valid. */
  lemma CreateKeepsTablesValid(events: map<EventId, Event>, participants: map<(EventId, UserId), UserId>,
                               next: EventId, e: Event, listed: seq<UserId>)
    requires TablesValid(events, participants, next)
    ensures TablesValid(events[next := e], participants + NewParticipants(next, e.createdBy, listed), next + 1)
  {
    var parts := participants + NewParticipants(next, e.createdBy, listed);
    assert (next, e.createdBy) in parts;
    forall id | id in events ensures (id, events[id].createdBy) in parts {
      assert (id, events[id].createdBy) in participants;
    }
  }

  /** Who may delete a media row: it must belong to the given event, and the user must have
      uploaded it or have created that event. */
  predicate MayDeleteMedia(events: map<EventId, Event>, media: map<MediaId, Media>, e: EventId, m: MediaId,
                           userId: UserId) {
    m in media && media[m].eventId == e
    && (media[m].uploadedBy == userId || (e in events && events[e].createdBy == userId))
  }

  /** The uploader of a media row and the creator of its event may both remove it; no one
      else may. */
  lemma MediaDeletionRights(events: map<EventId, Event>, media: map<MediaId, Media>, m: MediaId, userId: UserId)
    requires m in media
    ensures media[m].uploadedBy == userId ==> MayDeleteMedia(events, media, media[m].eventId, m, userId)
    ensures media[m].eventId in events && events[media[m].eventId].createdBy == userId ==>
              MayDeleteMedia(events, media, media[m].eventId, m, userId)
    ensures (&& media[m].uploadedBy != userId
             && !(media[m].eventId in events && events[media[m].eventId].createdBy == userId))
            ==> forall e :: !MayDeleteMedia(events, media, e, m, userId)
  {
  }

  /** `e` with its pin flag negated. */
  function Toggled(e: Event): (r: Event)
    ensures r.isPinned == !e.isPinned && r.(isPinned := e.isPinned) == e
  {
    e.(isPinned := !e.isPinned)
  }

  /** Pinning twice restores the event. */
  lemma PinTwiceRestores(e: Event)
    ensures Toggled(Toggled(e)) == e
  {
  }

  /** The creator-only guard shared by update, delete and pin. */
  function CreatorError(events: map<EventId, Event>, id: EventId, userId: UserId, notCreator: string): (err: Option<string>)
    ensures err.None? <==> id in events && events[id].createdBy == userId
    ensures id !in events ==> err == Some(EVENT_NOT_FOUND)
    ensures id in events && events[id].createdBy != userId ==> err == Some(notCreator)
  {
    if id !in events then Some(EVENT_NOT_FOUND)
    else if events[id].createdBy != userId then Some(notCreator)
    else None
  }

  /** `searchEvents`' guard: the query must be present and at least two UTF-16 code units
      long once trimmed; the trimmed query is what is searched for. */
  function SearchQuery(q: Option<string>): (r: Result<string>)
    ensures r.Err? <==> !Truthy(q) || Utf16Length(Trim(q.value)) < 2
    ensures r.Err? ==> r.message == QUERY_TOO_SHORT
    ensures r.Ok? ==> r.value == Trim(q.value) && |r.value| >= 1
  {
    if !Truthy(q) || Utf16Length(Trim(q.value)) < 2 then Err(QUERY_TOO_SHORT) else Ok(Trim(q.value))
  }

  /** Surrounding whitespace makes no difference to a search: a query and its trimmed form
      are accepted or refused alike, and search for the same text. */
  lemma {:induction false} SearchIgnoresSurroundingWhitespace(s: string)
    ensures SearchQuery(Some(Trim(s))) == SearchQuery(Some(s))
  {
    if Trim(s) == [] {
      SearchOfBlank(s);
    } else {
      SearchOfNonBlank(s);
    }
  }

  lemma SearchOfBlank(s: string)
    requires Trim(s) == []
    ensures SearchQuery(Some(Trim(s))) == Err(QUERY_TOO_SHORT) == SearchQuery(Some(s))
  {
    assert !Truthy(Some(Trim(s)));
    assert s == [] || Utf16Length(Trim(s)) < 2;
  }

  lemma SearchOfNonBlank(s: string)
    requires Trim(s) != []
    ensures SearchQuery(Some(Trim(s))) == SearchQuery(Some(s))
  {
    var t := Trim(s);
    TrimOfEmpty();
    assert s != [];
    TrimIdempotent(s);
    SearchOfText(t, t);
    SearchOfText(s, t);
  }

  lemma TrimOfEmpty()
    ensures Trim([]) == []
  {
  }

  lemma SearchOfText(x: string, trimmed: string)
    requires x != [] && trimmed == Trim(x)
    ensures SearchQuery(Some(x)) == if Utf16Length(trimmed) < 2 then Err(QUERY_TOO_SHORT) else Ok(trimmed)
  {
  }

  // ---------------------------------------------------------------------------
  // The tables

  class TimelineStore {
    var events: map<EventId, Event>
    /** `timeline_event_participants`, unique on (event, user), holding `added_by`. */
    var participants: map<(EventId, UserId), UserId>
    var media: map<MediaId, Media>
    var comments: map<CommentId, Comment>
    /** `timeline_event_reactions`, unique on (event, user), holding the emoji. */
    var reactions: map<(EventId, UserId), string>
    var nextEvent: EventId

    /** Event ids below `nextEvent` have been handed out, and every event's creator is one of
        its participants. */
    ghost predicate Valid()
      reads this
    {
      TablesValid(events, participants, nextEvent)
    }

    constructor ()
      ensures Valid()
      ensures events == map[] && participants == map[] && media == map[] && comments == map[]
      ensures reactions == map[] && nextEvent == 0
    {
      events := map[];
      participants := map[];
      media := map[];
      comments := map[];
      reactions := map[];
      nextEvent := 0;
    }

    /** `createEvent`: in one transaction, insert the event, make its creator a participant,
        and add each listed user once (`ON CONFLICT DO NOTHING`), all added by the creator.
        `fails` stands for a database error, after which everything is rolled back. */
    method CreateEvent(members: MemberTable, userId: UserId, g: GroupId, f: EventFields,
                       listed: Option<seq<UserId>>, now: int, fails: bool) returns (r: Result<EventId>)
      requires Valid()
      modifies this
      ensures Valid()
      ensures media == old(media) && comments == old(comments) && reactions == old(reactions)
      ensures !IsMember(members, g, userId) ==> r == Err(NOT_A_MEMBER)
      ensures IsMember(members, g, userId) && fails ==> r == Err(DB_ERROR)
      ensures r.Err? ==> events == old(events) && participants == old(participants) && nextEvent == old(nextEvent)
      ensures r.Ok? <==> IsMember(members, g, userId) && !fails
      ensures r.Ok? ==>
                && r.value == old(nextEvent) && r.value !in old(events) && nextEvent == old(nextEvent) + 1
                && events == old(events)[r.value := NewEvent(g, userId, f, now)]
                && participants == old(participants) + NewParticipants(r.value, userId, if listed.Some? then listed.value else [])
    {
      if !IsMember(members, g, userId) {
        return Err(NOT_A_MEMBER);
      }
      if fails {
        return Err(DB_ERROR);
      }
      var id := nextEvent;
      var e := NewEvent(g, userId, f, now);
      var list := if listed.Some? then listed.value else [];
      var parts := AddParticipants(participants, id, userId, list);
      CreateKeepsTablesValid(events, participants, id, e, list);
      events := events[id := e];
      participants := parts;
      nextEvent := nextEvent + 1;
      r := Ok(id);
    }

    /** `updateEvent`: the creator rewrites the editable fields. */
    method UpdateEvent(id: EventId, userId: UserId, f: EventFields) returns (r: Result<Event>)
      requires Valid()
      modifies this
      ensures Valid()
      ensures participants == old(participants) && media == old(media) && comments == old(comments)
      ensures reactions == old(reactions) && nextEvent == old(nextEvent)
      ensures var e := CreatorError(old(events), id, userId, ONLY_CREATOR_UPDATE);
              && (e.Some? ==> r == Err(e.value) && events == old(events))
              && (e.None? ==> r == Ok(WithFields(old(events)[id], f)) && events == old(events)[id := r.value])
    {
      var e := CreatorError(events, id, userId, ONLY_CREATOR_UPDATE);
      if e.Some? {
        return Err(e.value);
      }
      var ev := WithFields(events[id], f);
      events := events[id := ev];
      r := Ok(ev);
    }

    /** `deleteEvent`: the creator deletes the event, and its participants, media, comments
        and reactions go with it. */
    method DeleteEvent(id: EventId, userId: UserId) returns (r: Result<EventId>)
      requires Valid()
      modifies this
      ensures Valid()
      ensures nextEvent == old(nextEvent)
      ensures var e := CreatorError(old(events), id, userId, ONLY_CREATOR_DELETE);
              && (e.Some? ==> && r == Err(e.value) && events == old(events) && participants == old(participants)
                              && media == old(media) && comments == old(comments) && reactions == old(reactions))
              && (e.None? ==>
                    && r == Ok(id) && events == old(events) - {id}
                    && participants == (map k | k in old(participants) && k.0 != id :: old(participants)[k])
                    && media == (map m | m in old(media) && old(media)[m].eventId != id :: old(media)[m])
                    && comments == (map c | c in old(comments) && old(comments)[c].eventId != id :: old(comments)[c])
                    && reactions == (map k | k in old(reactions) && k.0 != id :: old(reactions)[k]))
    {
      var e := CreatorError(events, id, userId, ONLY_CREATOR_DELETE);
      if e.Some? {
        return Err(e.value);
      }
      events := events - {id};
      participants := map k | k in participants && k.0 != id :: participants[k];
      media := map m | m in media && media[m].eventId != id :: media[m];
      comments := map c | c in comments && comments[c].eventId != id :: comments[c];
      reactions := map k | k in reactions && k.0 != id :: reactions[k];
      r := Ok(id);
    }

    /** `deleteMedia`: one conditional delete; a row that is missing, belongs to another
        event, or that the user may not remove is "Media not found or unauthorized". */
    method DeleteMedia(e: EventId, m: MediaId, userId: UserId) returns (r: Result<MediaId>)
      requires Valid()
      modifies this
      ensures Valid()
      ensures events == old(events) && participants == old(participants) && comments == old(comments)
      ensures reactions == old(reactions) && nextEvent == old(nextEvent)
      ensures MayDeleteMedia(old(events), old(media), e, m, userId) ==> r == Ok(m) && media == old(media) - {m}
      ensures !MayDeleteMedia(old(events), old(media), e, m, userId) ==> r == Err(MEDIA_NOT_FOUND) && media == old(media)
    {
      if !MayDeleteMedia(events, media, e, m, userId) {
        return Err(MEDIA_NOT_FOUND);
      }
      media := media - {m};
      r := Ok(m);
    }

    /** `deleteComment`: only the author may delete a comment; the event in the path is not
        consulted. */
    method DeleteComment(c: CommentId, userId: UserId) returns (r: Result<CommentId>)
      requires Valid()
      modifies this
      ensures Valid()
      ensures events == old(events) && participants == old(participants) && media == old(media)
      ensures reactions == old(reactions) && nextEvent == old(nextEvent)
      ensures c in old(comments) && old(comments)[c].userId == userId ==> r == Ok(c) && comments == old(comments) - {c}
      ensures !(c in old(comments) && old(comments)[c].userId == userId) ==>
                r == Err(COMMENT_NOT_FOUND) && comments == old(comments)
    {
      if !(c in comments && comments[c].userId == userId) {
        return Err(COMMENT_NOT_FOUND);
      }
      comments := comments - {c};
      r := Ok(c);
    }

    /** `addReaction`: set the user's one reaction to the event, replacing any earlier emoji. */
    method AddReaction(e: EventId, userId: UserId, emoji: string) returns (r: string)
      requires Valid()
      modifies this
      ensures Valid()
      ensures events == old(events) && participants == old(participants) && media == old(media)
      ensures comments == old(comments) && nextEvent == old(nextEvent)
      ensures r == emoji && reactions == old(reactions)[(e, userId) := emoji]
    {
      reactions := reactions[(e, userId) := emoji];
      r := emoji;
    }

    /** `removeReaction`: delete the user's reaction, which must exist. */
    method RemoveReaction(e: EventId, userId: UserId) returns (r: Result<string>)
      requires Valid()
      modifies this
      ensures Valid()
      ensures events == old(events) && participants == old(participants) && media == old(media)
      ensures comments == old(comments) && nextEvent == old(nextEvent)
      ensures (e, userId) !in old(reactions) ==> r == Err(REACTION_NOT_FOUND) && reactions == old(reactions)
      ensures (e, userId) in old(reactions) ==>
                r == Ok(old(reactions)[(e, userId)]) && reactions == old(reactions) - {(e, userId)}
    {
      if (e, userId) !in reactions {
        return Err(REACTION_NOT_FOUND);
      }
      r := Ok(reactions[(e, userId)]);
      reactions := reactions - {(e, userId)};
    }

    /** `togglePin`: the creator flips the pin flag; the reply says which way it went. */
    method TogglePin(id: EventId, userId: UserId) returns (r: Result<string>)
      requires Valid()
      modifies this
      ensures Valid()
      ensures participants == old(participants) && media == old(media) && comments == old(comments)
      ensures reactions == old(reactions) && nextEvent == old(nextEvent)
      ensures var e := CreatorError(old(events), id, userId, ONLY_CREATOR_PIN);
              && (e.Some? ==> r == Err(e.value) && events == old(events))
              && (e.None? ==> && events == old(events)[id := Toggled(old(events)[id])]
                              && r == Ok(if events[id].isPinned then EVENT_PINNED else EVENT_UNPINNED))
    {
      var e := CreatorError(events, id, userId, ONLY_CREATOR_PIN);
      if e.Some? {
        return Err(e.value);
      }
      var ev := Toggled(events[id]);
      events := events[id := ev];
      r := Ok(if ev.isPinned then EVENT_PINNED else EVENT_UNPINNED);
    }
  }
}
