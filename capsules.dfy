/**
 * Time capsules: a capsule is created locked with an unlock date in the future, collects
 * contents while it is locked, and is unlocked once (by its creator, or by the sweep in
 * module CapsuleUnlock), after which its contents are shown and it can be reacted to.
 */
module Capsules {
  import opened Wrappers
  import opened Membership
  import opened JsStrings
  import Ordering

  /** Capsule and content ids are serial in this model. */
  type CapsuleId = nat
  type ContentId = nat

  const UNLOCK_NOT_FUTURE := "Unlock date must be in the future"
  const CAPSULE_NOT_FOUND := "Capsule not found"
  const ONLY_CREATOR_UPDATE := "Only the creator can update this capsule"
  const NOT_EDITABLE := "Capsule cannot be edited (already unlocked or read-only)"
  const ONLY_CREATOR_DELETE := "Only the creator can delete this capsule"
  const DELETE_UNLOCKED := "Cannot delete unlocked capsules"
  const ADD_TO_UNLOCKED := "Cannot add content to unlocked capsule"
  const ONLY_CREATOR_ADD := "Only the creator can add content to this capsule"
  const NOT_A_CONTRIBUTOR := "You are not a contributor to this capsule"
  const DEADLINE_PASSED := "Contribution deadline has passed"
  const INVALID_CONTENT_TYPE := "Invalid content type"
  const DELETE_FROM_UNLOCKED := "Cannot delete content from unlocked capsule"
  const CONTENT_NOT_FOUND := "Content not found or unauthorized"
  const REACT_TO_LOCKED := "Cannot react to locked capsule"
  const REACTION_NOT_FOUND := "Reaction not found"
  const ONLY_CREATOR_UNLOCK := "Only the creator can unlock this capsule"
  const ALREADY_UNLOCKED := "Capsule is already unlocked"
  /** Stands for whatever error the database raises inside the creation transaction. */
  const DB_ERROR := "database error"

  /** The content types a capsule accepts. */
  const CONTENT_TYPES: seq<string> := ["photo", "note", "voice", "video"]

  /** A `time_capsules` row. Dates are instants as integers. */
  datatype Capsule = Capsule(
    groupId: GroupId,
    createdBy: UserId,
    title: string,
    description: Option<string>,
    unlockDate: int,
    isCollaborative: bool,
    contributionDeadline: Option<int>,
    thumbnailUrl: Option<string>,
    theme: string,
    isLocked: bool,
    isReadOnly: bool,
    createdAt: int)

  /** A `capsule_contents` row. */
  datatype Content = Content(
    id: ContentId,
    capsuleId: CapsuleId,
    userId: UserId,
    contentType: string,
    contentText: Option<string>,
    mediaUrl: Option<string>,
    mediaThumbnailUrl: Option<string>,
    durationSeconds: Option<int>,
    fileSizeBytes: Option<int>,
    metadata: string,
    orderIndex: int,
    createdAt: int)

  /** The body of a create request; an absent `is_collaborative` is `false`. */
  datatype CreateRequest = CreateRequest(
    groupId: GroupId,
    title: string,
    description: Option<string>,
    unlockDate: int,
    isCollaborative: bool,
    contributionDeadline: Option<int>,
    thumbnailUrl: Option<string>,
    theme: Option<string>,
    contributors: Option<seq<UserId>>)

  /** The body of an update request. */
  datatype UpdateRequest = UpdateRequest(title: string, description: Option<string>,
                                         thumbnailUrl: Option<string>, theme: Option<string>)

  /** The body of an add-content request; `metadata` is JSON text. */
  datatype ContentRequest = ContentRequest(
    contentType: Option<string>,
    contentText: Option<string>,
    mediaUrl: Option<string>,
    mediaThumbnailUrl: Option<string>,
    durationSeconds: Option<int>,
    fileSizeBytes: Option<int>,
    metadata: Option<string>,
    orderIndex: Option<int>)

  /** `n || null` on a number: 0 is falsy, so it becomes NULL as well. */
  function NumOrNull(n: Option<int>): (r: Option<int>)
    ensures r.Some? <==> n.Some? && n.value != 0
    ensures r.Some? ==> r == n
  {
    if n.Some? && n.value != 0 then n else None
  }

  /** `n || 0`. */
  function NumOrZero(n: Option<int>): (r: int)
    ensures n.Some? ==> r == n.value
    ensures n.None? ==> r == 0
  {
    if n.Some? then n.value else 0
  }

  /** The row `createCapsule` inserts: optional columns default to NULL and the theme to
      'default'; a new capsule is locked and not read-only. */
  function NewCapsule(userId: UserId, q: CreateRequest, now: int): (c: Capsule)
    ensures c.isLocked && !c.isReadOnly && c.createdBy == userId && c.groupId == q.groupId
    ensures c.unlockDate == q.unlockDate && c.isCollaborative == q.isCollaborative
    ensures c.description == OrNull(q.description) && c.thumbnailUrl == OrNull(q.thumbnailUrl)
    ensures c.theme == OrDefault(q.theme, "default") && c.contributionDeadline == q.contributionDeadline
  {
    Capsule(q.groupId, userId, q.title, OrNull(q.description), q.unlockDate, q.isCollaborative,
            q.contributionDeadline, OrNull(q.thumbnailUrl), OrDefault(q.theme, "default"), true, false, now)
  }

  /** The extra contributor rows of a new capsule: one per listed user, and none unless the
      capsule is collaborative. */
  function Invited(id: CapsuleId, q: CreateRequest): (r: set<(CapsuleId, UserId)>)
    ensures forall k :: k in r <==> k.0 == id && q.isCollaborative && q.contributors.Some? && k.1 in q.contributors.value
  {
    if q.isCollaborative && q.contributors.Some? then set u | u in q.contributors.value :: (id, u) else {}
  }

  // ---------------------------------------------------------------------------
  // The guards of the handlers, in the order the handlers test them

  /** `createCapsule`: the user must belong to the group, and the unlock date must be strictly
      after now. */
  function CreateError(members: MemberTable, userId: UserId, q: CreateRequest, now: int): (e: Option<string>)
    ensures e.None? <==> IsMember(members, q.groupId, userId) && q.unlockDate > now
    ensures !IsMember(members, q.groupId, userId) ==> e == Some(NOT_A_MEMBER)
    ensures IsMember(members, q.groupId, userId) && q.unlockDate <= now ==> e == Some(UNLOCK_NOT_FUTURE)
  {
    if !IsMember(members, q.groupId, userId) then Some(NOT_A_MEMBER)
    else if q.unlockDate <= now then Some(UNLOCK_NOT_FUTURE)
    else None
  }

  /** `updateCapsule`: only the creator, and only while locked and not read-only. */
  function UpdateError(c: Option<Capsule>, userId: UserId): (e: Option<string>)
    ensures e.None? <==> c.Some? && c.value.createdBy == userId && c.value.isLocked && !c.value.isReadOnly
    ensures c.None? ==> e == Some(CAPSULE_NOT_FOUND)
    ensures c.Some? && c.value.createdBy != userId ==> e == Some(ONLY_CREATOR_UPDATE)
    ensures c.Some? && c.value.createdBy == userId && (!c.value.isLocked || c.value.isReadOnly) ==> e == Some(NOT_EDITABLE)
  {
    if c.None? then Some(CAPSULE_NOT_FOUND)
    else if c.value.createdBy != userId then Some(ONLY_CREATOR_UPDATE)
    else if !c.value.isLocked || c.value.isReadOnly then Some(NOT_EDITABLE)
    else None
  }

  /** `deleteCapsule`: only the creator, and only while locked. */
  function DeleteError(c: Option<Capsule>, userId: UserId): (e: Option<string>)
    ensures e.None? <==> c.Some? && c.value.createdBy == userId && c.value.isLocked
    ensures c.None? ==> e == Some(CAPSULE_NOT_FOUND)
    ensures c.Some? && c.value.createdBy != userId ==> e == Some(ONLY_CREATOR_DELETE)
    ensures c.Some? && c.value.createdBy == userId && !c.value.isLocked ==> e == Some(DELETE_UNLOCKED)
  {
    if c.None? then Some(CAPSULE_NOT_FOUND)
    else if c.value.createdBy != userId then Some(ONLY_CREATOR_DELETE)
    else if !c.value.isLocked then Some(DELETE_UNLOCKED)
    else None
  }

  /** Who may add content: to a collaborative capsule its contributors, to any other its
      creator. */
  predicate MayContribute(c: Capsule, userId: UserId, isContributor: bool) {
    if c.isCollaborative then isContributor else c.createdBy == userId
  }

  predicate DeadlinePassed(c: Capsule, now: int) {
    c.contributionDeadline.Some? && now > c.contributionDeadline.value
  }

  /** `addContent`: locked; a permitted contributor; before the deadline; a known type.
      Each failed check has its own message, and the first failed one is reported. */
  function AddContentError(c: Option<Capsule>, userId: UserId, isContributor: bool, contentType: Option<string>,
                           now: int): (e: Option<string>)
    ensures e.None? <==> && c.Some? && c.value.isLocked && MayContribute(c.value, userId, isContributor)
                         && !DeadlinePassed(c.value, now) && contentType.Some? && contentType.value in CONTENT_TYPES
    ensures c.None? ==> e == Some(CAPSULE_NOT_FOUND)
    ensures c.Some? && !c.value.isLocked ==> e == Some(ADD_TO_UNLOCKED)
    ensures c.Some? && c.value.isLocked && !MayContribute(c.value, userId, isContributor) ==>
              e == Some(if c.value.isCollaborative then NOT_A_CONTRIBUTOR else ONLY_CREATOR_ADD)
    ensures c.Some? && c.value.isLocked && MayContribute(c.value, userId, isContributor) && DeadlinePassed(c.value, now) ==>
              e == Some(DEADLINE_PASSED)
    ensures (&& c.Some? && c.value.isLocked && MayContribute(c.value, userId, isContributor) && !DeadlinePassed(c.value, now)
             && !(contentType.Some? && contentType.value in CONTENT_TYPES)) ==> e == Some(INVALID_CONTENT_TYPE)
  {
    if c.None? then Some(CAPSULE_NOT_FOUND)
    else if !c.value.isLocked then Some(ADD_TO_UNLOCKED)
    else if !c.value.isCollaborative && c.value.createdBy != userId then Some(ONLY_CREATOR_ADD)
    else if c.value.isCollaborative && !isContributor then Some(NOT_A_CONTRIBUTOR)
    else if DeadlinePassed(c.value, now) then Some(DEADLINE_PASSED)
    else if !(contentType.Some? && contentType.value in CONTENT_TYPES) then Some(INVALID_CONTENT_TYPE)
    else None
  }

  /** `deleteContent`, first part: the capsule must exist and be locked. */
  function DeleteContentError(c: Option<Capsule>): (e: Option<string>)
    ensures e.None? <==> c.Some? && c.value.isLocked
    ensures c.None? ==> e == Some(CAPSULE_NOT_FOUND)
    ensures c.Some? && !c.value.isLocked ==> e == Some(DELETE_FROM_UNLOCKED)
  {
    if c.None? then Some(CAPSULE_NOT_FOUND)
    else if !c.value.isLocked then Some(DELETE_FROM_UNLOCKED)
    else None
  }

  /** `addReaction`: the capsule must exist and be unlocked. */
  function ReactError(c: Option<Capsule>): (e: Option<string>)
    ensures e.None? <==> c.Some? && !c.value.isLocked
    ensures c.None? ==> e == Some(CAPSULE_NOT_FOUND)
    ensures c.Some? && c.value.isLocked ==> e == Some(REACT_TO_LOCKED)
  {
    if c.None? then Some(CAPSULE_NOT_FOUND)
    else if c.value.isLocked then Some(REACT_TO_LOCKED)
    else None
  }

  /** `unlockCapsule`: only the creator, and only a locked capsule. */
  function UnlockError(c: Option<Capsule>, userId: UserId): (e: Option<string>)
    ensures e.None? <==> c.Some? && c.value.createdBy == userId && c.value.isLocked
    ensures c.None? ==> e == Some(CAPSULE_NOT_FOUND)
    ensures c.Some? && c.value.createdBy != userId ==> e == Some(ONLY_CREATOR_UNLOCK)
    ensures c.Some? && c.value.createdBy == userId && !c.value.isLocked ==> e == Some(ALREADY_UNLOCKED)
  {
    if c.None? then Some(CAPSULE_NOT_FOUND)
    else if c.value.createdBy != userId then Some(ONLY_CREATOR_UNLOCK)
    else if !c.value.isLocked then Some(ALREADY_UNLOCKED)
    else None
  }

  function Lookup(capsules: map<CapsuleId, Capsule>, id: CapsuleId): Option<Capsule> {
    if id in capsules then Some(capsules[id]) else None
  }

  /** The two phases of a capsule never overlap: whatever may change its contents or its
      details is refused once it is unlocked, and reacting is refused while it is locked. */
  lemma PhasesExclude(c: Capsule, u: UserId, isContributor: bool, t: Option<string>, now: int)
    ensures ReactError(Some(c)).None? ==>
              && UpdateError(Some(c), u).Some? && DeleteError(Some(c), u).Some?
              && AddContentError(Some(c), u, isContributor, t, now).Some?
              && DeleteContentError(Some(c)).Some? && UnlockError(Some(c), u) != None
    ensures c.isLocked ==> ReactError(Some(c)) == Some(REACT_TO_LOCKED)
  {
  }

  /** After the creator unlocks a capsule, unlocking it again is refused as already done. */
  lemma UnlockHappensOnce(c: Capsule, u: UserId)
    requires UnlockError(Some(c), u).None?
    ensures UnlockError(Some(c.(isLocked := false)), u) == Some(ALREADY_UNLOCKED)
    ensures ReactError(Some(c.(isLocked := false))).None? && ReactError(Some(c)).Some?
  {
  }

  /** An unlocked capsule never becomes locked again. */
  ghost predicate NeverRelocks(before: map<CapsuleId, Capsule>, after: map<CapsuleId, Capsule>) {
    forall id :: id in before && id in after && !before[id].isLocked ==> !after[id].isLocked
  }

  // ---------------------------------------------------------------------------
  // The capsule page

  /** `ORDER BY order_index ASC, created_at ASC`. */
  function ContentKey(c: Content): Ordering.Key {
    (c.orderIndex, c.createdAt)
  }

  /** `getCapsuleById`'s answer: the row, its contributors, its contents (only once it is
      unlocked), the reactions and whether the caller is a contributor. */
  datatype CapsuleView = CapsuleView(
    id: CapsuleId,
    capsule: Capsule,
    contributors: set<UserId>,
    contents: seq<Content>,
    reactions: map<UserId, string>,
    isContributor: bool)

  /** The contents of one capsule, in page order, each once. */
  function ContentsOf(contents: map<ContentId, Content>, nextContent: ContentId, id: CapsuleId): (r: seq<Content>)
    requires forall k :: k in contents ==> k < nextContent && contents[k].id == k
    ensures forall x :: x in r <==> x in contents.Values && x.capsuleId == id
    ensures Ordering.SortedBy(r, ContentKey)
    ensures forall i, j :: 0 <= i < j < |r| ==> r[i].id != r[j].id
  {
    var all := Ordering.Listing(contents, nextContent);
    var mine := Ordering.Filter(all, (x: Content) => x.capsuleId == id);
    var r := Ordering.SortBy(mine, ContentKey);
    assert forall x :: x in contents.Values ==> x in all by {
      forall x | x in contents.Values ensures x in all {
        var k :| k in contents && contents[k] == x;
      }
    }
    assert forall x :: x in r <==> x in mine by {
      forall x ensures x in r <==> x in mine {
        assert x in r <==> x in multiset(r);
      }
    }
    Ordering.ListingNoRepeats(contents, nextContent, (x: Content) => x.id);
    Ordering.SubNoRepeats(r, all);
    Ordering.DistinctIds(r, contents, (x: Content) => x.id);
    r
  }

  /** The page of capsule `id` for `userId`: "Capsule not found", then the membership error,
      otherwise the view, whose contents stay empty while the capsule is locked. */
  function CapsulePage(capsules: map<CapsuleId, Capsule>, contributors: set<(CapsuleId, UserId)>,
                       contents: map<ContentId, Content>, nextContent: ContentId,
                       reactions: map<(CapsuleId, UserId), string>, members: MemberTable,
                       id: CapsuleId, userId: UserId): (r: Result<CapsuleView>)
    requires forall k :: k in contents ==> k < nextContent && contents[k].id == k
    ensures id !in capsules ==> r == Err(CAPSULE_NOT_FOUND)
    ensures id in capsules && !IsMember(members, capsules[id].groupId, userId) ==> r == Err(NOT_A_MEMBER)
    ensures r.Ok? <==> id in capsules && IsMember(members, capsules[id].groupId, userId)
    ensures r.Ok? ==> r.value.id == id && r.value.capsule == capsules[id]
    ensures r.Ok? && capsules[id].isLocked ==> r.value.contents == []
    ensures r.Ok? && !capsules[id].isLocked ==>
              && (forall x :: x in r.value.contents <==> x in contents.Values && x.capsuleId == id)
              && Ordering.SortedBy(r.value.contents, ContentKey)
              && (forall i, j :: 0 <= i < j < |r.value.contents| ==> r.value.contents[i].id != r.value.contents[j].id)
    ensures r.Ok? ==> forall u :: u in r.value.contributors <==> (id, u) in contributors
    ensures r.Ok? ==> (r.value.isContributor <==> (id, userId) in contributors)
    ensures r.Ok? ==> forall u :: (u in r.value.reactions <==> (id, u) in reactions)
                                  && (u in r.value.reactions ==> r.value.reactions[u] == reactions[(id, u)])
  {
    if id !in capsules then Err(CAPSULE_NOT_FOUND)
    else
      var c := capsules[id];
      if !IsMember(members, c.groupId, userId) then Err(NOT_A_MEMBER)
      else
        var who := set k | k in contributors && k.0 == id :: k.1;
        assert forall u :: u in who <==> (id, u) in contributors by {
          forall u | (id, u) in contributors ensures u in who {
            assert (id, u).1 == u;
          }
        }
        var reacted := set k | k in reactions && k.0 == id :: k.1;
        assert forall u :: u in reacted <==> (id, u) in reactions by {
          forall u | (id, u) in reactions ensures u in reacted {
            assert (id, u).1 == u;
          }
        }
        var shown := if c.isLocked then [] else ContentsOf(contents, nextContent, id);
        Ok(CapsuleView(id, c, who, shown, map u | u in reacted :: reactions[(id, u)], (id, userId) in contributors))
  }

  // ---------------------------------------------------------------------------
  // The tables

  class CapsuleStore {
    var capsules: map<CapsuleId, Capsule>
    /** `capsule_contributors`, one row per (capsule, user). */
    var contributors: set<(CapsuleId, UserId)>
    var contents: map<ContentId, Content>
    /** `capsule_reactions`, unique on (capsule, user), holding the emoji. */
    var reactions: map<(CapsuleId, UserId), string>
    /** `capsule_views`, one row per (capsule, viewer). */
    var views: set<(CapsuleId, UserId)>
    var nextCapsule: CapsuleId
    var nextContent: ContentId

    /** Ids below the counters have been handed out, every content row is stored under its
        own id, and the creator of every capsule is one of its contributors. */
    ghost predicate Valid()
      reads this
    {
      && (forall id :: id in capsules ==> id < nextCapsule && (id, capsules[id].createdBy) in contributors)
      && (forall k :: k in contributors ==> k.0 < nextCapsule)
      && (forall k :: k in contents ==> k < nextContent && contents[k].id == k)
    }

    constructor ()
      ensures Valid()
      ensures capsules == map[] && contributors == {} && contents == map[] && reactions == map[] && views == {}
      ensures nextCapsule == 0 && nextContent == 0
    {
      capsules := map[];
      contributors := {};
      contents := map[];
      reactions := map[];
      views := {};
      nextCapsule := 0;
      nextContent := 0;
    }

    /** `createCapsule`: in one transaction, insert the capsule, make its creator a
        contributor and, for a collaborative capsule, add each listed user once. On any error
        the transaction is rolled back; `fails` stands for a database error. */
    method CreateCapsule(members: MemberTable, userId: UserId, q: CreateRequest, now: int, fails: bool)
      returns (r: Result<CapsuleId>)
      requires Valid()
      modifies this
      ensures Valid() && NeverRelocks(old(capsules), capsules)
      ensures contents == old(contents) && reactions == old(reactions) && views == old(views)
      ensures nextContent == old(nextContent)
      ensures r.Err? <==> CreateError(members, userId, q, now).Some? || fails
      ensures CreateError(members, userId, q, now).Some? ==> r == Err(CreateError(members, userId, q, now).value)
      ensures CreateError(members, userId, q, now).None? && fails ==> r == Err(DB_ERROR)
      ensures r.Err? ==> capsules == old(capsules) && contributors == old(contributors) && nextCapsule == old(nextCapsule)
      ensures r.Ok? ==>
                && r.value == old(nextCapsule) && r.value !in old(capsules)
                && capsules == old(capsules)[r.value := NewCapsule(userId, q, now)]
                && contributors == old(contributors) + {(r.value, userId)} + Invited(r.value, q)
                && nextCapsule == old(nextCapsule) + 1
    {
      var e := CreateError(members, userId, q, now);
      if e.Some? {
        return Err(e.value);
      }
      if fails {
        return Err(DB_ERROR);
      }
      var id := nextCapsule;
      capsules := capsules[id := NewCapsule(userId, q, now)];
      nextCapsule := nextCapsule + 1;
      contributors := contributors + {(id, userId)};
      if q.isCollaborative && q.contributors.Some? && |q.contributors.value| > 0 {
        var list := q.contributors.value;
        var added: set<(CapsuleId, UserId)> := {};
        for i := 0 to |list|
          invariant added == set u | u in list[..i] :: (id, u)
        {
          assert list[..i + 1] == list[..i] + [list[i]];
          added := added + {(id, list[i])};
        }
        assert list[..|list|] == list;
        contributors := contributors + added;
      }
      r := Ok(id);
    }

    /** `updateCapsule`: the creator may retitle a locked, writable capsule; the optional
        columns default to NULL and the theme to 'default'. */
    method UpdateCapsule(id: CapsuleId, userId: UserId, q: UpdateRequest) returns (r: Result<Capsule>)
      requires Valid()
      modifies this
      ensures Valid() && NeverRelocks(old(capsules), capsules)
      ensures contributors == old(contributors) && contents == old(contents) && reactions == old(reactions)
      ensures views == old(views) && nextCapsule == old(nextCapsule) && nextContent == old(nextContent)
      ensures var e := UpdateError(Lookup(old(capsules), id), userId);
              && (e.Some? ==> r == Err(e.value) && capsules == old(capsules))
              && (e.None? ==> r == Ok(old(capsules)[id].(title := q.title, description := OrNull(q.description),
                                                         thumbnailUrl := OrNull(q.thumbnailUrl),
                                                         theme := OrDefault(q.theme, "default")))
                              && capsules == old(capsules)[id := r.value])
    {
      var e := UpdateError(Lookup(capsules, id), userId);
      if e.Some? {
        return Err(e.value);
      }
      var c := capsules[id].(title := q.title, description := OrNull(q.description),
                             thumbnailUrl := OrNull(q.thumbnailUrl), theme := OrDefault(q.theme, "default"));
      capsules := capsules[id := c];
      r := Ok(c);
    }

    /** `deleteCapsule`: the creator may delete a locked capsule. Only the capsule row goes. */
    method DeleteCapsule(id: CapsuleId, userId: UserId) returns (r: Result<CapsuleId>)
      requires Valid()
      modifies this
      ensures Valid() && NeverRelocks(old(capsules), capsules)
      ensures contributors == old(contributors) && contents == old(contents) && reactions == old(reactions)
      ensures views == old(views) && nextCapsule == old(nextCapsule) && nextContent == old(nextContent)
      ensures var e := DeleteError(Lookup(old(capsules), id), userId);
              && (e.Some? ==> r == Err(e.value) && capsules == old(capsules))
              && (e.None? ==> r == Ok(id) && capsules == old(capsules) - {id})
    {
      var e := DeleteError(Lookup(capsules, id), userId);
      if e.Some? {
        return Err(e.value);
      }
      capsules := capsules - {id};
      r := Ok(id);
    }

    /** `addContent`: store a content row with its defaults once every check passes. */
    method AddContent(id: CapsuleId, userId: UserId, q: ContentRequest, now: int) returns (r: Result<Content>)
      requires Valid()
      modifies this
      ensures Valid()
      ensures capsules == old(capsules) && contributors == old(contributors) && reactions == old(reactions)
      ensures views == old(views) && nextCapsule == old(nextCapsule)
      ensures var e := AddContentError(Lookup(old(capsules), id), userId, (id, userId) in old(contributors),
                                       q.contentType, now);
              && (e.Some? ==> r == Err(e.value) && contents == old(contents) && nextContent == old(nextContent))
              && (e.None? ==>
                    && r == Ok(Content(old(nextContent), id, userId, q.contentType.value, OrNull(q.contentText),
                                       OrNull(q.mediaUrl), OrNull(q.mediaThumbnailUrl), NumOrNull(q.durationSeconds),
                                       NumOrNull(q.fileSizeBytes), OrDefault(q.metadata, "{}"),
                                       NumOrZero(q.orderIndex), now))
                    && old(nextContent) !in old(contents)
                    && contents == old(contents)[old(nextContent) := r.value]
                    && nextContent == old(nextContent) + 1)
    {
      var e := AddContentError(Lookup(capsules, id), userId, (id, userId) in contributors, q.contentType, now);
      if e.Some? {
        return Err(e.value);
      }
      var c := Content(nextContent, id, userId, q.contentType.value, OrNull(q.contentText), OrNull(q.mediaUrl),
                       OrNull(q.mediaThumbnailUrl), NumOrNull(q.durationSeconds), NumOrNull(q.fileSizeBytes),
                       OrDefault(q.metadata, "{}"), NumOrZero(q.orderIndex), now);
      contents := contents[nextContent := c];
      nextContent := nextContent + 1;
      r := Ok(c);
    }

    /** `deleteContent`: in a locked capsule, a user may delete a content row they added to
        that capsule; anything else is "Content not found or unauthorized". */
    method DeleteContent(id: CapsuleId, contentId: ContentId, userId: UserId) returns (r: Result<ContentId>)
      requires Valid()
      modifies this
      ensures Valid()
      ensures capsules == old(capsules) && contributors == old(contributors) && reactions == old(reactions)
      ensures views == old(views) && nextCapsule == old(nextCapsule) && nextContent == old(nextContent)
      ensures var e := DeleteContentError(Lookup(old(capsules), id));
              var owned := contentId in old(contents) && old(contents)[contentId].userId == userId
                           && old(contents)[contentId].capsuleId == id;
              && (e.Some? ==> r == Err(e.value) && contents == old(contents))
              && (e.None? && !owned ==> r == Err(CONTENT_NOT_FOUND) && contents == old(contents))
              && (e.None? && owned ==> r == Ok(contentId) && contents == old(contents) - {contentId})
    {
      var e := DeleteContentError(Lookup(capsules, id));
      if e.Some? {
        return Err(e.value);
      }
      if !(contentId in contents && contents[contentId].userId == userId && contents[contentId].capsuleId == id) {
        return Err(CONTENT_NOT_FOUND);
      }
      contents := contents - {contentId};
      r := Ok(contentId);
    }

    /** `addReaction`: on an unlocked capsule, set the user's one reaction, replacing any
        earlier emoji. */
    method AddReaction(id: CapsuleId, userId: UserId, emoji: string) returns (r: Result<string>)
      requires Valid()
      modifies this
      ensures Valid()
      ensures capsules == old(capsules) && contributors == old(contributors) && contents == old(contents)
      ensures views == old(views) && nextCapsule == old(nextCapsule) && nextContent == old(nextContent)
      ensures var e := ReactError(Lookup(old(capsules), id));
              && (e.Some? ==> r == Err(e.value) && reactions == old(reactions))
              && (e.None? ==> r == Ok(emoji) && reactions == old(reactions)[(id, userId) := emoji])
    {
      var e := ReactError(Lookup(capsules, id));
      if e.Some? {
        return Err(e.value);
      }
      reactions := reactions[(id, userId) := emoji];
      r := Ok(emoji);
    }

    /** `removeReaction`: delete the user's reaction; the capsule itself is not consulted. */
    method RemoveReaction(id: CapsuleId, userId: UserId) returns (r: Result<string>)
      requires Valid()
      modifies this
      ensures Valid()
      ensures capsules == old(capsules) && contributors == old(contributors) && contents == old(contents)
      ensures views == old(views) && nextCapsule == old(nextCapsule) && nextContent == old(nextContent)
      ensures (id, userId) !in old(reactions) ==> r == Err(REACTION_NOT_FOUND) && reactions == old(reactions)
      ensures (id, userId) in old(reactions) ==>
                r == Ok(old(reactions)[(id, userId)]) && reactions == old(reactions) - {(id, userId)}
    {
      if (id, userId) !in reactions {
        return Err(REACTION_NOT_FOUND);
      }
      r := Ok(reactions[(id, userId)]);
      reactions := reactions - {(id, userId)};
    }

    /** `unlockCapsule`: the creator unlocks a locked capsule; nothing else about it changes. */
    method UnlockCapsule(id: CapsuleId, userId: UserId) returns (r: Result<Capsule>)
      requires Valid()
      modifies this
      ensures Valid() && NeverRelocks(old(capsules), capsules)
      ensures contributors == old(contributors) && contents == old(contents) && reactions == old(reactions)
      ensures views == old(views) && nextCapsule == old(nextCapsule) && nextContent == old(nextContent)
      ensures var e := UnlockError(Lookup(old(capsules), id), userId);
              && (e.Some? ==> r == Err(e.value) && capsules == old(capsules))
              && (e.None? ==> r == Ok(old(capsules)[id].(isLocked := false)) && capsules == old(capsules)[id := r.value])
    {
      var e := UnlockError(Lookup(capsules, id), userId);
      if e.Some? {
        return Err(e.value);
      }
      var c := capsules[id].(isLocked := false);
      capsules := capsules[id := c];
      r := Ok(c);
    }

    /** `getCapsuleById`: the page, recording a view (once per user) whenever unlocked
        contents were shown. */
    method ViewCapsule(members: MemberTable, id: CapsuleId, userId: UserId) returns (r: Result<CapsuleView>)
      requires Valid()
      modifies this
      ensures Valid()
      ensures capsules == old(capsules) && contributors == old(contributors) && contents == old(contents)
      ensures reactions == old(reactions) && nextCapsule == old(nextCapsule) && nextContent == old(nextContent)
      ensures r == CapsulePage(capsules, contributors, contents, nextContent, reactions, members, id, userId)
      ensures views == if r.Ok? && !r.value.capsule.isLocked then old(views) + {(id, userId)} else old(views)
    {
      r := CapsulePage(capsules, contributors, contents, nextContent, reactions, members, id, userId);
      if r.Ok? && !r.value.capsule.isLocked {
        RecordView(id, userId);
      }
    }

    /** `INSERT INTO capsule_views ... ON CONFLICT DO NOTHING`. */
    method RecordView(id: CapsuleId, userId: UserId)
      requires Valid()
      modifies this
      ensures Valid()
      ensures capsules == old(capsules) && contributors == old(contributors) && contents == old(contents)
      ensures reactions == old(reactions) && nextCapsule == old(nextCapsule) && nextContent == old(nextContent)
      ensures views == old(views) + {(id, userId)}
    {
      views := views + {(id, userId)};
    }
  }
}
