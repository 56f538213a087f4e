/**
 * Groups: creation (the creator becomes an admin), the group page with its limited form for
 * non-members and its ordered member list, admin-only update, and soft delete.
 */
module Groups {
  import opened Wrappers
  import opened Membership
  import opened JsStrings
  import Ordering

  const GROUP_NOT_FOUND := "Group not found"
  const ONLY_ADMINS_UPDATE := "Only admins can update group details"
  const ONLY_ADMINS_DELETE := "Only admins can delete the group"
  const GROUP_DELETED := "Group deleted successfully"
  /** Stands for whatever error the database raises inside a transaction. */
  const DB_ERROR := "database error"

  /** A `groups` row. `settings` is the JSON text of the settings object; `None` is the column
      default, which is not part of this model. */
  datatype Group = Group(
    name: string,
    description: Option<string>,
    avatarUrl: Option<string>,
    inviteCode: string,
    createdBy: UserId,
    settings: Option<string>,
    isActive: bool,
    createdAt: int,
    updatedAt: int)

  /** The body of an update request. */
  datatype GroupUpdate = GroupUpdate(name: string, description: Option<string>, avatarUrl: Option<string>,
                                     settings: Option<string>)

  /** `updates.settings || {}`: a settings object is always truthy, an absent one becomes `{}`. */
  function SettingsOrEmpty(s: Option<string>): string {
    if s.Some? then s.value else "{}"
  }

  /** The row after `updateGroup`: every editable column is overwritten, the optional ones
      defaulting to NULL (and the settings to `{}`); the rest of the row is kept. */
  function Updated(g: Group, u: GroupUpdate, now: int): (r: Group)
    ensures r.name == u.name && r.description == OrNull(u.description) && r.avatarUrl == OrNull(u.avatarUrl)
    ensures r.settings == Some(SettingsOrEmpty(u.settings)) && r.updatedAt == now
    ensures r.inviteCode == g.inviteCode && r.createdBy == g.createdBy && r.isActive == g.isActive
    ensures r.createdAt == g.createdAt
  {
    g.(name := u.name, description := OrNull(u.description), avatarUrl := OrNull(u.avatarUrl),
       settings := Some(SettingsOrEmpty(u.settings)), updatedAt := now)
  }

  // ---------------------------------------------------------------------------
  // The group page

  /** A row of the member list. */
  datatype MemberEntry = MemberEntry(userId: UserId, role: Role, joinedAt: int)

  /** `CASE role WHEN 'admin' THEN 1 ELSE 2 END, joined_at`. */
  function EntryKey(e: MemberEntry): Ordering.Key {
    (if e.role == Admin then 1 else 2, e.joinedAt)
  }

  predicate IsEntryOf(members: MemberTable, g: GroupId, e: MemberEntry) {
    (g, e.userId) in members && members[(g, e.userId)] == MemberRow(e.role, e.joinedAt)
  }

  function Entries(members: MemberTable, g: GroupId): (r: set<MemberEntry>)
    ensures forall e :: e in r <==> IsEntryOf(members, g, e)
  {
    var r := set k | k in members && k.0 == g :: MemberEntry(k.1, members[k].role, members[k].joinedAt);
    assert forall e :: IsEntryOf(members, g, e) ==> e in r by {
      forall e | IsEntryOf(members, g, e) ensures e in r {
        var k := (g, e.userId);
        assert MemberEntry(k.1, members[k].role, members[k].joinedAt) == e;
      }
    }
    r
  }

  /** `COUNT(DISTINCT gm.user_id)`. */
  function MemberCount(members: MemberTable, g: GroupId): nat {
    |set k | k in members && k.0 == g :: k.1|
  }

  /** Some listing of a finite set; the database returns rows with equal sort keys in no
      particular order, and so does this. */
  ghost function SetToSeq<T(!new)>(s: set<T>): (r: seq<T>)
    ensures |r| == |s|
    ensures forall x :: x in r <==> x in s
    decreases |s|
  {
    if s == {} then []
    else
      var x :| x in s;
      [x] + SetToSeq(s - {x})
  }

  datatype GroupView =
    /** What a non-member sees (`is_member: false`). */
    | PublicView(id: GroupId, name: string, description: Option<string>, avatarUrl: Option<string>, memberCount: nat)
    /** The whole row, the member list and `is_admin` (`is_member: true`). */
    | MemberView(id: GroupId, group: Group, memberCount: nat, members: seq<MemberEntry>, isAdmin: bool)

  /** `getGroupById`. */
  ghost function GetGroupById(groups: map<GroupId, Group>, members: MemberTable, id: GroupId, userId: UserId)
    : (r: Result<GroupView>)
    ensures r.Err? <==> id !in groups || !groups[id].isActive
    ensures r.Err? ==> r.message == GROUP_NOT_FOUND
    ensures r.Ok? ==> (r.value.PublicView? <==> !IsMember(members, id, userId))
    ensures r.Ok? && r.value.PublicView? ==>
              var g := groups[id];
              r.value == PublicView(id, g.name, g.description, g.avatarUrl, MemberCount(members, id))
    ensures r.Ok? && r.value.MemberView? ==>
              && r.value.id == id && r.value.group == groups[id]
              && r.value.memberCount == MemberCount(members, id)
              && r.value.isAdmin == IsAdmin(members, id, userId)
              && (forall e :: e in r.value.members <==> IsEntryOf(members, id, e))
              && |r.value.members| == |Entries(members, id)|
              && Ordering.SortedBy(r.value.members, EntryKey)
  {
    if id !in groups || !groups[id].isActive then Err(GROUP_NOT_FOUND)
    else
      var g := groups[id];
      if !IsMember(members, id, userId) then
        Ok(PublicView(id, g.name, g.description, g.avatarUrl, MemberCount(members, id)))
      else
        var list := Ordering.SortBy(SetToSeq(Entries(members, id)), EntryKey);
        assert |list| == |multiset(list)| == |multiset(SetToSeq(Entries(members, id)))|;
        assert forall e :: e in list <==> e in SetToSeq(Entries(members, id)) by {
          forall e ensures e in list <==> e in SetToSeq(Entries(members, id)) {
            assert e in list <==> e in multiset(list);
          }
        }
        Ok(MemberView(id, g, MemberCount(members, id), list, IsAdmin(members, id, userId)))
  }

  /** The member list puts every admin before every other member, and members of the same
      role in order of joining. */
  lemma AdminsComeFirst(groups: map<GroupId, Group>, members: MemberTable, id: GroupId, userId: UserId)
    requires GetGroupById(groups, members, id, userId).Ok?
    requires GetGroupById(groups, members, id, userId).value.MemberView?
    ensures var list := GetGroupById(groups, members, id, userId).value.members;
            && (forall i, j :: 0 <= i < j < |list| && list[j].role == Admin ==> list[i].role == Admin)
            && (forall i, j :: 0 <= i < j < |list| && list[i].role == list[j].role ==> list[i].joinedAt <= list[j].joinedAt)
  {
    var list := GetGroupById(groups, members, id, userId).value.members;
    forall i, j | 0 <= i < j < |list|
      ensures list[j].role == Admin ==> list[i].role == Admin
      ensures list[i].role == list[j].role ==> list[i].joinedAt <= list[j].joinedAt
    {
      assert Ordering.KeyLe(EntryKey(list[i]), EntryKey(list[j]));
    }
  }

  /** After a soft delete the group page reports the group as not found, to members and
      non-members alike. */
  lemma DeletedGroupIsNotFound(groups: map<GroupId, Group>, members: MemberTable, id: GroupId, userId: UserId, now: int)
    requires id in groups
    ensures GetGroupById(groups[id := groups[id].(isActive := false, updatedAt := now)], members, id, userId)
            == Err(GROUP_NOT_FOUND)
  {
  }

  // ---------------------------------------------------------------------------
  // The tables

  class GroupStore {
    var groups: map<GroupId, Group>
    var members: MemberTable
    var nextId: GroupId

    /** Ids below `nextId` have been handed out, and the creator of every group is one of its
        admins. */
    ghost predicate Valid()
      reads this
    {
      && (forall g :: g in groups ==> g < nextId)
      && (forall g :: g in groups ==> IsAdmin(members, g, groups[g].createdBy))
    }

    constructor ()
      ensures Valid() && groups == map[] && members == map[] && nextId == 0
    {
      groups := map[];
      members := map[];
      nextId := 0;
    }

    /** `createGroup`: in one transaction, insert the group (optional fields defaulting to NULL)
        and make its creator an admin. `fails` stands for a database error, after which the
        transaction is rolled back. */
    method CreateGroup(userId: UserId, name: string, description: Option<string>, avatarUrl: Option<string>,
                       inviteCode: string, now: int, fails: bool) returns (r: Result<GroupId>)
      requires Valid()
      modifies this
      ensures Valid()
      ensures fails ==> r == Err(DB_ERROR) && groups == old(groups) && members == old(members) && nextId == old(nextId)
      ensures !fails ==>
                && r == Ok(old(nextId)) && old(nextId) !in old(groups)
                && groups == old(groups)[old(nextId) := Group(name, OrNull(description), OrNull(avatarUrl), inviteCode,
                                                              userId, None, true, now, now)]
                && members == old(members)[(old(nextId), userId) := MemberRow(Admin, now)]
                && nextId == old(nextId) + 1
                && IsAdmin(members, r.value, userId)
    {
      if fails {
        return Err(DB_ERROR);
      }
      var id := nextId;
      groups := groups[id := Group(name, OrNull(description), OrNull(avatarUrl), inviteCode, userId, None, true, now, now)];
      members := members[(id, userId) := MemberRow(Admin, now)];
      nextId := nextId + 1;
      r := Ok(id);
    }

    /** `updateGroup`: only an admin of the group may update it; a missing row is "Group not
        found". The active flag is not checked. */
    method UpdateGroup(id: GroupId, userId: UserId, u: GroupUpdate, now: int) returns (r: Result<Group>)
      requires Valid()
      modifies this
      ensures Valid()
      ensures members == old(members) && nextId == old(nextId)
      ensures !IsAdmin(old(members), id, userId) ==> r == Err(ONLY_ADMINS_UPDATE) && groups == old(groups)
      ensures IsAdmin(old(members), id, userId) && id !in old(groups) ==> r == Err(GROUP_NOT_FOUND) && groups == old(groups)
      ensures IsAdmin(old(members), id, userId) && id in old(groups) ==>
                r == Ok(Updated(old(groups)[id], u, now)) && groups == old(groups)[id := r.value]
    {
      if !IsAdmin(members, id, userId) {
        return Err(ONLY_ADMINS_UPDATE);
      }
      if id !in groups {
        return Err(GROUP_NOT_FOUND);
      }
      var g := Updated(groups[id], u, now);
      groups := groups[id := g];
      r := Ok(g);
    }

    /** `deleteGroup`: only an admin may delete; the row stays, marked inactive. */
    method DeleteGroup(id: GroupId, userId: UserId, now: int) returns (r: Result<string>)
      requires Valid()
      modifies this
      ensures Valid()
      ensures members == old(members) && nextId == old(nextId)
      ensures !IsAdmin(old(members), id, userId) ==> r == Err(ONLY_ADMINS_DELETE) && groups == old(groups)
      ensures IsAdmin(old(members), id, userId) && id !in old(groups) ==> r == Err(GROUP_NOT_FOUND) && groups == old(groups)
      ensures IsAdmin(old(members), id, userId) && id in old(groups) ==>
                r == Ok(GROUP_DELETED) && groups == old(groups)[id := old(groups)[id].(isActive := false, updatedAt := now)]
    {
      if !IsAdmin(members, id, userId) {
        return Err(ONLY_ADMINS_DELETE);
      }
      if id !in groups {
        return Err(GROUP_NOT_FOUND);
      }
      groups := groups[id := groups[id].(isActive := false, updatedAt := now)];
      r := Ok(GROUP_DELETED);
    }
  }
}
