/**
 * The `group_members` table, which every handler consults before it lets a user act in a
 * group, and the profile of an authenticated user as the socket layer and the handlers see it.
 */
module Membership {
  import opened Wrappers

  /** Profile ids are UUID strings. */
  type UserId = string

  /** Group ids are serial in this model. */
  type GroupId = nat

  /** `group_members.role`: 'admin', or any other role (the groups handler writes 'admin' only). */
  datatype Role = Admin | Member

  datatype MemberRow = MemberRow(role: Role, joinedAt: int)

  /** `group_members`, keyed by its (group_id, user_id) pair: at most one row per pair. */
  type MemberTable = map<(GroupId, UserId), MemberRow>

  /** `SELECT EXISTS(SELECT 1 FROM group_members WHERE group_id = $1 AND user_id = $2)`. */
  predicate IsMember(t: MemberTable, g: GroupId, u: UserId) {
    (g, u) in t
  }

  /** The same query with `AND role = 'admin'`. */
  predicate IsAdmin(t: MemberTable, g: GroupId, u: UserId) {
    (g, u) in t && t[(g, u)].role == Admin
  }

  /** The authenticated user as the auth middleware attaches it: id, username, display name
      and avatar. */
  datatype User = User(id: UserId, username: string, displayName: Option<string>, avatarUrl: Option<string>)

  const NOT_A_MEMBER := "You are not a member of this group"
}
