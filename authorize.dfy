/**
 * The role gate placed in front of the routes: `authorize(...allowedRoles)`
 * turns a request's user into a decision, in a fixed order of checks.
 */
module Authorize {
  import opened Wrappers

  /** The two roles and their stored values. */
  datatype Role = Reader | Staff

  function RoleValue(r: Role): string {
    match r
    case Reader => "reader"
    case Staff => "staff"
  }

  lemma RoleValuesDistinct(r: Role, s: Role)
    ensures RoleValue(r) == RoleValue(s) <==> r == s
  {
  }

  /** The role carried inside `user_metadata`. */
  datatype UserMetadata = UserMetadata(role: Option<string>)

  /** `req.user` as the authentication step leaves it: a top-level `role` and the metadata. */
  datatype RequestUser = RequestUser(role: Option<string>, user_metadata: Option<UserMetadata>)

  /** 401, the 403 for a missing role, the 403 for a role not allowed, a thrown error, or `next()`. */
  datatype Decision = Unauthorized | NoRole | NotPermitted | Throws | Next

  /** The HTTP status the response carries; a thrown error and `next()` send none here. */
  function StatusCode(d: Decision): (code: Option<int>)
    ensures code.Some? <==> d in {Unauthorized, NoRole, NotPermitted}
    ensures code.Some? ==> code.value == 401 || code.value == 403
  {
    match d
    case Unauthorized => Some(401)
    case NoRole => Some(403)
    case NotPermitted => Some(403)
    case Throws => None
    case Next => None
  }

  /** `allowedRoles.includes(req.user.user_metadata.role)`. */
  predicate Allowed(allowed: seq<string>, m: UserMetadata) {
    m.role.Some? && m.role.value in allowed
  }

  /**
   * The middleware: no user is 401; a falsy top-level role is 403; reading
   * the metadata of a user without it throws; a metadata role outside the
   * allowed list is 403; otherwise the request goes on.
   */
  function Authorize(allowed: seq<string>, user: Option<RequestUser>): (d: Decision)
    ensures d == Unauthorized <==> user.None?
    ensures d == NoRole <==> user.Some? && !Truthy(user.value.role)
    ensures d == Throws <==> user.Some? && Truthy(user.value.role) && user.value.user_metadata.None?
    ensures d == NotPermitted <==>
              user.Some? && Truthy(user.value.role) && user.value.user_metadata.Some?
              && !Allowed(allowed, user.value.user_metadata.value)
    ensures d == Next <==>
              user.Some? && Truthy(user.value.role) && user.value.user_metadata.Some?
              && Allowed(allowed, user.value.user_metadata.value)
  {
    match user
    case None => Unauthorized
    case Some(u) =>
      if !Truthy(u.role) then NoRole
      else match u.user_metadata
        case None => Throws
        case Some(m) => if Allowed(allowed, m) then Next else NotPermitted
  }

  /** Allowing more roles never turns a pass into a refusal. */
  lemma AuthorizeMonotone(allowed: seq<string>, more: seq<string>, user: Option<RequestUser>)
    requires forall r :: r in allowed ==> r in more
    requires Authorize(allowed, user) == Next
    ensures Authorize(more, user) == Next
  {
  }

  /**
   * Presence is checked on the top-level role and membership on the metadata
   * role: a user whose metadata names an allowed role is refused when the
   * top-level role is missing, and a top-level reader passes a staff-only
   * gate when its metadata says staff.
   */
  lemma PresenceAndMembershipUseDifferentRoles()
    ensures Authorize([RoleValue(Staff)], Some(RequestUser(None, Some(UserMetadata(Some("staff")))))) == NoRole
    ensures Authorize([RoleValue(Staff)], Some(RequestUser(Some("reader"), Some(UserMetadata(Some("staff")))))) == Next
  {
  }

  /** Only the metadata role decides membership: two users who differ only in a truthy top-level role get the same decision. */
  lemma TopLevelRoleOnlyGates(allowed: seq<string>, a: string, b: string, m: Option<UserMetadata>)
    requires a != "" && b != ""
    ensures Authorize(allowed, Some(RequestUser(Some(a), m))) == Authorize(allowed, Some(RequestUser(Some(b), m)))
  {
  }
}
