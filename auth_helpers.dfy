/**
 * Server-side guards over the current user (lib/auth/auth-helpers.ts). The
 * session lookup is foreign: the session's user id and the user table are
 * inputs, and the guards take the current user as an Option.
 */
module AuthHelpers {
  import opened Common
  import Permissions

  /** The two errors the guards throw. */
  datatype AuthError = Unauthorized | Forbidden

  /**
   * `getCurrentUser`: null when the session carries no user id, otherwise the
   * user row with that id (null when there is none).
   */
  function GetCurrentUser(sessionUserId: Option<string>, users: map<string, User>): (r: Option<User>)
    ensures !Truthy(sessionUserId) ==> r.None?
    ensures r.Some? ==> sessionUserId.value in users && r.value == users[sessionUserId.value]
    ensures Truthy(sessionUserId) && sessionUserId.value in users ==> r.Some?
  {
    if !Truthy(sessionUserId) then None
    else if sessionUserId.value in users then Some(users[sessionUserId.value])
    else None
  }

  /** `requireAuth`. */
  function RequireAuth(current: Option<User>): (r: Result<User, AuthError>)
    ensures r.Err? <==> current.None?
    ensures r.Err? ==> r.error == Unauthorized
    ensures r.Ok? ==> r.value == current.value
  {
    if current.None? then Err(Unauthorized) else Ok(current.value)
  }

  /** `requireRole`: Unauthorized first, then Forbidden for a role not allowed. */
  function RequireRole(current: Option<User>, allowedRoles: seq<Role>): (r: Result<User, AuthError>)
    ensures current.None? ==> r == Err(Unauthorized)
    ensures current.Some? ==> (r.Ok? <==> current.value.role in allowedRoles)
    ensures current.Some? && r.Err? ==> r.error == Forbidden
    ensures r.Ok? ==> r.value == current.value
  {
    match RequireAuth(current)
    case Err(e) => Err(e)
    case Ok(user) => if user.role !in allowedRoles then Err(Forbidden) else Ok(user)
  }

  function RequireModerator(current: Option<User>): Result<User, AuthError> {
    RequireRole(current, [MODERATOR, ADMIN])
  }

  function RequireAdmin(current: Option<User>): Result<User, AuthError> {
    RequireRole(current, [ADMIN])
  }

  // ---------------------------------------------------------------------------
  // Lemmas.

  /** `requireModerator` lets through exactly the users `canModerate` accepts. */
  lemma RequireModeratorAgreesWithCanModerate(current: Option<User>)
    ensures RequireModerator(current).Ok? <==> current.Some? && Permissions.CanModerate(current.value.role)
    ensures current.Some? && !Permissions.CanModerate(current.value.role) ==> RequireModerator(current) == Err(Forbidden)
  {
  }

  /** `requireAdmin` lets through exactly the users `canAdmin` accepts. */
  lemma RequireAdminAgreesWithCanAdmin(current: Option<User>)
    ensures RequireAdmin(current).Ok? <==> current.Some? && Permissions.CanAdmin(current.value.role)
    ensures current.Some? && !Permissions.CanAdmin(current.value.role) ==> RequireAdmin(current) == Err(Forbidden)
  {
  }

  /** Whoever passes `requireAdmin` passes `requireModerator`, and both pass `requireAuth`. */
  lemma GuardsNested(current: Option<User>)
    ensures RequireAdmin(current).Ok? ==> RequireModerator(current).Ok?
    ensures RequireModerator(current).Ok? ==> RequireAuth(current).Ok?
  {
  }

  /** Without a session user id no guard passes, and every guard says Unauthorized. */
  lemma NoSessionUnauthorized(users: map<string, User>, allowed: seq<Role>)
    ensures RequireAuth(GetCurrentUser(None, users)) == Err(Unauthorized)
    ensures RequireRole(GetCurrentUser(Some(""), users), allowed) == Err(Unauthorized)
  {
  }
}
