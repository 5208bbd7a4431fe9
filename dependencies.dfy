/** The authorization guard: a bearer token is resolved to an active user,
    and an admin-only endpoint also demands that the user is an admin.
    `verifyToken` is the token decoder: it gives the token's email, or
    nothing when the token is invalid or expired. */
module Dependencies {
  import opened Models
  import opened Query

  type Token = string

  /** The first user registered with `email`. */
  function UserByEmail(users: seq<User>, email: string): (r: Option<User>)
    ensures r.Some? ==> r.value in users && r.value.email == email
    ensures r.None? <==> forall u :: u in users ==> u.email != email
  {
    match First(users, (u: User) => u.email == email)
    case None => None
    case Some(k) => Some(users[k])
  }

  /** `get_current_user`: token, then user, then the active flag. */
  function GetCurrentUser(verifyToken: Token -> Option<string>, users: seq<User>, token: Token): (r: Result<User>)
    // an unusable token is refused before any user is looked up
    ensures r == Failure(Unauthenticated) <==> verifyToken(token).None?
    ensures r == Failure(UserNotFound) <==>
      verifyToken(token).Some? && forall u :: u in users ==> u.email != verifyToken(token).value
    ensures r == Failure(InactiveUser) <==>
      verifyToken(token).Some? && exists u :: UserByEmail(users, verifyToken(token).value) == Some(u) && !u.isActive
    // whatever is returned is an active user with the token's email
    ensures r.Success? ==> r.value in users && r.value.isActive && verifyToken(token) == Some(r.value.email)
    // and it is the user the lookup by email finds first
    ensures r.Success? ==> UserByEmail(users, verifyToken(token).value) == Some(r.value)
    ensures r.Success? || r.error in {Unauthenticated, UserNotFound, InactiveUser}
  {
    match verifyToken(token)
    case None => Failure(Unauthenticated)
    case Some(email) =>
      match UserByEmail(users, email)
      case None => Failure(UserNotFound)
      case Some(user) => if !user.isActive then Failure(InactiveUser) else Success(user)
  }

  /** `get_current_admin_user`: the resolved user, returned unchanged if admin. */
  function GetCurrentAdminUser(verifyToken: Token -> Option<string>, users: seq<User>, token: Token): (r: Result<User>)
    ensures r.Success? <==>
      GetCurrentUser(verifyToken, users, token).Success? && GetCurrentUser(verifyToken, users, token).value.isAdmin
    ensures r.Success? ==> r == GetCurrentUser(verifyToken, users, token)
    ensures GetCurrentUser(verifyToken, users, token).Failure? ==> r == GetCurrentUser(verifyToken, users, token)
    ensures GetCurrentUser(verifyToken, users, token).Success? && !r.Success? ==> r == Failure(Forbidden)
  {
    match GetCurrentUser(verifyToken, users, token)
    case Failure(e) => Failure(e)
    case Success(user) => if !user.isAdmin then Failure(Forbidden) else Success(user)
  }

  /** The checks run in the order token, existence, active, admin: an inactive
      admin is refused as inactive, never let through nor refused as forbidden. */
  lemma {:induction false} InactiveAdminIsRefusedAsInactive(verifyToken: Token -> Option<string>, users: seq<User>, token: Token, admin: User)
    requires verifyToken(token) == Some(admin.email)
    requires UserByEmail(users, admin.email) == Some(admin)
    requires admin.isAdmin && !admin.isActive
    ensures GetCurrentAdminUser(verifyToken, users, token) == Failure(InactiveUser)
  {
  }

  /** A non-admin with a good token and an active account is refused as forbidden. */
  lemma {:induction false} ActiveCustomerIsForbidden(verifyToken: Token -> Option<string>, users: seq<User>, token: Token, user: User)
    requires verifyToken(token) == Some(user.email)
    requires UserByEmail(users, user.email) == Some(user)
    requires user.isActive && !user.isAdmin
    ensures GetCurrentUser(verifyToken, users, token) == Success(user)
    ensures GetCurrentAdminUser(verifyToken, users, token) == Failure(Forbidden)
  {
  }
}
