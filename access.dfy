/** Who may call which route: the guards a route carries, the roles it declares, and the
    inline checks its handler makes before delegating to a service. */
module Access {
  import opened Common

  /** The authenticated identity a valid access token yields. */
  datatype Actor = Actor(id: Id, role: Role)

  /** The routes of the ratings, stores and users controllers; parameters appear where a
      check reads them. */
  datatype Route =
    | PutRating
    | GetStoreRatings(storeId: Id)
    | GetUserRatings(userId: Id)
    | PostStore
    | ListStores
    | CountStores
    | GetStore(id: Id)
    | GetStoreAverage(id: Id)
    | PatchStore(id: Id)
    | DeleteStore(id: Id)
    | RegisterUser
    | PostAdmin
    | ListUsers
    | CountUsers
    | GetUser(id: Id)
    | PatchUser(id: Id)
    | DeleteUser(id: Id)

  datatype Decision = Allow | Deny(error: Error)

  /** The `@Roles(...)` metadata of each handler; empty where there is none. */
  function DeclaredRoles(r: Route): set<Role>
  {
    match r
    case PutRating => {USER}
    case GetStoreRatings(_) => {STORE_OWNER, ADMIN}
    case GetUserRatings(_) => {USER, ADMIN}
    case PostStore => {ADMIN}
    case CountStores => {ADMIN}
    case PatchStore(_) => {ADMIN}
    case DeleteStore(_) => {ADMIN}
    case PostAdmin => {ADMIN}
    case ListUsers => {ADMIN}
    case CountUsers => {ADMIN}
    case GetUser(_) => {ADMIN}
    case DeleteUser(_) => {ADMIN}
    case _ => {}
  }

  /** The handlers that carry `@UseGuards(JwtAuthGuard, RolesGuard)` in the controllers as written:
      every role-restricted route of the ratings and stores controllers, none of the users controller. */
  predicate GuardedAsWritten(r: Route)
  {
    r.PutRating? || r.GetStoreRatings? || r.GetUserRatings? ||
    r.PostStore? || r.CountStores? || r.PatchStore? || r.DeleteStore?
  }

  /** The evidently intended guarding: every route that declares roles, and the profile update,
      which reads the current user. */
  predicate GuardedIntended(r: Route)
  {
    DeclaredRoles(r) != {} || r.PatchUser?
  }

  /** `JwtAuthGuard` then `RolesGuard`: no token is Unauthorized; a role outside a non-empty
      `@Roles` list is Forbidden. */
  function Guards(r: Route, token: Option<Actor>, guarded: bool): (e: Option<Error>)
    ensures e.None? <==> !guarded || (token.Some? && (DeclaredRoles(r) == {} || token.value.role in DeclaredRoles(r)))
  {
    if !guarded then None
    else if token.None? then Some(Unauthorized("Unauthorized"))
    else if DeclaredRoles(r) != {} && token.value.role !in DeclaredRoles(r) then Some(Forbidden("Forbidden resource"))
    else None
  }

  /** The inline checks of `getUserRatings` and of the profile update. `user` is what
      `@CurrentUser()` returns, absent when no guard has authenticated the request; reading a
      field of it then throws a TypeError, which Nest reports as HTTP 500. Both checks throw a
      plain `Error`, also HTTP 500. */
  function HandlerCheck(r: Route, user: Option<Actor>): Option<Error>
  {
    match r
    case GetUserRatings(userId) =>
      if user.None? then Some(Internal("Cannot read properties of undefined (reading 'role')"))
      else if user.value.role == USER && user.value.id != userId then Some(Internal("Insufficient permissions"))
      else None
    case PatchUser(id) =>
      if user.None? then Some(Internal("Cannot read properties of undefined (reading 'role')"))
      else if user.value.role != ADMIN && user.value.id != id then Some(Internal("Insufficient permissions"))
      else None
    case _ => None
  }

  /** A request's fate before the service runs, in Nest's order: the guards, then the global
      `ValidationPipe` on the body and query (`valid` says whether they pass; a route with
      neither always passes), then the handler's inline check. `guarded` says which routes carry
      the guards. */
  function Decide(r: Route, token: Option<Actor>, valid: bool, guarded: Route -> bool): Decision
  {
    match Guards(r, token, guarded(r))
    case Some(e) => Deny(e)
    case None =>
      if !valid then Deny(BadRequest("Bad Request"))
      else
        var user := if guarded(r) then token else None;
        match HandlerCheck(r, user)
        case Some(e) => Deny(e)
        case None => Allow
  }

  /** The access decision of the controllers as written. */
  function AuthorizeAsWritten(r: Route, token: Option<Actor>, valid: bool): Decision
  {
    Decide(r, token, valid, GuardedAsWritten)
  }

  /** The access decision with the users controller guarded as its `@Roles` metadata intends. */
  function Authorize(r: Route, token: Option<Actor>, valid: bool): Decision
  {
    Decide(r, token, valid, GuardedIntended)
  }

  predicate IsRole(token: Option<Actor>, roles: set<Role>)
  {
    token.Some? && token.value.role in roles
  }

  /** What the pipe answers to a request it refuses. */
  const Invalid := Deny(BadRequest("Bad Request"))

  // ---- the ratings controller ----

  /** Only a USER may upsert; the rating's user is the token's actor, as no route parameter names
      one. The guards answer before the body is looked at. */
  lemma UpsertOnlyUser(token: Option<Actor>, valid: bool)
    ensures Authorize(PutRating, token, valid).Allow? <==> IsRole(token, {USER}) && valid
    ensures token.None? ==> Authorize(PutRating, token, valid) == Deny(Unauthorized("Unauthorized"))
    ensures IsRole(token, {STORE_OWNER, ADMIN}) ==> Authorize(PutRating, token, valid) == Deny(Forbidden("Forbidden resource"))
    ensures IsRole(token, {USER}) && !valid ==> Authorize(PutRating, token, valid) == Invalid
  {
  }

  /** Store ratings are readable by STORE_OWNER and ADMIN, and for any store: the owner branch
      and the admin branch of the handler are the same call. */
  lemma StoreRatingsOwnerOrAdmin(token: Option<Actor>, valid: bool, storeId: Id, otherStore: Id)
    ensures Authorize(GetStoreRatings(storeId), token, valid).Allow? <==> IsRole(token, {STORE_OWNER, ADMIN}) && valid
    ensures Authorize(GetStoreRatings(storeId), token, valid) == Authorize(GetStoreRatings(otherStore), token, valid)
  {
  }

  /** A USER reads only their own ratings; an ADMIN reads anyone's; a STORE_OWNER is refused by the
      roles guard, and a USER asking for someone else fails in the handler, once the query is valid. */
  lemma UserRatingsSelfOrAdmin(token: Option<Actor>, valid: bool, userId: Id)
    ensures Authorize(GetUserRatings(userId), token, valid).Allow? <==>
      valid && token.Some? && (token.value.role == ADMIN || (token.value.role == USER && token.value.id == userId))
    ensures IsRole(token, {STORE_OWNER}) ==>
      Authorize(GetUserRatings(userId), token, valid) == Deny(Forbidden("Forbidden resource"))
    ensures IsRole(token, {USER}) && token.value.id != userId ==>
      Authorize(GetUserRatings(userId), token, valid) == (if valid then Deny(Internal("Insufficient permissions")) else Invalid)
  {
  }

  // ---- the stores controller ----

  predicate StoreAdminRoute(r: Route)
  {
    r.PostStore? || r.CountStores? || r.PatchStore? || r.DeleteStore?
  }

  predicate PublicStoreRoute(r: Route)
  {
    r.ListStores? || r.GetStore? || r.GetStoreAverage?
  }

  /** Creating, updating, deleting and counting stores needs ADMIN. */
  lemma StoreWritesAdminOnly(r: Route, token: Option<Actor>, valid: bool)
    requires StoreAdminRoute(r)
    ensures Authorize(r, token, valid).Allow? <==> IsRole(token, {ADMIN}) && valid
    ensures token.None? ==> Authorize(r, token, valid) == Deny(Unauthorized("Unauthorized"))
    ensures IsRole(token, {ADMIN}) && !valid ==> Authorize(r, token, valid) == Invalid
  {
  }

  /** Listing stores, reading one and reading its average are open to everyone, with or without a
      token; only the pipe can refuse them. */
  lemma StoreReadsPublic(r: Route, token: Option<Actor>, valid: bool)
    requires PublicStoreRoute(r) || r.RegisterUser?
    ensures Authorize(r, token, valid) == (if valid then Allow else Invalid)
    ensures AuthorizeAsWritten(r, token, valid) == Authorize(r, token, valid)
  {
  }

  /** On the ratings and stores controllers the guards are in place, so the two decisions agree. */
  lemma GuardedControllersAgree(r: Route, token: Option<Actor>, valid: bool)
    requires GuardedAsWritten(r) || PublicStoreRoute(r)
    ensures AuthorizeAsWritten(r, token, valid) == Authorize(r, token, valid)
  {
  }

  // ---- the users controller ----

  predicate UserAdminRoute(r: Route)
  {
    r.PostAdmin? || r.ListUsers? || r.CountUsers? || r.GetUser? || r.DeleteUser?
  }

  /** As written, the `@Roles(ADMIN)` routes of the users controller are open to anonymous
      callers, because no guard reads that metadata: only the pipe can refuse them. */
  lemma AsWrittenUserAdminRoutesOpen(r: Route, token: Option<Actor>, valid: bool)
    requires UserAdminRoute(r)
    ensures AuthorizeAsWritten(r, token, valid) == (if valid then Allow else Invalid)
  {
  }

  /** As written, the profile update never reaches the service: an invalid body gets the pipe's
      400, and a valid one the handler's 500, because without a guard `@CurrentUser()` is absent,
      whatever token is sent. */
  lemma AsWrittenPatchUserUnreachable(id: Id, token: Option<Actor>, valid: bool)
    ensures AuthorizeAsWritten(PatchUser(id), token, valid) ==
      if valid then Deny(Internal("Cannot read properties of undefined (reading 'role')")) else Invalid
  {
  }

  /** Guarded as intended, those routes need ADMIN, and the guards answer before the pipe. */
  lemma UserAdminRoutesAdminOnly(r: Route, token: Option<Actor>, valid: bool)
    requires UserAdminRoute(r)
    ensures Authorize(r, token, valid).Allow? <==> IsRole(token, {ADMIN}) && valid
    ensures token.None? ==> Authorize(r, token, valid) == Deny(Unauthorized("Unauthorized"))
    ensures token.Some? && !IsRole(token, {ADMIN}) ==> Authorize(r, token, valid) == Deny(Forbidden("Forbidden resource"))
  {
  }

  /** Guarded as intended, a profile update is allowed exactly for an ADMIN or for the user
      themself with a valid body; the body is validated before the handler's check. */
  lemma PatchUserAdminOrSelf(id: Id, token: Option<Actor>, valid: bool)
    ensures Authorize(PatchUser(id), token, valid).Allow? <==>
      valid && token.Some? && (token.value.role == ADMIN || token.value.id == id)
    ensures token.None? ==> Authorize(PatchUser(id), token, valid) == Deny(Unauthorized("Unauthorized"))
    ensures token.Some? && !valid ==> Authorize(PatchUser(id), token, valid) == Invalid
    ensures token.Some? && valid && token.value.role != ADMIN && token.value.id != id ==>
      Authorize(PatchUser(id), token, valid) == Deny(Internal("Insufficient permissions"))
  {
  }

  /** Without a token, exactly the store reads and registration get past the guards, and every
      other route answers 401 whatever the body. */
  lemma AnonymousOnlyPublic(r: Route, valid: bool)
    ensures Authorize(r, None, valid) ==
      if PublicStoreRoute(r) || r.RegisterUser? then (if valid then Allow else Invalid)
      else Deny(Unauthorized("Unauthorized"))
  {
  }
}
