/**
 * Role-based authorisation primitives (auth/Policy.kt). The source raises `UnauthorizedException`
 * to deny and returns `Unit` to allow; here every check returns a `Decision`.
 */
module Policy {
  import opened Wrappers
  import opened Failures

  const ROLE_MEMBER := "ROLE_MEMBER"
  const ROLE_COMMITTEE := "ROLE_COMMITTEE"
  const ROLE_ADMIN := "ROLE_ADMIN"

  /** The caller's principal: only an OIDC token principal carries a subject. */
  datatype Principal = OidcJwtCaller(subject: Option<string>) | OtherCaller(name: string)

  /** Quarkus' `SecurityIdentity`, reduced to its principal and its role names. */
  datatype SecurityIdentity = SecurityIdentity(principal: Principal, roles: set<string>)

  /** Anything exposing an author id (`HasAuthor`); the id is held in its string form. */
  datatype HasAuthor = HasAuthor(authorId: string)

  datatype Decision = Allow | Deny

  /** The exception `deny()` raises. */
  const UNAUTHORIZED_FAILURE := Failure(Unauthorized, None, None)

  /** `SecurityIdentity.getUserId()`: the subject of an OIDC token principal, null for every other principal. */
  function GetUserId(identity: SecurityIdentity): (id: Option<string>)
    ensures identity.principal.OtherCaller? ==> id.None?
    ensures identity.principal.OidcJwtCaller? ==> id == identity.principal.subject
  {
    match identity.principal
    case OidcJwtCaller(subject) => subject
    case OtherCaller(_) => None
  }

  /** `SecurityIdentity.hasRole(role)`. */
  predicate HasRole(identity: SecurityIdentity, role: string) {
    role in identity.roles
  }

  /** `isMember()`: holds iff the caller has the member role. */
  predicate IsMember(identity: SecurityIdentity): (b: bool)
    ensures b <==> ROLE_MEMBER in identity.roles
  {
    HasRole(identity, ROLE_MEMBER)
  }

  /** `isAdmin()`: holds iff the caller has the committee role or the admin role. */
  predicate IsAdmin(identity: SecurityIdentity): (b: bool)
    ensures b <==> ROLE_COMMITTEE in identity.roles || ROLE_ADMIN in identity.roles
  {
    HasRole(identity, ROLE_COMMITTEE) || HasRole(identity, ROLE_ADMIN)
  }

  /** The two roles are independent: the member role alone gives no admin rights, and the admin roles give no membership. */
  lemma RolePredicates(identity: SecurityIdentity)
    ensures identity.roles == {ROLE_MEMBER} ==> IsMember(identity) && !IsAdmin(identity)
    ensures identity.roles <= {ROLE_COMMITTEE, ROLE_ADMIN} ==> !IsMember(identity)
  {
  }

  /** `allow()`. */
  function AllowDecision(): (d: Decision)
    ensures d == Allow
  {
    Allow
  }

  /** `deny()`. */
  function DenyDecision(): (d: Decision)
    ensures d == Deny
  {
    Deny
  }

  /** `authorise(fn)`: denies iff `fn()` is false. */
  function Authorise(fn: () -> bool): (d: Decision)
    ensures d == Deny <==> !fn()
  {
    if !fn() then DenyDecision() else AllowDecision()
  }

  /** `authorise(entity, fn)`: denies when there is no entity, and otherwise iff `fn(entity)` is false. */
  function AuthoriseEntity<T>(entity: Option<T>, fn: T -> bool): (d: Decision)
    ensures entity.None? ==> d == Deny
    ensures entity.Some? ==> (d == Deny <==> !fn(entity.value))
  {
    if entity.None? || !fn(entity.value) then DenyDecision() else AllowDecision()
  }

  /** With an entity present, the entity check is the plain check of `fn` applied to it. */
  lemma AuthoriseEntityIsAuthoriseOfApplication<T>(x: T, fn: T -> bool)
    ensures AuthoriseEntity(Some(x), fn) == Authorise(() => fn(x))
  {
  }

  /** Without an entity no predicate, however permissive, lets the call through. */
  lemma MissingEntityAlwaysDenied<T>(fn: T -> bool)
    requires forall x: T :: fn(x)
    ensures AuthoriseEntity(None, fn) == Deny
  {
  }

  /** `isAuthor(entity, fn)`: false without an entity, else whether `fn(entity)` (as a string) is the caller's id. */
  function IsAuthor<T>(identity: SecurityIdentity, entity: Option<T>, fn: T -> string): (b: bool)
    ensures entity.None? ==> !b
    ensures entity.Some? ==> (b <==> GetUserId(identity) == Some(fn(entity.value)))
  {
    match entity
    case None => false
    case Some(e) => Some(fn(e)) == GetUserId(identity)
  }

  /** `isAuthor(HasAuthor?)`: compares the author id with the caller's id. */
  function IsAuthorOf(identity: SecurityIdentity, entity: Option<HasAuthor>): (b: bool)
    ensures entity.None? ==> !b
    ensures entity.Some? ==> (b <==> GetUserId(identity) == Some(entity.value.authorId))
  {
    match entity
    case None => false
    case Some(e) => Some(e.authorId) == GetUserId(identity)
  }

  /** The `HasAuthor` overload is the general one with the author id as the extractor. */
  lemma IsAuthorOfIsIsAuthor(identity: SecurityIdentity, entity: Option<HasAuthor>)
    ensures IsAuthorOf(identity, entity) == IsAuthor(identity, entity, (h: HasAuthor) => h.authorId)
  {
  }

  /** A caller whose principal is not an OIDC token is never the author of anything. */
  lemma NonTokenCallerIsNeverAuthor<T>(identity: SecurityIdentity, entity: Option<T>, fn: T -> string)
    requires identity.principal.OtherCaller?
    ensures !IsAuthor(identity, entity, fn)
    ensures forall h: Option<HasAuthor> :: !IsAuthorOf(identity, h)
  {
  }

  /** A token caller is the author exactly when its subject is the entity's author id. */
  lemma TokenCallerIsAuthorOfOwnEntity(subject: string, roles: set<string>, authorId: string)
    ensures var caller := SecurityIdentity(OidcJwtCaller(Some(subject)), roles);
            IsAuthorOf(caller, Some(HasAuthor(authorId))) <==> subject == authorId
  {
  }
}
