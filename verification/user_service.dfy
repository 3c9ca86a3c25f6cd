/** The protected user listing: authentication first, then the ADMIN role,
    then the listing with its default page size. */
module UserService {
  import opened Base
  import opened UserRepo
  import opened Context

  /** getUsers: anonymous callers are UNAUTHENTICATED, other roles than
      ADMIN are FORBIDDEN, and an ADMIN gets `listUsers` with the given
      limit or 50. */
  function GetUsers(store: Store, user: Option<AuthUser>, limit: Option<int>): (r: Result<seq<UserDto>, ErrorCode>)
    ensures user.None? ==> r == Failure(Unauthenticated)
    ensures user.Some? && user.value.role != Admin ==> r == Failure(Forbidden)
    ensures user.Some? && user.value.role == Admin ==> r == ListUsers(store, Some(limit.GetOr(DefaultLimit)))
  {
    match user
    case None => Failure(Unauthenticated)
    case Some(u) =>
      if u.role != Admin then Failure(Forbidden)
      else ListUsers(store, Some(limit.GetOr(DefaultLimit)))
  }

  /** A rejected call does not depend on the store: it is decided before
      the store is read. */
  lemma GateIgnoresStore(s1: Store, s2: Store, user: Option<AuthUser>, limit: Option<int>)
    requires user.None? || user.value.role != Admin
    ensures GetUsers(s1, user, limit) == GetUsers(s2, user, limit)
    ensures GetUsers(s1, user, limit).Failure?
  {
  }

  /** An ADMIN with no limit gets the 50 newest users, or all when there
      are fewer. */
  lemma AdminGetsDefaultPage(store: Store, id: string)
    ensures var r := GetUsers(store, Some(AuthUser(id, Admin)), None);
            r.Success? && |r.value| == Min(50, |store|) && NewestFirst(r.value)
  {
  }
}
