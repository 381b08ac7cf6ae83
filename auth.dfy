/**
 * The authorization gate of data/queries/auth-queries.ts.
 *
 * The two primitive checks are mocks in the source that always answer true; the
 * model takes their answers as a `Session` value so that both the open and the
 * closed gate can be reasoned about.
 */
module Auth {

  /** What `isAuthenticated()` and `isAuthorized()` answer for the current request. */
  datatype Session = Session(authenticated: bool, authorized: bool)

  /** The demo's mocks: both checks return true. */
  const MockSession := Session(true, true)

  /** `isAuthenticated()`. */
  function IsAuthenticated(s: Session): bool {
    s.authenticated
  }

  /** `isAuthorized()`. */
  function IsAuthorized(s: Session): bool {
    s.authorized
  }

  /**
   * `canManagePosts()`: the single capability check consulted before every
   * mutation and every management query.
   */
  function CanManagePosts(s: Session): (ok: bool)
    ensures ok ==> IsAuthenticated(s)
    ensures ok ==> IsAuthorized(s)
    ensures IsAuthenticated(s) && IsAuthorized(s) ==> ok
  {
    IsAuthenticated(s) && IsAuthorized(s)
  }

  /** An unauthenticated caller is refused, whatever the authorization check says. */
  lemma UnauthenticatedIsRefused(authorized: bool)
    ensures !CanManagePosts(Session(false, authorized))
  {
  }

  /** An authenticated but unauthorized caller is refused too. */
  lemma UnauthorizedIsRefused()
    ensures !CanManagePosts(Session(true, false))
  {
  }

  /** With the demo's mocks the gate is always open. */
  lemma MockGateIsOpen()
    ensures CanManagePosts(MockSession)
  {
  }
}
