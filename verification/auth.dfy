/**
 * The authentication hook: the session's status, its user and the role
 * checks derived from the user's role under the hierarchy
 * GUEST < USER < GUIDE < ADMIN.
 */
module Auth {
  import opened Wrappers

  datatype Role = GUEST | USER | GUIDE | ADMIN

  /** The session's status as the session provider reports it. */
  datatype Status = Loading | Authenticated | Unauthenticated

  datatype User = User(id: string, email: string, role: Role)

  datatype Session = Session(user: Option<User>, status: Status)

  /** The place of a role in the hierarchy. */
  function Level(r: Role): (n: nat)
    ensures n <= 3
  {
    match r
    case GUEST => 0
    case USER => 1
    case GUIDE => 2
    case ADMIN => 3
  }

  /** `hasRole`: there is a user and its level is at least that of `r`. */
  function HasRole(user: Option<User>, r: Role): (b: bool)
    ensures user.None? ==> !b
  {
    match user
    case None => false
    case Some(u) => Level(u.role) >= Level(r)
  }

  /** What the hook returns. */
  datatype AuthState = AuthState(
    user: Option<User>,
    isLoading: bool,
    isAuthenticated: bool,
    isGuest: bool,
    isUser: bool,
    isGuide: bool,
    isAdmin: bool)

  /** `useAuth` for a given session. */
  function UseAuth(s: Session): (a: AuthState)
    ensures a.user == s.user
    ensures a.isLoading <==> s.status == Loading
    ensures a.isAuthenticated <==> s.status == Authenticated
    ensures a.isGuest <==> s.user.Some? && s.user.value.role == GUEST
    ensures a.isUser == HasRole(s.user, USER)
    ensures a.isGuide == HasRole(s.user, GUIDE)
    ensures a.isAdmin == HasRole(s.user, ADMIN)
  {
    AuthState(
      s.user,
      s.status == Loading,
      s.status == Authenticated,
      s.user.Some? && s.user.value.role == GUEST,
      HasRole(s.user, USER),
      HasRole(s.user, GUIDE),
      HasRole(s.user, ADMIN))
  }

  /** The hierarchy is a strict total order: distinct roles have distinct levels. */
  lemma LevelInjective(r: Role, q: Role)
    ensures Level(r) == Level(q) <==> r == q
  {
  }

  /** A signed-in user has its own role, and an administrator has every role. */
  lemma HasOwnRole(u: User, r: Role)
    ensures HasRole(Some(u), u.role)
    ensures u.role == ADMIN ==> HasRole(Some(u), r)
  {
  }

  /** Having a role implies having every lower one. */
  lemma HasRoleUpwardClosed(user: Option<User>, r: Role, lower: Role)
    requires HasRole(user, r) && Level(lower) <= Level(r)
    ensures HasRole(user, lower)
  {
  }

  /** Having a role is having a level at least as high; of two roles, one of their holders always has the other's. */
  lemma HasRoleIsLevelOrder(u: User, r: Role)
    ensures HasRole(Some(u), r) <==> Level(u.role) >= Level(r)
    ensures HasRole(Some(u), r) || HasRole(Some(User(u.id, u.email, r)), u.role)
  {
  }

  /**
   * The role flags are nested: an administrator is a guide and a guide is a
   * user; with no user every flag is off, and a guest is never a user.
   */
  lemma RoleFlagsNested(s: Session)
    ensures UseAuth(s).isAdmin ==> UseAuth(s).isGuide
    ensures UseAuth(s).isGuide ==> UseAuth(s).isUser
    ensures s.user.None? ==> !UseAuth(s).isGuest && !UseAuth(s).isUser && !UseAuth(s).isGuide && !UseAuth(s).isAdmin
    ensures UseAuth(s).isGuest ==> !UseAuth(s).isUser
    ensures s.user.Some? ==> UseAuth(s).isGuest || UseAuth(s).isUser
  {
    var a := UseAuth(s);
    if a.isAdmin {
      HasRoleUpwardClosed(s.user, ADMIN, GUIDE);
    }
    if a.isGuide {
      HasRoleUpwardClosed(s.user, GUIDE, USER);
    }
  }

  /** Loading and authenticated never hold together, and neither depends on the user. */
  lemma StatusFlagsExclusive(s: Session, other: Option<User>)
    ensures !(UseAuth(s).isLoading && UseAuth(s).isAuthenticated)
    ensures UseAuth(s.(user := other)).isLoading == UseAuth(s).isLoading
    ensures UseAuth(s.(user := other)).isAuthenticated == UseAuth(s).isAuthenticated
  {
  }
}
