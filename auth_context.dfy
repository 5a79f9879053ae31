// The admin front end's authentication context: who is signed in, with which
// token, whether the stored session is still being restored, the role check
// the pages use to show or hide features, and the three transitions (restore
// from browser storage, login, logout).

module AuthContext {
  import opened Common
  import opened Domain

  /** The signed-in user as the front end keeps it. */
  datatype AuthUser = AuthUser(
    id: Id, username: string, email: string, fullName: string, role: UserRole, isActive: bool)

  /** A JavaScript truthiness test of an optional string: present and not empty. */
  predicate Truthy(s: Option<string>) {
    s.Some? && |s.value| > 0
  }

  // ---------------------------------------------------------------------
  // Role check and authenticated flag
  // ---------------------------------------------------------------------

  /** No user has no role; an administrator has every role; a teacher also has
    * the student role; otherwise a user has its own role only. */
  function HasRoleFor(user: Option<AuthUser>, role: UserRole): (r: bool)
    ensures r ==> user.Some?
  {
    if user.None? then false
    else if user.value.role == Admin then true
    else if user.value.role == Teacher && role == Student then true
    else user.value.role == role
  }

  /** Signed in: a non-empty token and a user object. */
  function IsAuthenticatedFor(token: Option<string>, user: Option<AuthUser>): (r: bool)
    ensures r ==> token.Some? && user.Some?
  {
    Truthy(token) && user.Some?
  }

  lemma NoUserHasNoRole(role: UserRole)
    ensures !HasRoleFor(None, role)
  {
  }

  lemma AdminHasEveryRole(u: AuthUser, role: UserRole)
    requires u.role == Admin
    ensures HasRoleFor(Some(u), role)
  {
  }

  lemma TeacherRoles(u: AuthUser)
    requires u.role == Teacher
    ensures HasRoleFor(Some(u), Student) && HasRoleFor(Some(u), Teacher)
    ensures !HasRoleFor(Some(u), Admin)
  {
  }

  lemma StudentRoles(u: AuthUser, role: UserRole)
    requires u.role == Student
    ensures HasRoleFor(Some(u), role) <==> role == Student
  {
  }

  /** The role check is the order Student < Teacher < Admin of the role codes:
    * a user has a role exactly when its own code is at least that role's. */
  lemma HasRoleIsRankOrder(u: AuthUser, role: UserRole)
    ensures HasRoleFor(Some(u), role) <==> role.Code() <= u.role.Code()
  {
  }

  /** Having a role carries every role that role has. */
  lemma HasRoleTransitive(u: AuthUser, v: AuthUser, role: UserRole)
    requires HasRoleFor(Some(u), v.role)
    requires HasRoleFor(Some(v), role)
    ensures HasRoleFor(Some(u), role)
  {
    HasRoleIsRankOrder(u, v.role);
    HasRoleIsRankOrder(v, role);
    HasRoleIsRankOrder(u, role);
  }

  // ---------------------------------------------------------------------
  // Session state and its transitions
  // ---------------------------------------------------------------------

  /** The context's React state. */
  datatype AuthState = AuthState(user: Option<AuthUser>, token: Option<string>, isLoading: bool)

  /** The two browser storage entries, under the keys 'token' and 'user'. The
    * user entry holds the JSON text of a user, written here as that user. */
  datatype Stored = Stored(token: Option<string>, user: Option<AuthUser>)

  /** The state together with the storage. */
  datatype Session = Session(state: AuthState, stored: Stored)

  /** The state on mount: nobody signed in, restore pending. */
  const InitialState := AuthState(None, None, true)

  /** What the login request can come back with: a response, or an exception
    * (a network error or an error status). */
  datatype LoginData = LoginData(token: string, user: AuthUser)
  datatype LoginReply = Replied(success: bool, data: Option<LoginData>) | Failed

  datatype LoginResult = LoginResult(ok: bool, after: Session)

  /** The mount effect: take the stored token and user only when both are
    * there, and in every case end loading. Storage is only read. */
  function RestoreStep(s: Session): (r: Session)
    ensures r.stored == s.stored && !r.state.isLoading
  {
    if Truthy(s.stored.token) && s.stored.user.Some? then
      Session(AuthState(s.stored.user, s.stored.token, false), s.stored)
    else
      Session(s.state.(isLoading := false), s.stored)
  }

  /** Login: on a successful response with data, keep its token and user in
    * the state and in storage and answer true; otherwise answer false and
    * change nothing. */
  function LoginStep(s: Session, reply: LoginReply): (r: LoginResult)
    ensures r.after.state.isLoading == s.state.isLoading
  {
    if reply.Replied? && reply.success && reply.data.Some? then
      var d := reply.data.value;
      LoginResult(true, Session(
        AuthState(Some(d.user), Some(d.token), s.state.isLoading),
        Stored(Some(d.token), Some(d.user))))
    else
      LoginResult(false, s)
  }

  /** Logout: clear the user and token in the state and remove both entries. */
  function LogoutStep(s: Session): (r: Session)
    ensures r.state.isLoading == s.state.isLoading
  {
    Session(AuthState(None, None, s.state.isLoading), Stored(None, None))
  }

  /** A session is restored only when both entries are there; otherwise only
    * the loading flag changes. */
  lemma RestoreTakesBothOrNothing(s: Session)
    ensures Truthy(s.stored.token) && s.stored.user.Some? ==>
      RestoreStep(s).state.user == s.stored.user && RestoreStep(s).state.token == s.stored.token
    ensures !(Truthy(s.stored.token) && s.stored.user.Some?) ==>
      RestoreStep(s).state == s.state.(isLoading := false)
  {
  }

  /** Just after mount, the user is signed in exactly when storage held both
    * entries. */
  lemma RestoreAuthenticatesIff(stored: Stored)
    ensures IsAuthenticatedFor(RestoreStep(Session(InitialState, stored)).state.token,
                               RestoreStep(Session(InitialState, stored)).state.user)
      <==> Truthy(stored.token) && stored.user.Some?
  {
  }

  /** Login answers true exactly on a successful response with data; then the
    * state and storage hold its token and user, otherwise nothing changed. */
  lemma LoginReports(s: Session, reply: LoginReply)
    ensures LoginStep(s, reply).ok <==> reply.Replied? && reply.success && reply.data.Some?
    ensures LoginStep(s, reply).ok ==>
      var d := reply.data.value;
      var after := LoginStep(s, reply).after;
      after.state.user == Some(d.user) && after.state.token == Some(d.token) &&
      after.stored == Stored(Some(d.token), Some(d.user))
    ensures !LoginStep(s, reply).ok ==> LoginStep(s, reply).after == s
  {
  }

  /** After a successful login with a non-empty token the user is signed in
    * with exactly the roles of the user the server returned. */
  lemma LoginGrantsServerRoles(s: Session, d: LoginData, role: UserRole)
    requires |d.token| > 0
    ensures var after := LoginStep(s, Replied(true, Some(d))).after.state;
      IsAuthenticatedFor(after.token, after.user) &&
      (HasRoleFor(after.user, role) <==> role.Code() <= d.user.role.Code())
  {
    HasRoleIsRankOrder(d.user, role);
  }

  /** A page reload after a successful login, with a non-empty token, comes
    * back to the same user and token. */
  lemma LoginSurvivesReload(s: Session, d: LoginData)
    requires |d.token| > 0
    ensures var after := LoginStep(s, Replied(true, Some(d))).after;
      var reloaded := RestoreStep(Session(InitialState, after.stored));
      reloaded.state.user == after.state.user && reloaded.state.token == after.state.token
  {
  }

  /** After logout nobody is signed in, no role is held, and a reload stays
    * signed out. */
  lemma LogoutSignsOut(s: Session, role: UserRole)
    ensures var after := LogoutStep(s);
      !IsAuthenticatedFor(after.state.token, after.state.user) &&
      !HasRoleFor(after.state.user, role) &&
      RestoreStep(Session(InitialState, after.stored)).state == AuthState(None, None, false)
  {
  }

  lemma LogoutIdempotent(s: Session)
    ensures LogoutStep(LogoutStep(s)) == LogoutStep(s)
  {
  }

  // ---------------------------------------------------------------------
  // The provider and the browser storage it writes
  // ---------------------------------------------------------------------

  /** The browser's local storage, reduced to the two entries the context uses. */
  class LocalStorage {
    var token: Option<string>
    var user: Option<AuthUser>

    constructor(token: Option<string>, user: Option<AuthUser>)
      ensures this.token == token && this.user == user
    {
      this.token := token;
      this.user := user;
    }

    function Contents(): Stored
      reads this
    {
      Stored(token, user)
    }
  }

  /** The provider component's state and its callbacks. */
  class AuthProvider {
    var user: Option<AuthUser>
    var token: Option<string>
    var isLoading: bool
    const storage: LocalStorage

    constructor(storage: LocalStorage)
      ensures State() == InitialState && this.storage == storage
    {
      user := None;
      token := None;
      isLoading := true;
      this.storage := storage;
    }

    function State(): AuthState
      reads this
    {
      AuthState(user, token, isLoading)
    }

    function Current(): Session
      reads this, storage
    {
      Session(State(), storage.Contents())
    }

    predicate HasRole(role: UserRole)
      reads this
    {
      HasRoleFor(user, role)
    }

    predicate IsAuthenticated()
      reads this
    {
      IsAuthenticatedFor(token, user)
    }

    /** The mount effect. */
    method Restore()
      modifies this
      ensures Current() == RestoreStep(old(Current()))
    {
      var storedToken := storage.token;
      var storedUser := storage.user;
      if Truthy(storedToken) && storedUser.Some? {
        token := storedToken;
        user := storedUser;
      }
      isLoading := false;
    }

    method Login(reply: LoginReply) returns (ok: bool)
      modifies this, storage
      ensures LoginResult(ok, Current()) == LoginStep(old(Current()), reply)
    {
      if reply.Replied? && reply.success && reply.data.Some? {
        var newToken := reply.data.value.token;
        var newUser := reply.data.value.user;
        token := Some(newToken);
        user := Some(newUser);
        storage.token := Some(newToken);
        storage.user := Some(newUser);
        return true;
      }
      return false;
    }

    method Logout()
      modifies this, storage
      ensures Current() == LogoutStep(old(Current()))
    {
      user := None;
      token := None;
      storage.token := None;
      storage.user := None;
    }
  }
}
