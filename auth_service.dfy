/** `AuthServiceImpl`: login and registration over the user table, the role
    table and the audit sink. The password encoders and the token provider are
    collaborators whose code is not part of this model; they are given to the
    service as functions. */
module AuthService {
  import opened Wrappers
  import opened Entities
  import opened Audit
  import ExceptionHandler
  import UserDetails

  const DEFAULT_ROLE: string := "ADMIN"
  const INVALID_USERNAME: string := "Invalid username"
  const INVALID_PASSWORD: string := "Invalid password"
  const USER_EXISTS_PREFIX: string := "User already exists with email: "

  /** The exceptions `login` and `register` throw, with their messages. */
  datatype AuthError = InvalidCredentials(message: string) | UserAlreadyExists(message: string)

  datatype LoginRequest = LoginRequest(username: string, password: string)

  /** `roles` is None when the request carries no role set (a null field). */
  datatype RegisterRequest = RegisterRequest(
    username: string,
    email: string,
    password: string,
    roles: Option<set<string>>)

  /** The exception each error is raised as, for the exception handler. */
  function AsHandled(e: AuthError): ExceptionHandler.HandledException
  {
    match e
    case InvalidCredentials(m) => ExceptionHandler.InvalidCredentialsException(m)
    case UserAlreadyExists(m) => ExceptionHandler.UserAlreadyExistsException(m)
  }

  /** The role names a registration asks for: the requested set, or the
      default `{"ADMIN"}` when it is null or empty. Never empty. */
  function RoleNamesFor(requested: Option<set<string>>): (names: set<string>)
    ensures names != {}
    ensures requested.None? || requested.value == {} ==> names == {DEFAULT_ROLE}
    ensures requested.Some? && requested.value != {} ==> names == requested.value
  {
    if requested.None? || requested.value == {} then {DEFAULT_ROLE} else requested.value
  }

  /** The role entities named by `names`. */
  function RoleSet(names: set<string>): (roles: set<Role>)
    ensures forall r :: r in roles <==> r.name in names
  {
    set n | n in names :: Role(n)
  }

  /** The role table after find-or-create of every name in `names`: every name
      is present, existing rows are kept as they were, and only the missing
      names are added, each as a new role of that name. */
  function FindOrCreate(table: map<string, Role>, names: set<string>): (t: map<string, Role>)
    ensures t.Keys == table.Keys + names
    ensures forall n :: n in table ==> t[n] == table[n]
    ensures forall n :: n in names && n !in table ==> t[n] == Role(n)
  {
    table + map n | n in names && n !in table :: Role(n)
  }

  /** Every role row is stored under its own name. */
  ghost predicate RolesKeyed(roles: map<string, Role>)
  {
    forall n :: n in roles ==> roles[n].name == n
  }

  /** The tables' consistency: every user is stored under its username, holds
      at least one role, and every role it holds is a row of the role table. */
  ghost predicate TablesValid(users: map<string, User>, roles: map<string, Role>)
  {
    && RolesKeyed(roles)
    && forall u :: u in users ==>
         && users[u].username == u
         && users[u].roles != {}
         && forall r :: r in users[u].roles ==> r.name in roles && roles[r.name] == r
  }

  /** Find-or-create keeps the role table keyed by name. */
  lemma FindOrCreateKeyed(table: map<string, Role>, names: set<string>)
    requires RolesKeyed(table)
    ensures RolesKeyed(FindOrCreate(table, names))
  {
  }

  /** Resolving one more name either finds it or adds exactly that role. */
  lemma FindOrCreateStep(table: map<string, Role>, done: set<string>, name: string)
    ensures FindOrCreate(table, done + {name}) ==
      if name in FindOrCreate(table, done) then FindOrCreate(table, done)
      else FindOrCreate(table, done)[name := Role(name)]
  {
  }

  lemma RoleSetStep(done: set<string>, name: string)
    ensures RoleSet(done + {name}) == RoleSet(done) + {Role(name)}
  {
  }

  class AuthServiceImpl {
    /** The user table, keyed by username. */
    var users: map<string, User>
    /** The role table, keyed by role name. */
    var roles: map<string, Role>
    const auditService: AuthAuditService
    /** The injected `PasswordEncoder.encode`, used by register. */
    const encode: string -> string
    /** The locally built `BCryptPasswordEncoder.matches(plain, hash)`, used by login. */
    const matches: (string, string) -> bool
    /** `JwtTokenProvider.generateToken`. */
    const generateToken: User -> string

    ghost predicate Valid()
      reads this
    {
      TablesValid(users, roles)
    }

    constructor (
      users: map<string, User>,
      roles: map<string, Role>,
      auditService: AuthAuditService,
      encode: string -> string,
      matches: (string, string) -> bool,
      generateToken: User -> string)
      requires TablesValid(users, roles)
      ensures Valid()
      ensures this.users == users && this.roles == roles && this.auditService == auditService
      ensures this.encode == encode && this.matches == matches && this.generateToken == generateToken
    {
      this.users := users;
      this.roles := roles;
      this.auditService := auditService;
      this.encode := encode;
      this.matches := matches;
      this.generateToken := generateToken;
    }

    /** `login`: an unknown username or a password that does not match the
        stored hash fails with InvalidCredentials and records nothing. On
        success exactly one LOGIN entry is appended and the token of the
        stored user is returned. The account's status is never consulted. */
    method Login(request: LoginRequest, now: Timestamp) returns (r: Result<string, AuthError>)
      modifies auditService
      ensures users == old(users) && roles == old(roles)
      ensures request.username !in users ==>
        r == Failure(InvalidCredentials(INVALID_USERNAME)) && auditService.logs == old(auditService.logs)
      ensures request.username in users && !matches(request.password, users[request.username].password) ==>
        r == Failure(InvalidCredentials(INVALID_PASSWORD)) && auditService.logs == old(auditService.logs)
      ensures r.Success? <==> request.username in users && matches(request.password, users[request.username].password)
      ensures r.Success? ==>
        && r.value == generateToken(users[request.username])
        && auditService.logs == old(auditService.logs) + [AuthAuditLog(request.username, LOGIN, now)]
    {
      if request.username !in users {
        return Failure(InvalidCredentials(INVALID_USERNAME));
      }
      var user := users[request.username];
      if !matches(request.password, user.password) {
        return Failure(InvalidCredentials(INVALID_PASSWORD));
      }
      auditService.LogAsync(request.username, LOGIN, now);
      r := Success(generateToken(user));
    }

    /** The role-resolution stream of `register`: each name is looked up in
        the role table and, when missing, a new role of that name is saved. */
    method ResolveRoles(roleNames: set<string>) returns (resolved: set<Role>)
      requires RolesKeyed(roles)
      modifies this
      ensures roles == FindOrCreate(old(roles), roleNames)
      ensures users == old(users)
      ensures resolved == RoleSet(roleNames)
      ensures forall r :: r in resolved ==> r.name in roles && roles[r.name] == r
    {
      var remaining := roleNames;
      ghost var done: set<string> := {};
      resolved := {};
      while remaining != {}
        invariant remaining !! done && remaining + done == roleNames
        invariant users == old(users)
        invariant roles == FindOrCreate(old(roles), done)
        invariant RolesKeyed(roles)
        invariant resolved == RoleSet(done)
        decreases remaining
      {
        var name :| name in remaining;
        FindOrCreateStep(old(roles), done, name);
        RoleSetStep(done, name);
        var role: Role;
        if name in roles {
          role := roles[name];
        } else {
          role := Role(name);
          roles := roles[name := role];
        }
        resolved := resolved + {role};
        remaining := remaining - {name};
        done := done + {name};
      }
    }

    /** `register`: an existing username fails with UserAlreadyExists and
        changes nothing. Otherwise the user is stored ACTIVE under its
        username with the given email, the encoded password and the resolved
        roles, and exactly one REGISTER entry is appended. */
    method Register(request: RegisterRequest, now: Timestamp) returns (r: Outcome<AuthError>)
      requires Valid()
      modifies this, auditService
      ensures Valid()
      ensures request.username in old(users) ==>
        && r == Fail(UserAlreadyExists(USER_EXISTS_PREFIX + request.email))
        && users == old(users) && roles == old(roles)
        && auditService.logs == old(auditService.logs)
      ensures request.username !in old(users) ==>
        && r == Pass
        && roles == FindOrCreate(old(roles), RoleNamesFor(request.roles))
        && users == old(users)[request.username := User(
             request.username, request.email, encode(request.password), Active,
             RoleSet(RoleNamesFor(request.roles)))]
        && auditService.logs == old(auditService.logs) + [AuthAuditLog(request.username, REGISTER, now)]
    {
      if request.username in users {
        return Fail(UserAlreadyExists(USER_EXISTS_PREFIX + request.email));
      }
      var roleNames := RoleNamesFor(request.roles);
      var granted := ResolveRoles(roleNames);
      var user := User(request.username, request.email, encode(request.password), Active, granted);
      users := users[request.username := user];
      auditService.LogAsync(request.username, REGISTER, now);
      r := Pass;
    }
  }

  /** The two login failures both reach the client as 401 responses, but the
      handler echoes their messages, so the bodies tell an unknown username
      apart from a wrong password. */
  lemma LoginFailureResponses(requestUri: string, now: Timestamp)
    ensures ExceptionHandler.Handle(AsHandled(InvalidCredentials(INVALID_USERNAME)), requestUri, now).body.status == 401
    ensures ExceptionHandler.Handle(AsHandled(InvalidCredentials(INVALID_PASSWORD)), requestUri, now).body.status == 401
    ensures ExceptionHandler.Handle(AsHandled(InvalidCredentials(INVALID_USERNAME)), requestUri, now)
         != ExceptionHandler.Handle(AsHandled(InvalidCredentials(INVALID_PASSWORD)), requestUri, now)
  {
  }

  /** A fresh registration followed by a login with the same password issues
      the token of the registered user, provided the login encoder accepts
      the hash the registration encoder produced for that password; with the
      audit sink run synchronously, the log gains a REGISTER entry and then a
      LOGIN entry. */
  method RegisterThenLogin(
    users: map<string, User>,
    roles: map<string, Role>,
    encode: string -> string,
    matches: (string, string) -> bool,
    generateToken: User -> string,
    request: RegisterRequest,
    registeredAt: Timestamp,
    loggedInAt: Timestamp)
    returns (registered: Outcome<AuthError>, login: Result<string, AuthError>, logs: seq<AuthAuditLog>)
    requires TablesValid(users, roles) && request.username !in users
    requires matches(request.password, encode(request.password))
    ensures registered == Pass
    ensures login == Success(generateToken(User(
      request.username, request.email, encode(request.password), Active, RoleSet(RoleNamesFor(request.roles)))))
    ensures logs == [AuthAuditLog(request.username, REGISTER, registeredAt), AuthAuditLog(request.username, LOGIN, loggedInAt)]
  {
    var audit := new AuthAuditService();
    var service := new AuthServiceImpl(users, roles, audit, encode, matches, generateToken);
    registered := service.Register(request, registeredAt);
    login := service.Login(LoginRequest(request.username, request.password), loggedInAt);
    logs := audit.logs;
  }

  /** Registering the same username twice: the second call fails with
      UserAlreadyExists, answered with 409, and only the first is audited. */
  method RegisterTwice(
    users: map<string, User>,
    roles: map<string, Role>,
    encode: string -> string,
    matches: (string, string) -> bool,
    generateToken: User -> string,
    first: RegisterRequest,
    second: RegisterRequest,
    now: Timestamp)
    returns (firstOutcome: Outcome<AuthError>, secondOutcome: Outcome<AuthError>, logs: seq<AuthAuditLog>)
    requires TablesValid(users, roles) && first.username !in users
    requires second.username == first.username
    ensures firstOutcome == Pass
    ensures secondOutcome == Fail(UserAlreadyExists(USER_EXISTS_PREFIX + second.email))
    ensures ExceptionHandler.Handle(AsHandled(secondOutcome.error), "", now).statusCode == ExceptionHandler.Conflict
    ensures logs == [AuthAuditLog(first.username, REGISTER, now)]
  {
    var audit := new AuthAuditService();
    var service := new AuthServiceImpl(users, roles, audit, encode, matches, generateToken);
    firstOutcome := service.Register(first, now);
    secondOutcome := service.Register(second, now);
    logs := audit.logs;
  }

  /** Login never looks at the account status: a BLOCKED user whose password
      matches receives a token, although loading that user's details for
      Spring Security fails with Disabled. */
  method BlockedUserLogsIn(
    users: map<string, User>,
    roles: map<string, Role>,
    encode: string -> string,
    matches: (string, string) -> bool,
    generateToken: User -> string,
    request: LoginRequest,
    now: Timestamp)
    returns (login: Result<string, AuthError>, details: Result<UserDetails.Details, UserDetails.LoadError>)
    requires TablesValid(users, roles)
    requires request.username in users && users[request.username].status == Blocked
    requires matches(request.password, users[request.username].password)
    ensures login == Success(generateToken(users[request.username]))
    ensures details == Failure(UserDetails.Disabled(UserDetails.USER_BLOCKED))
  {
    var audit := new AuthAuditService();
    var service := new AuthServiceImpl(users, roles, audit, encode, matches, generateToken);
    login := service.Login(request, now);
    details := UserDetails.LoadUserByUsername(users, request.username);
  }
}
