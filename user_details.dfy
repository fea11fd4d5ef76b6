/** `CustomUserDetailsService.loadUserByUsername`: looks a user up, refuses a
    BLOCKED account, and turns each role into a `ROLE_`-prefixed authority.
    It reads the user table and never changes it, so it is a function of that
    table. */
module UserDetails {
  import opened Wrappers
  import opened Entities

  const ROLE_PREFIX: string := "ROLE_"
  const USER_NOT_FOUND: string := "User not found"
  const USER_BLOCKED: string := "User is Blocked"
  /** The message of Spring's `User` constructor when given an empty username. */
  const EMPTY_VALUES: string := "Cannot pass null or empty values to constructor"

  /** Spring Security's `UserDetails`: username, password hash and authorities. */
  datatype Details = Details(username: string, password: string, authorities: set<string>)

  /** `UsernameNotFoundException`, `DisabledException`, and the
      `IllegalArgumentException` of Spring's `User` constructor, with their
      messages. */
  datatype LoadError =
    | UsernameNotFound(message: string)
    | Disabled(message: string)
    | IllegalArgument(message: string)

  /** The authority granted for one role. */
  function Authority(role: Role): string
  {
    ROLE_PREFIX + role.name
  }

  /** The role name an authority stands for, if it carries the `ROLE_` prefix. */
  function RoleNameOf(authority: string): (name: Option<string>)
    ensures name.Some? <==> |authority| >= |ROLE_PREFIX| && authority[..|ROLE_PREFIX|] == ROLE_PREFIX
    ensures name.Some? ==> authority == ROLE_PREFIX + name.value
  {
    if |authority| >= |ROLE_PREFIX| && authority[..|ROLE_PREFIX|] == ROLE_PREFIX
    then Some(authority[|ROLE_PREFIX|..])
    else None
  }

  /** Stripping the prefix recovers the role name, so `Authority` is injective. */
  lemma AuthorityRoundTrip(role: Role)
    ensures RoleNameOf(Authority(role)) == Some(role.name)
  {
  }

  lemma AuthorityInjective(a: Role, b: Role)
    ensures Authority(a) == Authority(b) ==> a == b
  {
    AuthorityRoundTrip(a);
    AuthorityRoundTrip(b);
  }

  /** The image of a role set under `Authority` has one element per role. */
  lemma {:induction false} AuthoritiesCount(roles: set<Role>)
    ensures |set r | r in roles :: Authority(r)| == |roles|
  {
    if roles != {} {
      var x :| x in roles;
      var rest := roles - {x};
      AuthoritiesCount(rest);
      var restImage := set r | r in rest :: Authority(r);
      assert (set r | r in roles :: Authority(r)) == restImage + {Authority(x)};
      if Authority(x) in restImage {
        var y :| y in rest && Authority(y) == Authority(x);
        AuthorityInjective(x, y);
        assert false;
      }
    }
  }

  /** The authorities granted to a user holding `roles`: exactly one per role,
      each the role name behind the `ROLE_` prefix, and nothing else. */
  function Authorities(roles: set<Role>): (auth: set<string>)
    ensures |auth| == |roles|
    ensures forall r :: r in roles ==> ROLE_PREFIX + r.name in auth
    ensures forall a :: a in auth ==> RoleNameOf(a).Some? && Role(RoleNameOf(a).value) in roles
  {
    AuthoritiesCount(roles);
    var auth := set r | r in roles :: Authority(r);
    assert forall r :: r in roles ==> RoleNameOf(Authority(r)) == Some(r.name) by {
      forall r | r in roles { AuthorityRoundTrip(r); }
    }
    auth
  }

  /** `loadUserByUsername`: an unknown username and a BLOCKED account are
      refused, and so is a stored empty username, which Spring's `User`
      constructor rejects; otherwise the stored username and password hash are
      returned unchanged, with the role authorities. */
  function LoadUserByUsername(users: map<string, User>, username: string): (r: Result<Details, LoadError>)
    ensures username !in users ==> r == Failure(UsernameNotFound(USER_NOT_FOUND))
    ensures username in users && users[username].status == Blocked ==> r == Failure(Disabled(USER_BLOCKED))
    ensures username in users && users[username].status != Blocked && users[username].username == "" ==>
      r == Failure(IllegalArgument(EMPTY_VALUES))
    ensures r.Success? <==>
      username in users && users[username].status != Blocked && users[username].username != ""
    ensures r.Success? ==> r.value.username == users[username].username
    ensures r.Success? ==> r.value.password == users[username].password
    ensures r.Success? ==> |r.value.authorities| == |users[username].roles|
    ensures r.Success? ==> forall role :: role in users[username].roles ==> ROLE_PREFIX + role.name in r.value.authorities
    ensures r.Success? ==> forall a :: a in r.value.authorities ==>
      RoleNameOf(a).Some? && Role(RoleNameOf(a).value) in users[username].roles
  {
    if username !in users then
      Failure(UsernameNotFound(USER_NOT_FOUND))
    else
      var user := users[username];
      if user.status == Blocked then
        Failure(Disabled(USER_BLOCKED))
      else if user.username == "" then
        Failure(IllegalArgument(EMPTY_VALUES))
      else
        Success(Details(user.username, user.password, Authorities(user.roles)))
  }
}
