# Auth service decision logic, modelled in Dafny

This project models the authentication core of the smart-check auth service:
login and registration over a user table, a role table and an append-only
audit log (`AuthServiceImpl`), the audit sink (`AuthAuditService.logAsync`),
the loading of Spring Security user details with their `ROLE_` authorities
(`CustomUserDetailsService`), and the mapping of exceptions to HTTP error
responses (`GlobalExceptionHandler`).

Files and modules:

- `wrappers.dfy` (`Wrappers`): `Option`, `Result` and `Outcome`, used where the Java code throws.
- `entities.dfy` (`Entities`): `User`, `Role`, `UserStatus`, `AuthAuditLog` as values; timestamps are plain instants.
- `audit.dfy` (`Audit`): class `AuthAuditService`, whose `logs` sequence is the audit table.
- `user_details.dfy` (`UserDetails`): `loadUserByUsername` as a function of the user table, with the authority mapping and its inverse.
- `exception_handler.dfy` (`ExceptionHandler`): the four handlers and `buildResponse` as functions on an exception kind; the `", "` join as `StringJoiner` builds it, proved equal to the front-first reading.
- `auth_service.dfy` (`AuthService`): class `AuthServiceImpl` holding the user table, the role table and the audit service. `Login` and `Register` are methods whose postconditions give the whole new state. `ResolveRoles` is the find-or-create loop. The object invariant `Valid()` says four things. Every role row is stored under its own name. Every user is stored under its username. Every user holds at least one role. Every role a user holds is a row of the role table.

Collaborators are parameters of the service, fixed at construction:
- `encode` is the injected `PasswordEncoder`, used by register.
- `matches` is the locally built `BCryptPasswordEncoder`, used by login.
- `generateToken` is `JwtTokenProvider.generateToken`.

The model does not assume that the two encoders agree. Only `RegisterThenLogin` assumes it, and only for the registered password, as its precondition `matches(password, encode(password))`.

Notable behaviours of the code, which the model keeps:
- `login` never checks whether the account is BLOCKED (`BlockedUserLogsIn`).
- The two login failures carry different messages ("Invalid username", "Invalid password"). The exception handler echoes them, so the 401 bodies differ (`LoginFailureResponses`).
- The default role is the fixed name `ADMIN`.
- Unknown role names are created, not rejected.
- The `UserAlreadyExists` message names the email, although the check is on the username.

## Model

| member | source | states |
|---|---|---|
| `Audit.AuthAuditService.LogAsync` | src/main/java/com/smartcheck/auth/service/AuthAuditService.java:19-28 | appends exactly one record (username, action, supplied time); the log grows by one and every earlier entry is unchanged |
| `UserDetails.LoadUserByUsername` | src/main/java/com/smartcheck/auth/security/CustomUserDetailsService.java:21-37 | unknown username fails with UsernameNotFound, a BLOCKED user with Disabled, a stored empty username with the IllegalArgument of Spring's `User` constructor; any other user succeeds, and the details carry the stored username and password hash unchanged and one `ROLE_` authority per role |
| `UserDetails.Authorities` | src/main/java/com/smartcheck/auth/security/CustomUserDetailsService.java:34-36 | exactly one authority per role; each role's `"ROLE_" + name` is present, and every authority strips back to a role the user holds |
| `UserDetails.AuthoritiesCount` | src/main/java/com/smartcheck/auth/security/CustomUserDetailsService.java:34-36 | the authority set has as many elements as the role set (no two roles share an authority) |
| `UserDetails.RoleNameOf` | src/main/java/com/smartcheck/auth/security/CustomUserDetailsService.java:35 | an authority has a role name exactly when it starts with `ROLE_`, and then it is `ROLE_` followed by that name |
| `UserDetails.AuthorityRoundTrip` | src/main/java/com/smartcheck/auth/security/CustomUserDetailsService.java:35 | stripping `ROLE_` from a role's authority gives back the role name |
| `UserDetails.AuthorityInjective` | src/main/java/com/smartcheck/auth/security/CustomUserDetailsService.java:35 | distinct roles get distinct authorities |
| `ExceptionHandler.ValidationMessage` | src/main/java/com/smartcheck/auth/exception/GlobalExceptionHandler.java:45-49 | no field errors give the empty message; otherwise the first error rendered `field: message`, then `", "` and the message of the rest, in order |
| `ExceptionHandler.JoinRightSnoc` | src/main/java/com/smartcheck/auth/exception/GlobalExceptionHandler.java:49 | appending a part to a non-empty front-first join adds the delimiter and the part at the end |
| `ExceptionHandler.JoinLeftIsJoinRight` | src/main/java/com/smartcheck/auth/exception/GlobalExceptionHandler.java:49 | the `StringJoiner` join (append behind the delimiter) equals the front-first join on every sequence |
| `ExceptionHandler.BuildResponse` | src/main/java/com/smartcheck/auth/exception/GlobalExceptionHandler.java:70-83 | the response has the given status; the body's status is its code, its error the reason phrase, and message, path and timestamp are the given ones |
| `ExceptionHandler.Handle` | src/main/java/com/smartcheck/auth/exception/GlobalExceptionHandler.java:16-68 | UserAlreadyExists gives 409 and InvalidCredentials 401, each with the exception's own message; validation errors give 400 with the aggregated message; anything else gives 500 with the fixed message; the body's status matches the response and the path is the request URI |
| `AuthService.RoleNamesFor` | src/main/java/com/smartcheck/auth/service/impl/AuthServiceImpl.java:81-84 | a null or empty request gives exactly `{"ADMIN"}`, otherwise exactly the requested names; never empty |
| `AuthService.RoleSet` | src/main/java/com/smartcheck/auth/service/impl/AuthServiceImpl.java:86-96 | the resolved roles are exactly the roles named by the requested names |
| `AuthService.FindOrCreate` | src/main/java/com/smartcheck/auth/service/impl/AuthServiceImpl.java:86-96 | after resolution every name is in the role table, existing rows are kept, and only missing names are added, each as a role of that name |
| `AuthService.FindOrCreateKeyed` | src/main/java/com/smartcheck/auth/service/impl/AuthServiceImpl.java:86-96 | find-or-create keeps every role stored under its own name |
| `AuthService.FindOrCreateStep` | src/main/java/com/smartcheck/auth/service/impl/AuthServiceImpl.java:88-94 | resolving one more name leaves the table as it is when the name is found, and otherwise adds exactly that role |
| `AuthService.AuthServiceImpl.constructor` | src/main/java/com/smartcheck/auth/service/impl/AuthServiceImpl.java:33-41 | the service starts from consistent tables and the given collaborators |
| `AuthService.AuthServiceImpl.Login` | src/main/java/com/smartcheck/auth/service/impl/AuthServiceImpl.java:44-60 | unknown username fails with InvalidCredentials("Invalid username") and a non-matching password with InvalidCredentials("Invalid password"), both leaving the log unchanged; success exactly when the user exists and the password matches, whatever the status, returning the stored user's token and appending one LOGIN entry; the tables never change |
| `AuthService.AuthServiceImpl.ResolveRoles` | src/main/java/com/smartcheck/auth/service/impl/AuthServiceImpl.java:86-96 | the role table becomes the find-or-create of the names, the user table is untouched, and the returned roles are exactly the named ones, each a row of the table |
| `AuthService.AuthServiceImpl.Register` | src/main/java/com/smartcheck/auth/service/impl/AuthServiceImpl.java:62-111 | an existing username fails with UserAlreadyExists and changes neither table nor the log; otherwise the user is stored ACTIVE with the given email, `encode(password)` and the resolved roles, the role table is the find-or-create of the role names, one REGISTER entry is appended, and the table invariant is kept |
| `AuthService.LoginFailureResponses` | src/main/java/com/smartcheck/auth/service/impl/AuthServiceImpl.java:46-51 | both login failures are answered with 401, with bodies that differ by message |
| `AuthService.RegisterThenLogin` | src/main/java/com/smartcheck/auth/service/impl/AuthServiceImpl.java:44-111 | when `matches(password, encode(password))` holds for the registered password, a fresh registration followed by a login with it returns the new user's token; with the audit sink run synchronously, the log holds REGISTER then LOGIN (under `@Async` the two saves may land in either order) |
| `AuthService.RegisterTwice` | src/main/java/com/smartcheck/auth/service/impl/AuthServiceImpl.java:68-72 | a second registration of the same username fails with UserAlreadyExists, answered with 409, and only the first is audited |
| `AuthService.BlockedUserLogsIn` | src/main/java/com/smartcheck/auth/service/impl/AuthServiceImpl.java:46-59 | a BLOCKED user with a matching password gets a token from login, while loading their details fails with Disabled |

## Left out

- HTTP transport: routing, `@Valid` binding and the 200/201 responses of `AuthController` are not modelled.
- Concurrency: `@Async` dispatch and the `CompletableFuture` of `logAsync` are not modelled; the audit write runs synchronously. The check-then-act races on `existsByUsername` and on role find-or-create cannot arise in this sequential model.
- `@Transactional` rollback: register is all-or-nothing only in that its error path changes nothing.
- BCrypt: `encode` and `matches` are uninterpreted functions. No property of them is assumed except in `RegisterThenLogin`.
- JWT signing: the token is an uninterpreted function of the stored user. `JwtTokenProvider` is not part of this model.
- The login response: `AuthServiceImpl` builds `AuthResponse` with one argument, while `AuthResponse` declares only the (token, tokenType) constructor. The model returns the token alone.
- JPA generated ids, the repository interfaces and Spring's `UserDetails`/`SimpleGrantedAuthority` types: users and roles are identified by username and name, authorities are strings.
- UserDetails.LoadUserByUsername: Java strings are never null here, so the rejection of a null password by Spring's `User` constructor is not modelled; only the empty-username rejection is.
- UserDetails.Authorities: the source collects the authorities into a list in the role set's iteration order. The model keeps them as a set, so that order is not captured. Spring's `User` keeps its authorities as a set too.
- Logging calls, the unused `authenticationManager` field, and `LocalDateTime.now()`. Times are parameters.
- The response timestamp of `buildResponse` is a parameter.
