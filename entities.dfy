/** The persistent entities of the auth service, as values. JPA-generated ids
    are not modelled: a user is identified by its username and a role by its
    name, which is how the repositories look them up. */
module Entities {

  /** `LocalDateTime`, as an opaque instant supplied by the caller. */
  type Timestamp = int

  /** `UserStatus`: an ACTIVE or a BLOCKED account. */
  datatype UserStatus = Active | Blocked

  /** A row of the role table. */
  datatype Role = Role(name: string)

  /** A row of the user table; `password` holds the encoded (hashed) password. */
  datatype User = User(
    username: string,
    email: string,
    password: string,
    status: UserStatus,
    roles: set<Role>)

  /** A row of the `auth_audit_logs` table. */
  datatype AuthAuditLog = AuthAuditLog(username: string, action: string, timestamp: Timestamp)

  /** The two audit actions the auth service records. */
  const LOGIN: string := "LOGIN"
  const REGISTER: string := "REGISTER"
}
