/** The persisted entities of the backend as value rows, the two kinds of
    principal, audit records with their snapshots, and the abstraction used
    for password hashes. Rows are keyed by their auto-increment id in the
    store (module Persistence); relations are foreign-key ids. */
module Model {
  import opened Common

  type Timestamp = nat

  /** The `UserRole` enum; `Value` is the string stored in the database. */
  datatype Role = Administrator | RegularUser {
    function Value(): string {
      if Administrator? then "administrator" else "user"
    }
  }

  /** A stored password hash. bcrypt is salted and one-way; the model keeps
      only what `verify` can observe: which password the hash was made from. */
  datatype Digest = Digest(secret: string)

  /** `PasswordHasher::hash`. */
  function Hash(password: string): Digest {
    Digest(password)
  }

  /** `PasswordHasher::verify`: a hash verifies exactly the password it was made from. */
  predicate Verify(password: string, hash: Digest) {
    hash.secret == password
  }

  /** Row of `users`; `domains` is this user's part of the `user_domains`
      relation, whose primary key (user_id, domain_id) makes it a set. */
  datatype User = User(id: int, email: string, password: Digest, firstname: string,
                       lastname: string, role: Role, active: bool, domains: set<int>)

  /** Row of `domains`. */
  datatype Domain = Domain(id: int, name: string, active: bool)

  /** Row of `mailboxes`. */
  datatype Mailbox = Mailbox(id: int, domainId: int, name: string, password: Digest,
                             active: bool, footerText: Option<string>)

  /** Row of `aliases`. */
  datatype Alias = Alias(id: int, domainId: int, name: string, to: string, active: bool)

  /** Row of `mailbox_autoresponders`; at most one per mailbox (unique mailbox_id). */
  datatype Autoresponder = Autoresponder(mailboxId: int, active: bool, subject: string, body: string,
                                         startDate: Option<Timestamp>, endDate: Option<Timestamp>)

  /** The authenticated entity bound to a request: a user or a mailbox, never both. */
  datatype Principal = UserPrincipal(user: User) | MailboxPrincipal(mailbox: Mailbox) {
    function Id(): int {
      if UserPrincipal? then user.id else mailbox.id
    }

    function Password(): Digest {
      if UserPrincipal? then user.password else mailbox.password
    }

    function Active(): bool {
      if UserPrincipal? then user.active else mailbox.active
    }
  }

  /** A JSON scalar inside an audit snapshot. */
  datatype Value = Str(s: string) | Int(i: int) | Bool(b: bool) | Null

  /** The `old_value` / `new_value` JSON objects of an audit record. */
  type Snapshot = map<string, Value>

  /** Row of `audit_logs`; it is written once and never updated. */
  datatype AuditLog = AuditLog(actorType: string, actorId: Option<int>, eventType: string,
                               entityType: string, entityId: Option<int>,
                               oldValue: Option<Snapshot>, newValue: Option<Snapshot>,
                               ipAddress: Option<string>, userAgent: Option<string>,
                               status: string, createdAt: Timestamp)

  /** What the ledger reads from an HTTP request: client IP and User-Agent header. */
  datatype Request = Request(clientIp: Option<string>, userAgent: Option<string>)

  /** An HTTP response: its status and the `message` or `error` string of its JSON body. */
  datatype Response = Response(status: nat, message: string)

  /** What the validation service answers when the request's DTO breaks a constraint. */
  const ValidationFailed := Response(400, "Validation failed")

  /** The answer of every handler whose access predicate is false. */
  const AccessDenied := Response(403, "Access denied")
}
