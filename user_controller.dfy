/** Administration of user accounts (src/Controller/UserController.php).
    Every route carries RequireRole(ADMINISTRATOR); a user named in the path
    must exist. */
module UserController {
  import opened Common
  import opened Model
  import opened AuditLogService
  import opened TokenRevocation
  import AccessControl
  import AuthListener
  import Persistence

  const EmailExists := Response(409, "User with this email already exists")
  const EmailTaken := Response(409, "Email is already taken")
  const Created := Response(201, "User created successfully")
  const Updated := Response(200, "User updated successfully")
  const PasswordRequired := Response(400, "Password is required")
  const PasswordChanged := Response(200, "Password changed successfully")
  const SessionsEnded := Response(200, "All user sessions logged out successfully")

  /** The policy of every route: RequireRole on each method. */
  const AdminRoute := AuthListener.Action(AuthListener.NoAttributes,
                                          AuthListener.Attributes(false, Some(Administrator)))

  /** Only an administrator reaches a handler of this controller. */
  lemma OnlyAdministratorsManageUsers(header: Option<string>,
                                      userTokens: map<string, int>, users: map<int, User>,
                                      mailboxTokens: map<string, int>, mailboxes: map<int, Mailbox>)
    requires AuthListener.OwnersExist(userTokens, users, mailboxTokens, mailboxes)
    ensures var d := AuthListener.Decide(AdminRoute, header, userTokens, users, mailboxTokens, mailboxes);
            && d != AuthListener.Proceed
            && (d.Bind? ==> AccessControl.IsAdministrator(d.principal))
  {
    AuthListener.RoleRouteBindsOnlyThatRole(AdminRoute, header, Administrator,
                                            userTokens, users, mailboxTokens, mailboxes);
  }

  /** `UserRole::from`, total on the two values the Choice constraint admits. */
  function RoleFrom(s: string): (r: Option<Role>)
    ensures r.Some? <==> s == "administrator" || s == "user"
    ensures r.Some? ==> r.value.Value() == s
  {
    if s == "administrator" then Some(Administrator)
    else if s == "user" then Some(RegularUser)
    else None
  }

  /** Reading back the stored value of a role gives the role. */
  lemma RoleRoundTrip(r: Role)
    ensures RoleFrom(r.Value()) == Some(r)
  {
  }

  /** The constraints of CreateUserDTO. `emailIsValid` is the Email
      constraint's verdict on the supplied address. */
  predicate CreateAccepted(email: Option<string>, emailIsValid: bool, password: Option<string>,
                           firstname: Option<string>, lastname: Option<string>, role: Option<string>) {
    && NotBlank(email) && emailIsValid
    && NotBlank(password) && |password.value| >= 8
    && NotBlank(firstname) && 2 <= |firstname.value| <= 100
    && NotBlank(lastname) && 2 <= |lastname.value| <= 100
    && NotBlank(role) && RoleFrom(role.value).Some?
  }

  /** The constraints of UpdateUserDTO: each supplied field is checked,
      absent ones pass. */
  predicate UpdateAccepted(email: Option<string>, emailIsValid: bool,
                           firstname: Option<string>, lastname: Option<string>, role: Option<string>) {
    && (email.None? || emailIsValid)
    && (firstname.None? || 2 <= |firstname.value| <= 100)
    && (lastname.None? || 2 <= |lastname.value| <= 100)
    && (role.None? || RoleFrom(role.value).Some?)
  }

  /** `findOneBy(['email' => …])` finds a user. */
  predicate InUse(users: map<int, User>, email: string) {
    exists id | id in users :: users[id].email == email
  }

  /** `findOneBy(['email' => …])` finds a user other than `self`. */
  predicate HeldByOther(users: map<int, User>, email: string, self: int) {
    exists id | id in users :: users[id].email == email && id != self
  }

  /** With unique emails a user's own address is never held by another, so
      re-submitting it passes the conflict check. */
  lemma OwnEmailIsFree(users: map<int, User>, id: int)
    requires Persistence.UniqueEmails(users) && id in users
    ensures !HeldByOther(users, users[id].email, id)
  {
  }

  /** The `{email, firstname, lastname, role, active}` snapshot of a created user. */
  function CreatedSnapshot(u: User): Snapshot {
    map["email" := Str(u.email), "firstname" := Str(u.firstname), "lastname" := Str(u.lastname),
        "role" := Str(u.role.Value()), "active" := Bool(u.active)]
  }

  /** The `{email, firstname, lastname, active, role}` snapshot of an update. */
  function StateSnapshot(u: User): Snapshot {
    map["email" := Str(u.email), "firstname" := Str(u.firstname), "lastname" := Str(u.lastname),
        "active" := Bool(u.active), "role" := Str(u.role.Value())]
  }

  /** The `{active}` snapshot of an activation event. */
  function ActiveSnapshot(active: bool): Snapshot {
    map["active" := Bool(active)]
  }

  /** Neither snapshot of a user exposes the password hash or the memberships:
      two rows that differ only there log identically. */
  lemma SnapshotsHidePassword(u: User, password: Digest, domains: set<int>)
    ensures StateSnapshot(u.(password := password, domains := domains)) == StateSnapshot(u)
    ensures CreatedSnapshot(u.(password := password, domains := domains)) == CreatedSnapshot(u)
  {
  }

  // ---------------------------------------------------------------------
  // create

  /** `create`: validation, then the email conflict, then an active user with
      no domains and one `user.created` record. */
  method Create(st: Persistence.Store, email: Option<string>, emailIsValid: bool, password: Option<string>,
                firstname: Option<string>, lastname: Option<string>, role: Option<string>,
                actor: Principal, now: Timestamp, req: Request) returns (resp: Response)
    requires st.Valid()
    modifies st`users, st`nextUserId, st`auditLogs
    ensures st.Valid()
    ensures if !CreateAccepted(email, emailIsValid, password, firstname, lastname, role)
               || InUse(old(st.users), email.value) then
              && resp == (if !CreateAccepted(email, emailIsValid, password, firstname, lastname, role) then ValidationFailed
                          else EmailExists)
              && st.users == old(st.users) && st.nextUserId == old(st.nextUserId)
              && st.auditLogs == old(st.auditLogs)
            else
              var u := User(old(st.nextUserId), email.value, Hash(password.value), firstname.value, lastname.value,
                            RoleFrom(role.value).value, true, {});
              && resp == Created
              && st.users == old(st.users)[u.id := u]
              && st.nextUserId == u.id + 1
              && st.auditLogs == old(st.auditLogs) + [Entry("user.created", "user", Some(u.id), Some(actor), now, Some(req),
                                                            None, Some(CreatedSnapshot(u)), "success")]
  {
    if !CreateAccepted(email, emailIsValid, password, firstname, lastname, role) {
      return ValidationFailed;
    }
    if exists id | id in st.users :: st.users[id].email == email.value {
      return EmailExists;
    }

    var user := User(st.nextUserId, email.value, Hash(password.value), firstname.value, lastname.value,
                     RoleFrom(role.value).value, true, {});
    st.InsertUser(user);

    Log(st, "user.created", "user", Some(user.id), Some(actor), now, Some(req),
        newValue := Some(CreatedSnapshot(user)), status := "success");
    resp := Created;
  }

  // ---------------------------------------------------------------------
  // update

  /** The user after `update`: each supplied field replaces the stored one;
      the id, password and memberships are kept. */
  function Patched(u: User, email: Option<string>, firstname: Option<string>, lastname: Option<string>,
                   role: Option<string>, active: Option<bool>): (r: User)
    requires role.Some? ==> RoleFrom(role.value).Some?
    ensures r.id == u.id && r.password == u.password && r.domains == u.domains
    ensures r.email == (if email.Some? then email.value else u.email)
    ensures r.firstname == (if firstname.Some? then firstname.value else u.firstname)
    ensures r.lastname == (if lastname.Some? then lastname.value else u.lastname)
    ensures r.role.Value() == (if role.Some? then role.value else u.role.Value())
    ensures r.active == (if active.Some? then active.value else u.active)
  {
    u.(email := if email.Some? then email.value else u.email,
       firstname := if firstname.Some? then firstname.value else u.firstname,
       lastname := if lastname.Some? then lastname.value else u.lastname,
       role := if role.Some? then RoleFrom(role.value).value else u.role,
       active := if active.Some? then active.value else u.active)
  }

  /** Whether the request supplied any field. */
  predicate AnySupplied(email: Option<string>, firstname: Option<string>, lastname: Option<string>,
                        role: Option<string>, active: Option<bool>) {
    email.Some? || firstname.Some? || lastname.Some? || role.Some? || active.Some?
  }

  /** The records of `update`: none when nothing was supplied, otherwise the
      update record and, on a flip, the activation record with `{active}`. */
  function UserUpdateEntries(u: User, r: User, supplied: bool,
                             actor: Principal, now: Timestamp, req: Request): (rs: seq<AuditLog>)
    ensures !supplied <==> rs == []
    ensures |rs| <= 2
    ensures supplied ==> rs[0].eventType == "user.updated"
                         && rs[0].oldValue == Some(StateSnapshot(u)) && rs[0].newValue == Some(StateSnapshot(r))
    ensures |rs| == 2 <==> supplied && r.active != u.active
    ensures |rs| == 2 ==> rs[1].eventType == (if r.active then "user.activated" else "user.deactivated")
                          && rs[1].oldValue == Some(map["active" := Bool(u.active)])
                          && rs[1].newValue == Some(map["active" := Bool(r.active)])
  {
    if !supplied then []
    else
      assert "user" + ".updated" == "user.updated";
      assert "user" + ".activated" == "user.activated";
      assert "user" + ".deactivated" == "user.deactivated";
      UpdateEntries("user", u.id, actor, now, req, StateSnapshot(u), StateSnapshot(r), u.active, r.active,
                    ActiveSnapshot(u.active), ActiveSnapshot(r.active))
  }

  /** The setters of `update`, one per supplied field, and whether any ran.
      No field is set before the email conflict is checked, so the caller
      checks it first. */
  method ApplyFields(u: User, email: Option<string>, firstname: Option<string>, lastname: Option<string>,
                     role: Option<string>, active: Option<bool>) returns (user: User, hasChanges: bool)
    requires role.Some? ==> RoleFrom(role.value).Some?
    ensures user == Patched(u, email, firstname, lastname, role, active)
    ensures hasChanges == AnySupplied(email, firstname, lastname, role, active)
    ensures user.id == u.id && user.domains == u.domains
    ensures user.email == if email.Some? then email.value else u.email
  {
    user := u;
    hasChanges := false;
    if email.Some? {
      user := user.(email := email.value);
      hasChanges := true;
    }
    if firstname.Some? {
      user := user.(firstname := firstname.value);
      hasChanges := true;
    }
    if lastname.Some? {
      user := user.(lastname := lastname.value);
      hasChanges := true;
    }
    if role.Some? {
      user := user.(role := RoleFrom(role.value).value);
      hasChanges := true;
    }
    if active.Some? {
      user := user.(active := active.value);
      hasChanges := true;
    }
  }

  /** `update`: validation, then the email conflict (before any field is
      touched), then the supplied fields and their records. */
  method Update(st: Persistence.Store, userId: int, email: Option<string>, emailIsValid: bool,
                firstname: Option<string>, lastname: Option<string>, role: Option<string>, active: Option<bool>,
                actor: Principal, now: Timestamp, req: Request) returns (resp: Response)
    requires st.Valid() && userId in st.users
    modifies st`users, st`auditLogs
    ensures st.Valid()
    ensures if !UpdateAccepted(email, emailIsValid, firstname, lastname, role)
               || (email.Some? && HeldByOther(old(st.users), email.value, userId)) then
              && resp == (if !UpdateAccepted(email, emailIsValid, firstname, lastname, role) then ValidationFailed
                          else EmailTaken)
              && st.users == old(st.users) && st.auditLogs == old(st.auditLogs)
            else
              var u := old(st.users)[userId];
              var r := Patched(u, email, firstname, lastname, role, active);
              && resp == Updated
              && st.users == old(st.users)[userId := r]
              && st.auditLogs == old(st.auditLogs)
                                 + UserUpdateEntries(u, r, AnySupplied(email, firstname, lastname, role, active), actor, now, req)
  {
    if !UpdateAccepted(email, emailIsValid, firstname, lastname, role) {
      return ValidationFailed;
    }

    if email.Some? && exists id | id in st.users :: st.users[id].email == email.value && id != userId {
      return EmailTaken;
    }

    var before := st.users[userId];
    var user, hasChanges := ApplyFields(before, email, firstname, lastname, role, active);
    if email.None? {
      OwnEmailIsFree(st.users, userId);
    }
    st.PutUser(user);

    if hasChanges {
      LogUpdate(st, "user", userId, actor, now, req, StateSnapshot(before), StateSnapshot(user),
                before.active, user.active, ActiveSnapshot(before.active), ActiveSnapshot(user.active));
    }
    resp := Updated;
  }

  // ---------------------------------------------------------------------
  // changePassword

  /** `changePassword`: a missing or empty password (PHP's `empty`, so also
      `"0"`) is refused; otherwise the hash is replaced and one record says
      only that the password changed. */
  method ChangePassword(st: Persistence.Store, userId: int, password: Option<string>,
                        actor: Principal, now: Timestamp, req: Request) returns (resp: Response)
    requires st.Valid() && userId in st.users
    modifies st`users, st`auditLogs
    ensures st.Valid()
    ensures if Falsy(password) then
              resp == PasswordRequired && st.users == old(st.users) && st.auditLogs == old(st.auditLogs)
            else
              && resp == PasswordChanged
              && st.users == old(st.users)[userId := old(st.users)[userId].(password := Hash(password.value))]
              && st.auditLogs == old(st.auditLogs) + [Entry("user.password_changed_by_admin", "user", Some(userId),
                                                            Some(actor), now, Some(req), None,
                                                            Some(map["password_changed" := Bool(true)]), "success")]
  {
    if Falsy(password) {
      return PasswordRequired;
    }

    var user := st.users[userId].(password := Hash(password.value));
    OwnEmailIsFree(st.users, userId);
    st.PutUser(user);

    Log(st, "user.password_changed_by_admin", "user", Some(userId), Some(actor), now, Some(req),
        newValue := Some(map["password_changed" := Bool(true)]), status := "success");
    resp := PasswordChanged;
  }

  // ---------------------------------------------------------------------
  // logoutAll

  /** `logoutAll`: every token of the user is removed and counted; unlike the
      other bulk revocations nothing is recorded. */
  method LogoutAll(st: Persistence.Store, userId: int) returns (resp: Response, sessionsRemoved: nat)
    requires st.Valid() && userId in st.users
    modifies st`userTokens
    ensures st.Valid()
    ensures resp == SessionsEnded
    ensures st.userTokens == Without(old(st.userTokens), userId)
    ensures sessionsRemoved == |TokensOf(old(st.userTokens), userId)|
  {
    var remaining, count := RevokeAll(st.userTokens, userId);
    st.KeepUserTokens(remaining);
    sessionsRemoved := count;
    resp := SessionsEnded;
  }
}
