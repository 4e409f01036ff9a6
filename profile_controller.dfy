/** The authenticated principal's own profile (src/Controller/ProfileController.php).
    Every route carries RequireAuth, so the principal is bound and is the
    current row of its table. */
module ProfileController {
  import opened Common
  import opened Model
  import opened AuditLogService
  import UserController
  import Persistence

  const CurrentRequired := Response(400, "Field \"current_password\" is required")
  const NewRequired := Response(400, "Field \"new_password\" is required")
  const WrongCurrent := Response(401, "Current password is incorrect")
  const PasswordChanged := Response(200, "Password changed successfully")
  const DomainsListed := Response(200, "")

  /** What `getProfile` projects: a mailbox as a mailbox, anything else as a user. */
  datatype Profile = MailboxProfile(mailbox: Mailbox) | UserProfile(user: User)

  /** `getProfile`. */
  function GetProfile(actor: Principal): (p: Profile)
    ensures p.MailboxProfile? <==> actor.MailboxPrincipal?
    ensures p.MailboxProfile? ==> p.mailbox == actor.mailbox
    ensures p.UserProfile? ==> p.user == actor.user
  {
    if actor.MailboxPrincipal? then MailboxProfile(actor.mailbox) else UserProfile(actor.user)
  }

  /** The principal with its password replaced. */
  function WithPassword(actor: Principal, password: string): (r: Principal)
    ensures r.UserPrincipal? <==> actor.UserPrincipal?
    ensures r.Id() == actor.Id() && Verify(password, r.Password())
    ensures r.UserPrincipal? ==> r.user == actor.user.(password := Hash(password))
    ensures r.MailboxPrincipal? ==> r.mailbox == actor.mailbox.(password := Hash(password))
  {
    match actor
    case UserPrincipal(u) => UserPrincipal(u.(password := Hash(password)))
    case MailboxPrincipal(m) => MailboxPrincipal(m.(password := Hash(password)))
  }

  /** Changing the password and then changing it back, knowing the first one,
      restores the principal exactly. */
  lemma ChangeBackRestores(actor: Principal, current: string, password: string)
    requires Verify(current, actor.Password())
    ensures Verify(password, WithPassword(actor, password).Password())
    ensures WithPassword(WithPassword(actor, password), current) == actor
  {
  }

  /** The password-change record of a principal: `user.password_changed` or
      `mailbox.password_changed`, entity = the principal, no snapshots. */
  function PasswordChangedEntry(actor: Principal, now: Timestamp, req: Request): (e: AuditLog)
    ensures e.eventType == (if actor.UserPrincipal? then "user.password_changed" else "mailbox.password_changed")
    ensures e.entityType == e.actorType && e.entityId == e.actorId == Some(actor.Id())
    ensures e.oldValue.None? && e.newValue.None? && e.status == "success"
  {
    var kind := if actor.UserPrincipal? then "user" else "mailbox";
    assert kind + ".password_changed" == (if actor.UserPrincipal? then "user.password_changed" else "mailbox.password_changed");
    Entry(kind + ".password_changed", kind, Some(actor.Id()), Some(actor), now, Some(req), None, None, "success")
  }

  /** `changePassword`: the current password is checked for presence first,
      then the new one (PHP's `empty`, so `"0"` counts as missing), then the
      current password against the stored hash; only then is the hash
      replaced and one record appended. */
  method ChangePassword(st: Persistence.Store, actor: Principal, current: Option<string>, password: Option<string>,
                        now: Timestamp, req: Request) returns (resp: Response)
    requires st.Valid() && st.Holds(actor)
    modifies st`users, st`mailboxes, st`auditLogs
    ensures st.Valid()
    ensures if Falsy(current) || Falsy(password) || !Verify(current.value, actor.Password()) then
              && resp == (if Falsy(current) then CurrentRequired else if Falsy(password) then NewRequired else WrongCurrent)
              && st.users == old(st.users) && st.mailboxes == old(st.mailboxes) && st.auditLogs == old(st.auditLogs)
            else
              var r := WithPassword(actor, password.value);
              && resp == PasswordChanged
              && (r.UserPrincipal? ==> st.users == old(st.users)[r.Id() := r.user] && st.mailboxes == old(st.mailboxes))
              && (r.MailboxPrincipal? ==> st.mailboxes == old(st.mailboxes)[r.Id() := r.mailbox] && st.users == old(st.users))
              && st.auditLogs == old(st.auditLogs) + [PasswordChangedEntry(actor, now, req)]
  {
    if Falsy(current) {
      return CurrentRequired;
    }
    if Falsy(password) {
      return NewRequired;
    }
    if !Verify(current.value, actor.Password()) {
      return WrongCurrent;
    }

    match actor {
      case UserPrincipal(u) =>
        UserController.OwnEmailIsFree(st.users, u.id);
        st.PutUser(u.(password := Hash(password.value)));
      case MailboxPrincipal(m) =>
        st.PutMailbox(m.(password := Hash(password.value)));
    }

    var e := PasswordChangedEntry(actor, now, req);
    Log(st, e.eventType, e.entityType, e.entityId, Some(actor), now, Some(req), None, None, "success");
    resp := PasswordChanged;
  }

  /** `getMyDomains`: a mailbox is refused; a user gets exactly the domains
      assigned to them, and the total is their number. */
  method GetMyDomains(st: Persistence.Store, actor: Principal) returns (resp: Response, domains: set<int>, total: nat)
    requires st.Valid() && st.Holds(actor)
    ensures actor.MailboxPrincipal? ==> resp == AccessDenied && domains == {} && total == 0
    ensures actor.UserPrincipal? ==>
              && resp == DomainsListed
              && domains == st.users[actor.user.id].domains
              && domains <= st.domains.Keys
              && total == |domains|
  {
    if actor.MailboxPrincipal? {
      return AccessDenied, {}, 0;
    }
    domains := actor.user.domains;
    total := |domains|;
    resp := DomainsListed;
  }
}
