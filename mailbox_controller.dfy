/** Mailboxes of a domain, managed by its managers and by administrators
    (src/Controller/MailboxController.php). Every route carries RequireAuth;
    each handler first answers 403 unless the caller may access the domain
    in the path. A mailbox in the path must exist and belong to that domain
    (the lookup is by id and domain). */
module MailboxController {
  import opened Common
  import opened Model
  import opened AuditLogService
  import opened TokenRevocation
  import AccessControl
  import AuthService
  import Persistence

  const Listed := Response(200, "")
  const Created := Response(201, "Mailbox created successfully")
  const Updated := Response(200, "Mailbox updated successfully")
  const PasswordRequired := Response(400, "Password is required")
  const PasswordChanged := Response(200, "Password changed successfully")
  const Deleted := Response(200, "Mailbox deleted successfully")
  const SessionsEnded := Response(200, "All mailbox sessions logged out successfully")

  /** The constraints of CreateMailboxDTO: a name of 1..255 characters and a
      password of at least 8 (both NotBlank). */
  predicate CreateAccepted(name: Option<string>, password: Option<string>) {
    && NotBlank(name) && |name.value| <= 255
    && NotBlank(password) && |password.value| >= 8
  }

  /** The constraints of UpdateMailboxDTO: a supplied password has at least 8 characters. */
  predicate UpdateAccepted(password: Option<string>) {
    password.None? || |password.value| >= 8
  }

  /** A nullable string as a JSON value. */
  function Nullable(s: Option<string>): (v: Value)
    ensures s.None? <==> v == Null
    ensures s.Some? ==> v == Str(s.value)
  {
    if s.Some? then Str(s.value) else Null
  }

  /** The `{name, active, footer_text}` snapshot of an update. */
  function StateSnapshot(m: Mailbox): Snapshot {
    map["name" := Str(m.name), "active" := Bool(m.active), "footer_text" := Nullable(m.footerText)]
  }

  /** The snapshot of a created mailbox. */
  function CreatedSnapshot(m: Mailbox): Snapshot {
    map["domain_id" := Int(m.domainId), "name" := Str(m.name), "active" := Bool(m.active),
        "footer_text" := Nullable(m.footerText)]
  }

  /** The snapshot of a deleted mailbox, taken before the removal. */
  function DeletedSnapshot(m: Mailbox): Snapshot {
    map["id" := Int(m.id), "domain_id" := Int(m.domainId), "name" := Str(m.name), "active" := Bool(m.active),
        "footer_text" := Nullable(m.footerText)]
  }

  /** The `{active}` snapshot of an activation event. */
  function ActiveSnapshot(active: bool): Snapshot {
    map["active" := Bool(active)]
  }

  // ---------------------------------------------------------------------
  // list

  /** `list`: the ids of the domain's mailboxes. */
  method List(st: Persistence.Store, domainId: int, actor: Principal) returns (resp: Response, ids: set<int>)
    requires st.Valid() && domainId in st.domains
    ensures !AccessControl.CanAccessDomain(actor, st.domains[domainId]) ==> resp == AccessDenied && ids == {}
    ensures AccessControl.CanAccessDomain(actor, st.domains[domainId]) ==>
              resp == Listed && ids == Persistence.MailboxIdsOf(st.mailboxes, domainId)
  {
    if !AccessControl.CanAccessDomain(actor, st.domains[domainId]) {
      return AccessDenied, {};
    }
    ids := set id | id in st.mailboxes && st.mailboxes[id].domainId == domainId;
    resp := Listed;
  }

  // ---------------------------------------------------------------------
  // create

  /** A new mailbox: active, in the path domain, with the hashed password,
      and a footer only when one was supplied. */
  function NewMailbox(id: int, domainId: int, name: string, password: string, footer: Option<string>): (m: Mailbox)
    ensures m.id == id && m.domainId == domainId && m.name == name && m.active
    ensures Verify(password, m.password)
    ensures m.footerText == footer
  {
    Mailbox(id, domainId, name, Hash(password), true, footer)
  }

  /** `create`. */
  method Create(st: Persistence.Store, domainId: int, name: Option<string>, password: Option<string>,
                footer: Option<string>, actor: Principal, now: Timestamp, req: Request) returns (resp: Response)
    requires st.Valid() && domainId in st.domains
    modifies st`mailboxes, st`nextMailboxId, st`auditLogs
    ensures st.Valid()
    ensures if !AccessControl.CanAccessDomain(actor, st.domains[domainId]) || !CreateAccepted(name, password) then
              && resp == (if !AccessControl.CanAccessDomain(actor, st.domains[domainId]) then AccessDenied else ValidationFailed)
              && st.mailboxes == old(st.mailboxes) && st.nextMailboxId == old(st.nextMailboxId)
              && st.auditLogs == old(st.auditLogs)
            else
              var m := NewMailbox(old(st.nextMailboxId), domainId, name.value, password.value, footer);
              && resp == Created
              && st.mailboxes == old(st.mailboxes)[m.id := m]
              && st.nextMailboxId == m.id + 1
              && st.auditLogs == old(st.auditLogs) + [Entry("mailbox.created", "mailbox", Some(m.id), Some(actor), now, Some(req),
                                                            None, Some(CreatedSnapshot(m)), "success")]
  {
    if !AccessControl.CanAccessDomain(actor, st.domains[domainId]) {
      return AccessDenied;
    }
    if !CreateAccepted(name, password) {
      return ValidationFailed;
    }

    var mailbox := Mailbox(st.nextMailboxId, domainId, name.value, Hash(password.value), true, None);
    if footer.Some? {
      mailbox := mailbox.(footerText := footer);
    }
    st.mailboxes := st.mailboxes[mailbox.id := mailbox];
    st.nextMailboxId := st.nextMailboxId + 1;

    Log(st, "mailbox.created", "mailbox", Some(mailbox.id), Some(actor), now, Some(req),
        newValue := Some(CreatedSnapshot(mailbox)), status := "success");
    resp := Created;
  }

  // ---------------------------------------------------------------------
  // update

  /** The mailbox after `update`: each supplied field is applied, the others
      are kept; name and domain never change. */
  function Patched(m: Mailbox, password: Option<string>, active: Option<bool>, footer: Option<string>): (r: Mailbox)
    ensures r.id == m.id && r.domainId == m.domainId && r.name == m.name
    ensures password.Some? ==> Verify(password.value, r.password)
    ensures password.None? ==> r.password == m.password
    ensures r.active == (if active.Some? then active.value else m.active)
    ensures r.footerText == (if footer.Some? then footer else m.footerText)
  {
    Mailbox(m.id, m.domainId, m.name,
            if password.Some? then Hash(password.value) else m.password,
            if active.Some? then active.value else m.active,
            if footer.Some? then footer else m.footerText)
  }

  /** The records of `update`: none when no field was supplied, otherwise the
      update record and, on a flip, the activation record with `{active}`. */
  function MailboxUpdateEntries(m: Mailbox, password: Option<string>, active: Option<bool>, footer: Option<string>,
                                actor: Principal, now: Timestamp, req: Request): (rs: seq<AuditLog>)
    ensures password.None? && active.None? && footer.None? <==> rs == []
    ensures |rs| <= 2
    ensures |rs| == 2 <==> Patched(m, password, active, footer).active != m.active
  {
    if password.None? && active.None? && footer.None? then []
    else
      var r := Patched(m, password, active, footer);
      UpdateEntries("mailbox", m.id, actor, now, req, StateSnapshot(m), StateSnapshot(r), m.active, r.active,
                    ActiveSnapshot(m.active), ActiveSnapshot(r.active))
  }

  /** A password-only update is logged with equal old and new snapshots:
      the password is in neither. */
  lemma PasswordOnlyUpdateLooksUnchanged(m: Mailbox, password: string, actor: Principal, now: Timestamp, req: Request)
    ensures var rs := MailboxUpdateEntries(m, Some(password), None, None, actor, now, req);
            |rs| == 1 && rs[0].eventType == "mailbox.updated" && rs[0].oldValue == rs[0].newValue
  {
    assert "mailbox" + ".updated" == "mailbox.updated";
  }

  /** The setters of `update`, one per supplied field, and whether any ran. */
  method ApplyFields(m: Mailbox, password: Option<string>, active: Option<bool>, footer: Option<string>)
    returns (mailbox: Mailbox, stateChanged: bool)
    ensures mailbox == Patched(m, password, active, footer)
    ensures stateChanged <==> password.Some? || active.Some? || footer.Some?
  {
    mailbox := m;
    stateChanged := false;
    if password.Some? {
      mailbox := mailbox.(password := Hash(password.value));
      stateChanged := true;
    }
    if active.Some? {
      mailbox := mailbox.(active := active.value);
      stateChanged := true;
    }
    if footer.Some? {
      mailbox := mailbox.(footerText := footer);
      stateChanged := true;
    }
  }

  /** `update`. */
  method Update(st: Persistence.Store, domainId: int, mailboxId: int, password: Option<string>,
                active: Option<bool>, footer: Option<string>, actor: Principal, now: Timestamp, req: Request)
    returns (resp: Response)
    requires st.Valid() && domainId in st.domains
    requires mailboxId in st.mailboxes && st.mailboxes[mailboxId].domainId == domainId
    modifies st`mailboxes, st`auditLogs
    ensures st.Valid()
    ensures if !AccessControl.CanAccessDomain(actor, st.domains[domainId]) || !UpdateAccepted(password) then
              && resp == (if !AccessControl.CanAccessDomain(actor, st.domains[domainId]) then AccessDenied else ValidationFailed)
              && st.mailboxes == old(st.mailboxes) && st.auditLogs == old(st.auditLogs)
            else
              var m := old(st.mailboxes)[mailboxId];
              && resp == Updated
              && st.mailboxes == old(st.mailboxes)[mailboxId := Patched(m, password, active, footer)]
              && st.auditLogs == old(st.auditLogs) + MailboxUpdateEntries(m, password, active, footer, actor, now, req)
  {
    if !AccessControl.CanAccessDomain(actor, st.domains[domainId]) {
      return AccessDenied;
    }
    if !UpdateAccepted(password) {
      return ValidationFailed;
    }

    var mailbox := st.mailboxes[mailboxId];
    var oldState := StateSnapshot(mailbox);
    var wasActive := mailbox.active;
    var stateChanged;
    mailbox, stateChanged := ApplyFields(mailbox, password, active, footer);
    st.PutMailbox(mailbox);

    if stateChanged {
      LogUpdate(st, "mailbox", mailboxId, actor, now, req, oldState, StateSnapshot(mailbox),
                wasActive, mailbox.active, ActiveSnapshot(wasActive), ActiveSnapshot(mailbox.active));
    }
    resp := Updated;
  }

  // ---------------------------------------------------------------------
  // changePassword

  /** `changePassword`: NotBlank on the raw value (so `"0"` is accepted),
      then the new hash and one record naming the mailbox. */
  method ChangePassword(st: Persistence.Store, domainId: int, mailboxId: int, password: Option<string>,
                        actor: Principal, now: Timestamp, req: Request) returns (resp: Response)
    requires st.Valid() && domainId in st.domains
    requires mailboxId in st.mailboxes && st.mailboxes[mailboxId].domainId == domainId
    modifies st`mailboxes, st`auditLogs
    ensures st.Valid()
    ensures if !AccessControl.CanAccessDomain(actor, st.domains[domainId]) || !NotBlank(password) then
              && resp == (if !AccessControl.CanAccessDomain(actor, st.domains[domainId]) then AccessDenied else PasswordRequired)
              && st.mailboxes == old(st.mailboxes) && st.auditLogs == old(st.auditLogs)
            else
              var m := old(st.mailboxes)[mailboxId];
              && resp == PasswordChanged
              && st.mailboxes == old(st.mailboxes)[mailboxId := m.(password := Hash(password.value))]
              && st.auditLogs == old(st.auditLogs) + [Entry("mailbox.password_changed_by_admin", "mailbox", Some(mailboxId),
                                                            Some(actor), now, Some(req), None,
                                                            Some(map["mailbox_name" := Str(m.name), "domain_id" := Int(domainId)]),
                                                            "success")]
  {
    if !AccessControl.CanAccessDomain(actor, st.domains[domainId]) {
      return AccessDenied;
    }
    if !NotBlank(password) {
      return PasswordRequired;
    }

    var mailbox := st.mailboxes[mailboxId].(password := Hash(password.value));
    st.PutMailbox(mailbox);

    Log(st, "mailbox.password_changed_by_admin", "mailbox", Some(mailboxId), Some(actor), now, Some(req),
        newValue := Some(map["mailbox_name" := Str(mailbox.name), "domain_id" := Int(mailbox.domainId)]), status := "success");
    resp := PasswordChanged;
  }

  /** After a password change the new password verifies and a different
      former password no longer does. */
  lemma ChangedPasswordVerifies(m: Mailbox, old_password: string, password: string)
    requires Verify(old_password, m.password) && old_password != password
    ensures Verify(password, m.(password := Hash(password)).password)
    ensures !Verify(old_password, m.(password := Hash(password)).password)
  {
  }

  // ---------------------------------------------------------------------
  // delete

  /** `delete`: the mailbox goes with its tokens and its autoresponder, and
      one record keeps its former state and id. */
  method Delete(st: Persistence.Store, domainId: int, mailboxId: int, actor: Principal, now: Timestamp, req: Request)
    returns (resp: Response)
    requires st.Valid() && domainId in st.domains
    requires mailboxId in st.mailboxes && st.mailboxes[mailboxId].domainId == domainId
    modifies st`mailboxes, st`mailboxTokens, st`autoresponders, st`auditLogs
    ensures st.Valid()
    ensures if !AccessControl.CanAccessDomain(actor, st.domains[domainId]) then
              && resp == AccessDenied
              && st.mailboxes == old(st.mailboxes) && st.mailboxTokens == old(st.mailboxTokens)
              && st.autoresponders == old(st.autoresponders) && st.auditLogs == old(st.auditLogs)
            else
              && resp == Deleted
              && st.mailboxes == old(st.mailboxes) - {mailboxId}
              && st.mailboxTokens == Without(old(st.mailboxTokens), mailboxId)
              && st.autoresponders == old(st.autoresponders) - {mailboxId}
              && st.auditLogs == old(st.auditLogs) + [Entry("mailbox.deleted", "mailbox", Some(mailboxId), Some(actor), now, Some(req),
                                                            Some(DeletedSnapshot(old(st.mailboxes)[mailboxId])), None, "success")]
  {
    if !AccessControl.CanAccessDomain(actor, st.domains[domainId]) {
      return AccessDenied;
    }

    var deletedMailboxData := DeletedSnapshot(st.mailboxes[mailboxId]);
    st.mailboxTokens := Without(st.mailboxTokens, mailboxId);
    st.autoresponders := st.autoresponders - {mailboxId};
    st.mailboxes := st.mailboxes - {mailboxId};

    Log(st, "mailbox.deleted", "mailbox", Some(mailboxId), Some(actor), now, Some(req),
        oldValue := Some(deletedMailboxData), status := "success");
    resp := Deleted;
  }

  /** Once a mailbox is deleted none of its former tokens authenticates it. */
  lemma DeletedMailboxTokensDead(mailboxTokens: map<string, int>, mailboxes: map<int, Mailbox>, mailboxId: int, t: string)
    requires t in mailboxTokens && mailboxTokens[t] == mailboxId
    ensures AuthService.MailboxFromToken(Without(mailboxTokens, mailboxId), mailboxes - {mailboxId}, t).None?
  {
  }

  // ---------------------------------------------------------------------
  // logoutAll

  /** `logoutAll`: an administrator-side revocation of every token of the
      mailbox, counted in the record. */
  method LogoutAll(st: Persistence.Store, domainId: int, mailboxId: int, actor: Principal, now: Timestamp, req: Request)
    returns (resp: Response)
    requires st.Valid() && domainId in st.domains
    requires mailboxId in st.mailboxes && st.mailboxes[mailboxId].domainId == domainId
    modifies st`mailboxTokens, st`auditLogs
    ensures st.Valid()
    ensures if !AccessControl.CanAccessDomain(actor, st.domains[domainId]) then
              resp == AccessDenied && st.mailboxTokens == old(st.mailboxTokens) && st.auditLogs == old(st.auditLogs)
            else
              var m := st.mailboxes[mailboxId];
              && resp == SessionsEnded
              && st.mailboxTokens == Without(old(st.mailboxTokens), mailboxId)
              && st.auditLogs == old(st.auditLogs) + [Entry("mailbox.logout_all_by_admin", "mailbox", Some(mailboxId), Some(actor),
                                                            now, Some(req), None,
                                                            Some(map["mailbox_name" := Str(m.name), "domain_id" := Int(domainId),
                                                                     "tokens_removed" := Int(|TokensOf(old(st.mailboxTokens), mailboxId)|)]),
                                                            "success")]
  {
    if !AccessControl.CanAccessDomain(actor, st.domains[domainId]) {
      return AccessDenied;
    }

    var mailbox := st.mailboxes[mailboxId];
    var remaining, tokenCount := RevokeAll(st.mailboxTokens, mailboxId);
    st.KeepMailboxTokens(remaining);

    Log(st, "mailbox.logout_all_by_admin", "mailbox", Some(mailboxId), Some(actor), now, Some(req),
        newValue := Some(map["mailbox_name" := Str(mailbox.name), "domain_id" := Int(mailbox.domainId),
                             "tokens_removed" := Int(tokenCount)]),
        status := "success");
    resp := SessionsEnded;
  }
}
