/** Login, logout and logout-everywhere (src/Controller/AuthController.php).
    Token generation is an oracle: the string the generator returned is a
    parameter. A string already present in the target table makes the flush
    fail on the unique index, which the model answers with a 500 and no
    change. */
module AuthController {
  import opened Common
  import opened Model
  import opened AuditLogService
  import opened TokenRevocation
  import AuthService
  import Persistence

  const MissingCredentials := Response(400, "Email and password are required")
  const InvalidCredentials := Response(401, "Invalid credentials")
  const AccountNotActive := Response(403, "Account is not active")
  const ServerError := Response(500, "Internal Server Error")
  const MissingToken := Response(401, "Missing or invalid authorization token")
  const LoggedOut := Response(200, "Logged out successfully")
  const TokenNotFound := Response(200, "Token not found")
  const AllLoggedOut := Response(200, "All sessions logged out successfully")

  const NotActiveReason: Snapshot := map["reason" := Str("account_not_active")]

  // ---------------------------------------------------------------------
  // Where an identifier logs in

  datatype LoginTarget = AsUser(email: string) | AsMailbox(name: string, domain: Domain)

  /** An identifier with an `@` is split at its first `@`; when a domain is
      named exactly by the part after it, the part before it names a mailbox
      of that domain. Otherwise the whole identifier is a user's email. */
  ghost function Target(domains: map<int, Domain>, email: string): (t: LoginTarget)
    ensures !Contains(email, '@') ==> t == AsUser(email)
    ensures t.AsUser? ==> t.email == email
    ensures t.AsMailbox? ==>
              && email == t.name + "@" + t.domain.name
              && !Contains(t.name, '@')
              && exists id | id in domains :: domains[id] == t.domain
    ensures t.AsUser? && Contains(email, '@') ==>
              forall id | id in domains :: domains[id].name != email[IndexOf(email, '@') + 1..]
  {
    if !Contains(email, '@') then AsUser(email)
    else
      var i := IndexOf(email, '@');
      var domainPart := email[i + 1..];
      if exists id | id in domains :: domains[id].name == domainPart then
        var id :| id in domains && domains[id].name == domainPart;
        assert email == email[..i] + "@" + domainPart;
        assert !Contains(email[..i], '@') by {
          forall k | 0 <= k < i ensures email[..i][k] != '@' { }
        }
        AsMailbox(email[..i], domains[id])
      else AsUser(email)
  }

  /** A mailbox's own address logs that mailbox's domain in, by name. */
  lemma MailboxAddressTargetsMailbox(domains: map<int, Domain>, name: string, d: Domain)
    requires Persistence.UniqueDomainNames(domains)
    requires !Contains(name, '@') && d.id in domains && domains[d.id] == d
    ensures Target(domains, name + "@" + d.name) == AsMailbox(name, d)
  {
    var email := name + "@" + d.name;
    assert email[|name|] == '@';
    assert Contains(email, '@');
    var i := IndexOf(email, '@');
    assert i == |name|;
    assert email[..i] == name && email[i + 1..] == d.name;
  }

  // ---------------------------------------------------------------------
  // The effect of one login attempt on the target table and the ledger

  /** No principal answers to the identifier: 401 and one failed-login record
      without an actor id. */
  ghost predicate UnknownEffect(kind: string, email: string, now: Timestamp, req: Request,
                                tokens0: map<string, int>, tokens1: map<string, int>,
                                log0: seq<AuditLog>, log1: seq<AuditLog>, resp: Response, token: Option<string>)
  {
    && resp == InvalidCredentials && token.None? && tokens1 == tokens0
    && log1 == log0 + [LoginEntry(email, false, kind, None, now, Some(req))]
  }

  /** The attempt against a known principal `p`: a wrong password is a 401,
      an inactive account a 403, both logged as failures; otherwise exactly
      one fresh token is bound to `p` and a success record follows. */
  ghost predicate AttemptEffect(p: Principal, email: string, password: string, generated: string,
                                now: Timestamp, req: Request,
                                tokens0: map<string, int>, tokens1: map<string, int>,
                                log0: seq<AuditLog>, log1: seq<AuditLog>, resp: Response, token: Option<string>)
  {
    var kind := ActorType(Some(p));
    if !Verify(password, p.Password()) then
      && resp == InvalidCredentials && token.None? && tokens1 == tokens0
      && log1 == log0 + [LoginEntry(email, false, kind, Some(p.Id()), now, Some(req))]
    else if !p.Active() then
      && resp == AccountNotActive && token.None? && tokens1 == tokens0
      && log1 == log0 + [Entry(kind + ".login.failed", kind, Some(p.Id()), Some(p), now, Some(req),
                               None, Some(NotActiveReason), "failure")]
    else if generated in tokens0 then
      resp == ServerError && token.None? && tokens1 == tokens0 && log1 == log0
    else
      && resp == Response(200, generated) && token == Some(generated)
      && tokens1 == tokens0[generated := p.Id()]
      && log1 == log0 + [LoginEntry(email, true, kind, Some(p.Id()), now, Some(req))]
  }

  ghost predicate UserLoginEffect(users: map<int, User>, email: string, password: string, generated: string,
                                  now: Timestamp, req: Request,
                                  tokens0: map<string, int>, tokens1: map<string, int>,
                                  log0: seq<AuditLog>, log1: seq<AuditLog>, resp: Response, token: Option<string>)
  {
    if forall id | id in users :: users[id].email != email then
      UnknownEffect("user", email, now, req, tokens0, tokens1, log0, log1, resp, token)
    else
      exists id | id in users && users[id].email == email ::
        AttemptEffect(UserPrincipal(users[id]), email, password, generated, now, req, tokens0, tokens1, log0, log1, resp, token)
  }

  ghost predicate MailboxLoginEffect(mailboxes: map<int, Mailbox>, name: string, domain: Domain, password: string,
                                     generated: string, now: Timestamp, req: Request,
                                     tokens0: map<string, int>, tokens1: map<string, int>,
                                     log0: seq<AuditLog>, log1: seq<AuditLog>, resp: Response, token: Option<string>)
  {
    var email := name + "@" + domain.name;
    if forall id | id in mailboxes :: !(mailboxes[id].name == name && mailboxes[id].domainId == domain.id) then
      UnknownEffect("mailbox", email, now, req, tokens0, tokens1, log0, log1, resp, token)
    else
      exists id | id in mailboxes && mailboxes[id].name == name && mailboxes[id].domainId == domain.id ::
        AttemptEffect(MailboxPrincipal(mailboxes[id]), email, password, generated, now, req, tokens0, tokens1, log0, log1, resp, token)
  }

  /** A token is handed out only for the right password on an active
      account; it is the generated string, new to the table, bound to that
      principal, and the ledger grows by exactly the success record. */
  lemma TokenOnlyForActiveAndVerified(p: Principal, email: string, password: string, generated: string,
                                      now: Timestamp, req: Request,
                                      tokens0: map<string, int>, tokens1: map<string, int>,
                                      log0: seq<AuditLog>, log1: seq<AuditLog>, resp: Response, token: Option<string>)
    requires AttemptEffect(p, email, password, generated, now, req, tokens0, tokens1, log0, log1, resp, token)
    ensures token.Some? <==> Verify(password, p.Password()) && p.Active() && generated !in tokens0
    ensures token.Some? ==> token.value == generated && tokens1 == tokens0[generated := p.Id()]
                            && |log1| == |log0| + 1 && log1[|log0|].status == "success"
    ensures token.None? ==> tokens1 == tokens0
    ensures resp.status != 500 ==> |log1| == |log0| + 1 && (token.None? ==> log1[|log0|].status == "failure")
  {
  }

  /** A token issued by a successful user login authenticates that user. */
  lemma IssuedUserTokenAuthenticates(users: map<int, User>, mailboxTokens: map<string, int>, mailboxes: map<int, Mailbox>,
                                     id: int, email: string, password: string, generated: string,
                                     now: Timestamp, req: Request,
                                     tokens0: map<string, int>, tokens1: map<string, int>,
                                     log0: seq<AuditLog>, log1: seq<AuditLog>, resp: Response, token: Option<string>)
    requires id in users && users[id].id == id
    requires generated in mailboxTokens ==> mailboxTokens[generated] in mailboxes
    requires AttemptEffect(UserPrincipal(users[id]), email, password, generated, now, req, tokens0, tokens1, log0, log1, resp, token)
    requires token.Some?
    ensures AuthService.AuthenticatedEntity(tokens1, users, mailboxTokens, mailboxes, token.value) == Some(UserPrincipal(users[id]))
  {
    AuthService.IssuedUserTokenResolves(tokens0, users, mailboxTokens, mailboxes, generated, id);
  }

  // ---------------------------------------------------------------------
  // Handlers

  /** `findOneBy(['name' => ...])` on domains. */
  method FindDomainByName(st: Persistence.Store, name: string) returns (d: Option<Domain>)
    requires st.Valid()
    ensures d.None? <==> forall id | id in st.domains :: st.domains[id].name != name
    ensures d.Some? ==> d.value.name == name && d.value.id in st.domains && st.domains[d.value.id] == d.value
  {
    if exists id | id in st.domains :: st.domains[id].name == name {
      var id :| id in st.domains && st.domains[id].name == name;
      d := Some(st.domains[id]);
    } else {
      d := None;
    }
  }

  /** `loginUser`. */
  method LoginUser(st: Persistence.Store, email: string, password: string, generated: string,
                   now: Timestamp, req: Request) returns (resp: Response, token: Option<string>)
    requires st.Valid()
    modifies st`userTokens, st`auditLogs
    ensures st.Valid()
    ensures UserLoginEffect(st.users, email, password, generated, now, req,
                            old(st.userTokens), st.userTokens, old(st.auditLogs), st.auditLogs, resp, token)
  {
    if forall id | id in st.users :: st.users[id].email != email {
      LogLogin(st, email, false, "user", None, now, Some(req));
      return InvalidCredentials, None;
    }
    var id :| id in st.users && st.users[id].email == email;
    resp, token := AttemptUser(st, st.users[id], email, password, generated, now, req);
    assert AttemptEffect(UserPrincipal(st.users[id]), email, password, generated, now, req,
                         old(st.userTokens), st.userTokens, old(st.auditLogs), st.auditLogs, resp, token);
  }

  /** The checks of `loginUser` once the user is found: password, then the
      active flag, then the new token. */
  method AttemptUser(st: Persistence.Store, user: User, email: string, password: string, generated: string,
                     now: Timestamp, req: Request) returns (resp: Response, token: Option<string>)
    requires st.Valid() && user.id in st.users && st.users[user.id] == user
    modifies st`userTokens, st`auditLogs
    ensures st.Valid()
    ensures AttemptEffect(UserPrincipal(user), email, password, generated, now, req,
                          old(st.userTokens), st.userTokens, old(st.auditLogs), st.auditLogs, resp, token)
  {
    if !Verify(password, user.password) {
      LogLogin(st, email, false, "user", Some(user.id), now, Some(req));
      resp, token := InvalidCredentials, None;
    } else if !user.active {
      assert ActorType(Some(UserPrincipal(user))) + ".login.failed" == "user.login.failed";
      Log(st, "user.login.failed", "user", Some(user.id), Some(UserPrincipal(user)), now, Some(req),
          None, Some(NotActiveReason), "failure");
      resp, token := AccountNotActive, None;
    } else if generated in st.userTokens {
      resp, token := ServerError, None;
    } else {
      st.AddUserToken(generated, user.id);
      LogLogin(st, email, true, "user", Some(user.id), now, Some(req));
      resp, token := Response(200, generated), Some(generated);
    }
  }

  /** `loginMailbox`: the first mailbox of that name in that domain. */
  method LoginMailbox(st: Persistence.Store, name: string, domain: Domain, password: string, generated: string,
                      now: Timestamp, req: Request) returns (resp: Response, token: Option<string>)
    requires st.Valid()
    modifies st`mailboxTokens, st`auditLogs
    ensures st.Valid()
    ensures MailboxLoginEffect(st.mailboxes, name, domain, password, generated, now, req,
                               old(st.mailboxTokens), st.mailboxTokens, old(st.auditLogs), st.auditLogs, resp, token)
  {
    var email := name + "@" + domain.name;
    if forall id | id in st.mailboxes :: !(st.mailboxes[id].name == name && st.mailboxes[id].domainId == domain.id) {
      LogLogin(st, email, false, "mailbox", None, now, Some(req));
      return InvalidCredentials, None;
    }
    var id :| id in st.mailboxes && st.mailboxes[id].name == name && st.mailboxes[id].domainId == domain.id;
    resp, token := AttemptMailbox(st, st.mailboxes[id], email, password, generated, now, req);
    assert AttemptEffect(MailboxPrincipal(st.mailboxes[id]), email, password, generated, now, req,
                         old(st.mailboxTokens), st.mailboxTokens, old(st.auditLogs), st.auditLogs, resp, token);
  }

  /** The checks of `loginMailbox` once the mailbox is found, in the same
      order as for a user. */
  method AttemptMailbox(st: Persistence.Store, mailbox: Mailbox, email: string, password: string, generated: string,
                        now: Timestamp, req: Request) returns (resp: Response, token: Option<string>)
    requires st.Valid() && mailbox.id in st.mailboxes && st.mailboxes[mailbox.id] == mailbox
    modifies st`mailboxTokens, st`auditLogs
    ensures st.Valid()
    ensures AttemptEffect(MailboxPrincipal(mailbox), email, password, generated, now, req,
                          old(st.mailboxTokens), st.mailboxTokens, old(st.auditLogs), st.auditLogs, resp, token)
  {
    if !Verify(password, mailbox.password) {
      LogLogin(st, email, false, "mailbox", Some(mailbox.id), now, Some(req));
      resp, token := InvalidCredentials, None;
    } else if !mailbox.active {
      assert ActorType(Some(MailboxPrincipal(mailbox))) + ".login.failed" == "mailbox.login.failed";
      Log(st, "mailbox.login.failed", "mailbox", Some(mailbox.id), Some(MailboxPrincipal(mailbox)), now, Some(req),
          None, Some(NotActiveReason), "failure");
      resp, token := AccountNotActive, None;
    } else if generated in st.mailboxTokens {
      resp, token := ServerError, None;
    } else {
      st.AddMailboxToken(generated, mailbox.id);
      LogLogin(st, email, true, "mailbox", Some(mailbox.id), now, Some(req));
      resp, token := Response(200, generated), Some(generated);
    }
  }

  /** `login`: 400 without both fields, then dispatch on the identifier. */
  method Login(st: Persistence.Store, email: Option<string>, password: Option<string>, generated: string,
               now: Timestamp, req: Request) returns (resp: Response, token: Option<string>)
    requires st.Valid()
    modifies st`userTokens, st`mailboxTokens, st`auditLogs
    ensures st.Valid()
    ensures email.None? || password.None? ==>
              && resp == MissingCredentials && token.None?
              && st.userTokens == old(st.userTokens) && st.mailboxTokens == old(st.mailboxTokens)
              && st.auditLogs == old(st.auditLogs)
    ensures email.Some? && password.Some? ==>
              match Target(st.domains, email.value)
              case AsUser(e) =>
                && st.mailboxTokens == old(st.mailboxTokens)
                && UserLoginEffect(st.users, e, password.value, generated, now, req,
                                   old(st.userTokens), st.userTokens, old(st.auditLogs), st.auditLogs, resp, token)
              case AsMailbox(n, d) =>
                && st.userTokens == old(st.userTokens)
                && MailboxLoginEffect(st.mailboxes, n, d, password.value, generated, now, req,
                                      old(st.mailboxTokens), st.mailboxTokens, old(st.auditLogs), st.auditLogs, resp, token)
  {
    if email.None? || password.None? {
      return MissingCredentials, None;
    }
    var e := email.value;
    if Contains(e, '@') {
      var i := IndexOf(e, '@');
      var localPart, domainPart := e[..i], e[i + 1..];
      var domain := FindDomainByName(st, domainPart);
      if domain.Some? {
        ghost var t := Target(st.domains, e);
        assert t.AsMailbox? && t.domain == domain.value by {
          assert st.domains[domain.value.id].name == domainPart;
        }
        assert t.name == localPart;
        resp, token := LoginMailbox(st, localPart, domain.value, password.value, generated, now, req);
        return;
      }
    }
    resp, token := LoginUser(st, e, password.value, generated, now, req);
  }

  /** `logout`: the presented token is deleted from the user table if it is
      there, otherwise from the mailbox table; an unknown token is a 200 with
      nothing deleted and nothing logged. */
  method Logout(st: Persistence.Store, authorization: Option<string>, now: Timestamp, req: Request)
    returns (resp: Response)
    requires st.Valid()
    modifies st`userTokens, st`mailboxTokens, st`auditLogs
    ensures st.Valid()
    ensures var t := AuthService.ExtractTokenFromHeader(authorization);
            if Falsy(t) then
              && resp == MissingToken && st.userTokens == old(st.userTokens)
              && st.mailboxTokens == old(st.mailboxTokens) && st.auditLogs == old(st.auditLogs)
            else if t.value in old(st.userTokens) then
              var owner := st.users[old(st.userTokens)[t.value]];
              && resp == LoggedOut
              && st.userTokens == old(st.userTokens) - {t.value} && st.mailboxTokens == old(st.mailboxTokens)
              && st.auditLogs == old(st.auditLogs) + [Entry("user.logout", "user", Some(owner.id), Some(UserPrincipal(owner)),
                                                            now, Some(req), None, None, "success")]
            else if t.value in old(st.mailboxTokens) then
              var owner := st.mailboxes[old(st.mailboxTokens)[t.value]];
              && resp == LoggedOut
              && st.mailboxTokens == old(st.mailboxTokens) - {t.value} && st.userTokens == old(st.userTokens)
              && st.auditLogs == old(st.auditLogs) + [Entry("mailbox.logout", "mailbox", Some(owner.id), Some(MailboxPrincipal(owner)),
                                                            now, Some(req), None, None, "success")]
            else
              && resp == TokenNotFound && st.userTokens == old(st.userTokens)
              && st.mailboxTokens == old(st.mailboxTokens) && st.auditLogs == old(st.auditLogs)
  {
    var tokenString := AuthService.ExtractTokenFromHeader(authorization);
    if Falsy(tokenString) {
      return MissingToken;
    }
    var t := tokenString.value;

    if t in st.userTokens {
      var user := st.users[st.userTokens[t]];
      st.userTokens := st.userTokens - {t};
      Log(st, "user.logout", "user", Some(user.id), Some(UserPrincipal(user)), now, Some(req), None, None, "success");
      return LoggedOut;
    }

    if t in st.mailboxTokens {
      var mailbox := st.mailboxes[st.mailboxTokens[t]];
      st.mailboxTokens := st.mailboxTokens - {t};
      Log(st, "mailbox.logout", "mailbox", Some(mailbox.id), Some(MailboxPrincipal(mailbox)), now, Some(req), None, None, "success");
      return LoggedOut;
    }

    return TokenNotFound;
  }

  /** `logoutAll`: every token of the caller in the caller's own table goes,
      and the record carries how many there were. */
  method LogoutAll(st: Persistence.Store, actor: Principal, now: Timestamp, req: Request) returns (resp: Response)
    requires st.Valid()
    modifies st`userTokens, st`mailboxTokens, st`auditLogs
    ensures st.Valid()
    ensures resp == AllLoggedOut
    ensures actor.UserPrincipal? ==>
              && st.userTokens == Without(old(st.userTokens), actor.Id())
              && st.mailboxTokens == old(st.mailboxTokens)
              && st.auditLogs == old(st.auditLogs) + [Entry("user.logout_all", "user", Some(actor.Id()), Some(actor), now, Some(req),
                                                            None, Some(map["sessions_count" := Int(|TokensOf(old(st.userTokens), actor.Id())|)]), "success")]
    ensures actor.MailboxPrincipal? ==>
              && st.mailboxTokens == Without(old(st.mailboxTokens), actor.Id())
              && st.userTokens == old(st.userTokens)
              && st.auditLogs == old(st.auditLogs) + [Entry("mailbox.logout_all", "mailbox", Some(actor.Id()), Some(actor), now, Some(req),
                                                            None, Some(map["sessions_count" := Int(|TokensOf(old(st.mailboxTokens), actor.Id())|)]), "success")]
  {
    if actor.UserPrincipal? {
      LogoutAllUser(st, actor, now, req);
    } else {
      LogoutAllMailbox(st, actor, now, req);
    }
    resp := AllLoggedOut;
  }

  /** `logoutAll` for a user: its user tokens go, counted in the record. */
  method LogoutAllUser(st: Persistence.Store, actor: Principal, now: Timestamp, req: Request)
    requires st.Valid() && actor.UserPrincipal?
    modifies st`userTokens, st`auditLogs
    ensures st.Valid()
    ensures st.userTokens == Without(old(st.userTokens), actor.Id())
    ensures st.auditLogs == old(st.auditLogs) + [Entry("user.logout_all", "user", Some(actor.Id()), Some(actor), now, Some(req),
                                                       None, Some(map["sessions_count" := Int(|TokensOf(old(st.userTokens), actor.Id())|)]), "success")]
  {
    var remaining, count := RevokeAll(st.userTokens, actor.user.id);
    st.KeepUserTokens(remaining);
    Log(st, "user.logout_all", "user", Some(actor.user.id), Some(actor), now, Some(req),
        None, Some(map["sessions_count" := Int(count)]), "success");
  }

  /** `logoutAll` for a mailbox: its mailbox tokens go, counted in the record. */
  method LogoutAllMailbox(st: Persistence.Store, actor: Principal, now: Timestamp, req: Request)
    requires st.Valid() && actor.MailboxPrincipal?
    modifies st`mailboxTokens, st`auditLogs
    ensures st.Valid()
    ensures st.mailboxTokens == Without(old(st.mailboxTokens), actor.Id())
    ensures st.auditLogs == old(st.auditLogs) + [Entry("mailbox.logout_all", "mailbox", Some(actor.Id()), Some(actor), now, Some(req),
                                                       None, Some(map["sessions_count" := Int(|TokensOf(old(st.mailboxTokens), actor.Id())|)]), "success")]
  {
    var remaining, count := RevokeAll(st.mailboxTokens, actor.mailbox.id);
    st.KeepMailboxTokens(remaining);
    Log(st, "mailbox.logout_all", "mailbox", Some(actor.mailbox.id), Some(actor), now, Some(req),
        None, Some(map["sessions_count" := Int(count)]), "success");
  }

  /** After logout-all no former token of the caller authenticates anyone
      through the caller's table. */
  lemma LogoutAllEndsUserSessions(tokens: map<string, int>, users: map<int, User>, id: int, t: string)
    requires t in TokensOf(tokens, id)
    ensures AuthService.UserFromToken(Without(tokens, id), users, t).None?
  {
  }
}
