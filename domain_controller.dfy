/** Creating, updating and deleting domains, and listing their managers
    (src/Controller/DomainController.php). Create, update and delete carry
    RequireRole(ADMINISTRATOR); the managers listing carries RequireAuth and
    checks access itself. A domain named in the path must exist. */
module DomainController {
  import opened Common
  import opened Model
  import opened AuditLogService
  import opened TokenRevocation
  import AccessControl
  import AuthListener
  import CreateDomainDTO
  import Persistence

  const DuplicateName := Response(409, "Domain with this name already exists")
  const Created := Response(201, "Domain created successfully")
  const Updated := Response(200, "Domain updated successfully")
  const Deleted := Response(200, "Domain deleted successfully")
  const Managers := Response(200, "")

  /** The policy of create, update and delete: RequireRole on the method. */
  const AdminRoute := AuthListener.Action(AuthListener.NoAttributes,
                                          AuthListener.Attributes(false, Some(Administrator)))

  /** Only an administrator creates, updates or deletes a domain. */
  lemma OnlyAdministratorsChangeDomains(header: Option<string>,
                                        userTokens: map<string, int>, users: map<int, User>,
                                        mailboxTokens: map<string, int>, mailboxes: map<int, Mailbox>)
    requires AuthListener.OwnersExist(userTokens, users, mailboxTokens, mailboxes)
    ensures var d := AuthListener.Decide(AdminRoute, header, userTokens, users, mailboxTokens, mailboxes);
            && d != AuthListener.Proceed
            && (d.Bind? ==> AccessControl.IsAdministrator(d.principal))
  {
    AuthListener.RoleRouteBindsOnlyThatRole(AdminRoute, header, Administrator,
                                            userTokens, users, mailboxTokens, mailboxes);
  }

  /** The `{name, active}` snapshot of a domain. */
  function DomainSnapshot(d: Domain): (s: Snapshot)
    ensures s.Keys == {"name", "active"}
    ensures s["name"] == Str(d.name) && s["active"] == Bool(d.active)
  {
    map["name" := Str(d.name), "active" := Bool(d.active)]
  }

  // ---------------------------------------------------------------------
  // create

  /** Adding a row with a fresh id and an unused name keeps the domains well formed. */
  lemma AddingDomainKeepsStoreValid(st: Persistence.Store, d: Domain)
    requires st.Valid()
    requires d.id == st.nextDomainId
    requires forall id | id in st.domains :: st.domains[id].name != d.name
    ensures Persistence.DomainsWellFormed(st.domains[d.id := d], d.id + 1)
    ensures Persistence.UsersWellFormed(st.users, st.nextUserId, st.domains[d.id := d])
    ensures Persistence.MailboxesWellFormed(st.mailboxes, st.nextMailboxId, st.domains[d.id := d])
    ensures Persistence.AliasesWellFormed(st.aliases, st.nextAliasId, st.domains[d.id := d])
  {
    var domains := st.domains[d.id := d];
    forall a, b | a in domains && b in domains && domains[a].name == domains[b].name
      ensures a == b
    {
      if a != d.id && b != d.id {
        assert domains[a] == st.domains[a] && domains[b] == st.domains[b];
      }
    }
  }

  /** `create`: the name is validated (400), must be new (409), and the new
      domain is active under the next id, with one `domain.created` record. */
  method Create(st: Persistence.Store, name: Option<string>, actor: Principal, now: Timestamp, req: Request)
    returns (resp: Response)
    requires st.Valid()
    modifies st`domains, st`nextDomainId, st`auditLogs
    ensures st.Valid()
    ensures if !CreateDomainDTO.Accepted(name) then
              && resp == ValidationFailed
              && st.domains == old(st.domains) && st.nextDomainId == old(st.nextDomainId)
              && st.auditLogs == old(st.auditLogs)
            else if exists id | id in old(st.domains) :: old(st.domains)[id].name == name.value then
              && resp == DuplicateName
              && st.domains == old(st.domains) && st.nextDomainId == old(st.nextDomainId)
              && st.auditLogs == old(st.auditLogs)
            else
              var id := old(st.nextDomainId);
              && resp == Created
              && st.domains == old(st.domains)[id := Domain(id, name.value, true)]
              && st.nextDomainId == id + 1
              && st.auditLogs == old(st.auditLogs) + [Entry("domain.created", "domain", Some(id), Some(actor), now, Some(req),
                                                            None, Some(DomainSnapshot(Domain(id, name.value, true))), "success")]
  {
    if !CreateDomainDTO.Accepted(name) {
      return ValidationFailed;
    }
    if exists id | id in st.domains :: st.domains[id].name == name.value {
      return DuplicateName;
    }

    var domain := Domain(st.nextDomainId, name.value, true);
    AddingDomainKeepsStoreValid(st, domain);
    st.domains := st.domains[domain.id := domain];
    st.nextDomainId := st.nextDomainId + 1;

    Log(st, "domain.created", "domain", Some(domain.id), Some(actor), now, Some(req),
        newValue := Some(DomainSnapshot(domain)), status := "success");
    resp := Created;
  }

  // ---------------------------------------------------------------------
  // update

  /** The domain after `update`: `active` changes only when supplied, the
      name never. */
  function WithActive(d: Domain, active: Option<bool>): (r: Domain)
    ensures r.id == d.id && r.name == d.name
    ensures active.Some? ==> r.active == active.value
    ensures active.None? ==> r == d
  {
    if active.Some? then d.(active := active.value) else d
  }

  /** The records of one update: `domain.updated` always, the activation
      event on a real flip, both with the full snapshots. */
  function DomainUpdateEntries(d: Domain, active: Option<bool>, actor: Principal, now: Timestamp, req: Request)
    : (rs: seq<AuditLog>)
    ensures 1 <= |rs| <= 2
    ensures |rs| == 2 <==> active.Some? && active.value != d.active
    ensures rs[0] == Entry("domain.updated", "domain", Some(d.id), Some(actor), now, Some(req),
                           Some(DomainSnapshot(d)), Some(DomainSnapshot(WithActive(d, active))), "success")
    ensures |rs| == 2 ==> rs[1] == rs[0].(eventType := if d.active then "domain.deactivated" else "domain.activated")
  {
    var d' := WithActive(d, active);
    assert "domain" + ".updated" == "domain.updated";
    assert "domain" + ".activated" == "domain.activated";
    assert "domain" + ".deactivated" == "domain.deactivated";
    UpdateEntries("domain", d.id, actor, now, req, DomainSnapshot(d), DomainSnapshot(d'), d.active, d'.active,
                  DomainSnapshot(d), DomainSnapshot(d'))
  }

  /** An update without `active` still writes exactly one record, with equal snapshots. */
  lemma UpdateWithoutActiveLogsOnce(d: Domain, actor: Principal, now: Timestamp, req: Request)
    ensures var rs := DomainUpdateEntries(d, None, actor, now, req);
            |rs| == 1 && rs[0].oldValue == rs[0].newValue
  {
  }

  /** The `foreach` of `update`: one record per collected event type, in
      order, each with the full snapshots. */
  method LogEach(st: Persistence.Store, eventTypes: seq<string>, domainId: int, actor: Principal, now: Timestamp,
                 req: Request, oldValue: Snapshot, newValue: Snapshot)
    requires st.Valid()
    modifies st`auditLogs
    ensures st.Valid()
    ensures st.auditLogs == old(st.auditLogs)
                            + seq(|eventTypes|, k requires 0 <= k < |eventTypes| =>
                                    Entry(eventTypes[k], "domain", Some(domainId), Some(actor), now, Some(req),
                                          Some(oldValue), Some(newValue), "success"))
  {
    var i := 0;
    while i < |eventTypes|
      invariant 0 <= i <= |eventTypes|
      invariant st.Valid()
      invariant st.auditLogs == old(st.auditLogs)
                  + seq(i, k requires 0 <= k < i => Entry(eventTypes[k], "domain", Some(domainId), Some(actor), now, Some(req),
                                                          Some(oldValue), Some(newValue), "success"))
    {
      Log(st, eventTypes[i], "domain", Some(domainId), Some(actor), now, Some(req), Some(oldValue), Some(newValue), "success");
      i := i + 1;
    }
  }

  /** `update`: applies `active` when supplied, then logs the update and, on
      a flip, the activation event. */
  method Update(st: Persistence.Store, domainId: int, active: Option<bool>, actor: Principal, now: Timestamp, req: Request)
    returns (resp: Response)
    requires st.Valid() && domainId in st.domains
    modifies st`domains, st`auditLogs
    ensures st.Valid()
    ensures resp == Updated
    ensures st.domains == old(st.domains)[domainId := WithActive(old(st.domains)[domainId], active)]
    ensures st.auditLogs == old(st.auditLogs) + DomainUpdateEntries(old(st.domains)[domainId], active, actor, now, req)
  {
    var domain := st.domains[domainId];
    var oldValue := DomainSnapshot(domain);
    var eventTypes: seq<string> := [];

    if active.Some? {
      var oldActive := domain.active;
      domain := domain.(active := active.value);
      if !oldActive && active.value {
        eventTypes := eventTypes + ["domain.activated"];
      } else if oldActive && !active.value {
        eventTypes := eventTypes + ["domain.deactivated"];
      }
    }
    st.PutDomain(domain);

    var newValue := DomainSnapshot(domain);
    Log(st, "domain.updated", "domain", Some(domainId), Some(actor), now, Some(req), Some(oldValue), Some(newValue), "success");
    LogEach(st, eventTypes, domainId, actor, now, req, oldValue, newValue);
    resp := Updated;
  }

  // ---------------------------------------------------------------------
  // delete

  /** Every user loses the deleted domain (the cascade on `user_domains`). */
  function DropMemberships(users: map<int, User>, domainId: int): (r: map<int, User>)
    ensures r.Keys == users.Keys
    ensures forall id | id in r :: domainId !in r[id].domains
    ensures forall id | id in r :: r[id] == users[id].(domains := users[id].domains - {domainId})
  {
    map id | id in users :: users[id].(domains := users[id].domains - {domainId})
  }

  /** The store after the cascade keeps every integrity rule. */
  lemma CascadeKeepsStoreValid(st: Persistence.Store, domainId: int)
    requires st.Valid() && domainId in st.domains
    ensures var gone := Persistence.MailboxIdsOf(st.mailboxes, domainId);
            var domains := st.domains - {domainId};
            var mailboxes := st.mailboxes - gone;
            && Persistence.UsersWellFormed(DropMemberships(st.users, domainId), st.nextUserId, domains)
            && Persistence.DomainsWellFormed(domains, st.nextDomainId)
            && Persistence.MailboxesWellFormed(mailboxes, st.nextMailboxId, domains)
            && Persistence.AliasesWellFormed(st.aliases - Persistence.AliasIdsOf(st.aliases, domainId), st.nextAliasId, domains)
            && Persistence.AutorespondersWellFormed(st.autoresponders - gone, mailboxes)
            && Persistence.OwnedBy(WithoutOwners(st.mailboxTokens, gone), mailboxes.Keys)
  {
    var users := DropMemberships(st.users, domainId);
    forall a, b | a in users && b in users && users[a].email == users[b].email
      ensures a == b
    {
      assert users[a].email == st.users[a].email && users[b].email == st.users[b].email;
    }
  }

  /** `delete`: the domain goes with its aliases, its mailboxes, their
      tokens and autoresponders, and every assignment to it; one
      `domain.deleted` record keeps the former snapshot and id. */
  method Delete(st: Persistence.Store, domainId: int, actor: Principal, now: Timestamp, req: Request)
    returns (resp: Response)
    requires st.Valid() && domainId in st.domains
    modifies st`domains, st`aliases, st`mailboxes, st`autoresponders, st`mailboxTokens, st`users, st`auditLogs
    ensures st.Valid()
    ensures resp == Deleted
    ensures st.domains == old(st.domains) - {domainId}
    ensures st.aliases == old(st.aliases) - Persistence.AliasIdsOf(old(st.aliases), domainId)
    ensures st.mailboxes == old(st.mailboxes) - Persistence.MailboxIdsOf(old(st.mailboxes), domainId)
    ensures st.autoresponders == old(st.autoresponders) - Persistence.MailboxIdsOf(old(st.mailboxes), domainId)
    ensures st.mailboxTokens == WithoutOwners(old(st.mailboxTokens), Persistence.MailboxIdsOf(old(st.mailboxes), domainId))
    ensures st.users == DropMemberships(old(st.users), domainId)
    ensures st.auditLogs == old(st.auditLogs) + [Entry("domain.deleted", "domain", Some(domainId), Some(actor), now, Some(req),
                                                       Some(DomainSnapshot(old(st.domains)[domainId])), None, "success")]
  {
    var domain := st.domains[domainId];
    var oldValue := DomainSnapshot(domain);
    var gone := Persistence.MailboxIdsOf(st.mailboxes, domainId);
    CascadeKeepsStoreValid(st, domainId);

    st.aliases := st.aliases - Persistence.AliasIdsOf(st.aliases, domainId);
    st.mailboxTokens := WithoutOwners(st.mailboxTokens, gone);
    st.autoresponders := st.autoresponders - gone;
    st.mailboxes := st.mailboxes - gone;
    st.users := DropMemberships(st.users, domainId);
    st.domains := st.domains - {domainId};

    Log(st, "domain.deleted", "domain", Some(domainId), Some(actor), now, Some(req), oldValue := Some(oldValue), status := "success");
    resp := Deleted;
  }

  /** After the cascade nothing in the store refers to the deleted domain,
      and no token of its mailboxes still authenticates. */
  lemma CascadeLeavesNoReference(st: Persistence.Store, domainId: int, t: string)
    requires st.Valid() && domainId in st.domains
    ensures var gone := Persistence.MailboxIdsOf(st.mailboxes, domainId);
            && (forall id | id in st.mailboxes - gone :: (st.mailboxes - gone)[id].domainId != domainId)
            && (forall id | id in st.aliases - Persistence.AliasIdsOf(st.aliases, domainId) ::
                  (st.aliases - Persistence.AliasIdsOf(st.aliases, domainId))[id].domainId != domainId)
            && (t in st.mailboxTokens && st.mailboxTokens[t] in gone ==> t !in WithoutOwners(st.mailboxTokens, gone))
  {
  }

  // ---------------------------------------------------------------------
  // getManagers

  /** `getManagers`: 403 unless the caller may access the domain, otherwise
      the ids of the users assigned to it. */
  method GetManagers(st: Persistence.Store, domainId: int, actor: Principal) returns (resp: Response, managers: set<int>)
    requires st.Valid() && domainId in st.domains
    ensures !AccessControl.CanAccessDomain(actor, st.domains[domainId]) ==> resp == AccessDenied && managers == {}
    ensures AccessControl.CanAccessDomain(actor, st.domains[domainId]) ==>
              resp == Managers && managers == Persistence.UserIdsOf(st.users, domainId)
  {
    var domain := st.domains[domainId];
    if !AccessControl.CanAccessDomain(actor, domain) {
      return AccessDenied, {};
    }
    managers := set id | id in st.users && domain.id in st.users[id].domains;
    resp := Managers;
  }

  /** The managers listed for a domain are exactly the regular users who may
      access it, together with the administrators explicitly assigned. */
  lemma ManagersAreAssignedUsers(users: map<int, User>, d: Domain, id: int)
    requires id in users
    ensures id in Persistence.UserIdsOf(users, d.id) ==> AccessControl.CanAccessDomain(UserPrincipal(users[id]), d)
    ensures users[id].role == RegularUser ==>
              (id in Persistence.UserIdsOf(users, d.id) <==> AccessControl.CanAccessDomain(UserPrincipal(users[id]), d))
  {
  }
}
