/** Assigning users to the domains they manage, and withdrawing them
    (src/Controller/UserDomainController.php). Both routes carry
    RequireRole(ADMINISTRATOR); the user and the domain come from the path
    and must exist (an unknown id is the framework's 404, outside the
    handler). */
module UserDomainController {
  import opened Common
  import opened Model
  import opened AuditLogService
  import AccessControl
  import AuthListener
  import Persistence

  const AlreadyAssigned := Response(409, "User already assigned to this domain")
  const AssignedResponse := Response(201, "User assigned to domain successfully")
  const NotAssigned := Response(404, "User is not assigned to this domain")
  const UnassignedResponse := Response(200, "User unassigned from domain successfully")

  /** The route policy of `assign` and `unassign`: RequireRole on the method. */
  const MembershipRoute := AuthListener.Action(AuthListener.NoAttributes,
                                               AuthListener.Attributes(false, Some(Administrator)))

  /** Only an administrator ever reaches either handler. */
  lemma OnlyAdministratorsManageMembership(header: Option<string>,
                                           userTokens: map<string, int>, users: map<int, User>,
                                           mailboxTokens: map<string, int>, mailboxes: map<int, Mailbox>)
    requires AuthListener.OwnersExist(userTokens, users, mailboxTokens, mailboxes)
    ensures var d := AuthListener.Decide(MembershipRoute, header, userTokens, users, mailboxTokens, mailboxes);
            && d != AuthListener.Proceed
            && (d.Bind? ==> AccessControl.IsAdministrator(d.principal))
  {
    AuthListener.RoleRouteBindsOnlyThatRole(MembershipRoute, header, Administrator,
                                            userTokens, users, mailboxTokens, mailboxes);
  }

  /** The snapshot both records carry. */
  function MembershipSnapshot(u: User, d: Domain): (s: Snapshot)
    ensures s.Keys == {"user_id", "user_email", "domain_id", "domain_name"}
    ensures s["user_id"] == Int(u.id) && s["domain_id"] == Int(d.id)
    ensures s["user_email"] == Str(u.email) && s["domain_name"] == Str(d.name)
  {
    map["user_id" := Int(u.id), "user_email" := Str(u.email), "domain_id" := Int(d.id), "domain_name" := Str(d.name)]
  }

  /** `addDomain` on the owning side: the user's domain set gains the domain. */
  function WithMembership(users: map<int, User>, userId: int, domainId: int): (r: map<int, User>)
    requires userId in users
    ensures r.Keys == users.Keys
    ensures domainId in r[userId].domains
    ensures r[userId].domains == users[userId].domains + {domainId}
    ensures r[userId] == users[userId].(domains := r[userId].domains)
    ensures forall id | id in users && id != userId :: r[id] == users[id]
  {
    users[userId := users[userId].(domains := users[userId].domains + {domainId})]
  }

  /** `removeDomain`: the user's domain set loses the domain. */
  function WithoutMembership(users: map<int, User>, userId: int, domainId: int): (r: map<int, User>)
    requires userId in users
    ensures r.Keys == users.Keys
    ensures domainId !in r[userId].domains
    ensures r[userId].domains == users[userId].domains - {domainId}
    ensures r[userId] == users[userId].(domains := r[userId].domains)
    ensures forall id | id in users && id != userId :: r[id] == users[id]
  {
    users[userId := users[userId].(domains := users[userId].domains - {domainId})]
  }

  /** Assigning a fresh membership and withdrawing it gives the users back
      unchanged, and so does withdrawing an existing one and assigning it again. */
  lemma MembershipRoundTrips(users: map<int, User>, userId: int, domainId: int)
    requires userId in users
    ensures domainId !in users[userId].domains ==>
              WithoutMembership(WithMembership(users, userId, domainId), userId, domainId) == users
    ensures domainId in users[userId].domains ==>
              WithMembership(WithoutMembership(users, userId, domainId), userId, domainId) == users
  {
    var u := users[userId];
    if domainId !in u.domains {
      assert u.domains + {domainId} - {domainId} == u.domains;
    } else {
      assert u.domains - {domainId} + {domainId} == u.domains;
    }
  }

  /** After an assignment the user reaches the domain; after withdrawal a
      regular user no longer does. */
  lemma MembershipDecidesAccess(users: map<int, User>, userId: int, d: Domain)
    requires userId in users
    ensures AccessControl.CanAccessDomain(UserPrincipal(WithMembership(users, userId, d.id)[userId]), d)
    ensures users[userId].role == RegularUser ==>
              !AccessControl.CanAccessDomain(UserPrincipal(WithoutMembership(users, userId, d.id)[userId]), d)
  {
  }

  /** Changing only domain sets, within the existing domains, keeps the users well formed. */
  lemma MembershipKeepsUsersWellFormed(users: map<int, User>, next: int, domains: map<int, Domain>,
                                       userId: int, newDomains: set<int>)
    requires Persistence.UsersWellFormed(users, next, domains)
    requires userId in users && newDomains <= domains.Keys
    ensures Persistence.UsersWellFormed(users[userId := users[userId].(domains := newDomains)], next, domains)
  {
    var r := users[userId := users[userId].(domains := newDomains)];
    forall a, b | a in r && b in r && r[a].email == r[b].email
      ensures a == b
    {
      assert r[a].email == users[a].email && r[b].email == users[b].email;
    }
  }

  /** `assign`: 409 for an existing membership, otherwise the membership is
      added and one `user_domain.assigned` record names the domain. */
  method Assign(st: Persistence.Store, userId: int, domainId: int, actor: Principal, now: Timestamp, req: Request)
    returns (resp: Response)
    requires st.Valid() && userId in st.users && domainId in st.domains
    modifies st`users, st`auditLogs
    ensures st.Valid()
    ensures var user := old(st.users)[userId];
            if domainId in user.domains then
              && resp == AlreadyAssigned
              && st.users == old(st.users) && st.auditLogs == old(st.auditLogs)
            else
              && resp == AssignedResponse
              && st.users == WithMembership(old(st.users), userId, domainId)
              && st.auditLogs == old(st.auditLogs) + [Entry("user_domain.assigned", "user_domain", Some(domainId), Some(actor),
                                                            now, Some(req), None,
                                                            Some(MembershipSnapshot(user, st.domains[domainId])), "success")]
  {
    var user := st.users[userId];
    var domain := st.domains[domainId];
    if domainId in user.domains {
      return AlreadyAssigned;
    }

    MembershipKeepsUsersWellFormed(st.users, st.nextUserId, st.domains, userId, user.domains + {domainId});
    st.users := st.users[userId := user.(domains := user.domains + {domainId})];

    Log(st, "user_domain.assigned", "user_domain", Some(domain.id), Some(actor), now, Some(req),
        None, Some(MembershipSnapshot(user, domain)), "success");
    resp := AssignedResponse;
  }

  /** `unassign`: 404 without the membership, otherwise it is removed and one
      `user_domain.unassigned` record keeps the former pair. */
  method Unassign(st: Persistence.Store, userId: int, domainId: int, actor: Principal, now: Timestamp, req: Request)
    returns (resp: Response)
    requires st.Valid() && userId in st.users && domainId in st.domains
    modifies st`users, st`auditLogs
    ensures st.Valid()
    ensures var user := old(st.users)[userId];
            if domainId !in user.domains then
              && resp == NotAssigned
              && st.users == old(st.users) && st.auditLogs == old(st.auditLogs)
            else
              && resp == UnassignedResponse
              && st.users == WithoutMembership(old(st.users), userId, domainId)
              && st.auditLogs == old(st.auditLogs) + [Entry("user_domain.unassigned", "user_domain", Some(domainId), Some(actor),
                                                            now, Some(req), Some(MembershipSnapshot(user, st.domains[domainId])),
                                                            None, "success")]
  {
    var user := st.users[userId];
    var domain := st.domains[domainId];
    if domainId !in user.domains {
      return NotAssigned;
    }

    MembershipKeepsUsersWellFormed(st.users, st.nextUserId, st.domains, userId, user.domains - {domainId});
    st.users := st.users[userId := user.(domains := user.domains - {domainId})];

    Log(st, "user_domain.unassigned", "user_domain", Some(domain.id), Some(actor), now, Some(req),
        Some(MembershipSnapshot(user, domain)), None, "success");
    resp := UnassignedResponse;
  }
}
