/** The access predicates handlers consult after the gate has bound a
    principal (src/Service/AccessControlService.php). They only advise: the
    handler itself answers 403 when one is false. */
module AccessControl {
  import opened Model

  /** `isAdministrator`: a user whose role is ADMINISTRATOR. */
  function IsAdministrator(p: Principal): (r: bool)
    ensures r <==> p.UserPrincipal? && p.user.role == Administrator
    ensures r ==> !p.MailboxPrincipal?
  {
    p.UserPrincipal? && p.user.role == Administrator
  }

  /** `canAccessDomain`: never for a mailbox, always for an administrator,
      otherwise exactly when the domain is one of the user's domains. */
  function CanAccessDomain(p: Principal, d: Domain): (r: bool)
    ensures r <==> IsAdministrator(p) || (p.UserPrincipal? && d.id in p.user.domains)
    ensures p.MailboxPrincipal? ==> !r
  {
    match p
    case MailboxPrincipal(_) => false
    case UserPrincipal(u) => if u.role == Administrator then true else d.id in u.domains
  }

  /** `canManageMailbox`: a mailbox manages only itself; a user manages a
      mailbox exactly when it may access the mailbox's domain. */
  function CanManageMailbox(p: Principal, m: Mailbox, domain: Domain): (r: bool)
    requires domain.id == m.domainId
    ensures p.MailboxPrincipal? ==> (r <==> p.mailbox.id == m.id)
    ensures p.UserPrincipal? ==> (r <==> CanAccessDomain(p, domain))
  {
    match p
    case MailboxPrincipal(own) => own.id == m.id
    case UserPrincipal(_) => CanAccessDomain(p, domain)
  }

  /** A mailbox principal may manage itself but cannot reach its own domain. */
  lemma MailboxSelfServiceOnly(m: Mailbox, domain: Domain, other: Mailbox)
    requires domain.id == m.domainId && other.domainId == m.domainId && other.id != m.id
    ensures CanManageMailbox(MailboxPrincipal(m), m, domain)
    ensures !CanManageMailbox(MailboxPrincipal(m), other, domain)
    ensures !CanAccessDomain(MailboxPrincipal(m), domain)
  {
  }

  /** An administrator reaches every domain, assigned or not, and so every mailbox. */
  lemma AdministratorReachesEverything(p: Principal, m: Mailbox, domain: Domain)
    requires IsAdministrator(p) && domain.id == m.domainId
    ensures CanAccessDomain(p, domain) && CanManageMailbox(p, m, domain)
  {
  }

  /** Access depends only on the domain's id, not on its name or active flag:
      a deactivated domain stays reachable to its managers. */
  lemma AccessIgnoresDomainState(p: Principal, d: Domain, name: string, active: bool)
    ensures CanAccessDomain(p, d) == CanAccessDomain(p, Domain(d.id, name, active))
  {
  }
}
