/** The relational store the controllers read and write through Doctrine,
    as one object whose fields are the tables. Tokens live in two separate
    tables, each mapping a token string (unique per table) to its owner. */
module Persistence {
  import opened Common
  import opened Model

  ghost predicate UniqueEmails(users: map<int, User>) {
    forall a, b | a in users && b in users && users[a].email == users[b].email :: a == b
  }

  ghost predicate UniqueDomainNames(domains: map<int, Domain>) {
    forall a, b | a in domains && b in domains && domains[a].name == domains[b].name :: a == b
  }

  ghost predicate UsersWellFormed(users: map<int, User>, next: int, domains: map<int, Domain>) {
    && 1 <= next
    && (forall id | id in users :: users[id].id == id && 1 <= id < next && users[id].domains <= domains.Keys)
    && UniqueEmails(users)
  }

  ghost predicate DomainsWellFormed(domains: map<int, Domain>, next: int) {
    && 1 <= next
    && (forall id | id in domains :: domains[id].id == id && 1 <= id < next)
    && UniqueDomainNames(domains)
  }

  ghost predicate MailboxesWellFormed(mailboxes: map<int, Mailbox>, next: int, domains: map<int, Domain>) {
    1 <= next && forall id | id in mailboxes :: mailboxes[id].id == id && 1 <= id < next && mailboxes[id].domainId in domains
  }

  ghost predicate AliasesWellFormed(aliases: map<int, Alias>, next: int, domains: map<int, Domain>) {
    1 <= next && forall id | id in aliases :: aliases[id].id == id && 1 <= id < next && aliases[id].domainId in domains
  }

  /** At most one autoresponder per mailbox, keyed by that mailbox. */
  ghost predicate AutorespondersWellFormed(autoresponders: map<int, Autoresponder>, mailboxes: map<int, Mailbox>) {
    forall id | id in autoresponders :: autoresponders[id].mailboxId == id && id in mailboxes
  }

  /** Every token of a table belongs to an existing owner. */
  ghost predicate OwnedBy(tokens: map<string, int>, owners: set<int>) {
    forall t | t in tokens :: tokens[t] in owners
  }

  /** The aliases of a domain. */
  function AliasIdsOf(aliases: map<int, Alias>, domainId: int): (ids: set<int>)
    ensures forall id :: id in ids <==> id in aliases && aliases[id].domainId == domainId
  {
    set id | id in aliases && aliases[id].domainId == domainId
  }

  /** The mailboxes of a domain. */
  function MailboxIdsOf(mailboxes: map<int, Mailbox>, domainId: int): (ids: set<int>)
    ensures forall id :: id in ids <==> id in mailboxes && mailboxes[id].domainId == domainId
  {
    set id | id in mailboxes && mailboxes[id].domainId == domainId
  }

  /** The users assigned to a domain. */
  function UserIdsOf(users: map<int, User>, domainId: int): (ids: set<int>)
    ensures forall id :: id in ids <==> id in users && domainId in users[id].domains
  {
    set id | id in users && domainId in users[id].domains
  }

  class Store {
    var users: map<int, User>
    var domains: map<int, Domain>
    var mailboxes: map<int, Mailbox>
    var aliases: map<int, Alias>
    /** Keyed by the owning mailbox's id (unique mailbox_id). */
    var autoresponders: map<int, Autoresponder>
    /** `tokens`: token string to user id. */
    var userTokens: map<string, int>
    /** `mailbox_tokens`: token string to mailbox id. */
    var mailboxTokens: map<string, int>
    /** `audit_logs`, in insertion order; only ever appended to. */
    var auditLogs: seq<AuditLog>
    /** Auto-increment counters: every id ever issued is below them. */
    var nextUserId: int
    var nextDomainId: int
    var nextMailboxId: int
    var nextAliasId: int

    /** Primary keys match the rows' ids, ids start at 1, every foreign key
        (with ON DELETE CASCADE in the schema) points at an existing row,
        domain names are unique (a unique index) and so are user emails (the
        handlers that write them refuse duplicates with 409). */
    ghost predicate Valid()
      reads this
    {
      && UsersWellFormed(users, nextUserId, domains)
      && DomainsWellFormed(domains, nextDomainId)
      && MailboxesWellFormed(mailboxes, nextMailboxId, domains)
      && AliasesWellFormed(aliases, nextAliasId, domains)
      && AutorespondersWellFormed(autoresponders, mailboxes)
      && OwnedBy(userTokens, users.Keys)
      && OwnedBy(mailboxTokens, mailboxes.Keys)
    }

    /** The principal bound to a request is the current row of its table. */
    ghost predicate Holds(p: Principal)
      reads this
    {
      match p
      case UserPrincipal(u) => u.id in users && users[u.id] == u
      case MailboxPrincipal(m) => m.id in mailboxes && mailboxes[m.id] == m
    }

    /** An empty database. */
    constructor ()
      ensures Valid()
      ensures users == map[] && domains == map[] && mailboxes == map[] && aliases == map[]
      ensures autoresponders == map[] && userTokens == map[] && mailboxTokens == map[]
      ensures auditLogs == []
    {
      users, domains, mailboxes, aliases := map[], map[], map[], map[];
      autoresponders, userTokens, mailboxTokens := map[], map[], map[];
      auditLogs := [];
      nextUserId, nextDomainId, nextMailboxId, nextAliasId := 1, 1, 1, 1;
    }

    /** Persisting a new user token for an existing user. */
    method AddUserToken(t: string, owner: int)
      requires Valid() && owner in users
      modifies this`userTokens
      ensures userTokens == old(userTokens)[t := owner]
      ensures Valid()
    {
      userTokens := userTokens[t := owner];
    }

    /** Persisting a new mailbox token for an existing mailbox. */
    method AddMailboxToken(t: string, owner: int)
      requires Valid() && owner in mailboxes
      modifies this`mailboxTokens
      ensures mailboxTokens == old(mailboxTokens)[t := owner]
      ensures Valid()
    {
      mailboxTokens := mailboxTokens[t := owner];
    }
  
    /** Replaces the user-token table by a part of itself. */
    method KeepUserTokens(kept: map<string, int>)
      requires Valid() && forall t | t in kept :: t in userTokens && kept[t] == userTokens[t]
      modifies this`userTokens
      ensures userTokens == kept
      ensures Valid()
    {
      userTokens := kept;
    }

    /** Replaces the mailbox-token table by a part of itself. */
    method KeepMailboxTokens(kept: map<string, int>)
      requires Valid() && forall t | t in kept :: t in mailboxTokens && kept[t] == mailboxTokens[t]
      modifies this`mailboxTokens
      ensures mailboxTokens == kept
      ensures Valid()
    {
      mailboxTokens := kept;
    }

    /** Writes the autoresponder of an existing mailbox, keyed by that mailbox. */
    method PutAutoresponder(r: Autoresponder)
      requires Valid() && r.mailboxId in mailboxes
      modifies this`autoresponders
      ensures autoresponders == old(autoresponders)[r.mailboxId := r]
      ensures Valid()
    {
      autoresponders := autoresponders[r.mailboxId := r];
    }

    /** Writes back a domain whose name is unchanged. */
    method PutDomain(d: Domain)
      requires Valid() && d.id in domains && domains[d.id].name == d.name
      modifies this`domains
      ensures domains == old(domains)[d.id := d]
      ensures Valid()
    {
      var updated := domains[d.id := d];
      forall a, b | a in updated && b in updated && updated[a].name == updated[b].name
        ensures a == b
      {
        assert updated[a].name == domains[a].name && updated[b].name == domains[b].name;
      }
      domains := updated;
    }

    /** Flushing a changed mailbox row that stays in its domain. */
    method PutMailbox(m: Mailbox)
      requires Valid() && m.id in mailboxes && mailboxes[m.id].domainId == m.domainId
      modifies this`mailboxes
      ensures mailboxes == old(mailboxes)[m.id := m]
      ensures Valid()
    {
      mailboxes := mailboxes[m.id := m];
    }
  
    /** Flushing a changed alias row that stays in its domain. */
    method PutAlias(a: Alias)
      requires Valid() && a.id in aliases && aliases[a.id].domainId == a.domainId
      modifies this`aliases
      ensures aliases == old(aliases)[a.id := a]
      ensures Valid()
    {
      aliases := aliases[a.id := a];
    }
  
    /** Persisting a new user under the next id, with an email no user holds. */
    method InsertUser(u: User)
      requires Valid() && u.id == nextUserId && u.domains == {}
      requires forall id | id in users :: users[id].email != u.email
      modifies this`users, this`nextUserId
      ensures users == old(users)[u.id := u] && nextUserId == u.id + 1
      ensures Valid()
    {
      users := users[u.id := u];
      nextUserId := nextUserId + 1;
      forall a, b | a in users && b in users && users[a].email == users[b].email
        ensures a == b
      {
      }
    }

    /** Flushing a changed user row whose memberships are unchanged and whose
        email no other user holds. */
    method PutUser(u: User)
      requires Valid() && u.id in users && u.domains == users[u.id].domains
      requires forall id | id in users && id != u.id :: users[id].email != u.email
      modifies this`users
      ensures users == old(users)[u.id := u]
      ensures Valid()
    {
      users := users[u.id := u];
      forall a, b | a in users && b in users && users[a].email == users[b].email
        ensures a == b
      {
      }
    }
  }
}
