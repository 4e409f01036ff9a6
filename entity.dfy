/** The in-memory side of the Domain and Mailbox entities
    (src/Entity/Domain.php, src/Entity/Mailbox.php): objects whose
    collections are mutated in place and kept consistent with the
    back-references on the other side. A Doctrine collection is an ordered
    list compared by identity, so each becomes a `seq` of references. The
    owning sides (`Alias::setDomain`, `MailboxToken::setMailbox`) take a
    non-nullable argument; a call with `null` is a TypeError, which the
    removal methods report as `ok == false`. */
module Entity {
  import opened Common

  /** `Collection::removeElement`: the first occurrence of `x` goes, the rest
      keeps its order. */
  function RemoveFirst<T(==)>(s: seq<T>, x: T): (r: seq<T>)
    ensures x !in s ==> r == s
    ensures x in s ==> |r| == |s| - 1
    ensures multiset(r) == multiset(s) - multiset{x}
  {
    if |s| == 0 then s
    else
      assert s == [s[0]] + s[1..];
      if s[0] == x then s[1..]
      else [s[0]] + RemoveFirst(s[1..], x)
  }

  /** Adding an absent element and removing it again gives the collection back. */
  lemma {:induction false} AddThenRemove<T>(s: seq<T>, x: T)
    requires x !in s
    ensures RemoveFirst(s + [x], x) == s
  {
    if |s| > 0 {
      assert (s + [x])[1..] == s[1..] + [x];
      AddThenRemove(s[1..], x);
    }
  }

  /** The user side of `user_domains` (User.php is not part of this model):
      its own list of domains, added to at most once. */
  class UserEntity {
    var domains: seq<DomainEntity>

    constructor ()
      ensures domains == []
    {
      domains := [];
    }

    /** `User::addDomain`. */
    method AddDomain(d: DomainEntity)
      modifies this`domains
      ensures domains == if d in old(domains) then old(domains) else old(domains) + [d]
    {
      if d !in domains {
        domains := domains + [d];
      }
    }

    /** `User::removeDomain`. */
    method RemoveDomain(d: DomainEntity)
      modifies this`domains
      ensures domains == RemoveFirst(old(domains), d)
    {
      domains := RemoveFirst(domains, d);
    }
  }

  /** The owning side of an alias's domain. `domain` is null until
      `setDomain` first runs. */
  class AliasEntity {
    var domain: DomainEntity?

    constructor ()
      ensures domain == null
    {
      domain := null;
    }
  }

  /** The owning side of a mailbox token's mailbox. */
  class TokenEntity {
    var mailbox: MailboxEntity?

    constructor ()
      ensures mailbox == null
    {
      mailbox := null;
    }
  }

  class DomainEntity {
    var name: string
    var active: bool
    var backup: bool
    var users: seq<UserEntity>
    var aliases: seq<AliasEntity>
    var mailboxes: seq<MailboxEntity>

    /** `new Domain()` followed by `setName`: active, not a backup, with no
        users, aliases or mailboxes. */
    constructor (name: string)
      ensures this.name == name && active && !backup
      ensures users == [] && aliases == [] && mailboxes == []
    {
      this.name := name;
      active := true;
      backup := false;
      users := [];
      aliases := [];
      mailboxes := [];
    }

    /** `setActive` changes the flag and nothing else. */
    method SetActive(active: bool)
      modifies this`active
      ensures this.active == active
    {
      this.active := active;
    }

    /** `addUser`: a user already present changes nothing; otherwise the user
        is appended and this domain is added on the user's side. */
    method AddUser(u: UserEntity)
      modifies this`users, u`domains
      ensures u in old(users) ==> users == old(users) && u.domains == old(u.domains)
      ensures u !in old(users) ==>
                && users == old(users) + [u]
                && u.domains == (if this in old(u.domains) then old(u.domains) else old(u.domains) + [this])
    {
      if u !in users {
        users := users + [u];
        u.AddDomain(this);
      }
    }

    /** `removeUser`: the user side hears about it only when the user was
        actually present. */
    method RemoveUser(u: UserEntity)
      modifies this`users, u`domains
      ensures users == RemoveFirst(old(users), u)
      ensures u.domains == (if u in old(users) then RemoveFirst(old(u.domains), this) else old(u.domains))
    {
      var present := u in users;
      users := RemoveFirst(users, u);
      if present {
        u.RemoveDomain(this);
      }
    }

    /** `addAlias`: idempotent; a new alias is appended and pointed here. */
    method AddAlias(a: AliasEntity)
      modifies this`aliases, a`domain
      ensures a in old(aliases) ==> aliases == old(aliases) && a.domain == old(a.domain)
      ensures a !in old(aliases) ==> aliases == old(aliases) + [a] && a.domain == this
    {
      if a !in aliases {
        aliases := aliases + [a];
        a.domain := this;
      }
    }

    /** `removeAlias`: the alias leaves the collection; when it points here
        the code then passes null to `setDomain`, which fails. */
    method RemoveAlias(a: AliasEntity) returns (ok: bool)
      modifies this`aliases
      ensures aliases == RemoveFirst(old(aliases), a)
      ensures !ok <==> a in old(aliases) && a.domain == this
    {
      var present := a in aliases;
      aliases := RemoveFirst(aliases, a);
      ok := !(present && a.domain == this);
    }

    /** `addMailbox`: idempotent; a new mailbox is appended and pointed here. */
    method AddMailbox(m: MailboxEntity)
      modifies this`mailboxes, m`domain
      ensures m in old(mailboxes) ==> mailboxes == old(mailboxes) && m.domain == old(m.domain)
      ensures m !in old(mailboxes) ==> mailboxes == old(mailboxes) + [m] && m.domain == this
    {
      if m !in mailboxes {
        mailboxes := mailboxes + [m];
        m.domain := this;
      }
    }

    /** `removeMailbox`: like `removeAlias`, fails when the mailbox points here. */
    method RemoveMailbox(m: MailboxEntity) returns (ok: bool)
      modifies this`mailboxes
      ensures mailboxes == RemoveFirst(old(mailboxes), m)
      ensures !ok <==> m in old(mailboxes) && m.domain == this
    {
      var present := m in mailboxes;
      mailboxes := RemoveFirst(mailboxes, m);
      ok := !(present && m.domain == this);
    }
  }

  class MailboxEntity {
    /** Null until `setDomain` first runs (an uninitialised property). */
    var domain: DomainEntity?
    var name: string
    /** The stored password hash. */
    var password: string
    var active: bool
    var footerText: Option<string>
    var hasAutoresponder: bool
    var tokens: seq<TokenEntity>

    /** `new Mailbox()`: active, no footer, no autoresponder, no tokens;
        domain, name and password are not yet set. */
    constructor ()
      ensures domain == null && name == "" && password == ""
      ensures active && footerText == None && !hasAutoresponder && tokens == []
    {
      domain := null;
      name := "";
      password := "";
      active := true;
      footerText := None;
      hasAutoresponder := false;
      tokens := [];
    }

    method SetDomain(d: DomainEntity)
      modifies this`domain
      ensures domain == d
    {
      domain := d;
    }

    method SetName(name: string)
      modifies this`name
      ensures this.name == name
    {
      this.name := name;
    }

    method SetPassword(password: string)
      modifies this`password
      ensures this.password == password
    {
      this.password := password;
    }

    method SetActive(active: bool)
      modifies this`active
      ensures this.active == active
    {
      this.active := active;
    }

    method SetFooterText(footerText: Option<string>)
      modifies this`footerText
      ensures this.footerText == footerText
    {
      this.footerText := footerText;
    }

    method SetAutoresponder(present: bool)
      modifies this`hasAutoresponder
      ensures hasAutoresponder == present
    {
      hasAutoresponder := present;
    }

    /** `addToken`: idempotent; a new token is appended and pointed here. */
    method AddToken(t: TokenEntity)
      modifies this`tokens, t`mailbox
      ensures t in old(tokens) ==> tokens == old(tokens) && t.mailbox == old(t.mailbox)
      ensures t !in old(tokens) ==> tokens == old(tokens) + [t] && t.mailbox == this
    {
      if t !in tokens {
        tokens := tokens + [t];
        t.mailbox := this;
      }
    }

    /** `removeToken`: fails when the token points here, since it would pass
        null to `setMailbox`. */
    method RemoveToken(t: TokenEntity) returns (ok: bool)
      modifies this`tokens
      ensures tokens == RemoveFirst(old(tokens), t)
      ensures !ok <==> t in old(tokens) && t.mailbox == this
    {
      var present := t in tokens;
      tokens := RemoveFirst(tokens, t);
      ok := !(present && t.mailbox == this);
    }

    /** `getEmail`: the name, an `@`, the domain's name. */
    function Email(): (e: string)
      reads this, domain
      requires domain != null
      ensures |e| == |name| + 1 + |domain.name| && e[|name|] == '@'
      ensures e[..|name|] == name && e[|name| + 1..] == domain.name
    {
      name + "@" + domain.name
    }
  }

  /** For a name without `@`, splitting the address at its first `@` (as the
      login handler does) gives back the name and the domain's name. */
  lemma EmailSplitsBack(m: MailboxEntity)
    requires m.domain != null && !Contains(m.name, '@')
    ensures Contains(m.Email(), '@')
    ensures var e := m.Email();
            var i := IndexOf(e, '@');
            e[..i] == m.name && e[i + 1..] == m.domain.name
  {
    var e := m.Email();
    assert Contains(e, '@');
    var i := IndexOf(e, '@');
    if i < |m.name| {
      assert e[i] == m.name[i];
      assert Contains(m.name, '@');
    }
  }
}
