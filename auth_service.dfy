/** Bearer-token extraction and principal resolution (src/Service/AuthService.php).
    Resolution only reads the two token tables and the owners' active flags. */
module AuthService {
  import opened Common
  import opened Model

  const BearerPrefix: string := "Bearer "

  /** `extractTokenFromHeader`: the text after an exact, case-sensitive
      `"Bearer "` prefix; nothing for a falsy header or any other scheme. */
  function ExtractTokenFromHeader(header: Option<string>): (token: Option<string>)
    ensures Falsy(header) ==> token.None?
    ensures token.Some? <==> !Falsy(header) && StartsWith(header.value, BearerPrefix)
    ensures token.Some? ==> header.value == BearerPrefix + token.value
  {
    if Falsy(header) then None
    else if !StartsWith(header.value, BearerPrefix) then None
    else Some(header.value[|BearerPrefix|..])
  }

  /** Whatever follows `"Bearer "` comes back unchanged, so `"Bearer "` alone yields `""`. */
  lemma ExtractRoundTrip(t: string)
    ensures ExtractTokenFromHeader(Some(BearerPrefix + t)) == Some(t)
  {
    var h := BearerPrefix + t;
    assert h[..|BearerPrefix|] == BearerPrefix;
    assert h[|BearerPrefix|..] == t;
  }

  /** `getUserFromToken`: the owner of a user token, only if that owner is active. */
  function UserFromToken(userTokens: map<string, int>, users: map<int, User>, t: string): (r: Option<User>)
    requires t in userTokens ==> userTokens[t] in users
    ensures r.Some? <==> t in userTokens && users[userTokens[t]].active
    ensures r.Some? ==> r.value == users[userTokens[t]] && r.value.active
  {
    if t !in userTokens then None
    else
      var user := users[userTokens[t]];
      if !user.active then None else Some(user)
  }

  /** `getMailboxFromToken`: the owner of a mailbox token, only if that mailbox is active. */
  function MailboxFromToken(mailboxTokens: map<string, int>, mailboxes: map<int, Mailbox>, t: string): (r: Option<Mailbox>)
    requires t in mailboxTokens ==> mailboxTokens[t] in mailboxes
    ensures r.Some? <==> t in mailboxTokens && mailboxes[mailboxTokens[t]].active
    ensures r.Some? ==> r.value == mailboxes[mailboxTokens[t]] && r.value.active
  {
    if t !in mailboxTokens then None
    else
      var mailbox := mailboxes[mailboxTokens[t]];
      if !mailbox.active then None else Some(mailbox)
  }

  /** `getAuthenticatedEntity`: the user namespace is consulted first; the
      mailbox namespace only when the user lookup gave nothing. */
  function AuthenticatedEntity(userTokens: map<string, int>, users: map<int, User>,
                               mailboxTokens: map<string, int>, mailboxes: map<int, Mailbox>,
                               t: string): (r: Option<Principal>)
    requires t in userTokens ==> userTokens[t] in users
    requires t in mailboxTokens ==> mailboxTokens[t] in mailboxes
    ensures r.Some? && r.value.UserPrincipal? <==> UserFromToken(userTokens, users, t).Some?
    ensures r.Some? && r.value.MailboxPrincipal? <==>
              UserFromToken(userTokens, users, t).None? && MailboxFromToken(mailboxTokens, mailboxes, t).Some?
    ensures r.Some? ==> r.value == (if r.value.UserPrincipal? then UserPrincipal(users[userTokens[t]])
                                    else MailboxPrincipal(mailboxes[mailboxTokens[t]]))
  {
    match UserFromToken(userTokens, users, t)
    case Some(user) => Some(UserPrincipal(user))
    case None => match MailboxFromToken(mailboxTokens, mailboxes, t)
      case Some(mailbox) => Some(MailboxPrincipal(mailbox))
      case None => None
  }

  /** A string that is in neither table resolves to nothing. */
  lemma UnknownTokenResolvesToNothing(userTokens: map<string, int>, users: map<int, User>,
                                      mailboxTokens: map<string, int>, mailboxes: map<int, Mailbox>, t: string)
    requires t !in userTokens && t !in mailboxTokens
    ensures AuthenticatedEntity(userTokens, users, mailboxTokens, mailboxes, t).None?
  {
  }

  /** A token whose owner is inactive is indistinguishable from a token that
      does not exist: resolving it gives what resolving it gives once the token
      is deleted from its table. */
  lemma InactiveOwnerLikeUnknown(userTokens: map<string, int>, users: map<int, User>,
                                 mailboxTokens: map<string, int>, mailboxes: map<int, Mailbox>, t: string)
    requires t in userTokens ==> userTokens[t] in users
    requires t in mailboxTokens ==> mailboxTokens[t] in mailboxes
    requires t in userTokens ==> !users[userTokens[t]].active
    requires t in mailboxTokens ==> !mailboxes[mailboxTokens[t]].active
    ensures AuthenticatedEntity(userTokens, users, mailboxTokens, mailboxes, t)
         == AuthenticatedEntity(userTokens - {t}, users, mailboxTokens - {t}, mailboxes, t)
         == None
  {
  }

  /** Issuing a fresh token to an active user makes it resolve to exactly that user. */
  lemma {:induction false} IssuedUserTokenResolves(userTokens: map<string, int>, users: map<int, User>,
                                                   mailboxTokens: map<string, int>, mailboxes: map<int, Mailbox>,
                                                   t: string, id: int)
    requires id in users && users[id].active
    requires t in mailboxTokens ==> mailboxTokens[t] in mailboxes
    ensures AuthenticatedEntity(userTokens[t := id], users, mailboxTokens, mailboxes, t) == Some(UserPrincipal(users[id]))
  {
  }

  /** Issuing a token to an active mailbox makes it resolve to that mailbox,
      unless the same string is already an active user's token: uniqueness is
      per table, and the user table wins. */
  lemma IssuedMailboxTokenResolves(userTokens: map<string, int>, users: map<int, User>,
                                   mailboxTokens: map<string, int>, mailboxes: map<int, Mailbox>,
                                   t: string, id: int)
    requires id in mailboxes && mailboxes[id].active
    requires t in userTokens ==> userTokens[t] in users
    ensures var r := AuthenticatedEntity(userTokens, users, mailboxTokens[t := id], mailboxes, t);
            if UserFromToken(userTokens, users, t).Some? then r == Some(UserPrincipal(users[userTokens[t]]))
            else r == Some(MailboxPrincipal(mailboxes[id]))
  {
  }

  /** A token held by an inactive user does not hide a mailbox token with the
      same string: the mailbox namespace is consulted. */
  lemma InactiveUserFallsThroughToMailbox(userTokens: map<string, int>, users: map<int, User>,
                                          mailboxTokens: map<string, int>, mailboxes: map<int, Mailbox>, t: string)
    requires t in userTokens && userTokens[t] in users && !users[userTokens[t]].active
    requires t in mailboxTokens && mailboxTokens[t] in mailboxes && mailboxes[mailboxTokens[t]].active
    ensures AuthenticatedEntity(userTokens, users, mailboxTokens, mailboxes, t)
         == Some(MailboxPrincipal(mailboxes[mailboxTokens[t]]))
  {
  }
}
