# Mail administration backend: a verified model

This project models the request-handling core of a mail-server administration
backend (a PHP/Symfony JSON API). The backend keeps users (administrators and
regular users), domains, mailboxes, aliases and mailbox autoresponders, and it
authenticates both users and mailboxes with bearer tokens. Every state change
it makes is written to an append-only audit ledger.

The model covers:

- **The authentication gate.** The `Bearer` header is parsed and the token
  resolved, the user table first and then the mailbox table; an inactive
  owner counts as an unknown token. Each route's RequireAuth / RequireRole
  policy is resolved, method level before class level. The gate's outcomes
  are proceed, 401 missing, 401 invalid, 403, or bind the principal.
- **The access predicates.** Who may access a domain, and who may manage a
  mailbox.
- **The audit ledger.** Every call appends exactly one record. Actors are
  classified as user, mailbox or system. Login records have a fixed format.
- **The scoped, paginated audit query.** Administrators see the whole
  ledger; other users see the records that concern one of their domains.
  The listing is ordered newest first, in pages of fifty. Error precedence
  is checked in the order the code checks it.
- **The state-changing handlers.** Login, logout and logout everywhere;
  users; user-to-domain assignment; domains; mailboxes; aliases; the
  mailbox's own footer and autoresponder; the principal's own password.
  For each handler the model states its guards in order, its partial
  updates, its cascades and exactly which audit records it appends.
- **The in-memory Domain and Mailbox entities.** Their collections and
  back-references, as Dafny classes mutated in place.
- **The CORS listener.** The allow-list parsing, the echo rule and the
  preflight short-circuit.
- **The domain-name constraint of CreateDomainDTO.** Its regular expression
  is stated as the grammar it denotes.

The persisted store is one `Persistence.Store` object whose fields are the
tables: maps keyed by auto-increment id, two token tables mapping a token
string to its owner, and the ledger as a sequence. `Store.Valid()` holds the
integrity rules the schema enforces (unique domain names and tokens, foreign
keys, ids below the next auto-increment value) together with one rule the
schema does not enforce: user emails are unique. The users table has no
unique index on `email`; the create and update handlers keep emails unique
through their lookup-then-409 checks.

Each controller handler is a method on the store. Its `modifies` clause
names only the tables it may write. Its `ensures` clause gives the response
and the whole new state as functions of the old state and the request. The
properties the code promises are then lemmas about those functions:
round trips, idempotence, the number and content of audit records, and
what a cascade leaves behind.

Things the model treats as inputs or abstractions:

- The clock is a `now` parameter.
- The HTTP request's IP address and user agent are a `Request` value.
- The random token generator is a parameter holding the string it returned.
- The Symfony `Email` constraint is a boolean parameter.
- Date parsing is a parameter that is parsed, absent or unparseable.
- The password hash is an injective `Hash`, checked by `Verify`.

## Model

| member | source | states |
|---|---|---|
| AccessControl.IsAdministrator | src/Service/AccessControlService.php:34-37 | true exactly for a user whose role is administrator; never for a mailbox |
| AccessControl.CanAccessDomain | src/Service/AccessControlService.php:12-23 | false for every mailbox; true for an administrator; otherwise true exactly when the domain is one of the user's domains |
| AccessControl.CanManageMailbox | src/Service/AccessControlService.php:25-32 | a mailbox manages exactly itself (same id); a user manages a mailbox exactly when it may access the mailbox's domain |
| AccessControl.MailboxSelfServiceOnly | src/Service/AccessControlService.php:12-32 | a mailbox principal manages itself, not another mailbox of its domain, and never reaches its own domain |
| AccessControl.AdministratorReachesEverything | src/Service/AccessControlService.php:18-31 | an administrator may access every domain and manage every mailbox, assigned or not |
| AccessControl.AccessIgnoresDomainState | src/Service/AccessControlService.php:22 | domain access depends only on the domain's identity, not its name or active flag |
| AuthService.ExtractTokenFromHeader | src/Service/AuthService.php:63-74 | a falsy header (null, "", "0") gives no token; a token exists exactly when the header starts with "Bearer " (case-sensitive, one space), and it is the rest of the header |
| AuthService.ExtractRoundTrip | src/Service/AuthService.php:73 | "Bearer " followed by any t yields exactly t, so "Bearer " alone yields "" |
| AuthService.UserFromToken | src/Service/AuthService.php:17-33 | a user results exactly when the token string is a user token whose owner is active, and it is that owner |
| AuthService.MailboxFromToken | src/Service/AuthService.php:35-51 | a mailbox results exactly when the token string is a mailbox token whose owner is active, and it is that owner |
| AuthService.AuthenticatedEntity | src/Service/AuthService.php:53-61 | the user namespace wins; the mailbox namespace answers exactly when the user lookup gave nothing; the principal is the token's owner |
| AuthService.UnknownTokenResolvesToNothing | src/Service/AuthService.php:17-51 | a string in neither token table resolves to no principal |
| AuthService.InactiveOwnerLikeUnknown | src/Service/AuthService.php:26-48 | a token whose owners are all inactive resolves to nothing, like an unknown token |
| AuthService.IssuedUserTokenResolves | src/Service/AuthService.php:17-58 | a token just issued to an active user resolves to that user |
| AuthService.IssuedMailboxTokenResolves | src/Service/AuthService.php:35-60 | a token just issued to an active mailbox resolves to it unless the same string also names an active user's token |
| AuthService.InactiveUserFallsThroughToMailbox | src/Service/AuthService.php:55-60 | a string held by an inactive user's token still resolves to the active mailbox holding the same string |
| AuthListener.EffectivePolicy | src/EventListener/AuthListener.php:34-42 | each attribute kind is taken from the method when present there, from the class otherwise |
| AuthListener.Decide | src/EventListener/AuthListener.php:20-87 | an unguarded route proceeds; a guarded one answers 401 "Missing or invalid authorization token" exactly when the extracted token is falsy, 401 "Invalid or expired token" exactly when it resolves to no principal, 403 exactly when a role applies and the principal is not a user with that role; otherwise it binds the resolved principal |
| AuthListener.RoleAloneForcesAuthentication | src/EventListener/AuthListener.php:39-46 | a route carrying only RequireRole (no RequireAuth anywhere) is still guarded |
| AuthListener.OpenRouteIgnoresHeader | src/EventListener/AuthListener.php:44-46 | on a route without either attribute the decision does not depend on the Authorization header |
| AuthListener.EmptyAndZeroTokensAreMissing | src/EventListener/AuthListener.php:50-57 | "Bearer " and "Bearer 0" on a guarded route give the missing-token 401, not the invalid-token one |
| AuthListener.RoleRouteBindsOnlyThatRole | src/EventListener/AuthListener.php:68-86 | a role-restricted route never binds a mailbox and binds only users holding exactly that role |
| AuthListener.OnKernelController | src/EventListener/AuthListener.php:20-87 | the event follows `Decide`: the controller is kept on Proceed and Bind, auth_user is set only on Bind, and every rejection swaps in the matching error responder without binding |
| AuditLogService.ActorType | src/Service/AuditLogService.php:46-55 | actor_type is "user" exactly for a user, "mailbox" exactly for a mailbox and "system" exactly when there is no actor |
| AuditLogService.ActorId | src/Service/AuditLogService.php:46-55 | actor_id is null exactly when there is no actor, and is the principal's id otherwise |
| AuditLogService.ActorColumnsIdentifyActor | src/Service/AuditLogService.php:46-55 | two records with the same actor columns come from actors of the same kind with the same id |
| AuditLogService.Entry | src/Service/AuditLogService.php:30-68 | the record carries the given event, entity, status and snapshots; the actor columns; the client IP and User-Agent exactly when a request is given, nulls otherwise |
| AuditLogService.Log | src/Service/AuditLogService.php:30-71 | exactly one record, `Entry` of the arguments, is appended and nothing else changes |
| AuditLogService.LoginEventTypeInjective | src/Service/AuditLogService.php:81 | "<actorType>.login.success/failed" determines both the actor type and the outcome |
| AuditLogService.LoginEntry | src/Service/AuditLogService.php:73-92 | the login record names the actor as its own entity, has status "success"/"failure" by the flag, no old snapshot and the submitted identifier as `{email}` |
| AuditLogService.LoginEntryIsSelfEntry | src/Service/AuditLogService.php:73-92 | a login record of a known principal equals the record `log` would write for that principal acting on itself |
| AuditLogService.LogLogin | src/Service/AuditLogService.php:73-96 | exactly one record, `LoginEntry` of the arguments, is appended |
| AuditLogService.ActivationEvent | src/Controller/DomainController.php:110-119 | an activation event exists exactly when the flag flipped: ".activated" from false to true, ".deactivated" from true to false |
| AuditLogService.UpdateEntries | src/Controller/AliasController.php:156-179 | an update writes the ".updated" record with both snapshots first, and a second, activation record exactly when the flag flipped |
| AuditLogService.ActivationEventDistinctFromUpdate | src/Controller/AliasController.php:168 | the activation event name never equals the ".updated" event of the same entity type |
| AuditLogService.LogUpdate | src/Controller/AliasController.php:156-179 | the ledger grows by exactly `UpdateEntries` of the arguments |
| AuditLogController.SpacePrefix | src/Controller/AuditLogController.php:41 | the length of the leading-whitespace run that PHP's integer cast skips |
| AuditLogController.DigitPrefix | src/Controller/AuditLogController.php:41 | the length of the longest all-digit prefix: each digit run of a numeric string (before the point, after it, in the exponent) is read this far |
| AuditLogController.Decimal | src/Controller/AuditLogController.php:41 | the canonical decimal rendering: at least one digit, all digits, no leading zero unless the number is 0 |
| AuditLogController.IntCastOfDecimal | src/Controller/AuditLogController.php:41 | the decimal rendering of n, with or without "-", casts to n or -n while that fits in 64 bits, to PHP_INT_MAX or PHP_INT_MIN beyond, and to 0 once n is at least 2^1024 - 2^970 (the double is infinite) |
| AuditLogController.IntCast | src/Controller/AuditLogController.php:41 | `(int)` on a string always lands in [PHP_INT_MIN, PHP_INT_MAX]; it is the saturated, truncated value of the leading numeral, and 0 when there is none |
| AuditLogController.LeadingNumeral | src/Controller/AuditLogController.php:41 | after leading whitespace and one sign, a numeral is found exactly when the text starts with a digit or with "." and a digit; its digits are all decimal and it is negative exactly when the sign is "-" |
| AuditLogController.Saturated | src/Controller/AuditLogController.php:41 | an infinite value gives 0; a finite one is clamped into [PHP_INT_MIN, PHP_INT_MAX] with its sign |
| AuditLogController.CastOfWhole | src/Controller/AuditLogController.php:41 | an optional "-" and a run of digits cast to the saturated value of those digits |
| AuditLogController.CastOfDecimal | src/Controller/AuditLogController.php:41 | the decimal rendering of n, with or without "-", casts to the saturated n |
| AuditLogController.CastOfFraction | src/Controller/AuditLogController.php:41 | digits, a point and more digits cast like the digits before the point (truncation toward zero, for either sign, on the exact decimal value; PHP rounds long numerals to a double first) |
| AuditLogController.FractionTruncates | src/Controller/AuditLogController.php:41 | appending a fraction to a decimal, signed or not, does not change its cast (on the exact decimal value; PHP rounds long numerals to a double first) |
| AuditLogController.CastOfExponent | src/Controller/AuditLogController.php:41 | digits, "e" and digits cast to the first digits times ten to the second, saturated (on the exact value; PHP rounds long mantissas to a double first) |
| AuditLogController.ExponentScales | src/Controller/AuditLogController.php:41 | "n e k" casts like the decimal rendering of n * 10^k (on the exact value; PHP rounds long mantissas to a double first) |
| AuditLogController.ExponentExample | src/Controller/AuditLogController.php:41 | "1e2" casts to 100 |
| AuditLogController.FractionExample | src/Controller/AuditLogController.php:41 | "2.9" casts to 2 |
| AuditLogController.NegativeFractionExample | src/Controller/AuditLogController.php:41 | "-2.9" casts to -2 (toward zero, not down) |
| AuditLogController.LeadingPointExample | src/Controller/AuditLogController.php:41 | ".5e1" casts to 5: a numeral may start at its point |
| AuditLogController.NonNumericCastsToZero | src/Controller/AuditLogController.php:41 | text that, after leading whitespace and one sign, starts with neither a digit nor "." and a digit casts to 0 (the empty string included) |
| AuditLogController.EffectivePage | src/Controller/AuditLogController.php:41 | the page is between 1 and PHP_INT_MAX: 1 when absent or when the cast is below 1, the cast value otherwise |
| AuditLogController.EffectivePageOfDecimal | src/Controller/AuditLogController.php:41 | a decimal page n >= 1 is taken at face value up to PHP_INT_MAX, saturates to PHP_INT_MAX above it, and falls back to 1 once the double overflows; "1e2" is page 100 |
| AuditLogController.PageOf | src/Controller/AuditLogController.php:72-73 | a page holds at most 50 records, is the slice starting at (page - 1) * 50 in order, is non-empty exactly when that offset is inside the result, and is full when 50 records remain |
| AuditLogController.TotalPages | src/Controller/AuditLogController.php:79 | the ceiling of total / 50: enough pages for every record, the last one non-empty, zero exactly for an empty result |
| AuditLogController.PageNonEmptyIff | src/Controller/AuditLogController.php:72-79 | a page has records exactly when its number is at most total_pages |
| AuditLogController.EveryRecordOnItsPage | src/Controller/AuditLogController.php:72-79 | record i of an ordered result is entry i mod 50 of page i / 50 + 1, which is within total_pages |
| AuditLogController.SortByCreatedDescCorrect | src/Controller/AuditLogController.php:71 | the ordering is sorted by created_at newest first and is a permutation of its input |
| AuditLogController.OrSentinel | src/Controller/AuditLogController.php:159-164 | an empty id list becomes the list holding only 0; any other list is kept |
| AuditLogController.VisibleIffConcerns | src/Controller/AuditLogController.php:129-164 | when no record names entity 0, the query's six-way filter with the sentinel lists selects exactly the records about the domain, a membership in it, or its aliases, mailboxes, assigned users or autoresponders |
| AuditLogController.SentinelMatchesEntityZero | src/Controller/AuditLogController.php:159 | the sentinel is observable only through entity id 0: an "alias" record for id 0 is listed for a domain without aliases |
| AuditLogController.FilterVisible | src/Controller/AuditLogController.php:129-154 | keeps exactly the ledger records the filter selects, each with its multiplicity in the ledger, and nothing else |
| AuditLogController.Paginate | src/Controller/AuditLogController.php:155-189 | the listing's records are exactly the requested page of the matching set ordered newest first; they are at most 50 and exist exactly when the page is within total_pages; total_items and total_pages describe the whole matching set |
| AuditLogController.AdminLogs | src/Controller/AuditLogController.php:66-95 | an administrator's listing has no domain, holds the requested page of the whole ledger ordered newest first, and reports the ledger's size and page count |
| AuditLogController.DomainLogs | src/Controller/AuditLogController.php:97-191 | a domain listing is tagged with the domain, holds the requested page, newest first, of the ledger records the domain filter selects, and reports their count and page count |
| AuditLogController.List | src/Controller/AuditLogController.php:31-64 | a mailbox gets 403; an administrator gets the requested page of the whole ledger; another user gets 400 for a falsy domain_id, then 404 when its integer cast names no domain, then 403 for an unassigned domain, otherwise that domain's page; the page is always the effective page and holds at most 50 records |
| AuditLogController.ListingStaysInScope | src/Controller/AuditLogController.php:48-63 | a non-administrator only receives records that concern a domain assigned to them |
| AuditLogController.UnknownDomainIsNotFoundBeforeForbidden | src/Controller/AuditLogController.php:54-61 | a non-administrator whose domain_id casts to no existing domain gets 404, not 403 |
| TokenRevocation.TokensOf | src/Controller/AuthController.php:236-238 | exactly the token strings of the table that belong to the owner |
| TokenRevocation.Without | src/Controller/AuthController.php:240-244 | exactly the tokens of other owners remain, each bound as before |
| TokenRevocation.RevocationPartitions | src/Controller/AuthController.php:238-244 | the reported count is exactly the number of rows that disappear |
| TokenRevocation.RevocationIdempotent | src/Controller/AuthController.php:240-244 | revoking twice is revoking once, and afterwards the owner holds no token |
| TokenRevocation.RevokeAll | src/Controller/AuthController.php:236-244 | the loop leaves exactly `Without(tokens, owner)` and returns the number of tokens the owner had, which is the number removed |
| TokenRevocation.WithoutOwners | src/Controller/DomainController.php:156-183 | deleting owners removes exactly their tokens and keeps the rest unchanged (the cascade on the owner foreign key) |
| TokenRevocation.DeletingOneOwnerRevokes | src/Controller/MailboxController.php:244-280 | deleting one owner removes the same tokens as revoking all of that owner's tokens |
| AuthController.Target | src/Controller/AuthController.php:42-55 | an identifier without "@" is a user email; with one, when a domain is named exactly by the part after the first "@", it is the mailbox named by the part before it in that domain; otherwise it is a user email |
| AuthController.MailboxAddressTargetsMailbox | src/Controller/AuthController.php:44-51 | with unique domain names, a mailbox's own address "name@domain" targets that mailbox's domain and name |
| AuthController.TokenOnlyForActiveAndVerified | src/Controller/AuthController.php:58-159 | a token is issued exactly for the right password on an active account with a new token string; it is bound to that principal, the table changes only then, and every attempt not ending in 500 appends exactly one record ("failure" when refused) |
| AuthController.IssuedUserTokenAuthenticates | src/Controller/AuthController.php:58-107 | a token issued by a successful user login then authenticates that user |
| AuthController.FindDomainByName | src/Controller/AuthController.php:47-48 | no domain exactly when no domain has that name; otherwise a stored domain with that name |
| AuthController.LoginUser | src/Controller/AuthController.php:58-107 | an unknown email gives 401 and a failure record with a null actor; otherwise the attempt against that user as described for `TokenOnlyForActiveAndVerified` |
| AuthController.AttemptUser | src/Controller/AuthController.php:70-106 | for a found user: a wrong password gives 401 and a failure record, an inactive account 403 and a failure record with reason `account_not_active`; otherwise exactly one new token is bound to that user and a success record follows |
| AuthController.LoginMailbox | src/Controller/AuthController.php:109-159 | the same for the mailbox of that name in that domain, logged under its address "name@domain" |
| AuthController.AttemptMailbox | src/Controller/AuthController.php:122-158 | the same three checks, in the same order, for a found mailbox and the mailbox token table |
| AuthController.Login | src/Controller/AuthController.php:31-56 | 400 "Email and password are required" when either field is missing, nothing changing; otherwise the user or mailbox login chosen by `Target`, leaving the other token table unchanged |
| AuthController.Logout | src/Controller/AuthController.php:161-227 | 401 when the presented token is falsy; otherwise the token is removed from the user table if it is there, else from the mailbox table, with one logout record naming its owner; an unknown token gives 200 "Token not found" and changes nothing |
| AuthController.LogoutAll | src/Controller/AuthController.php:229-282 | exactly the caller's tokens in the caller's own table are removed, the other table is untouched, and one record carries the number removed |
| AuthController.LogoutAllUser | src/Controller/AuthController.php:235-256 | exactly the user's tokens leave the user table, each other token keeps its owner, and one `user.logout_all` record carries the number removed |
| AuthController.LogoutAllMailbox | src/Controller/AuthController.php:256-277 | the same for a mailbox and the mailbox table, with `mailbox.logout_all` |
| AuthController.LogoutAllEndsUserSessions | src/Controller/AuthController.php:235-244 | after logout-all, no former token of the user authenticates anyone |
| Persistence.AliasIdsOf | src/Controller/AuditLogController.php:101-107 | exactly the ids of the aliases whose domain is the given one |
| Persistence.MailboxIdsOf | src/Controller/AuditLogController.php:109-115 | exactly the ids of the mailboxes whose domain is the given one |
| Persistence.UserIdsOf | src/Controller/AuditLogController.php:117-124 | exactly the ids of the users assigned to the given domain |
| UserDomainController.OnlyAdministratorsManageMembership | src/Controller/UserDomainController.php:24-26 | the gate never lets a request through unauthenticated, and binds only administrators |
| UserDomainController.MembershipSnapshot | src/Controller/UserDomainController.php:47-52 | the record snapshot has exactly the keys user_id, user_email, domain_id and domain_name, holding the pair's ids, the user's email and the domain's name |
| UserDomainController.WithMembership | src/Controller/UserDomainController.php:36 | the user's domain set gains the domain; nothing else about that user or any other user changes |
| UserDomainController.WithoutMembership | src/Controller/UserDomainController.php:76 | the user's domain set loses the domain; nothing else changes |
| UserDomainController.MembershipRoundTrips | src/Controller/UserDomainController.php:32-76 | assigning a new membership and withdrawing it restores the users, and so does withdrawing an existing one and assigning it again |
| UserDomainController.MembershipDecidesAccess | src/Controller/UserDomainController.php:36-76 | after an assignment the user can access the domain; after a withdrawal a regular user cannot |
| UserDomainController.Assign | src/Controller/UserDomainController.php:26-62 | 409 and no change for an existing membership; otherwise the membership is added and one "user_domain.assigned" record with the pair's snapshot is appended |
| UserDomainController.Unassign | src/Controller/UserDomainController.php:66-99 | 404 and no change without the membership; otherwise it is removed and one "user_domain.unassigned" record keeps the former pair |
| CreateDomainDTO.LastIndex | src/DTO/CreateDomainDTO.php:12 | the index of the last occurrence of the character, or -1; nothing after it is that character |
| CreateDomainDTO.RunLength | src/DTO/CreateDomainDTO.php:12 | the length of the leading `[a-z0-9]` run (case-insensitive) |
| CreateDomainDTO.LabelsIff | src/DTO/CreateDomainDTO.php:12 | `[a-z0-9]+([\-\.]{1}[a-z0-9]+)*` matches exactly the strings of alphanumerics and separators whose separators never lead, never trail and are never adjacent |
| CreateDomainDTO.PatternIffShape | src/DTO/CreateDomainDTO.php:12 | the pattern body matches exactly the strings whose part before the last dot is label-shaped and whose part after it is at least two letters |
| CreateDomainDTO.BodyEndsInLetter | src/DTO/CreateDomainDTO.php:12 | a string matching the pattern body ends in a letter, so a numeric final label never matches |
| CreateDomainDTO.PatternEndsInLetter | src/DTO/CreateDomainDTO.php:12 | a string matching the whole pattern ends in a letter, or in a letter followed by the one newline `$` lets through |
| CreateDomainDTO.AcceptedIffFitting | src/DTO/CreateDomainDTO.php:9-15 | the name the create handler accepts is exactly a name the constraints as written accept that also fits the 100-character column and does not end in a newline |
| CreateDomainDTO.LongNameAcceptedButTooWide | src/DTO/CreateDomainDTO.php:10 | a 101-character name passes the constraints as written but does not fit the column |
| CreateDomainDTO.TrailingNewlineAccepted | src/DTO/CreateDomainDTO.php:12 | "example.com\n" passes the constraints as written |
| DomainController.OnlyAdministratorsChangeDomains | src/Controller/DomainController.php:50-52 | under RequireRole(ADMINISTRATOR) no request reaches create, update or delete without a bound principal, and a bound principal is an administrator |
| DomainController.DomainSnapshot | src/Controller/DomainController.php:83 | the snapshot has exactly the keys `name` and `active`, holding the domain's name and flag |
| DomainController.AddingDomainKeepsStoreValid | src/Controller/DomainController.php:61-74 | a domain under the next id with a name no domain has keeps names unique and every other table's references valid |
| DomainController.Create | src/Controller/DomainController.php:50-91 | 400 for a name the corrected constraint rejects (see Findings), 409 for a name already taken, otherwise an active domain under the next id and one `domain.created` record; the store is unchanged on both errors |
| DomainController.WithActive | src/Controller/DomainController.php:110-119 | `active` is applied only when supplied; the id and name never change |
| DomainController.DomainUpdateEntries | src/Controller/DomainController.php:107-148 | one `domain.updated` record with both snapshots, plus `domain.activated`/`domain.deactivated` with the same snapshots exactly when the flag really flips |
| DomainController.UpdateWithoutActiveLogsOnce | src/Controller/DomainController.php:107-135 | an update without `active` still logs exactly one record, with equal old and new snapshots |
| DomainController.Update | src/Controller/DomainController.php:93-154 | the domain becomes WithActive of itself and the ledger grows by exactly DomainUpdateEntries |
| DomainController.LogEach | src/Controller/DomainController.php:137-148 | one record per event type, in the given order, each with the same entity, actor and snapshots |
| DomainController.DropMemberships | src/Controller/DomainController.php:156-183 | every user keeps all fields and loses only the deleted domain from its memberships |
| DomainController.CascadeKeepsStoreValid | src/Controller/DomainController.php:156-183 | removing the domain with its aliases, mailboxes, their tokens and autoresponders and every membership leaves all integrity rules intact |
| DomainController.Delete | src/Controller/DomainController.php:156-183 | the domain and everything that refers to it goes; one `domain.deleted` record keeps the former snapshot and the id |
| DomainController.CascadeLeavesNoReference | src/Controller/DomainController.php:156-183 | after the cascade no mailbox or alias refers to the domain and no token of its mailboxes survives |
| DomainController.GetManagers | src/Controller/DomainController.php:185-218 | 403 unless the caller may access the domain; otherwise exactly the users assigned to it |
| DomainController.ManagersAreAssignedUsers | src/Controller/DomainController.php:185-218 | every listed manager may access the domain, and a regular user is listed exactly when it may access it |
| MailboxController.Nullable | src/Controller/MailboxController.php:105 | a missing footer is JSON null, a present one its string |
| MailboxController.List | src/Controller/MailboxController.php:36-61 | 403 unless the caller may access the domain; otherwise exactly the ids of that domain's mailboxes |
| MailboxController.NewMailbox | src/Controller/MailboxController.php:82-90 | a new mailbox is active, in the path domain, stores a hash the password verifies against, and has the footer only when supplied |
| MailboxController.Create | src/Controller/MailboxController.php:62-115 | 403 first, then 400 unless the name has 1..255 characters and the password at least 8; otherwise the new mailbox under the next id and one `mailbox.created` record |
| MailboxController.Patched | src/Controller/MailboxController.php:142-160 | each supplied field is applied and the others kept; a supplied password verifies against the new hash; id, domain and name never change |
| MailboxController.MailboxUpdateEntries | src/Controller/MailboxController.php:163-194 | no record when nothing was supplied; otherwise `mailbox.updated`, plus an activation record exactly when the flag flips |
| MailboxController.PasswordOnlyUpdateLooksUnchanged | src/Controller/MailboxController.php:137-179 | a password-only update logs one `mailbox.updated` record whose old and new snapshots are equal |
| MailboxController.Update | src/Controller/MailboxController.php:116-201 | 403, then 400 for a password under 8 characters; otherwise the mailbox becomes Patched and the ledger grows by exactly MailboxUpdateEntries |
| MailboxController.ApplyFields | src/Controller/MailboxController.php:144-159 | each supplied field is set (the password hashed) and the result is Patched; the change flag holds exactly when some field was supplied |
| MailboxController.ChangePassword | src/Controller/MailboxController.php:202-243 | 403, then 400 for a null or empty password; otherwise only the hash changes and one `mailbox.password_changed_by_admin` record names the mailbox and domain |
| MailboxController.ChangedPasswordVerifies | src/Controller/MailboxController.php:225 | after the change the new password verifies and a different former one does not |
| MailboxController.Delete | src/Controller/MailboxController.php:244-281 | 403, otherwise the mailbox goes with its tokens and autoresponder and one `mailbox.deleted` record keeps its former state |
| MailboxController.DeletedMailboxTokensDead | src/Controller/MailboxController.php:244-281 | no former token of a deleted mailbox authenticates any more |
| MailboxController.LogoutAll | src/Controller/MailboxController.php:282-322 | 403, otherwise every token of the mailbox goes and one record counts how many |
| AliasController.List | src/Controller/AliasController.php:31-56 | 403 unless the caller may access the domain; otherwise exactly the ids of that domain's aliases |
| AliasController.NewAlias | src/Controller/AliasController.php:77-81 | a new alias has the path domain, the name and target, and is active unless `active` was supplied false |
| AliasController.Create | src/Controller/AliasController.php:57-106 | 403, then 400 unless the name has 1..255 characters and the target is a non-blank email; otherwise the alias under the next id and one `alias.created` record |
| AliasController.Patched | src/Controller/AliasController.php:134-145 | only the target and the flag change, each only when supplied |
| AliasController.AliasUpdateEntries | src/Controller/AliasController.php:149-180 | no record when nothing was supplied; otherwise `alias.updated`, plus an activation record with `{active}` snapshots exactly when the flag flips |
| AliasController.SameFlagLogsOnlyUpdate | src/Controller/AliasController.php:128-180 | supplying the flag the alias already has logs one record with equal snapshots and no activation event |
| AliasController.Update | src/Controller/AliasController.php:107-187 | 403, then 400 for a target outside 1..255 characters; otherwise the alias becomes Patched and the ledger grows by exactly AliasUpdateEntries |
| AliasController.Delete | src/Controller/AliasController.php:188-225 | 403, otherwise the alias goes and one `alias.deleted` record keeps its former state |
| UserController.OnlyAdministratorsManageUsers | src/Controller/UserController.php:58-60 | under RequireRole(ADMINISTRATOR) only a bound administrator reaches a handler |
| UserController.RoleFrom | src/Controller/UserController.php:77 | defined exactly on "administrator" and "user", and gives the role with that stored value |
| UserController.RoleRoundTrip | src/Controller/UserController.php:162 | reading back the stored value of a role gives the role |
| UserController.OwnEmailIsFree | src/Controller/UserController.php:138-145 | with unique emails a user's own address is never held by another user |
| UserController.SnapshotsHidePassword | src/Controller/UserController.php:97-103 | neither snapshot depends on the password hash or the memberships |
| UserController.Create | src/Controller/UserController.php:58-112 | 400 for a rejected DTO, 409 for an email in use, otherwise an active user with the hashed password under the next id and one `user.created` record |
| UserController.Patched | src/Controller/UserController.php:138-169 | each supplied field replaces the stored one; id, password and memberships never change |
| UserController.UserUpdateEntries | src/Controller/UserController.php:175-208 | no record when nothing was supplied; otherwise `user.updated` with both snapshots, plus an activation record with `{active}` exactly when the flag flips |
| UserController.Update | src/Controller/UserController.php:113-215 | 400, then 409 when another user holds the email; otherwise the user becomes Patched and the ledger grows by exactly UserUpdateEntries |
| UserController.ApplyFields | src/Controller/UserController.php:136-169 | each supplied field is set and the result is Patched, keeping id and domains and taking the supplied email if any; the change flag holds exactly when some field was supplied |
| UserController.ChangePassword | src/Controller/UserController.php:216-245 | 400 for a missing, empty or "0" password; otherwise only the hash changes and one `user.password_changed_by_admin` record |
| UserController.LogoutAll | src/Controller/UserController.php:246-263 | every token of the user goes, the count is the number it held, and nothing is logged |
| MailboxProfileController.DateValue | src/Controller/MailboxProfileController.php:128-129 | a missing date is JSON null |
| MailboxProfileController.FooterSnapshotRoundTrip | src/Controller/MailboxProfileController.php:61-69 | the footer snapshot gives back the footer it was taken of |
| MailboxProfileController.GetFooter | src/Controller/MailboxProfileController.php:28-43 | 403 for a user; a mailbox gets its stored footer |
| MailboxProfileController.UpdateFooter | src/Controller/MailboxProfileController.php:44-77 | 403 for a user; otherwise the footer becomes the supplied text or null, and one record holds old and new footer |
| MailboxProfileController.GetAutoresponder | src/Controller/MailboxProfileController.php:78-101 | 403 for a user, 200 "No autoresponder configured" when there is none, otherwise the mailbox's own autoresponder |
| MailboxProfileController.Fresh | src/Controller/MailboxProfileController.php:133-137 | a new autoresponder belongs to the mailbox, is inactive and has no dates |
| MailboxProfileController.Upserted | src/Controller/MailboxProfileController.php:119-162 | subject and body replaced; `active` and each date replaced only when supplied, otherwise kept from the existing row (or the fresh defaults) |
| MailboxProfileController.UpsertIdempotent | src/Controller/MailboxProfileController.php:139-162 | sending the same request twice gives the same row as sending it once |
| MailboxProfileController.UpsertWithoutDatesKeepsSchedule | src/Controller/MailboxProfileController.php:146-162 | an update without dates keeps the dates the row had |
| MailboxProfileController.UpdateAutoresponder | src/Controller/MailboxProfileController.php:102-192 | 403, then 400 for the DTO, then 400 for an unparseable start, then end date; otherwise the row becomes Upserted and one `autoresponder.created` or `autoresponder.updated` record |
| MailboxProfileController.SetFields | src/Controller/MailboxProfileController.php:133-161 | an unparseable start date fails with its 400 before the end date is looked at; otherwise the autoresponder becomes Upserted, still keyed by its mailbox |
| MailboxProfileController.DeleteAutoresponder | src/Controller/MailboxProfileController.php:193-234 | 403, then 404 when there is none; otherwise the row goes and one `autoresponder.deleted` record keeps it |
| ProfileController.GetProfile | src/Controller/ProfileController.php:26-38 | a mailbox principal is shown as its mailbox, anything else as its user |
| ProfileController.WithPassword | src/Controller/ProfileController.php:65 | the same principal with a hash the new password verifies against, nothing else changed |
| ProfileController.ChangeBackRestores | src/Controller/ProfileController.php:39-96 | changing the password and back with the old one restores the principal exactly |
| ProfileController.PasswordChangedEntry | src/Controller/ProfileController.php:68-90 | the record is `user.password_changed` or `mailbox.password_changed` about the principal itself, with no snapshots |
| ProfileController.ChangePassword | src/Controller/ProfileController.php:39-96 | 400 when the current, then the new password is empty or "0", 401 when the current one does not verify; otherwise only the principal's hash changes and one record |
| ProfileController.GetMyDomains | src/Controller/ProfileController.php:97-119 | 403 for a mailbox; a user gets exactly its assigned domains and their number |
| Entity.RemoveFirst | src/Entity/Domain.php:113-119 | `removeElement` drops one occurrence: an absent element leaves the list unchanged, otherwise the length drops by one and the multiset loses exactly that element |
| Entity.AddThenRemove | src/Entity/Domain.php:104-119 | adding an absent element and removing it gives the collection back |
| Entity.DomainEntity.constructor | src/Entity/Domain.php:44-51 | a new domain is active, not a backup, with no users, aliases or mailboxes |
| Entity.DomainEntity.SetActive | src/Entity/Domain.php:80-84 | the flag takes the value, nothing else changes |
| Entity.DomainEntity.AddUser | src/Entity/Domain.php:104-111 | idempotent; a new user is appended and gets this domain on its side |
| Entity.DomainEntity.RemoveUser | src/Entity/Domain.php:113-119 | the user leaves the collection; its side is told only when it was present |
| Entity.DomainEntity.AddAlias | src/Entity/Domain.php:129-136 | idempotent; a new alias is appended and pointed at this domain |
| Entity.DomainEntity.RemoveAlias | src/Entity/Domain.php:138-146 | the alias leaves the collection; the call fails exactly when the alias was present and pointed here |
| Entity.DomainEntity.AddMailbox | src/Entity/Domain.php:156-163 | idempotent; a new mailbox is appended and pointed at this domain |
| Entity.DomainEntity.RemoveMailbox | src/Entity/Domain.php:165-173 | the mailbox leaves the collection; the call fails exactly when the mailbox was present and pointed here |
| Entity.MailboxEntity.constructor | src/Entity/Mailbox.php:48-53 | a new mailbox is active with no footer, autoresponder or tokens |
| Entity.MailboxEntity.SetDomain | src/Entity/Mailbox.php:71-75 | the domain takes the value |
| Entity.MailboxEntity.SetName | src/Entity/Mailbox.php:82-86 | the name takes the value |
| Entity.MailboxEntity.SetPassword | src/Entity/Mailbox.php:93-97 | the stored hash takes the value |
| Entity.MailboxEntity.SetActive | src/Entity/Mailbox.php:104-108 | the flag takes the value |
| Entity.MailboxEntity.SetFooterText | src/Entity/Mailbox.php:115-119 | the footer takes the value, null included |
| Entity.MailboxEntity.SetAutoresponder | src/Entity/Mailbox.php:163-167 | whether an autoresponder is attached |
| Entity.MailboxEntity.AddToken | src/Entity/Mailbox.php:139-146 | idempotent; a new token is appended and pointed at this mailbox |
| Entity.MailboxEntity.RemoveToken | src/Entity/Mailbox.php:148-156 | the token leaves the collection; the call fails exactly when it was present and pointed here |
| Entity.MailboxEntity.Email | src/Entity/Mailbox.php:169-172 | the name, then `@`, then the domain's name |
| Entity.EmailSplitsBack | src/Entity/Mailbox.php:169-172 | for a name without `@`, splitting the address at its first `@` gives back the name and the domain name |
| CorsListener.Split | src/EventListener/CorsListener.php:24 | at least one piece, no piece contains the separator, every character comes from the input |
| CorsListener.JoinSplit | src/EventListener/CorsListener.php:24 | joining the pieces with the separator gives the input back |
| CorsListener.SplitJoin | src/EventListener/CorsListener.php:24 | splitting pieces free of the separator, once joined, gives the pieces back |
| CorsListener.Trim | src/EventListener/CorsListener.php:24 | the result neither starts nor ends with whitespace, uses only input characters, and is empty exactly when the input is all whitespace |
| CorsListener.TrimIdempotent | src/EventListener/CorsListener.php:24 | trimming twice is trimming once |
| CorsListener.DropFalsy | src/EventListener/CorsListener.php:23-25 | keeps exactly the elements that are neither "" nor "0", and is the identity when none is |
| CorsListener.ParseOrigins | src/EventListener/CorsListener.php:18-34 | a falsy setting gives the four local origins; otherwise an origin is listed exactly when it is the truthy trim of some comma-separated piece; "" and "0" are never listed |
| CorsListener.ListRoundTrip | src/EventListener/CorsListener.php:22-25 | a comma-joined list of clean, truthy origins parses back to exactly that list |
| CorsListener.BlankConfigAllowsNothing | src/EventListener/CorsListener.php:22-25 | a truthy setting of only commas and whitespace allows no origin and does not fall back to the defaults |
| CorsListener.WithCorsHeaders | src/EventListener/CorsListener.php:63-75 | the Origin is echoed exactly when it is present and allowed, otherwise Allow-Origin is left as it was; the four fixed headers are always set; every other header is kept |
| CorsListener.CorsHeadersIdempotent | src/EventListener/CorsListener.php:63-75 | adding the headers twice is adding them once |
| CorsListener.PreflightHeaders | src/EventListener/CorsListener.php:44-47 | a preflight response holds exactly the four fixed headers, plus Allow-Origin when the Origin is allowed |
| CorsListener.FalsyOriginTestRedundant | src/EventListener/CorsListener.php:67 | on a parsed list the truthiness test adds nothing: the Origin is echoed exactly when present and listed |
| CorsListener.Listener.constructor | src/EventListener/CorsListener.php:18-34 | the allow-list is ParseOrigins of the setting |
| CorsListener.Listener.AddCorsHeaders | src/EventListener/CorsListener.php:63-75 | the response's headers become WithCorsHeaders of the old ones |
| CorsListener.Listener.OnKernelRequest | src/EventListener/CorsListener.php:36-49 | no response unless a main OPTIONS request; then a fresh 200 with an empty body and the preflight headers |
| CorsListener.Listener.OnKernelResponse | src/EventListener/CorsListener.php:51-61 | a sub-request's response is untouched; a main one gets the CORS headers |

## Left out

- JSON decoding of request bodies: the model does not cover a body that is not a JSON object, or a field of the wrong JSON type. A `Type('bool')` violation and the TypeError a non-string field causes are not modelled; every field is a well-typed optional value.
- The Symfony `Email` constraint: its verdict is a boolean parameter (`emailIsValid`, `toIsEmail`), because its algorithm is library code that is not part of this model.
- Password hashing: bcrypt is modelled as an injective `Hash` with `Verify(p, Hash(q))` exactly when `p == q`. Its 72-byte truncation and its salts are not modelled.
- Token generation: the generator's output (36 random hex characters) is a parameter, because it is randomness. A value that collides with an existing token is answered as the failed flush it would cause.
- Autoresponder date parsing: `DateTimeImmutable` parsing is an oracle that gives a parsed instant, no value, or a parse failure. Dates appear in snapshots as abstract instants, not as formatted `Y-m-d H:i:s` text.
- Time: each request carries one `now`; the code reads the clock again for each record. Entity `createdAt`/`updatedAt` lifecycle callbacks are not modelled.
- Entity lookup from the path (`MapEntity`): its 404 is outside the handlers, so an existing row is a precondition of each handler. Mailbox and alias lookups include the path's domain.
- Doctrine semantics: flush order, transactions and unit-of-work identity are not modelled. Each handler's effect is one atomic change of the store, and the ON DELETE CASCADE rules are applied explicitly by the delete handlers.
- Concurrent requests: races on the token tables or unique names are out of scope.
- The database's `utf8mb4_unicode_ci` collation ignores letter case and trailing spaces. The model compares by exact equality instead, and this applies to every lookup the core does by a string column: user emails, domain names, mailbox names and token strings.
- AuthService.UserFromToken: the token is looked up by exact map membership. `findOneBy(['token' => ...])` under the collation would also accept the token with its letters in another case or with trailing spaces.
- AuthService.MailboxFromToken: the token is looked up by exact map membership, while the source's lookup also accepts the token in another letter case or with trailing spaces.
- AuthService.UnknownTokenResolvesToNothing: "unknown" means absent under exact comparison; a token differing from a stored one only in letter case or trailing spaces is unknown here, while the source's collated lookup finds its owner.
- AuthController.FindDomainByName: domain names are compared exactly; under the collation, "Example.com" finds the stored domain "example.com".
- AuthController.LoginUser: the email is looked up exactly; under the collation, "Admin@example.com" with the right password logs into the user "admin@example.com", where the model answers 401.
- DomainController.Create: the taken-name check is exact; with "example.com" stored, the source answers "Example.com" with 409, while the model creates it.
- UserController.Create: the email-in-use check is exact; with "a@example.com" stored, the source answers "A@example.com" with 409, while the model creates the user.
- UserController.Update: the held-by-another-user check is exact; the source answers a case variant of another user's email with 409, while the model applies it.
- AuthController.LoginMailbox: the mailbox name is compared exactly within its domain. Under the collation, "Info@example.com" with the right password logs into mailbox "info"; in the model it is answered 401 "mailbox not found".
- AuthController.Logout: the user-token and mailbox-token lookups are exact, so a token that differs only in letter case or trailing spaces is not found here, while the source would find and delete that row.
- AuditLogController.SortByCreatedDesc: records with equal `created_at` keep their ledger order, one fixed order. The database guarantees no order among ties, and DATETIME keeps whole seconds, so ties are common: an update writes its `.updated` record and its activation record in the same second. With `setFirstResult`/`setMaxResults` on separate queries, a tied record that straddles a page boundary can appear on two pages or on none. The page contents that `Paginate`, `AdminLogs`, `DomainLogs` and `EveryRecordOnItsPage` state are those of this one order.
- Response bodies are reduced to a status and a message (`Response(status, message)`); the extra JSON fields of success responses (the created or updated entity, ids, counts) are not modelled beyond what the snapshots and ledger records state.
- Column widths other than `domains.name` are not modelled. The validators admit names longer than their columns: 255 characters for mailbox and alias names against VARCHAR(100), and 100 characters for user first and last names against VARCHAR(50).
- The read-only listing endpoints that only project rows to JSON are not modelled: the users, domains, mailboxes and aliases list/show endpoints and the JSON mapper. The mailbox and alias `list` handlers are modelled, as sets of ids.
- StatusController, the data fixtures and the RequireRole attribute class are not modelled. The attribute's role is a field of the policy datatype.
- User.php is not part of this model. In the entity model, its `addDomain`/`removeDomain` are an idempotent append and a first-occurrence removal on a sequence.
- Entity.DomainEntity.constructor: `new Domain()` leaves the name uninitialised until `setName`. The model's constructor takes the name, and Mailbox's uninitialised name and password are `""`.
- Entity.DomainEntity.RemoveAlias, Entity.DomainEntity.RemoveMailbox, Entity.MailboxEntity.RemoveToken: the TypeError raised by passing null to a non-nullable setter is reported as `ok == false` after the element has left the collection. Unwinding of the exception is not modelled.
- CorsListener.WithCorsHeaders: header names are compared exactly, while Symfony's header bag ignores their case.
- CorsListener.Allowed: PHP's loose `in_array` comparison is modelled as string equality. The two differ only for numeric strings, which are not valid origins.
- CorsListener.Listener.OnKernelRequest: the HTTP method is compared as given; Symfony upper-cases it first. The other default headers of a fresh `Response` (Cache-Control, Date) are not modelled.
- UpdateAliasDTO has no `Email` constraint on `to`, so an update can set any 1..255-character target. The model keeps that, and `AliasController.UpdateAccepted` checks only the length.
- AuditLogController.IntCast: PHP reads a numeral with a fraction or an exponent through `zend_strtod`, which rounds it to the nearest double before the cast truncates; the model truncates the exact decimal value instead. Where the numeral has more significant digits than a double holds, the two differ by up to half the spacing of doubles at that magnitude, plus one: "123456789012345671.5" casts to 123456789012345664 in PHP and to 123456789012345671 in the model (7 more), "123456789012345678.9" to ...680 in PHP and ...678 in the model, and "2.99999999999999999" to 3 in PHP and 2 in the model. Whole numerals without a point or exponent agree with PHP exactly: below 2^63 PHP reads them as integers, and beyond that both saturate, with the same threshold for infinity.
- AuditLogController.CastOfFraction: states exact truncation of digits, a point and more digits; under PHP's double rounding the integer part can change when the numeral has more than about 15 significant digits (see the IntCast line).
- AuditLogController.FractionTruncates: appending a fraction leaves the model's cast unchanged; in PHP a fraction can round the value up to the next double, as "2.99999999999999999" and "123456789012345678.9" show.
- AuditLogController.CastOfExponent: states the exact product of mantissa and power of ten; PHP reads such a numeral as a double, so a mantissa with more than about 15 significant digits is rounded first ("123456789012345671e0" casts to 123456789012345664 in PHP).
- AuditLogController.ExponentScales: the same double rounding of n * 10^k when n has more significant digits than a double holds.
- AuditLogController.EffectivePage: a page above (2^63 - 1) / 50 makes PHP's offset `($page - 1) * 50` overflow into a float, which `setFirstResult(?int)` rejects with a TypeError (a 500 response). The model computes the offset exactly and answers with an empty page.
- AuditLogController.UnknownDomainIsNotFoundBeforeForbidden: for a non-administrator, an unknown domain gives 404 before membership is checked, so an unknown domain is never answered 403. This follows the code, which checks existence first.

## Findings

| source | as written | input that shows it | evidently intended | confidence | as-written member | corrected member |
|---|---|---|---|---|---|---|
| src/DTO/CreateDomainDTO.php:10 | `Length(max: 255)` admits names up to 255 characters, but `domains.name` is VARCHAR(100) (src/Entity/Domain.php:20) | `"a" * 97 + ".com"` (101 characters) passes validation and then fails at the database | names longer than the column are rejected with a 400 | high, not executed | CreateDomainDTO.LongNameAcceptedButTooWide | CreateDomainDTO.AcceptedIffFitting |
| src/DTO/CreateDomainDTO.php:12 | the pattern ends in `$` without the `D` modifier, so PCRE also matches before one final newline | `"example.com\n"` passes validation and is stored with the newline | the pattern matches the whole name and nothing after it | high, not executed | CreateDomainDTO.TrailingNewlineAccepted | CreateDomainDTO.AcceptedIffFitting |

The create handler (`DomainController.Create`) uses the corrected predicate
`CreateDomainDTO.Accepted`. `CreateDomainDTO.AcceptedIffFitting` proves that
it accepts exactly the names the constraints as written accept, minus those
too wide for the column and those ending in a newline.
