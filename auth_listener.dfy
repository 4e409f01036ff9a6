/** The request-time gate (src/EventListener/AuthListener.php): resolves the
    route's policy from its RequireAuth / RequireRole attributes, then either
    lets the request through, binds the principal to `auth_user`, or replaces
    the controller by a 401/403 responder. */
module AuthListener {
  import opened Common
  import opened Model
  import opened AuthService
  import Persistence

  /** The attributes found on a class or a method; RequireRole is not
      repeatable, so there is at most one. */
  datatype Attributes = Attributes(requireAuth: bool, requireRole: Option<Role>)

  const NoAttributes := Attributes(false, None)

  /** What the kernel is about to call: a `[object, method]` pair carries
      attributes; a closure (including an error responder) carries none. */
  datatype Controller =
    | Closure
    | Action(classAttributes: Attributes, methodAttributes: Attributes)
    | ErrorResponder(response: Response)

  const MissingToken := Response(401, "Missing or invalid authorization token")
  const InvalidToken := Response(401, "Invalid or expired token")
  const Forbidden := Response(403, "Insufficient permissions")

  /** Each attribute is looked up on the method first, on the class only when
      the method has none of that kind. */
  function EffectivePolicy(c: Controller): (p: Attributes)
    requires c.Action?
    ensures p.requireAuth <==> c.methodAttributes.requireAuth || c.classAttributes.requireAuth
    ensures c.methodAttributes.requireRole.Some? ==> p.requireRole == c.methodAttributes.requireRole
    ensures c.methodAttributes.requireRole.None? ==> p.requireRole == c.classAttributes.requireRole
  {
    Attributes(
      if c.methodAttributes.requireAuth then true else c.classAttributes.requireAuth,
      if c.methodAttributes.requireRole.Some? then c.methodAttributes.requireRole else c.classAttributes.requireRole)
  }

  /** The route demands authentication: RequireAuth or RequireRole applies. */
  predicate Guarded(c: Controller) {
    c.Action? && (EffectivePolicy(c).requireAuth || EffectivePolicy(c).requireRole.Some?)
  }

  /** Every token in either table has an existing owner (foreign keys). */
  ghost predicate OwnersExist(userTokens: map<string, int>, users: map<int, User>,
                              mailboxTokens: map<string, int>, mailboxes: map<int, Mailbox>) {
    && (forall t | t in userTokens :: userTokens[t] in users)
    && (forall t | t in mailboxTokens :: mailboxTokens[t] in mailboxes)
  }

  datatype Decision = Proceed | Bind(principal: Principal) | Reject(response: Response)

  /** The gate's decision for one request, given its Authorization header. */
  function Decide(c: Controller, header: Option<string>,
                  userTokens: map<string, int>, users: map<int, User>,
                  mailboxTokens: map<string, int>, mailboxes: map<int, Mailbox>): (d: Decision)
    requires OwnersExist(userTokens, users, mailboxTokens, mailboxes)
    ensures !Guarded(c) <==> d == Proceed
    ensures d == Reject(MissingToken) <==> Guarded(c) && Falsy(ExtractTokenFromHeader(header))
    ensures d == Reject(InvalidToken) <==>
              Guarded(c) && !Falsy(ExtractTokenFromHeader(header))
              && AuthenticatedEntity(userTokens, users, mailboxTokens, mailboxes, ExtractTokenFromHeader(header).value).None?
    ensures d.Bind? ==>
              && Guarded(c) && !Falsy(ExtractTokenFromHeader(header))
              && Some(d.principal) == AuthenticatedEntity(userTokens, users, mailboxTokens, mailboxes, ExtractTokenFromHeader(header).value)
              && (EffectivePolicy(c).requireRole.Some? ==>
                    d.principal.UserPrincipal? && d.principal.user.role == EffectivePolicy(c).requireRole.value)
    ensures d == Reject(Forbidden) <==>
              Guarded(c) && !Falsy(ExtractTokenFromHeader(header))
              && (var e := AuthenticatedEntity(userTokens, users, mailboxTokens, mailboxes, ExtractTokenFromHeader(header).value);
                  e.Some? && EffectivePolicy(c).requireRole.Some?
                  && !(e.value.UserPrincipal? && e.value.user.role == EffectivePolicy(c).requireRole.value))
    ensures d.Reject? ==> d.response in {MissingToken, InvalidToken, Forbidden}
  {
    if !Guarded(c) then Proceed
    else
      var token := ExtractTokenFromHeader(header);
      if Falsy(token) then Reject(MissingToken)
      else
        match AuthenticatedEntity(userTokens, users, mailboxTokens, mailboxes, token.value)
        case None => Reject(InvalidToken)
        case Some(entity) =>
          var role := EffectivePolicy(c).requireRole;
          if role.Some? && !entity.UserPrincipal? then Reject(Forbidden)
          else if role.Some? && entity.user.role != role.value then Reject(Forbidden)
          else Bind(entity)
  }

  /** With RequireRole alone (no RequireAuth anywhere) authentication is still required. */
  lemma RoleAloneForcesAuthentication(c: Controller, header: Option<string>,
                                      userTokens: map<string, int>, users: map<int, User>,
                                      mailboxTokens: map<string, int>, mailboxes: map<int, Mailbox>)
    requires OwnersExist(userTokens, users, mailboxTokens, mailboxes)
    requires c.Action? && !c.methodAttributes.requireAuth && !c.classAttributes.requireAuth
    requires c.methodAttributes.requireRole.Some? || c.classAttributes.requireRole.Some?
    ensures Decide(c, header, userTokens, users, mailboxTokens, mailboxes) != Proceed
  {
  }

  /** An open route ignores the Authorization header entirely. */
  lemma OpenRouteIgnoresHeader(c: Controller, h1: Option<string>, h2: Option<string>,
                               userTokens: map<string, int>, users: map<int, User>,
                               mailboxTokens: map<string, int>, mailboxes: map<int, Mailbox>)
    requires OwnersExist(userTokens, users, mailboxTokens, mailboxes)
    requires !Guarded(c)
    ensures Decide(c, h1, userTokens, users, mailboxTokens, mailboxes)
         == Decide(c, h2, userTokens, users, mailboxTokens, mailboxes)
  {
  }

  /** `"Bearer "` and `"Bearer 0"` extract a falsy token, so a guarded route
      answers "Missing or invalid authorization token", not "Invalid or expired token". */
  lemma EmptyAndZeroTokensAreMissing(c: Controller, userTokens: map<string, int>, users: map<int, User>,
                                     mailboxTokens: map<string, int>, mailboxes: map<int, Mailbox>)
    requires OwnersExist(userTokens, users, mailboxTokens, mailboxes)
    requires Guarded(c)
    ensures Decide(c, Some("Bearer "), userTokens, users, mailboxTokens, mailboxes) == Reject(MissingToken)
    ensures Decide(c, Some("Bearer 0"), userTokens, users, mailboxTokens, mailboxes) == Reject(MissingToken)
  {
    ExtractRoundTrip("");
    ExtractRoundTrip("0");
  }

  /** A role-restricted route never binds a mailbox, and binds only users
      holding exactly the role named by the attribute that applies. */
  lemma RoleRouteBindsOnlyThatRole(c: Controller, header: Option<string>, role: Role,
                                   userTokens: map<string, int>, users: map<int, User>,
                                   mailboxTokens: map<string, int>, mailboxes: map<int, Mailbox>)
    requires OwnersExist(userTokens, users, mailboxTokens, mailboxes)
    requires c.Action? && EffectivePolicy(c).requireRole == Some(role)
    ensures var d := Decide(c, header, userTokens, users, mailboxTokens, mailboxes);
            d.Bind? ==> d.principal.UserPrincipal? && d.principal.user.role == role
  {
  }

  /** The kernel.controller event: the controller about to run, the request's
      Authorization header and its `auth_user` attribute. */
  class ControllerEvent {
    var controller: Controller
    const authorization: Option<string>
    var authUser: Option<Principal>

    constructor (controller: Controller, authorization: Option<string>)
      ensures this.controller == controller && this.authorization == authorization && authUser.None?
    {
      this.controller := controller;
      this.authorization := authorization;
      authUser := None;
    }
  }

  /** `onKernelController`: applies `Decide`. Only on success is `auth_user`
      bound; every failure swaps in an error responder and binds nothing. */
  method OnKernelController(event: ControllerEvent, st: Persistence.Store)
    requires st.Valid()
    modifies event
    ensures var d := Decide(old(event.controller), event.authorization,
                            st.userTokens, st.users, st.mailboxTokens, st.mailboxes);
            match d
            case Proceed => event.controller == old(event.controller) && event.authUser == old(event.authUser)
            case Bind(p) => event.controller == old(event.controller) && event.authUser == Some(p)
            case Reject(r) => event.controller == ErrorResponder(r) && event.authUser == old(event.authUser)
  {
    var controller := event.controller;
    if !controller.Action? {
      return;
    }

    var requireAuth := controller.methodAttributes.requireAuth;
    if !requireAuth {
      requireAuth := controller.classAttributes.requireAuth;
    }
    var requireRole := controller.methodAttributes.requireRole;
    if requireRole.None? {
      requireRole := controller.classAttributes.requireRole;
    }
    if !requireAuth && requireRole.None? {
      return;
    }

    var token := ExtractTokenFromHeader(event.authorization);
    if Falsy(token) {
      event.controller := ErrorResponder(MissingToken);
      return;
    }

    var authEntity := AuthenticatedEntity(st.userTokens, st.users, st.mailboxTokens, st.mailboxes, token.value);
    if authEntity.None? {
      event.controller := ErrorResponder(InvalidToken);
      return;
    }

    if requireRole.Some? {
      if !authEntity.value.UserPrincipal? {
        event.controller := ErrorResponder(Forbidden);
        return;
      }
      if authEntity.value.user.role != requireRole.value {
        event.controller := ErrorResponder(Forbidden);
        return;
      }
    }

    event.authUser := authEntity;
  }
}
