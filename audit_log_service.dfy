/** The audit ledger writer (src/Service/AuditLogService.php). Every call
    appends exactly one record to `audit_logs` and touches nothing else. */
module AuditLogService {
  import opened Common
  import opened Model
  import Persistence

  /** `actor_type`: the kind of the principal, or "system" when there is none. */
  function ActorType(actor: Option<Principal>): (t: string)
    ensures actor.None? <==> t == "system"
    ensures actor.Some? && actor.value.UserPrincipal? <==> t == "user"
    ensures actor.Some? && actor.value.MailboxPrincipal? <==> t == "mailbox"
  {
    match actor
    case None => "system"
    case Some(UserPrincipal(_)) => "user"
    case Some(MailboxPrincipal(_)) => "mailbox"
  }

  /** `actor_id`: the principal's id, or null for the system. */
  function ActorId(actor: Option<Principal>): (id: Option<int>)
    ensures id.None? <==> actor.None?
    ensures actor.Some? ==> id == Some(actor.value.Id())
  {
    match actor
    case None => None
    case Some(p) => Some(p.Id())
  }

  /** The two actor columns identify the actor's kind and id: records from
      different kinds of actor, or from actors with different ids, never
      share them. */
  lemma ActorColumnsIdentifyActor(a1: Option<Principal>, a2: Option<Principal>)
    requires ActorType(a1) == ActorType(a2) && ActorId(a1) == ActorId(a2)
    ensures a1.None? <==> a2.None?
    ensures a1.Some? ==> a1.value.UserPrincipal? == a2.value.UserPrincipal? && a1.value.Id() == a2.value.Id()
  {
  }

  /** The record `log` builds from its arguments at time `now`. */
  function Entry(eventType: string, entityType: string, entityId: Option<int>, actor: Option<Principal>,
                 now: Timestamp, request: Option<Request>, oldValue: Option<Snapshot>,
                 newValue: Option<Snapshot>, status: string): (r: AuditLog)
    ensures r.eventType == eventType && r.entityType == entityType && r.entityId == entityId
    ensures r.status == status && r.createdAt == now
    ensures r.actorType == ActorType(actor) && r.actorId == ActorId(actor)
    ensures request.None? ==> r.ipAddress.None? && r.userAgent.None?
    ensures request.Some? ==> r.ipAddress == request.value.clientIp && r.userAgent == request.value.userAgent
    ensures r.oldValue == oldValue && r.newValue == newValue
  {
    AuditLog(ActorType(actor), ActorId(actor), eventType, entityType, entityId, oldValue, newValue,
             if request.Some? then request.value.clientIp else None,
             if request.Some? then request.value.userAgent else None,
             status, now)
  }

  /** `log`: builds the record field by field and appends it; status
      defaults to "success", the request and both snapshots to null. */
  method Log(st: Persistence.Store, eventType: string, entityType: string, entityId: Option<int>,
             actor: Option<Principal>, now: Timestamp, request: Option<Request> := None,
             oldValue: Option<Snapshot> := None, newValue: Option<Snapshot> := None,
             status: string := "success")
    modifies st`auditLogs
    ensures st.auditLogs == old(st.auditLogs) + [Entry(eventType, entityType, entityId, actor, now, request, oldValue, newValue, status)]
    ensures old(st.Valid()) ==> st.Valid()
  {
    var actorType: string;
    var actorId: Option<int>;
    if actor.Some? && actor.value.UserPrincipal? {
      actorType, actorId := "user", Some(actor.value.user.id);
    } else if actor.Some? && actor.value.MailboxPrincipal? {
      actorType, actorId := "mailbox", Some(actor.value.mailbox.id);
    } else {
      actorType, actorId := "system", None;
    }

    var ipAddress: Option<string> := None;
    var userAgent: Option<string> := None;
    if request.Some? {
      ipAddress := request.value.clientIp;
      userAgent := request.value.userAgent;
    }

    var log := AuditLog(actorType, actorId, eventType, entityType, entityId, None, None,
                        ipAddress, userAgent, status, now);
    if oldValue.Some? {
      log := log.(oldValue := oldValue);
    }
    if newValue.Some? {
      log := log.(newValue := newValue);
    }

    st.auditLogs := st.auditLogs + [log];
  }

  /** The event type of a login attempt. */
  function LoginEventType(actorType: string, success: bool): string {
    actorType + ".login." + (if success then "success" else "failed")
  }

  /** Login event types never collide: the actor type and the outcome can be
      read back from the event type. */
  lemma LoginEventTypeInjective(a1: string, s1: bool, a2: string, s2: bool)
    requires LoginEventType(a1, s1) == LoginEventType(a2, s2)
    ensures a1 == a2 && s1 == s2
  {
    var e := LoginEventType(a1, s1);
    assert e[|e| - 1] == (if s1 then 's' else 'd');
    assert e[|e| - 1] == (if s2 then 's' else 'd');
    var suffix := ".login." + (if s1 then "success" else "failed");
    assert e == a1 + suffix && e == a2 + suffix;
    assert a1 == e[..|e| - |suffix|] == a2;
  }

  /** The record `logLogin` builds: the actor is also the entity, the status
      follows the flag, and the only snapshot is the submitted identifier. */
  function LoginEntry(email: string, success: bool, actorType: string, actorId: Option<int>,
                      now: Timestamp, request: Option<Request>): (r: AuditLog)
    ensures r.eventType == LoginEventType(actorType, success)
    ensures r.entityType == actorType && r.actorType == actorType
    ensures r.entityId == actorId && r.actorId == actorId
    ensures r.status == (if success then "success" else "failure")
    ensures r.oldValue.None? && r.newValue == Some(map["email" := Str(email)])
    ensures request.None? ==> r.ipAddress.None? && r.userAgent.None?
    ensures request.Some? ==> r.ipAddress == request.value.clientIp && r.userAgent == request.value.userAgent
    ensures r.createdAt == now
  {
    AuditLog(actorType, actorId, LoginEventType(actorType, success), actorType, actorId,
             None, Some(map["email" := Str(email)]),
             if request.Some? then request.value.clientIp else None,
             if request.Some? then request.value.userAgent else None,
             if success then "success" else "failure", now)
  }

  /** A login record for a known principal is the record `log` would write
      for that principal acting on itself. */
  lemma LoginEntryIsSelfEntry(email: string, success: bool, p: Principal, now: Timestamp, request: Option<Request>)
    ensures LoginEntry(email, success, ActorType(Some(p)), Some(p.Id()), now, request)
         == Entry(LoginEventType(ActorType(Some(p)), success), ActorType(Some(p)), Some(p.Id()), Some(p),
                  now, request, None, Some(map["email" := Str(email)]), if success then "success" else "failure")
  {
  }

  /** `logLogin`: appends the login record. */
  method LogLogin(st: Persistence.Store, email: string, success: bool, actorType: string, actorId: Option<int>,
                  now: Timestamp, request: Option<Request>)
    modifies st`auditLogs
    ensures st.auditLogs == old(st.auditLogs) + [LoginEntry(email, success, actorType, actorId, now, request)]
    ensures old(st.Valid()) ==> st.Valid()
  {
    var log := AuditLog(actorType, actorId, LoginEventType(actorType, success), actorType, actorId,
                        None, Some(map["email" := Str(email)]), None, None,
                        if success then "success" else "failure", now);
    if request.Some? {
      log := log.(ipAddress := request.value.clientIp, userAgent := request.value.userAgent);
    }
    st.auditLogs := st.auditLogs + [log];
  }

  /** The extra event of an update that flips `active`: "<type>.activated"
      from false to true, "<type>.deactivated" from true to false, and none
      when the flag keeps its value. */
  function ActivationEvent(entityType: string, wasActive: bool, isActive: bool): (e: Option<string>)
    ensures e.Some? <==> wasActive != isActive
    ensures e.Some? && isActive ==> e.value == entityType + ".activated"
    ensures e.Some? && !isActive ==> e.value == entityType + ".deactivated"
  {
    if !wasActive && isActive then Some(entityType + ".activated")
    else if wasActive && !isActive then Some(entityType + ".deactivated")
    else None
  }

  /** The records an update appends: always "<type>.updated" with the full
      snapshots, then the activation event, when there is one, with the
      snapshots `flipOld` and `flipNew`. */
  function UpdateEntries(entityType: string, entityId: int, actor: Principal, now: Timestamp, request: Request,
                         oldValue: Snapshot, newValue: Snapshot, wasActive: bool, isActive: bool,
                         flipOld: Snapshot, flipNew: Snapshot): (rs: seq<AuditLog>)
    ensures 1 <= |rs| <= 2
    ensures |rs| == 2 <==> wasActive != isActive
    ensures rs[0] == Entry(entityType + ".updated", entityType, Some(entityId), Some(actor), now, Some(request),
                           Some(oldValue), Some(newValue), "success")
    ensures |rs| == 2 ==> rs[1] == Entry(ActivationEvent(entityType, wasActive, isActive).value, entityType, Some(entityId),
                                         Some(actor), now, Some(request), Some(flipOld), Some(flipNew), "success")
  {
    var updated := Entry(entityType + ".updated", entityType, Some(entityId), Some(actor), now, Some(request),
                         Some(oldValue), Some(newValue), "success");
    match ActivationEvent(entityType, wasActive, isActive)
    case None => [updated]
    case Some(e) => [updated, Entry(e, entityType, Some(entityId), Some(actor), now, Some(request),
                                    Some(flipOld), Some(flipNew), "success")]
  }

  /** Activation event names never collide with the update event of the
      same entity type, and name the direction of the flip. */
  lemma ActivationEventDistinctFromUpdate(entityType: string, wasActive: bool, isActive: bool)
    requires wasActive != isActive
    ensures ActivationEvent(entityType, wasActive, isActive).value != entityType + ".updated"
  {
    var e := ActivationEvent(entityType, wasActive, isActive).value;
    var n := |entityType|;
    assert e[n + 1] == (if isActive then 'a' else 'd');
    assert (entityType + ".updated")[n + 1] == 'u';
  }

  /** The update record, then the activation record when `active` flipped. */
  method LogUpdate(st: Persistence.Store, entityType: string, entityId: int, actor: Principal, now: Timestamp,
                   request: Request, oldValue: Snapshot, newValue: Snapshot, wasActive: bool, isActive: bool,
                   flipOld: Snapshot, flipNew: Snapshot)
    modifies st`auditLogs
    ensures st.auditLogs == old(st.auditLogs) + UpdateEntries(entityType, entityId, actor, now, request, oldValue, newValue,
                                                              wasActive, isActive, flipOld, flipNew)
    ensures old(st.Valid()) ==> st.Valid()
  {
    Log(st, entityType + ".updated", entityType, Some(entityId), Some(actor), now, Some(request),
        Some(oldValue), Some(newValue), "success");
    if wasActive != isActive {
      var eventType := if isActive then entityType + ".activated" else entityType + ".deactivated";
      Log(st, eventType, entityType, Some(entityId), Some(actor), now, Some(request), Some(flipOld), Some(flipNew), "success");
    }
  }
}
