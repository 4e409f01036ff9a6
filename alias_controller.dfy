/** Forwarding aliases of a domain (src/Controller/AliasController.php).
    Every route carries RequireAuth; each handler first answers 403 unless
    the caller may access the domain in the path. An alias in the path must
    exist and belong to that domain. */
module AliasController {
  import opened Common
  import opened Model
  import opened AuditLogService
  import AccessControl
  import Persistence

  const Listed := Response(200, "")
  const Created := Response(201, "Alias created successfully")
  const Updated := Response(200, "Alias updated successfully")
  const Deleted := Response(200, "Alias deleted successfully")

  /** The constraints of CreateAliasDTO: a name of 1..255 characters and a
      non-blank target that the Email constraint accepts (`toIsEmail`, the
      validator's verdict). */
  predicate CreateAccepted(name: Option<string>, to: Option<string>, toIsEmail: bool) {
    && NotBlank(name) && |name.value| <= 255
    && NotBlank(to) && toIsEmail
  }

  /** The constraints of UpdateAliasDTO: a supplied target has 1..255 characters. */
  predicate UpdateAccepted(to: Option<string>) {
    to.None? || 1 <= |to.value| <= 255
  }

  /** The `{name, to, active}` snapshot of an update. */
  function StateSnapshot(a: Alias): Snapshot {
    map["name" := Str(a.name), "to" := Str(a.to), "active" := Bool(a.active)]
  }

  /** The `{name, to, active, domain_id}` snapshot of a created or deleted alias. */
  function FullSnapshot(a: Alias): Snapshot {
    map["name" := Str(a.name), "to" := Str(a.to), "active" := Bool(a.active), "domain_id" := Int(a.domainId)]
  }

  /** The `{active}` snapshot of an activation event. */
  function ActiveSnapshot(active: bool): Snapshot {
    map["active" := Bool(active)]
  }

  // ---------------------------------------------------------------------
  // list

  /** `list`: the ids of the domain's aliases. */
  method List(st: Persistence.Store, domainId: int, actor: Principal) returns (resp: Response, ids: set<int>)
    requires st.Valid() && domainId in st.domains
    ensures !AccessControl.CanAccessDomain(actor, st.domains[domainId]) ==> resp == AccessDenied && ids == {}
    ensures AccessControl.CanAccessDomain(actor, st.domains[domainId]) ==>
              resp == Listed && ids == Persistence.AliasIdsOf(st.aliases, domainId)
  {
    if !AccessControl.CanAccessDomain(actor, st.domains[domainId]) {
      return AccessDenied, {};
    }
    ids := set id | id in st.aliases && st.aliases[id].domainId == domainId;
    resp := Listed;
  }

  // ---------------------------------------------------------------------
  // create

  /** A new alias; `active` is true unless supplied. */
  function NewAlias(id: int, domainId: int, name: string, to: string, active: Option<bool>): (a: Alias)
    ensures a.id == id && a.domainId == domainId && a.name == name && a.to == to
    ensures a.active <==> active.None? || active.value
  {
    Alias(id, domainId, name, to, if active.Some? then active.value else true)
  }

  /** `create`. */
  method Create(st: Persistence.Store, domainId: int, name: Option<string>, to: Option<string>, toIsEmail: bool,
                active: Option<bool>, actor: Principal, now: Timestamp, req: Request) returns (resp: Response)
    requires st.Valid() && domainId in st.domains
    modifies st`aliases, st`nextAliasId, st`auditLogs
    ensures st.Valid()
    ensures if !AccessControl.CanAccessDomain(actor, st.domains[domainId]) || !CreateAccepted(name, to, toIsEmail) then
              && resp == (if !AccessControl.CanAccessDomain(actor, st.domains[domainId]) then AccessDenied else ValidationFailed)
              && st.aliases == old(st.aliases) && st.nextAliasId == old(st.nextAliasId)
              && st.auditLogs == old(st.auditLogs)
            else
              var a := NewAlias(old(st.nextAliasId), domainId, name.value, to.value, active);
              && resp == Created
              && st.aliases == old(st.aliases)[a.id := a]
              && st.nextAliasId == a.id + 1
              && st.auditLogs == old(st.auditLogs) + [Entry("alias.created", "alias", Some(a.id), Some(actor), now, Some(req),
                                                            None, Some(FullSnapshot(a)), "success")]
  {
    if !AccessControl.CanAccessDomain(actor, st.domains[domainId]) {
      return AccessDenied;
    }
    if !CreateAccepted(name, to, toIsEmail) {
      return ValidationFailed;
    }

    var alias := Alias(st.nextAliasId, domainId, name.value, to.value, if active.Some? then active.value else true);
    st.aliases := st.aliases[alias.id := alias];
    st.nextAliasId := st.nextAliasId + 1;

    Log(st, "alias.created", "alias", Some(alias.id), Some(actor), now, Some(req),
        newValue := Some(FullSnapshot(alias)), status := "success");
    resp := Created;
  }

  // ---------------------------------------------------------------------
  // update

  /** The alias after `update`: only the target and the flag can change. */
  function Patched(a: Alias, to: Option<string>, active: Option<bool>): (r: Alias)
    ensures r.id == a.id && r.domainId == a.domainId && r.name == a.name
    ensures r.to == (if to.Some? then to.value else a.to)
    ensures r.active == (if active.Some? then active.value else a.active)
  {
    a.(to := if to.Some? then to.value else a.to, active := if active.Some? then active.value else a.active)
  }

  /** The records of `update`: none when nothing was supplied, otherwise the
      update record and, on a flip, the activation record with `{active}`. */
  function AliasUpdateEntries(a: Alias, to: Option<string>, active: Option<bool>,
                              actor: Principal, now: Timestamp, req: Request): (rs: seq<AuditLog>)
    ensures to.None? && active.None? <==> rs == []
    ensures |rs| <= 2
    ensures |rs| == 2 <==> Patched(a, to, active).active != a.active
    ensures |rs| == 2 ==> rs[1].oldValue == Some(map["active" := Bool(a.active)])
                          && rs[1].newValue == Some(map["active" := Bool(!a.active)])
  {
    if to.None? && active.None? then []
    else
      var r := Patched(a, to, active);
      UpdateEntries("alias", a.id, actor, now, req, StateSnapshot(a), StateSnapshot(r), a.active, r.active,
                    ActiveSnapshot(a.active), ActiveSnapshot(r.active))
  }

  /** Supplying the flag it already has still writes the update record, but
      no activation record. */
  lemma SameFlagLogsOnlyUpdate(a: Alias, actor: Principal, now: Timestamp, req: Request)
    ensures var rs := AliasUpdateEntries(a, None, Some(a.active), actor, now, req);
            |rs| == 1 && rs[0].oldValue == rs[0].newValue
  {
  }

  /** `update`. */
  method Update(st: Persistence.Store, domainId: int, aliasId: int, to: Option<string>, active: Option<bool>,
                actor: Principal, now: Timestamp, req: Request) returns (resp: Response)
    requires st.Valid() && domainId in st.domains
    requires aliasId in st.aliases && st.aliases[aliasId].domainId == domainId
    modifies st`aliases, st`auditLogs
    ensures st.Valid()
    ensures if !AccessControl.CanAccessDomain(actor, st.domains[domainId]) || !UpdateAccepted(to) then
              && resp == (if !AccessControl.CanAccessDomain(actor, st.domains[domainId]) then AccessDenied else ValidationFailed)
              && st.aliases == old(st.aliases) && st.auditLogs == old(st.auditLogs)
            else
              var a := old(st.aliases)[aliasId];
              && resp == Updated
              && st.aliases == old(st.aliases)[aliasId := Patched(a, to, active)]
              && st.auditLogs == old(st.auditLogs) + AliasUpdateEntries(a, to, active, actor, now, req)
  {
    if !AccessControl.CanAccessDomain(actor, st.domains[domainId]) {
      return AccessDenied;
    }
    if !UpdateAccepted(to) {
      return ValidationFailed;
    }

    var alias := st.aliases[aliasId];
    var oldValues := StateSnapshot(alias);
    var hasChanges := false;
    var oldActiveState := alias.active;

    if to.Some? {
      alias := alias.(to := to.value);
      hasChanges := true;
    }
    if active.Some? {
      alias := alias.(active := active.value);
      hasChanges := true;
    }
    st.PutAlias(alias);
    assert alias == Patched(old(st.aliases)[aliasId], to, active);

    if hasChanges {
      LogUpdate(st, "alias", aliasId, actor, now, req, oldValues, StateSnapshot(alias),
                oldActiveState, alias.active, ActiveSnapshot(oldActiveState), ActiveSnapshot(alias.active));
    }
    resp := Updated;
  }

  // ---------------------------------------------------------------------
  // delete

  /** `delete`: the alias goes; one record keeps its former state and the id
      captured before the removal. */
  method Delete(st: Persistence.Store, domainId: int, aliasId: int, actor: Principal, now: Timestamp, req: Request)
    returns (resp: Response)
    requires st.Valid() && domainId in st.domains
    requires aliasId in st.aliases && st.aliases[aliasId].domainId == domainId
    modifies st`aliases, st`auditLogs
    ensures st.Valid()
    ensures if !AccessControl.CanAccessDomain(actor, st.domains[domainId]) then
              resp == AccessDenied && st.aliases == old(st.aliases) && st.auditLogs == old(st.auditLogs)
            else
              && resp == Deleted
              && st.aliases == old(st.aliases) - {aliasId}
              && st.auditLogs == old(st.auditLogs) + [Entry("alias.deleted", "alias", Some(aliasId), Some(actor), now, Some(req),
                                                            Some(FullSnapshot(old(st.aliases)[aliasId])), None, "success")]
  {
    if !AccessControl.CanAccessDomain(actor, st.domains[domainId]) {
      return AccessDenied;
    }

    var oldValues := FullSnapshot(st.aliases[aliasId]);
    st.aliases := st.aliases - {aliasId};

    Log(st, "alias.deleted", "alias", Some(aliasId), Some(actor), now, Some(req),
        oldValue := Some(oldValues), status := "success");
    resp := Deleted;
  }
}
