/** Self-service endpoints of a logged-in mailbox: its footer and its
    autoresponder (src/Controller/MailboxProfileController.php). Every route
    carries RequireAuth, so a principal is bound; each handler answers 403
    unless that principal is a mailbox. */
module MailboxProfileController {
  import opened Common
  import opened Model
  import opened AuditLogService
  import MailboxController
  import Persistence

  const NotAMailbox := Response(403, "This endpoint is only for mailboxes")
  const FooterShown := Response(200, "")
  const NoneConfigured := Response(200, "No autoresponder configured")
  const AutoresponderShown := Response(200, "")
  const InvalidStartDate := Response(400, "Invalid start_date format")
  const InvalidEndDate := Response(400, "Invalid end_date format")
  const AutoresponderUpdated := Response(200, "Autoresponder updated successfully")
  const NothingToDelete := Response(404, "No autoresponder to delete")
  const AutoresponderDeleted := Response(200, "Autoresponder deleted successfully")

  /** A date field of the request: absent (or null), or a string that the
      date parser either turns into an instant or rejects. */
  datatype DateParam = Absent | Parsed(at: Timestamp) | Unparseable

  /** The constraints of UpdateAutoresponderDTO: a subject of 1..255
      characters and a non-blank body. */
  predicate Accepted(subject: Option<string>, body: Option<string>) {
    NotBlank(subject) && |subject.value| <= 255 && NotBlank(body)
  }

  /** A nullable instant as a JSON value; the text format of the date is not
      modelled, the instant stands for it. */
  function DateValue(d: Option<Timestamp>): (v: Value)
    ensures d.None? <==> v == Null
  {
    if d.Some? then Int(d.value) else Null
  }

  /** The `{active, subject, body, start_date, end_date}` snapshot. */
  function AutoresponderSnapshot(a: Autoresponder): Snapshot {
    map["active" := Bool(a.active), "subject" := Str(a.subject), "body" := Str(a.body),
        "start_date" := DateValue(a.startDate), "end_date" := DateValue(a.endDate)]
  }

  /** The `{footer_text}` snapshot. */
  function FooterSnapshot(footer: Option<string>): Snapshot {
    map["footer_text" := MailboxController.Nullable(footer)]
  }

  /** A footer snapshot gives back the footer it was taken of. */
  lemma FooterSnapshotRoundTrip(footer: Option<string>)
    ensures var v := FooterSnapshot(footer)["footer_text"];
            (if v.Str? then Some(v.s) else None) == footer
  {
  }

  // ---------------------------------------------------------------------
  // footer

  /** `getFooter`. */
  method GetFooter(st: Persistence.Store, actor: Principal) returns (resp: Response, footer: Option<string>)
    requires st.Valid() && st.Holds(actor)
    ensures actor.UserPrincipal? ==> resp == NotAMailbox && footer == None
    ensures actor.MailboxPrincipal? ==> resp == FooterShown && footer == st.mailboxes[actor.mailbox.id].footerText
  {
    if !actor.MailboxPrincipal? {
      return NotAMailbox, None;
    }
    resp, footer := FooterShown, actor.mailbox.footerText;
  }

  /** `updateFooter`: the footer becomes the supplied text, or null when the
      key is absent or null; one record with the old and new footer. */
  method UpdateFooter(st: Persistence.Store, actor: Principal, footer: Option<string>, now: Timestamp, req: Request)
    returns (resp: Response)
    requires st.Valid() && st.Holds(actor)
    modifies st`mailboxes, st`auditLogs
    ensures st.Valid()
    ensures if actor.UserPrincipal? then
              resp == NotAMailbox && st.mailboxes == old(st.mailboxes) && st.auditLogs == old(st.auditLogs)
            else
              var m := actor.mailbox;
              && resp == FooterShown
              && st.mailboxes == old(st.mailboxes)[m.id := m.(footerText := footer)]
              && st.auditLogs == old(st.auditLogs) + [Entry("mailbox.footer_updated", "mailbox", Some(m.id), Some(actor), now,
                                                            Some(req), Some(FooterSnapshot(m.footerText)),
                                                            Some(FooterSnapshot(footer)), "success")]
  {
    if !actor.MailboxPrincipal? {
      return NotAMailbox;
    }

    var mailbox := actor.mailbox;
    var oldFooter := mailbox.footerText;
    mailbox := mailbox.(footerText := footer);
    st.PutMailbox(mailbox);

    Log(st, "mailbox.footer_updated", "mailbox", Some(mailbox.id), Some(actor), now, Some(req),
        Some(FooterSnapshot(oldFooter)), Some(FooterSnapshot(mailbox.footerText)), "success");
    resp := FooterShown;
  }

  // ---------------------------------------------------------------------
  // autoresponder

  /** `getAutoresponder`. */
  method GetAutoresponder(st: Persistence.Store, actor: Principal) returns (resp: Response, a: Option<Autoresponder>)
    requires st.Valid() && st.Holds(actor)
    ensures actor.UserPrincipal? ==> resp == NotAMailbox && a == None
    ensures actor.MailboxPrincipal? && actor.mailbox.id !in st.autoresponders ==> resp == NoneConfigured && a == None
    ensures actor.MailboxPrincipal? && actor.mailbox.id in st.autoresponders ==>
              resp == AutoresponderShown && a == Some(st.autoresponders[actor.mailbox.id])
  {
    if !actor.MailboxPrincipal? {
      return NotAMailbox, None;
    }
    if actor.mailbox.id !in st.autoresponders {
      return NoneConfigured, None;
    }
    resp, a := AutoresponderShown, Some(st.autoresponders[actor.mailbox.id]);
  }

  /** A new `MailboxAutoresponder`: inactive, empty, no dates. */
  function Fresh(mailboxId: int): (a: Autoresponder)
    ensures a.mailboxId == mailboxId && !a.active && a.startDate.None? && a.endDate.None?
  {
    Autoresponder(mailboxId, false, "", "", None, None)
  }

  /** The row after a successful `updateAutoresponder`: the existing row or a
      fresh one, with subject and body overwritten, the flag and each date
      replaced only when supplied. */
  function Upserted(existing: Option<Autoresponder>, mailboxId: int, subject: string, body: string,
                    active: Option<bool>, start: DateParam, end: DateParam): (r: Autoresponder)
    requires existing.Some? ==> existing.value.mailboxId == mailboxId
    requires !start.Unparseable? && !end.Unparseable?
    ensures r.mailboxId == mailboxId && r.subject == subject && r.body == body
    ensures r.active == (if active.Some? then active.value else existing.Some? && existing.value.active)
    ensures r.startDate == (if start.Parsed? then Some(start.at) else if existing.Some? then existing.value.startDate else None)
    ensures r.endDate == (if end.Parsed? then Some(end.at) else if existing.Some? then existing.value.endDate else None)
  {
    var base := if existing.Some? then existing.value else Fresh(mailboxId);
    base.(subject := subject, body := body,
          active := if active.Some? then active.value else base.active,
          startDate := if start.Parsed? then Some(start.at) else base.startDate,
          endDate := if end.Parsed? then Some(end.at) else base.endDate)
  }

  /** Repeating the same request changes nothing more: the upsert is idempotent. */
  lemma UpsertIdempotent(existing: Option<Autoresponder>, mailboxId: int, subject: string, body: string,
                         active: Option<bool>, start: DateParam, end: DateParam)
    requires existing.Some? ==> existing.value.mailboxId == mailboxId
    requires !start.Unparseable? && !end.Unparseable?
    ensures var once := Upserted(existing, mailboxId, subject, body, active, start, end);
            Upserted(Some(once), mailboxId, subject, body, active, start, end) == once
  {
  }

  /** An upsert without dates keeps the dates the row had. */
  lemma UpsertWithoutDatesKeepsSchedule(a: Autoresponder, subject: string, body: string, active: Option<bool>)
    ensures var r := Upserted(Some(a), a.mailboxId, subject, body, active, Absent, Absent);
            r.startDate == a.startDate && r.endDate == a.endDate
  {
  }

  /** The setters of `updateAutoresponder` on the existing row or a fresh
      one: subject and body, `active` when supplied, then each date when
      supplied; an unparseable date stops at that date with its 400. */
  method SetFields(existing: Option<Autoresponder>, mailboxId: int, subject: string, body: string,
                   active: Option<bool>, start: DateParam, end: DateParam)
    returns (autoresponder: Autoresponder, failure: Option<Response>)
    requires existing.Some? ==> existing.value.mailboxId == mailboxId
    ensures failure == (if start.Unparseable? then Some(InvalidStartDate)
                        else if end.Unparseable? then Some(InvalidEndDate) else None)
    ensures failure.None? ==> autoresponder == Upserted(existing, mailboxId, subject, body, active, start, end)
    ensures autoresponder.mailboxId == mailboxId
  {
    autoresponder := if existing.None? then Fresh(mailboxId) else existing.value;
    autoresponder := autoresponder.(subject := subject, body := body);
    if active.Some? {
      autoresponder := autoresponder.(active := active.value);
    }
    match start {
      case Absent =>
      case Parsed(at) => autoresponder := autoresponder.(startDate := Some(at));
      case Unparseable => return autoresponder, Some(InvalidStartDate);
    }
    match end {
      case Absent =>
      case Parsed(at) => autoresponder := autoresponder.(endDate := Some(at));
      case Unparseable => return autoresponder, Some(InvalidEndDate);
    }
    failure := None;
  }

  /** `updateAutoresponder`: 403, then validation, then an unparseable start
      date, then an unparseable end date; every refusal leaves the store as
      it was, since nothing is flushed before it. On success the row is
      upserted and one record is appended: `autoresponder.created` with no
      old snapshot for a new row, `autoresponder.updated` otherwise. */
  method UpdateAutoresponder(st: Persistence.Store, actor: Principal, subject: Option<string>, body: Option<string>,
                             active: Option<bool>, start: DateParam, end: DateParam, now: Timestamp, req: Request)
    returns (resp: Response)
    requires st.Valid() && st.Holds(actor)
    modifies st`autoresponders, st`auditLogs
    ensures st.Valid()
    ensures if actor.UserPrincipal? || !Accepted(subject, body) || start.Unparseable? || end.Unparseable? then
              && resp == (if actor.UserPrincipal? then NotAMailbox
                          else if !Accepted(subject, body) then ValidationFailed
                          else if start.Unparseable? then InvalidStartDate
                          else InvalidEndDate)
              && st.autoresponders == old(st.autoresponders) && st.auditLogs == old(st.auditLogs)
            else
              var id := actor.mailbox.id;
              var existing := if id in old(st.autoresponders) then Some(old(st.autoresponders)[id]) else None;
              var r := Upserted(existing, id, subject.value, body.value, active, start, end);
              && resp == AutoresponderUpdated
              && st.autoresponders == old(st.autoresponders)[id := r]
              && st.auditLogs == old(st.auditLogs) + [Entry(if existing.None? then "autoresponder.created" else "autoresponder.updated",
                                                            "autoresponder", Some(id), Some(actor), now, Some(req),
                                                            if existing.None? then None else Some(AutoresponderSnapshot(existing.value)),
                                                            Some(AutoresponderSnapshot(r)), "success")]
  {
    if !actor.MailboxPrincipal? {
      return NotAMailbox;
    }
    if !Accepted(subject, body) {
      return ValidationFailed;
    }

    var id := actor.mailbox.id;
    var isNew := id !in st.autoresponders;
    var existing := if isNew then None else Some(st.autoresponders[id]);
    var oldValue := if isNew then None else Some(AutoresponderSnapshot(existing.value));
    var autoresponder, failure := SetFields(existing, id, subject.value, body.value, active, start, end);
    if failure.Some? {
      return failure.value;
    }

    st.PutAutoresponder(autoresponder);

    Log(st, if isNew then "autoresponder.created" else "autoresponder.updated", "autoresponder", Some(id),
        Some(actor), now, Some(req), oldValue, Some(AutoresponderSnapshot(autoresponder)), "success");
    resp := AutoresponderUpdated;
  }

  /** `deleteAutoresponder`: 403, then 404 when there is none; otherwise the
      row goes and one record keeps its former state under the mailbox's id. */
  method DeleteAutoresponder(st: Persistence.Store, actor: Principal, now: Timestamp, req: Request)
    returns (resp: Response)
    requires st.Valid() && st.Holds(actor)
    modifies st`autoresponders, st`auditLogs
    ensures st.Valid()
    ensures if actor.UserPrincipal? || actor.mailbox.id !in old(st.autoresponders) then
              && resp == (if actor.UserPrincipal? then NotAMailbox else NothingToDelete)
              && st.autoresponders == old(st.autoresponders) && st.auditLogs == old(st.auditLogs)
            else
              var id := actor.mailbox.id;
              && resp == AutoresponderDeleted
              && st.autoresponders == old(st.autoresponders) - {id}
              && st.auditLogs == old(st.auditLogs) + [Entry("autoresponder.deleted", "autoresponder", Some(id), Some(actor),
                                                            now, Some(req), Some(AutoresponderSnapshot(old(st.autoresponders)[id])),
                                                            None, "success")]
  {
    if !actor.MailboxPrincipal? {
      return NotAMailbox;
    }
    var id := actor.mailbox.id;
    if id !in st.autoresponders {
      return NothingToDelete;
    }

    var oldValue := AutoresponderSnapshot(st.autoresponders[id]);
    st.autoresponders := st.autoresponders - {id};

    Log(st, "autoresponder.deleted", "autoresponder", Some(id), Some(actor), now, Some(req),
        Some(oldValue), None, "success");
    resp := AutoresponderDeleted;
  }
}
